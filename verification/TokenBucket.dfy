/**
 The in-memory rate limiter: a token bucket per key, and a cleanup that forgets idle buckets. Times are nanoseconds.
 */
module TokenBucket {
  import opened Common

  const IDLE_LIMIT: int := 2 * 60 * 60 * 1_000_000_000

  datatype Bucket = Bucket(tokens: int, lastRefill: int, lastAccessed: int)

  datatype Answer = Answer(allowed: bool, remaining: int, resetAt: int, retryAfter: int)

  /** Tokens earned, as the integer part of elapsed * (limit / window). */
  function Earned(p: Policy, elapsed: int): int
    requires PolicyOk(p)
  {
    elapsed * p.limit / p.window
  }

  function Refilled(b: Option<Bucket>, p: Policy, now: int): Bucket
    requires PolicyOk(p)
  {
    match b
    case None => Bucket(p.limit, now, now)
    case Some(bucket) =>
      var earned := Earned(p, now - bucket.lastRefill);
      if earned > 0 then Bucket(if bucket.tokens + earned > p.limit then p.limit else bucket.tokens + earned, now, now)
      else bucket.(lastAccessed := now)
  }

  function Check(b: Option<Bucket>, p: Policy, now: int): (Bucket, Answer)
    requires PolicyOk(p)
  {
    var r := Refilled(b, p, now);
    if r.tokens > 0 then (r.(tokens := r.tokens - 1), Answer(true, r.tokens - 1, now + p.window, 0))
    else (r, Answer(false, 0, now + p.window / p.limit, p.window / p.limit))
  }

  // ------------------------------------------------------------------ runs of one key

  predicate Ordered(times: seq<int>) {
    forall i, j :: 0 <= i < j < |times| ==> times[i] <= times[j]
  }

  function After(b: Option<Bucket>, p: Policy, times: seq<int>): Option<Bucket>
    requires PolicyOk(p)
    decreases |times|
  {
    if times == [] then b else After(Some(Check(b, p, times[0]).0), p, times[1..])
  }

  function Admitted(b: Option<Bucket>, p: Policy, times: seq<int>): nat
    requires PolicyOk(p)
    decreases |times|
  {
    if times == [] then 0
    else (if Check(b, p, times[0]).1.allowed then 1 else 0) + Admitted(Some(Check(b, p, times[0]).0), p, times[1..])
  }

  /** A bucket as any run leaves it by the instant `now`. */
  predicate BucketOk(b: Option<Bucket>, p: Policy, now: int) {
    b.Some? ==> 0 <= b.value.tokens <= p.limit && b.value.lastRefill <= b.value.lastAccessed <= now
  }

  lemma EarnedBounds(p: Policy, elapsed: int)
    requires PolicyOk(p)
    ensures Earned(p, elapsed) * p.window <= elapsed * p.limit < (Earned(p, elapsed) + 1) * p.window
  {
    var x := elapsed * p.limit;
    assert x == x / p.window * p.window + x % p.window;
    assert (Earned(p, elapsed) + 1) * p.window == Earned(p, elapsed) * p.window + p.window;
  }

  lemma CheckKeepsBucket(b: Option<Bucket>, p: Policy, now: int)
    requires PolicyOk(p) && BucketOk(b, p, now)
    ensures BucketOk(Some(Check(b, p, now).0), p, now)
  {
  }

  lemma {:induction false} AfterKeepsBucket(b: Option<Bucket>, p: Policy, times: seq<int>, now: int)
    requires PolicyOk(p) && Ordered(times + [now]) && BucketOk(b, p, (times + [now])[0])
    ensures BucketOk(After(b, p, times), p, now)
    decreases |times|
  {
    if times != [] {
      CheckKeepsBucket(b, p, times[0]);
      assert (times + [now])[1..] == times[1..] + [now];
      AfterKeepsBucket(Some(Check(b, p, times[0]).0), p, times[1..], now);
    }
  }

  lemma RefillPays(b: Bucket, p: Policy, now: int)
    requires PolicyOk(p) && BucketOk(Some(b), p, now)
    ensures var r := Refilled(Some(b), p, now);
            r.tokens * p.window + p.limit * (now - r.lastRefill) <= b.tokens * p.window + p.limit * (now - b.lastRefill)
  {
    var earned := Earned(p, now - b.lastRefill);
    EarnedBounds(p, now - b.lastRefill);
    var r := Refilled(Some(b), p, now);
    if earned > 0 {
      TimesKeepsOrder(r.tokens, b.tokens + earned, p.window);
      assert (b.tokens + earned) * p.window == b.tokens * p.window + earned * p.window;
      assert p.limit * (now - r.lastRefill) == 0;
    }
  }

  /** One check pays for what it admits out of the tokens and the time that passed. */
  lemma CheckPays(b: Bucket, p: Policy, now: int)
    requires PolicyOk(p) && BucketOk(Some(b), p, now)
    ensures var (b', a) := Check(Some(b), p, now);
            (if a.allowed then 1 else 0) * p.window + b'.tokens * p.window + p.limit * (now - b'.lastRefill)
            <= b.tokens * p.window + p.limit * (now - b.lastRefill)
  {
    RefillPays(b, p, now);
    var tokens := Refilled(Some(b), p, now).tokens;
    assert (tokens - 1) * p.window == tokens * p.window - p.window;
  }

  lemma PaymentsAddUp(p: Policy, one: nat, later: nat, tokens': int, refill': int, tokens: int, refill: int,
                      now: int, last: int)
    requires one * p.window + tokens' * p.window + p.limit * (now - refill')
          <= tokens * p.window + p.limit * (now - refill)
    requires later * p.window <= tokens' * p.window + p.limit * (last - refill')
    ensures (one + later) * p.window <= tokens * p.window + p.limit * (last - refill)
  {
    assert (one + later) * p.window == one * p.window + later * p.window;
    assert p.limit * (last - refill') == p.limit * (last - now) + p.limit * (now - refill');
    assert p.limit * (last - refill) == p.limit * (last - now) + p.limit * (now - refill);
  }

  /** The tokens at hand and the time until the last call pay for every admission. */
  lemma {:induction false} RunPays(b: Bucket, p: Policy, times: seq<int>)
    requires PolicyOk(p) && times != [] && Ordered(times) && BucketOk(Some(b), p, times[0])
    ensures var last := times[|times| - 1];
            Admitted(Some(b), p, times) * p.window <= b.tokens * p.window + p.limit * (last - b.lastRefill)
    decreases |times|
  {
    var (b', a) := Check(Some(b), p, times[0]);
    var rest := times[1..];
    var last := times[|times| - 1];
    CheckPays(b, p, times[0]);
    CheckKeepsBucket(Some(b), p, times[0]);
    if rest != [] {
      RunPays(b', p, rest);
    } else {
      TimesKeepsOrder(0, b'.tokens, p.window);
      TimesKeepsOrder(0, last - b'.lastRefill, p.limit);
    }
    PaymentsAddUp(p, if a.allowed then 1 else 0, Admitted(Some(b'), p, rest), b'.tokens, b'.lastRefill,
                  b.tokens, b.lastRefill, times[0], last);
  }

  /**
   For any run of calls, starting from any bucket: with A admissions over time T,
   A * window < (limit + 1) * window + limit * T.
   */
  lemma AdmissionBound(b: Option<Bucket>, p: Policy, times: seq<int>)
    requires PolicyOk(p) && times != [] && Ordered(times) && BucketOk(b, p, times[0])
    ensures Admitted(b, p, times) * p.window < (p.limit + 1) * p.window + p.limit * (times[|times| - 1] - times[0])
  {
    var t, last := times[0], times[|times| - 1];
    var start := if b.Some? then b.value else Bucket(p.limit, t, t);
    if b.None? { NewBucketIsFull(p, times); }
    var earned := Earned(p, t - start.lastRefill);
    EarnedBounds(p, t - start.lastRefill);
    assert (p.limit + 1) * p.window == p.limit * p.window + p.window;
    if earned > 0 {
      // the first call refills: the run goes as from the refilled bucket
      var r := Refilled(Some(start), p, t);
      RefillFirst(start, p, times);
      RunPays(r, p, times);
      TimesKeepsOrder(r.tokens, p.limit, p.window);
    } else {
      RunPays(start, p, times);
      TimesKeepsOrder(start.tokens, p.limit, p.window);
      TimesKeepsOrder(earned + 1, 1, p.window);
      assert p.limit * (last - start.lastRefill) == p.limit * (last - t) + (t - start.lastRefill) * p.limit;
    }
  }

  lemma NewBucketIsFull(p: Policy, times: seq<int>)
    requires PolicyOk(p) && times != []
    ensures Admitted(None, p, times) == Admitted(Some(Bucket(p.limit, times[0], times[0])), p, times)
  {
    assert Earned(p, 0) == 0;
  }

  lemma RefillTwice(b: Bucket, p: Policy, now: int)
    requires PolicyOk(p)
    ensures Refilled(Some(Refilled(Some(b), p, now)), p, now) == Refilled(Some(b), p, now)
  {
    assert Earned(p, 0) == 0;
  }

  lemma RefillFirst(b: Bucket, p: Policy, times: seq<int>)
    requires PolicyOk(p) && times != []
    ensures Admitted(Some(b), p, times) == Admitted(Some(Refilled(Some(b), p, times[0])), p, times)
  {
    RefillTwice(b, p, times[0]);
    assert Check(Some(b), p, times[0]) == Check(Some(Refilled(Some(b), p, times[0])), p, times[0]);
  }

  lemma AtMostTwo(p: Policy, admitted: int, time: int)
    requires PolicyOk(p) && time <= p.window && admitted * p.window < (p.limit + 1) * p.window + p.limit * time
    ensures admitted <= 2 * p.limit
  {
    TimesKeepsOrder(time, p.window, p.limit);
    assert (p.limit + 1) * p.window + p.limit * p.window == (2 * p.limit + 1) * p.window;
    if admitted >= 2 * p.limit + 1 { TimesKeepsOrder(2 * p.limit + 1, admitted, p.window); }
  }

  lemma OrderedParts(before: seq<int>, span: seq<int>)
    requires span != [] && Ordered(before + span)
    ensures Ordered(before + [span[0]]) && Ordered(span)
  {
    assert before + [span[0]] == (before + span)[..|before| + 1];
    forall i, j | 0 <= i < j < |span| ensures span[i] <= span[j] {
      assert (before + span)[|before| + i] <= (before + span)[|before| + j];
    }
  }

  lemma SpanBound(b: Option<Bucket>, p: Policy, span: seq<int>)
    requires PolicyOk(p) && span != [] && Ordered(span) && BucketOk(b, p, span[0])
    requires span[|span| - 1] - span[0] <= p.window
    ensures Admitted(b, p, span) <= 2 * p.limit
  {
    AdmissionBound(b, p, span);
    AtMostTwo(p, Admitted(b, p, span), span[|span| - 1] - span[0]);
  }

  /** At most twice the limit is admitted within any window, wherever in a run it lies. */
  lemma AtMostTwiceTheLimit(p: Policy, before: seq<int>, span: seq<int>)
    requires PolicyOk(p) && span != [] && Ordered(before + span) && span[|span| - 1] - span[0] <= p.window
    ensures Admitted(After(None, p, before), p, span) <= 2 * p.limit
  {
    OrderedParts(before, span);
    AfterKeepsBucket(None, p, before, span[0]);
    SpanBound(After(None, p, before), p, span);
  }

  // ------------------------------------------------------------------ the bound is reached

  function Repeat(t: int, n: nat): seq<int> {
    if n == 0 then [] else [t] + Repeat(t, n - 1)
  }

  lemma {:induction false} Burst(b: Bucket, p: Policy, t: int, n: nat, rest: seq<int>)
    requires PolicyOk(p) && b.lastRefill == t && n <= b.tokens
    ensures var b' := Bucket(b.tokens - n, t, if n == 0 then b.lastAccessed else t);
            && Admitted(Some(b), p, Repeat(t, n) + rest) == n + Admitted(Some(b'), p, rest)
            && After(Some(b), p, Repeat(t, n)) == Some(b')
    decreases n
  {
    if n == 0 {
      assert Repeat(t, 0) + rest == rest;
    } else {
      assert Check(Some(b), p, t).0 == Bucket(b.tokens - 1, t, t) && Check(Some(b), p, t).1.allowed by {
        assert Earned(p, 0) == 0;
      }
      assert (Repeat(t, n) + rest)[1..] == Repeat(t, n - 1) + rest;
      assert Repeat(t, n)[1..] == Repeat(t, n - 1);
      Burst(Bucket(b.tokens - 1, t, t), p, t, n - 1, rest);
    }
  }

  lemma WholeWindowEarnsLimit(p: Policy, elapsed: int)
    requires PolicyOk(p)
    ensures Earned(p, elapsed) >= p.limit <==> elapsed >= p.window
  {
    EarnedBounds(p, elapsed);
    var e := Earned(p, elapsed);
    assert (elapsed + 1) * p.limit == elapsed * p.limit + p.limit;
    if elapsed >= p.window {
      TimesKeepsOrder(p.window, elapsed, p.limit);
      if e < p.limit { TimesKeepsOrder(e + 1, p.limit, p.window); }
    } else if e >= p.limit {
      TimesKeepsOrder(p.limit, e, p.window);
      TimesKeepsOrder(elapsed + 1, p.window, p.limit);
    }
  }

  /** Twice the limit is admitted when a full bucket is emptied at the start and again at the end of a window. */
  lemma TwiceTheLimitIsReached(p: Policy)
    requires PolicyOk(p)
    ensures var times := Repeat(0, p.limit) + Repeat(p.window, p.limit);
            Admitted(None, p, times) == 2 * p.limit
  {
    var second := Repeat(p.window, p.limit);
    var times := Repeat(0, p.limit) + second;
    NewBucketIsFull(p, times);
    Burst(Bucket(p.limit, 0, 0), p, 0, p.limit, second);
    var drained := Bucket(0, 0, 0);
    WholeWindowEarnsLimit(p, p.window);
    RefillFirst(drained, p, second);
    Burst(Bucket(p.limit, p.window, p.window), p, p.window, p.limit, []);
    assert second + [] == second;
  }

  // ------------------------------------------------------------------ every earned token is given out

  function Least(a: int, b: int): int { if a <= b then a else b }

  lemma RefilledTokens(b: Bucket, p: Policy, now: int)
    requires PolicyOk(p) && BucketOk(Some(b), p, now)
    ensures 0 <= Earned(p, now - b.lastRefill)
    ensures Refilled(Some(b), p, now).tokens == Least(p.limit, b.tokens + Earned(p, now - b.lastRefill))
  {
    var earned := Earned(p, now - b.lastRefill);
    EarnedBounds(p, now - b.lastRefill);
    TimesKeepsOrder(0, now - b.lastRefill, p.limit);
    if earned < 0 { TimesKeepsOrder(earned + 1, 0, p.window); }
  }

  /** One call takes one of the tokens at hand, and a second refill at the same instant adds none. */
  lemma TakeOne(b: Bucket, p: Policy, now: int)
    requires PolicyOk(p) && BucketOk(Some(b), p, now)
    ensures var tokens, (b', a) := Refilled(Some(b), p, now).tokens, Check(Some(b), p, now);
            && (a.allowed <==> tokens > 0)
            && Refilled(Some(b'), p, now).tokens == (if tokens > 0 then tokens - 1 else 0)
            && a.remaining == (if tokens > 0 then tokens - 1 else 0)
  {
    assert Earned(p, 0) == 0;
    RefilledTokens(b, p, now);
  }

  lemma {:induction false} BurstTakesTokens(b: Bucket, p: Policy, now: int, n: nat)
    requires PolicyOk(p) && BucketOk(Some(b), p, now)
    ensures Admitted(Some(b), p, Repeat(now, n)) == Least(n, Refilled(Some(b), p, now).tokens)
    decreases n
  {
    RefilledTokens(b, p, now);
    if n > 0 {
      TakeOne(b, p, now);
      CheckKeepsBucket(Some(b), p, now);
      assert Repeat(now, n)[1..] == Repeat(now, n - 1);
      BurstTakesTokens(Check(Some(b), p, now).0, p, now, n - 1);
    }
  }

  /** How many of n calls at one instant are admitted. */
  function OfBurst(b: Bucket, p: Policy, now: int, n: nat): nat
    requires PolicyOk(p)
  {
    Admitted(Some(b), p, Repeat(now, n))
  }

  /** At `limit` tokens in a window, so many are earned in this time. */
  predicate EarnedIn(p: Policy, tokens: int, elapsed: int) {
    tokens * p.window <= elapsed * p.limit
  }

  lemma EnoughEarned(p: Policy, missing: int, elapsed: int)
    requires PolicyOk(p)
    ensures missing <= Earned(p, elapsed) <==> EarnedIn(p, missing, elapsed)
  {
    EarnedBounds(p, elapsed);
    if missing <= Earned(p, elapsed) {
      TimesKeepsOrder(missing, Earned(p, elapsed), p.window);
    } else {
      TimesKeepsOrder(Earned(p, elapsed) + 1, missing, p.window);
    }
  }

  /**
   A burst of calls at one instant: the k-th is admitted exactly if the limit allows k and what is missing to k tokens
   has been earned since the last refill.
   */
  lemma BurstIsExact(b: Bucket, p: Policy, now: int, n: nat, k: int)
    requires PolicyOk(p) && BucketOk(Some(b), p, now) && 0 < k
    ensures k <= OfBurst(b, p, now, n)
            <==> k <= n && k <= p.limit && EarnedIn(p, k - b.tokens, now - b.lastRefill)
  {
    BurstTakesEarned(b, p, now, n);
    EnoughForAll(p, OfBurst(b, p, now, n), n, k, b.tokens, now - b.lastRefill);
  }

  lemma EnoughForAll(p: Policy, admitted: int, n: int, k: int, tokens: int, elapsed: int)
    requires PolicyOk(p) && admitted == Least(n, Least(p.limit, tokens + Earned(p, elapsed)))
    ensures k <= admitted <==> k <= n && k <= p.limit && EarnedIn(p, k - tokens, elapsed)
  {
    EnoughEarned(p, k - tokens, elapsed);
  }

  lemma BurstTakesEarned(b: Bucket, p: Policy, now: int, n: nat)
    requires PolicyOk(p) && BucketOk(Some(b), p, now)
    ensures OfBurst(b, p, now, n) == Least(n, Least(p.limit, b.tokens + Earned(p, now - b.lastRefill)))
  {
    BurstTakesTokens(b, p, now, n);
    RefilledTokens(b, p, now);
  }

  lemma NewBucketTells(p: Policy, now: int)
    requires PolicyOk(p)
    ensures var (b', a) := Check(None, p, now); Refilled(Some(b'), p, now).tokens == a.remaining
  {
    assert Earned(p, 0) == 0;
  }

  /** The announced `remaining` is the number of further calls admitted at the same instant. */
  lemma RemainingIsTrue(b: Option<Bucket>, p: Policy, now: int, n: nat)
    requires PolicyOk(p) && BucketOk(b, p, now)
    ensures var (b', a) := Check(b, p, now); Admitted(Some(b'), p, Repeat(now, n)) == Least(n, a.remaining)
  {
    var b', a := Check(b, p, now).0, Check(b, p, now).1;
    assert Refilled(Some(b'), p, now).tokens == a.remaining by {
      if b.Some? { TakeOne(b.value, p, now); } else { NewBucketTells(p, now); }
    }
    CheckKeepsBucket(b, p, now);
    BurstTakesTokens(b', p, now, n);
  }

  /** Tokens at hand are never lost but to admitted calls. */
  lemma {:induction false} TokensLast(b: Bucket, p: Policy, times: seq<int>)
    requires PolicyOk(p) && Ordered(times) && (times != [] ==> BucketOk(Some(b), p, times[0]))
    ensures var b' := After(Some(b), p, times);
            b'.Some? && b'.value.tokens >= Least(b.tokens, p.limit) - Admitted(Some(b), p, times)
    ensures |times| <= b.tokens ==> Admitted(Some(b), p, times) == |times|
    decreases |times|
  {
    if times != [] {
      RefilledTokens(b, p, times[0]);
      CheckKeepsBucket(Some(b), p, times[0]);
      TokensLast(Check(Some(b), p, times[0]).0, p, times[1..]);
    }
  }

  /** A key that was called no more than `limit` times is never denied. */
  lemma FewCallsAreNeverDenied(p: Policy, times: seq<int>)
    requires PolicyOk(p) && Ordered(times) && |times| <= p.limit
    ensures Admitted(None, p, times) == |times|
  {
    if times != [] {
      NewBucketIsFull(p, times);
      TokensLast(Bucket(p.limit, times[0], times[0]), p, times);
    }
  }

  // ------------------------------------------------------------------ progress

  /** A denial leaves no token and an unmoved refill time. */
  lemma DenialLeaves(b: Option<Bucket>, p: Policy, now: int)
    requires PolicyOk(p) && BucketOk(b, p, now) && !Check(b, p, now).1.allowed
    ensures b.Some? && Check(b, p, now).0.tokens == 0 && Check(b, p, now).0.lastRefill == b.value.lastRefill
  {
  }

  /**
   However often a denied client polls, it is let in by the time window / limit has passed since its denial:
   denied calls never move the refill time.
   */
  lemma {:induction false} PollingIsNotPunished(b: Bucket, p: Policy, denied: int, polls: seq<int>)
    requires PolicyOk(p) && polls != []
    requires b.tokens == 0 && b.lastRefill <= denied
    requires (polls[|polls| - 1] - denied) * p.limit >= p.window
    ensures Admitted(Some(b), p, polls) >= 1
    decreases |polls|
  {
    var (b', a) := Check(Some(b), p, polls[0]);
    if |polls| == 1 {
      EarnedBounds(p, polls[0] - b.lastRefill);
      TimesKeepsOrder(polls[0] - denied, polls[0] - b.lastRefill, p.limit);
      var earned := Earned(p, polls[0] - b.lastRefill);
      if earned <= 0 { TimesKeepsOrder(earned + 1, 1, p.window); }
    } else if !a.allowed {
      PollingIsNotPunished(b', p, denied, polls[1..]);
    }
  }

  /** Denied at `now`: some poll is admitted once window / limit has passed, wherever the refill time stood. */
  lemma DeniedClientIsLetIn(b: Option<Bucket>, p: Policy, now: int, polls: seq<int>)
    requires PolicyOk(p) && BucketOk(b, p, now) && !Check(b, p, now).1.allowed
    requires polls != [] && (polls[|polls| - 1] - now) * p.limit >= p.window
    ensures Admitted(Some(Check(b, p, now).0), p, polls) >= 1
  {
    DenialLeaves(b, p, now);
    PollingIsNotPunished(Check(b, p, now).0, p, now, polls);
  }

  /** Waiting exactly the announced time is enough for every denied client just when the limit divides the window. */
  lemma RetryAfterIsHonoured(p: Policy)
    requires PolicyOk(p)
    ensures p.window % p.limit == 0
            <==> forall b, now :: BucketOk(b, p, now) && !Check(b, p, now).1.allowed ==> LetInAfterRetry(b, p, now)
  {
    var wait := p.window / p.limit;
    assert p.window == wait * p.limit + p.window % p.limit;
    if p.window % p.limit == 0 {
      forall b, now | BucketOk(b, p, now) && !Check(b, p, now).1.allowed ensures LetInAfterRetry(b, p, now) {
        DeniedClientIsLetIn(b, p, now, [now + wait]);
      }
    } else {
      var b := Some(Bucket(0, 0, 0));
      assert Earned(p, 0) == 0;
      assert BucketOk(b, p, 0) && !Check(b, p, 0).1.allowed;
      EarnedBounds(p, wait);
      if Earned(p, wait) > 0 { TimesKeepsOrder(1, Earned(p, wait), p.window); }
      assert !LetInAfterRetry(b, p, 0);
    }
  }

  /** No shorter wait is enough for every denied client: one whose last token was just taken is denied until then. */
  lemma RetryAfterIsLeast(p: Policy, now: int, wait: int)
    requires PolicyOk(p) && 0 <= wait
    ensures var (b, a) := Check(Some(Bucket(0, now, now)), p, now);
            && !a.allowed
            && (wait < a.retryAfter ==> !Check(Some(b), p, now + wait).1.allowed)
  {
    assert Earned(p, 0) == 0;
    EarnedBounds(p, wait);
    var retry := p.window / p.limit;
    assert p.window == retry * p.limit + p.window % p.limit;
    if wait < retry {
      TimesKeepsOrder(wait + 1, retry, p.limit);
      assert (wait + 1) * p.limit == wait * p.limit + p.limit;
      if Earned(p, wait) > 0 { TimesKeepsOrder(1, Earned(p, wait), p.window); }
    }
  }

  /** A denial announces the reset for when its wait is over; an admission announces no wait. */
  lemma WaitLeadsToReset(b: Option<Bucket>, p: Policy, now: int)
    requires PolicyOk(p)
    ensures var a := Check(b, p, now).1;
            if a.allowed then a.retryAfter == 0 else a.resetAt == now + a.retryAfter && a.remaining == 0
  {
  }

  /** By the reset time announced with an admission the bucket is full again, however empty it was. */
  lemma ResetMeansFull(b: Option<Bucket>, p: Policy, now: int, later: int)
    requires PolicyOk(p) && BucketOk(b, p, now) && Check(b, p, now).1.allowed && later >= Check(b, p, now).1.resetAt
    ensures Check(Some(Check(b, p, now).0), p, later) == Check(None, p, later)
  {
    WholeWindowEarnsLimit(p, later - Check(b, p, now).0.lastRefill);
  }

  /** And for one whose last token it was, not before. */
  lemma ResetIsNeeded(p: Policy, now: int, later: int)
    requires PolicyOk(p) && now <= later
    ensures var (b, a) := Check(Some(Bucket(1, now, now)), p, now);
            && a.allowed
            && (Refilled(Some(b), p, later).tokens == p.limit <==> later >= a.resetAt)
  {
    assert Earned(p, 0) == 0;
    WholeWindowEarnsLimit(p, later - now);
    RefilledTokens(Bucket(0, now, now), p, later);
  }

  predicate LetInAfterRetry(b: Option<Bucket>, p: Policy, now: int)
    requires PolicyOk(p)
  {
    var (b', a) := Check(b, p, now);
    Check(Some(b'), p, now + a.retryAfter).1.allowed
  }

  // ------------------------------------------------------------------ eviction

  /** A call on a key, or a cleanup pass, at an instant. */
  datatype Event = Call(key: string, at: int) | Cleanup(at: int)

  type Buckets = map<string, Bucket>

  function Lookup(m: Buckets, key: string): Option<Bucket> {
    if key in m then Some(m[key]) else None
  }

  function AnswerOf(m: Buckets, p: Policy, key: string, now: int): Answer
    requires PolicyOk(p)
  {
    Check(Lookup(m, key), p, now).1
  }

  function AfterCall(m: Buckets, p: Policy, key: string, now: int): Buckets
    requires PolicyOk(p)
  {
    m[key := Check(Lookup(m, key), p, now).0]
  }

  function AfterCleanup(m: Buckets, now: int): Buckets {
    map key | key in m && now - m[key].lastAccessed <= IDLE_LIMIT :: m[key]
  }

  function AfterEvent(m: Buckets, e: Event, policy: string -> Policy, evicts: bool): Buckets
    requires forall key :: PolicyOk(policy(key))
  {
    match e
    case Call(key, at) => AfterCall(m, policy(key), key, at)
    case Cleanup(at) => if evicts then AfterCleanup(m, at) else m
  }

  /** The limiter as it is, and one that never evicts. */
  function Run(events: seq<Event>, policy: string -> Policy, evicts: bool): Buckets
    requires forall key :: PolicyOk(policy(key))
  {
    if events == [] then map[]
    else
      AfterEvent(Run(events[..|events| - 1], policy, evicts), events[|events| - 1], policy, evicts)
  }

  predicate Chronological(events: seq<Event>) {
    forall i, j :: 0 <= i < j < |events| ==> events[i].at <= events[j].at
  }

  /** The run follows the clock and is over by `now`. */
  predicate Before(events: seq<Event>, now: int) {
    Chronological(events) && forall i :: 0 <= i < |events| ==> events[i].at <= now
  }

  /** The evicting map has the same bucket of the key, or none; what it lacks has been idle for long. */
  ghost predicate Simulates(evicted: Option<Bucket>, kept: Option<Bucket>, p: Policy, now: int) {
    && (evicted.Some? ==> evicted == kept)
    && BucketOk(kept, p, now)
    && (evicted.None? && kept.Some? ==> now - kept.value.lastRefill > IDLE_LIMIT)
  }

  lemma IdleIsFull(b: Bucket, p: Policy, now: int)
    requires PolicyOk(p) && p.window <= IDLE_LIMIT + 1 && BucketOk(Some(b), p, now) && now - b.lastRefill > IDLE_LIMIT
    ensures Check(Some(b), p, now) == Check(None, p, now)
  {
    WholeWindowEarnsLimit(p, now - b.lastRefill);
  }

  lemma StepSimulates(evicted: Buckets, kept: Buckets, policy: string -> Policy, key: string, e: Event)
    requires forall k :: PolicyOk(policy(k))
    requires policy(key).window <= IDLE_LIMIT + 1
    requires Simulates(Lookup(evicted, key), Lookup(kept, key), policy(key), e.at)
    ensures Simulates(Lookup(AfterEvent(evicted, e, policy, true), key),
                      Lookup(AfterEvent(kept, e, policy, false), key), policy(key), e.at)
  {
    var p := policy(key);
    if e == Call(key, e.at) {
      CheckKeepsBucket(Lookup(kept, key), p, e.at);
      if key in kept && key !in evicted { IdleIsFull(kept[key], p, e.at); }
    }
  }

  /** At the end of every chronological run the two limiters have the same bucket of a key, or it is full again. */
  lemma {:induction false} RunSimulates(events: seq<Event>, policy: string -> Policy, key: string, now: int)
    requires (forall k :: PolicyOk(policy(k))) && policy(key).window <= IDLE_LIMIT + 1
    requires Before(events, now)
    ensures Simulates(Lookup(Run(events, policy, true), key), Lookup(Run(events, policy, false), key), policy(key), now)
  {
    if events != [] {
      var before, e := events[..|events| - 1], events[|events| - 1];
      RunSimulates(before, policy, key, e.at);
      StepSimulates(Run(before, policy, true), Run(before, policy, false), policy, key, e);
    }
  }

  /** The next call of the key is answered as if nothing had ever been forgotten. */
  ghost predicate SameAnswer(events: seq<Event>, policy: string -> Policy, key: string, now: int)
    requires forall k :: PolicyOk(policy(k))
  {
    var p := policy(key);
    AnswerOf(Run(events, policy, true), p, key, now) == AnswerOf(Run(events, policy, false), p, key, now)
  }

  /** With an idle limit no shorter than its window, nobody who uses a key can tell that idle buckets are forgotten. */
  lemma EvictionIsInvisible(events: seq<Event>, policy: string -> Policy, key: string, now: int)
    requires (forall k :: PolicyOk(policy(k))) && policy(key).window <= IDLE_LIMIT + 1
    requires Before(events, now)
    ensures SameAnswer(events, policy, key, now)
  {
    RunSimulates(events, policy, key, now);
    var kept := Run(events, policy, false);
    if key in kept && key !in Run(events, policy, true) { IdleIsFull(kept[key], policy(key), now); }
  }

  // ------------------------------------------------------------------ what cleanup forgets

  predicate Calls(e: Event, key: string) { e.Call? && e.key == key }

  /** The i-th event is a call of the key, and no cleanup since came too late for it. */
  predicate Spared(events: seq<Event>, key: string, i: nat) {
    && i < |events| && Calls(events[i], key)
    && forall j :: i < j < |events| && events[j].Cleanup? ==> events[j].at - events[i].at <= 2 * 3600 * SECOND
  }

  predicate LastCall(events: seq<Event>, key: string, i: nat) {
    i < |events| && Calls(events[i], key) && forall j :: i < j < |events| ==> !Calls(events[j], key)
  }

  lemma SparedShorter(events: seq<Event>, key: string, i: nat)
    requires events != [] && Spared(events, key, i) && i < |events| - 1
    ensures Spared(events[..|events| - 1], key, i)
  {
  }

  lemma SparedLonger(events: seq<Event>, key: string, i: nat)
    requires events != [] && Spared(events[..|events| - 1], key, i)
    requires var e := events[|events| - 1]; e.Cleanup? ==> e.at - events[i].at <= IDLE_LIMIT
    ensures Spared(events, key, i)
  {
    var before := events[..|events| - 1];
    forall j | i < j < |events| && events[j].Cleanup? ensures events[j].at - events[i].at <= IDLE_LIMIT {
      if j < |before| { assert before[j] == events[j]; }
    }
  }

  lemma CheckTouches(b: Option<Bucket>, p: Policy, now: int)
    requires PolicyOk(p)
    ensures Check(b, p, now).0.lastAccessed == now
  {
  }

  lemma SparedLast(events: seq<Event>, key: string, i: nat, last: nat)
    requires Chronological(events) && Spared(events, key, i) && LastCall(events, key, last)
    ensures i <= last && Spared(events, key, last)
  {
    assert events[i].at <= events[last].at;
  }

  /** The map remembers the key exactly if some call of it was spared, with the instant of the last call. */
  ghost predicate Remembers(events: seq<Event>, m: Buckets, key: string) {
    && (key in m <==> exists i: nat :: Spared(events, key, i))
    && (key in m ==> exists i: nat :: LastCall(events, key, i) && m[key].lastAccessed == events[i].at)
  }

  lemma RemembersCall(events: seq<Event>, m: Buckets, key: string)
    requires events != [] && Calls(events[|events| - 1], key)
    requires key in m && m[key].lastAccessed == events[|events| - 1].at
    ensures Remembers(events, m, key)
  {
    assert Spared(events, key, |events| - 1) && LastCall(events, key, |events| - 1);
  }

  /** Another event leaves the key as it was, unless it is a cleanup too long after the key's last call. */
  lemma RemembersAfter(events: seq<Event>, m: Buckets, m': Buckets, key: string)
    requires events != [] && Chronological(events) && !Calls(events[|events| - 1], key)
    requires Remembers(events[..|events| - 1], m, key)
    requires key in m' ==> key in m && m'[key] == m[key]
    requires var e := events[|events| - 1];
             key in m ==> (key in m' <==> (e.Cleanup? ==> e.at - m[key].lastAccessed <= IDLE_LIMIT))
    ensures Remembers(events, m', key)
  {
    var before := events[..|events| - 1];
    if i: nat :| Spared(events, key, i) {
      SparedShorter(events, key, i);
      var last: nat :| LastCall(before, key, last) && m[key].lastAccessed == before[last].at;
      SparedLast(before, key, i, last);
      assert events[i].at <= events[last].at;
    }
    if key in m' {
      var last: nat :| LastCall(before, key, last) && m[key].lastAccessed == before[last].at;
      var i: nat :| Spared(before, key, i);
      SparedLast(before, key, i, last);
      SparedLonger(events, key, last);
      assert LastCall(events, key, last);
    }
  }

  /** A key is remembered exactly if no cleanup came more than two hours after its last call. */
  lemma {:induction false} RememberedExactly(events: seq<Event>, policy: string -> Policy, key: string)
    requires (forall k :: PolicyOk(policy(k))) && Chronological(events)
    ensures Remembers(events, Run(events, policy, true), key)
  {
    if events != [] {
      var before, e := events[..|events| - 1], events[|events| - 1];
      var m := Run(before, policy, true);
      RememberedExactly(before, policy, key);
      if Calls(e, key) {
        CheckTouches(Lookup(m, key), policy(key), e.at);
        RemembersCall(events, Run(events, policy, true), key);
      } else {
        RemembersAfter(events, m, Run(events, policy, true), key);
      }
    }
  }

  // ------------------------------------------------------------------ the bound holds with eviction

  /** When a key was called, from the event with index `from` on. */
  function Times(events: seq<Event>, key: string, from: nat): seq<int> {
    if |events| <= from then []
    else
      var e := events[|events| - 1];
      Times(events[..|events| - 1], key, from) + (if e.Call? && e.key == key then [e.at] else [])
  }

  /** How many of those calls were admitted. */
  function AdmittedFrom(events: seq<Event>, policy: string -> Policy, evicts: bool, key: string, from: nat): nat
    requires forall k :: PolicyOk(policy(k))
  {
    if |events| <= from then 0
    else
      var before, e := events[..|events| - 1], events[|events| - 1];
      var admitted := e.Call? && e.key == key && AnswerOf(Run(before, policy, evicts), policy(key), key, e.at).allowed;
      AdmittedFrom(before, policy, evicts, key, from) + (if admitted then 1 else 0)
  }

  lemma {:induction false} TimesSplit(events: seq<Event>, key: string, from: nat)
    requires from <= |events|
    ensures Times(events, key, 0) == Times(events[..from], key, 0) + Times(events, key, from)
  {
    if |events| == from {
      assert events[..from] == events;
    } else {
      var before := events[..|events| - 1];
      TimesSplit(before, key, from);
      assert before[..from] == events[..from];
    }
  }

  lemma {:induction false} TimesOrdered(events: seq<Event>, key: string, from: nat)
    requires Chronological(events)
    ensures Ordered(Times(events, key, from))
    ensures forall x :: x in Times(events, key, from) ==>
              from < |events| && events[from].at <= x <= events[|events| - 1].at
  {
    if |events| > from {
      var before, e := events[..|events| - 1], events[|events| - 1];
      TimesOrdered(before, key, from);
      var earlier := Times(before, key, from);
      forall x | x in earlier ensures events[from].at <= x <= e.at { assert before[from] == events[from]; }
      if e.Call? && e.key == key {
        forall i, j | 0 <= i < j < |earlier + [e.at]| ensures (earlier + [e.at])[i] <= (earlier + [e.at])[j] {
          assert earlier[i] in earlier;
        }
      }
    }
  }

  lemma {:induction false} OneMoreCall(b: Option<Bucket>, p: Policy, times: seq<int>, t: int)
    requires PolicyOk(p)
    ensures After(b, p, times + [t]) == Some(Check(After(b, p, times), p, t).0)
    ensures Admitted(b, p, times + [t])
         == Admitted(b, p, times) + (if Check(After(b, p, times), p, t).1.allowed then 1 else 0)
    decreases |times|
  {
    if times == [] {
      assert times + [t] == [t] && [t][1..] == [];
    } else {
      assert (times + [t])[1..] == times[1..] + [t];
      OneMoreCall(Some(Check(b, p, times[0]).0), p, times[1..], t);
    }
  }

  /** Keys do not influence each other. */
  lemma {:induction false} KeyAlone(events: seq<Event>, policy: string -> Policy, key: string)
    requires forall k :: PolicyOk(policy(k))
    ensures Lookup(Run(events, policy, false), key) == After(None, policy(key), Times(events, key, 0))
  {
    if events != [] {
      var before, e := events[..|events| - 1], events[|events| - 1];
      KeyAlone(before, policy, key);
      if e.Call? && e.key == key {
        OneMoreCall(None, policy(key), Times(before, key, 0), e.at);
      } else {
        assert Times(events, key, 0) == Times(before, key, 0);
      }
    }
  }

  lemma {:induction false} AfterAppended(b: Option<Bucket>, p: Policy, first: seq<int>, second: seq<int>)
    requires PolicyOk(p)
    ensures After(b, p, first + second) == After(After(b, p, first), p, second)
    decreases |first|
  {
    if first == [] {
      assert first + second == second;
    } else {
      assert (first + second)[1..] == first[1..] + second;
      AfterAppended(Some(Check(b, p, first[0]).0), p, first[1..], second);
    }
  }

  lemma {:induction false} AdmittedAlone(events: seq<Event>, policy: string -> Policy, key: string, from: nat)
    requires (forall k :: PolicyOk(policy(k))) && from <= |events|
    ensures AdmittedFrom(events, policy, false, key, from)
         == Admitted(After(None, policy(key), Times(events[..from], key, 0)), policy(key), Times(events, key, from))
  {
    if |events| > from {
      var before, e := events[..|events| - 1], events[|events| - 1];
      AdmittedAlone(before, policy, key, from);
      assert before[..from] == events[..from];
      if e.Call? && e.key == key {
        var p, start, span := policy(key), Times(events[..from], key, 0), Times(before, key, from);
        KeyAlone(before, policy, key);
        TimesSplit(before, key, from);
        AfterAppended(None, p, start, span);
        OneMoreCall(After(None, p, start), p, span, e.at);
      } else {
        assert Times(events, key, from) == Times(before, key, from);
      }
    }
  }

  lemma {:induction false} EvictionAdmitsTheSame(events: seq<Event>, policy: string -> Policy, key: string, from: nat)
    requires (forall k :: PolicyOk(policy(k))) && policy(key).window <= IDLE_LIMIT + 1
    requires Chronological(events)
    ensures AdmittedFrom(events, policy, true, key, from) == AdmittedFrom(events, policy, false, key, from)
  {
    if |events| > from {
      var before, e := events[..|events| - 1], events[|events| - 1];
      EvictionAdmitsTheSame(before, policy, key, from);
      EvictionIsInvisible(before, policy, key, e.at);
    }
  }

  /**
   The limiter as it is, with other keys and cleanups interleaved anywhere, admits at most twice the limit of a key
   in any stretch of events no longer than the key's window.
   */
  lemma LimiterAdmitsAtMostTwice(events: seq<Event>, policy: string -> Policy, key: string, from: nat)
    requires (forall k :: PolicyOk(policy(k))) && policy(key).window <= IDLE_LIMIT + 1
    requires Chronological(events) && from < |events|
    requires events[|events| - 1].at - events[from].at <= policy(key).window
    ensures AdmittedFrom(events, policy, true, key, from) <= 2 * policy(key).limit
  {
    var span := Times(events, key, from);
    EvictionAdmitsTheSame(events, policy, key, from);
    AdmittedAlone(events, policy, key, from);
    TimesSplit(events, key, from);
    TimesOrdered(events, key, 0);
    TimesOrdered(events, key, from);
    if span != [] {
      assert span[0] in span && span[|span| - 1] in span;
      AtMostTwiceTheLimit(policy(key), Times(events[..from], key, 0), span);
    }
  }

  // ------------------------------------------------------------------ and visible for longer windows

  /** The map after some calls on one key at instant zero. */
  function Holding(key: string, p: Policy, tokens: int): Buckets {
    if tokens == p.limit then map[] else map[key := Bucket(tokens, 0, 0)]
  }

  lemma DrainOne(m: Buckets, p: Policy, key: string, tokens: int)
    requires PolicyOk(p) && 0 < tokens <= p.limit && m == Holding(key, p, tokens)
    ensures AfterCall(m, p, key, 0) == Holding(key, p, tokens - 1)
  {
    assert Earned(p, 0) == 0;
  }

  lemma RunOneMore(events: seq<Event>, e: Event, policy: string -> Policy, evicts: bool)
    requires forall k :: PolicyOk(policy(k))
    ensures Run(events + [e], policy, evicts) == AfterEvent(Run(events, policy, evicts), e, policy, evicts)
  {
    assert (events + [e])[..|events|] == events;
  }

  /** Calls at instant zero, one for each token to be taken. */
  lemma {:induction false} DrainingCalls(key: string, n: nat, policy: string -> Policy) returns (events: seq<Event>)
    requires (forall k :: PolicyOk(policy(k))) && n <= policy(key).limit
    ensures forall i :: 0 <= i < |events| ==> events[i].at == 0
    ensures Run(events, policy, true) == Holding(key, policy(key), policy(key).limit - n)
    ensures Run(events, policy, false) == Holding(key, policy(key), policy(key).limit - n)
  {
    events := [];
    if n > 0 {
      var before := DrainingCalls(key, n - 1, policy);
      RunOneMore(before, Call(key, 0), policy, true);
      RunOneMore(before, Call(key, 0), policy, false);
      DrainOne(Run(before, policy, true), policy(key), key, policy(key).limit - (n - 1));
      events := before + [Call(key, 0)];
    }
  }

  /** A key with a longer window is answered differently after it was drained, forgotten, and asked again. */
  lemma EvictionIsVisible(policy: string -> Policy, key: string) returns (events: seq<Event>, now: int)
    requires (forall k :: PolicyOk(policy(k))) && policy(key).window > IDLE_LIMIT + 1
    ensures Before(events, now) && !SameAnswer(events, policy, key, now)
  {
    var p := policy(key);
    now := IDLE_LIMIT + 1;
    var calls := DrainingCalls(key, p.limit, policy);
    RunOneMore(calls, Cleanup(now), policy, true);
    RunOneMore(calls, Cleanup(now), policy, false);
    events := calls + [Cleanup(now)];
    assert AfterCleanup(Holding(key, p, 0), now) == map[];
    WholeWindowEarnsLimit(p, now);
  }

  /** Whether eviction can be noticed on a key depends on its own window alone. */
  lemma EvictionIsInvisibleExactly(policy: string -> Policy, key: string)
    requires forall k :: PolicyOk(policy(k))
    ensures policy(key).window <= IDLE_LIMIT + 1
            <==> forall events, now :: Before(events, now) ==> SameAnswer(events, policy, key, now)
  {
    if policy(key).window <= IDLE_LIMIT + 1 {
      forall events, now | Before(events, now) ensures SameAnswer(events, policy, key, now) {
        EvictionIsInvisible(events, policy, key, now);
      }
    } else {
      var events, now := EvictionIsVisible(policy, key);
      assert !SameAnswer(events, policy, key, now);
    }
  }

  // ------------------------------------------------------------------ the limiter as an object

  class RateBucket {
    var tokens: int
    var lastRefill: int
    var lastAccessed: int

    function Value(): Bucket reads this { Bucket(tokens, lastRefill, lastAccessed) }

    constructor (tokens: int, now: int)
      ensures Value() == Bucket(tokens, now, now)
    {
      this.tokens, lastRefill, lastAccessed := tokens, now, now;
    }

    method Refill(p: Policy, now: int)
      requires PolicyOk(p)
      modifies this
      ensures Value() == Refilled(Some(old(Value())), p, now)
    {
      var tokensToAdd := (now - lastRefill) * p.limit / p.window;
      if tokensToAdd > 0 {
        tokens := tokens + tokensToAdd;
        if tokens > p.limit {
          tokens := p.limit;
        }
        lastRefill := now;
      }
      lastAccessed := now;
    }
  }

  class RateLimitService {
    var buckets: map<string, RateBucket>

    /** No two keys share a bucket. */
    ghost predicate Valid()
      reads this
    {
      forall j, k :: j in buckets && k in buckets && j != k ==> buckets[j] != buckets[k]
    }

    ghost function Contents(): Buckets
      reads this, buckets.Values
    {
      map key | key in buckets :: buckets[key].Value()
    }

    constructor ()
      ensures Valid() && Contents() == map[]
    {
      buckets := map[];
    }

    method CheckRateLimit(key: string, p: Policy, now: int) returns (answer: Answer)
      requires Valid() && PolicyOk(p)
      modifies this, buckets.Values
      ensures Valid() && fresh(buckets.Values - old(buckets.Values))
      ensures answer == AnswerOf(old(Contents()), p, key, now)
      ensures Contents() == AfterCall(old(Contents()), p, key, now)
    {
      var bucket;
      if key !in buckets {
        bucket := new RateBucket(p.limit, now);
        buckets := buckets[key := bucket];
      } else {
        bucket := buckets[key];
        bucket.Refill(p, now);
      }
      if bucket.tokens > 0 {
        bucket.tokens := bucket.tokens - 1;
        answer := Answer(true, bucket.tokens, now + p.window, 0);
      } else {
        var retryAfter := p.window / p.limit;
        answer := Answer(false, 0, now + retryAfter, retryAfter);
      }
    }

    method IdleKeys(now: int) returns (expiredKeys: seq<string>)
      ensures forall k :: k in expiredKeys <==> k in buckets && now - buckets[k].lastAccessed > IDLE_LIMIT
    {
      expiredKeys := [];
      var keys := buckets.Keys;
      while keys != {}
        invariant keys <= buckets.Keys
        invariant forall k ::
                    k in expiredKeys <==> k in buckets.Keys - keys && now - buckets[k].lastAccessed > IDLE_LIMIT
        decreases keys
      {
        var key :| key in keys;
        if now - buckets[key].lastAccessed > IDLE_LIMIT {
          expiredKeys := expiredKeys + [key];
        }
        keys := keys - {key};
      }
    }

    /** First the idle keys are collected, then they are deleted. */
    method Cleanup(now: int)
      requires Valid()
      modifies this
      ensures Valid() && buckets.Values <= old(buckets.Values)
      ensures Contents() == AfterCleanup(old(Contents()), now)
    {
      var expiredKeys := IdleKeys(now);
      ghost var all := buckets;
      for i := 0 to |expiredKeys|
        invariant buckets == map k | k in all && k !in expiredKeys[..i] :: all[k]
      {
        buckets := map k | k in buckets && k != expiredKeys[i] :: buckets[k];
      }
      assert expiredKeys[..|expiredKeys|] == expiredKeys;
    }
  }
}
