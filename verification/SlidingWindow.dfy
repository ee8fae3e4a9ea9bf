/**
 The two sliding-window limiters. Firestore keeps a list of timestamps that it prunes when it admits; Redis keeps a
 sorted set that it prunes on every call. Both are measured against a limiter that keeps every admitted timestamp.
 Times are nanoseconds.
 */
module SlidingWindow {
  import opened Common

  datatype Decision = Decision(allowed: bool, remaining: int)

  // ------------------------------------------------------------------ timestamps

  /** The timestamps after an instant, in order. */
  function Recent(ts: seq<int>, start: int): seq<int> {
    if ts == [] then []
    else
      var last := ts[|ts| - 1];
      Recent(ts[..|ts| - 1], start) + (if last > start then [last] else [])
  }

  lemma LastOrBefore(ts: seq<int>, before: seq<int>, last: int)
    requires ts != [] && before == ts[..|ts| - 1] && last == ts[|ts| - 1]
    ensures forall x :: x in ts <==> x in before || x == last
  {
    assert ts == before + [last];
  }

  lemma RecentAppend(ts: seq<int>, t: int, start: int)
    ensures Recent(ts + [t], start) == Recent(ts, start) + (if t > start then [t] else [])
  {
    assert (ts + [t])[..|ts|] == ts;
  }

  lemma {:induction false} RecentMembers(ts: seq<int>, start: int)
    ensures forall x :: x in Recent(ts, start) <==> x in ts && x > start
  {
    if ts != [] {
      RecentMembers(ts[..|ts| - 1], start);
      LastOrBefore(ts, ts[..|ts| - 1], ts[|ts| - 1]);
    }
  }

  lemma {:induction false} RecentTwice(ts: seq<int>, a: int, b: int)
    requires a <= b
    ensures Recent(Recent(ts, a), b) == Recent(ts, b)
  {
    if ts != [] {
      var before, last := ts[..|ts| - 1], ts[|ts| - 1];
      RecentTwice(before, a, b);
      if last > a {
        RecentAppend(Recent(before, a), last, b);
      } else {
        assert Recent(ts, a) == Recent(before, a) && Recent(ts, b) == Recent(before, b);
      }
    }
  }

  lemma {:induction false} NoneRecent(ts: seq<int>, start: int)
    requires forall x :: x in ts ==> x <= start
    ensures Recent(ts, start) == []
  {
    if ts != [] {
      LastOrBefore(ts, ts[..|ts| - 1], ts[|ts| - 1]);
      assert ts[|ts| - 1] in ts;
      NoneRecent(ts[..|ts| - 1], start);
    }
  }

  // ------------------------------------------------------------------ the reference: every admitted timestamp

  function Judge(recent: int, p: Policy): Decision {
    if recent >= p.limit then Decision(false, 0) else Decision(true, p.limit - recent - 1)
  }

  function HistoryDecision(h: seq<int>, p: Policy, now: int): Decision {
    Judge(|Recent(h, now - p.window)|, p)
  }

  function HistoryStep(h: seq<int>, p: Policy, now: int): seq<int> {
    if HistoryDecision(h, p, now).allowed then h + [now] else h
  }

  // ------------------------------------------------------------------ Firestore

  /** The document of a key, and the instant from which the store may drop it. */
  datatype Document = Document(timestamps: seq<int>, expiresAt: int)

  function FirestoreDecision(d: Document, p: Policy, now: int): Decision {
    Judge(|Recent(d.timestamps, now - p.window)|, p)
  }

  /** A denial writes nothing. */
  function FirestoreStep(d: Document, p: Policy, now: int): Document {
    var valid := Recent(d.timestamps, now - p.window);
    if |valid| >= p.limit then d else Document(valid + [now], now + 2 * p.window)
  }

  // ------------------------------------------------------------------ Redis

  /** The sorted set of a key (each member is its own score) and the instant its expiry may remove it. */
  datatype Scores = Scores(members: set<int>, expiresAt: int)

  const MILLISECOND: int := 1_000_000

  /** EXPIRE takes whole seconds, rounded up from a window in whole milliseconds. */
  function Ttl(window: int): int {
    (window / MILLISECOND + 999) / 1000 * SECOND
  }

  function Pruned(s: Scores, p: Policy, now: int): set<int> {
    set x | x in s.members && !(0 <= x <= now - p.window)
  }

  function RedisDecision(s: Scores, p: Policy, now: int): Decision {
    Judge(|Pruned(s, p, now)|, p)
  }

  function RedisStep(s: Scores, p: Policy, now: int): Scores {
    var kept := Pruned(s, p, now);
    if |kept| < p.limit then Scores(kept + {now}, now + Ttl(p.window)) else s.(members := kept)
  }

  // ------------------------------------------------------------------ runs of one key

  /** A call, or one of the stores dropping what has expired (a drop before its time does not happen). */
  datatype Event = Call(at: nat) | DropDocument(at: nat) | DropKey(at: nat)

  function HistoryRun(events: seq<Event>, p: Policy): seq<int> {
    if events == [] then []
    else
      var h, e := HistoryRun(events[..|events| - 1], p), events[|events| - 1];
      if e.Call? then HistoryStep(h, p, e.at) else h
  }

  function FirestoreEvent(d: Document, p: Policy, e: Event): Document {
    if e.Call? then FirestoreStep(d, p, e.at)
    else if e.DropDocument? && e.at >= d.expiresAt then Document([], 0)
    else d
  }

  function FirestoreRun(events: seq<Event>, p: Policy): Document {
    if events == [] then Document([], 0)
    else FirestoreEvent(FirestoreRun(events[..|events| - 1], p), p, events[|events| - 1])
  }

  lemma RunsOneMore(events: seq<Event>, p: Policy, e: Event)
    ensures FirestoreRun(events + [e], p) == FirestoreEvent(FirestoreRun(events, p), p, e)
    ensures e.Call? ==> HistoryRun(events + [e], p) == HistoryStep(HistoryRun(events, p), p, e.at)
  {
    assert (events + [e])[..|events|] == events;
  }

  function RedisRun(events: seq<Event>, p: Policy): Scores {
    if events == [] then Scores({}, 0)
    else
      var s, e := RedisRun(events[..|events| - 1], p), events[|events| - 1];
      if e.Call? then RedisStep(s, p, e.at)
      else if e.DropKey? && e.at >= s.expiresAt then Scores({}, 0)
      else s
  }

  /** No two calls carry the same timestamp. */
  predicate DistinctCalls(events: seq<Event>) {
    forall i, j :: 0 <= i < j < |events| && events[i].Call? && events[j].Call? ==> events[i].at < events[j].at
  }

  /** The run follows the clock, and what comes after it happens at `now` or later. */
  predicate Before(events: seq<Event>, now: nat) {
    && (forall i, j :: 0 <= i < j < |events| ==> events[i].at <= events[j].at)
    && (forall i :: 0 <= i < |events| ==> events[i].at <= now)
  }

  lemma BeforeParts(events: seq<Event>, now: nat)
    requires Before(events, now) && events != []
    ensures Before(events[..|events| - 1], events[|events| - 1].at) && events[|events| - 1].at <= now
  {
    var before := events[..|events| - 1];
    assert forall i :: 0 <= i < |before| ==> before[i] == events[i];
  }

  lemma {:induction false} HistoryIsPast(events: seq<Event>, p: Policy, now: nat)
    requires Before(events, now)
    ensures forall x :: x in HistoryRun(events, p) ==> 0 <= x <= now
  {
    if events != [] {
      BeforeParts(events, now);
      HistoryIsPast(events[..|events| - 1], p, events[|events| - 1].at);
    }
  }

  // ------------------------------------------------------------------ Firestore refines the history

  /** From `now` on the pruned list answers every question as the whole history. */
  ghost predicate SameRecent(ts: seq<int>, h: seq<int>, from: int) {
    forall s :: s >= from ==> Recent(ts, s) == Recent(h, s)
  }

  ghost predicate DocumentOk(d: Document, h: seq<int>, p: Policy, now: int) {
    && SameRecent(d.timestamps, h, now - p.window)
    && Covers(d.expiresAt, h, p.window, now)
    && |d.timestamps| <= p.limit
  }

  /** What the store may drop has left the window. */
  ghost predicate Covers(expiresAt: int, h: seq<int>, window: int, now: int) {
    forall x :: x in h ==> x <= now && (x + 2 * window <= expiresAt || x + window <= now)
  }

  lemma AdmitCovers(expiresAt: int, h: seq<int>, window: int, now: int)
    requires Covers(expiresAt, h, window, now)
    ensures Covers(now + 2 * window, h + [now], window, now)
  {
  }

  lemma AdmitKeepsRecent(ts: seq<int>, h: seq<int>, start: int, now: int)
    requires SameRecent(ts, h, start)
    ensures SameRecent(Recent(ts, start) + [now], h + [now], start)
  {
    forall s | s >= start ensures Recent(Recent(ts, start) + [now], s) == Recent(h + [now], s) {
      RecentTwice(ts, start, s);
      RecentAppend(Recent(ts, start), now, s);
      RecentAppend(h, now, s);
    }
  }

  lemma AdmitKeepsDocument(d: Document, h: seq<int>, p: Policy, now: int)
    requires PolicyOk(p) && DocumentOk(d, h, p, now) && |Recent(d.timestamps, now - p.window)| < p.limit
    ensures DocumentOk(Document(Recent(d.timestamps, now - p.window) + [now], now + 2 * p.window), h + [now], p, now)
  {
    var ts, expiresAt := Recent(d.timestamps, now - p.window) + [now], now + 2 * p.window;
    assert |ts| <= p.limit;
    assert SameRecent(ts, h + [now], now - p.window) by { AdmitKeepsRecent(d.timestamps, h, now - p.window, now); }
    assert Covers(expiresAt, h + [now], p.window, now) by { AdmitCovers(d.expiresAt, h, p.window, now); }
  }

  lemma FirestoreStepKeeps(d: Document, h: seq<int>, p: Policy, now: int)
    requires PolicyOk(p) && DocumentOk(d, h, p, now)
    ensures FirestoreDecision(d, p, now) == HistoryDecision(h, p, now)
    ensures DocumentOk(FirestoreStep(d, p, now), HistoryStep(h, p, now), p, now)
  {
    assert Recent(d.timestamps, now - p.window) == Recent(h, now - p.window);
    if HistoryDecision(h, p, now).allowed { AdmitKeepsDocument(d, h, p, now); }
  }

  lemma DropKeepsDocument(d: Document, h: seq<int>, p: Policy, now: int)
    requires PolicyOk(p) && DocumentOk(d, h, p, now) && now >= d.expiresAt
    ensures DocumentOk(Document([], 0), h, p, now)
  {
    forall s | s >= now - p.window ensures Recent([], s) == Recent(h, s) { NoneRecent(h, s); }
  }

  lemma {:induction false} FirestoreRunKeeps(events: seq<Event>, p: Policy, now: nat)
    requires PolicyOk(p) && Before(events, now)
    ensures DocumentOk(FirestoreRun(events, p), HistoryRun(events, p), p, now)
  {
    if events != [] {
      var before, e := events[..|events| - 1], events[|events| - 1];
      BeforeParts(events, now);
      FirestoreRunKeeps(before, p, e.at);
      var d, h := FirestoreRun(before, p), HistoryRun(before, p);
      if e.Call? {
        FirestoreStepKeeps(d, h, p, e.at);
      } else if e.DropDocument? && e.at >= d.expiresAt {
        DropKeepsDocument(d, h, p, e.at);
      }
    }
  }

  /** Pruning and dropping are invisible: each call is decided as if every admitted timestamp had been kept. */
  lemma FirestoreRefinesHistory(events: seq<Event>, p: Policy, now: nat)
    requires PolicyOk(p) && Before(events, now)
    ensures FirestoreDecision(FirestoreRun(events, p), p, now) == HistoryDecision(HistoryRun(events, p), p, now)
  {
    FirestoreRunKeeps(events, p, now);
  }

  // ------------------------------------------------------------------ never more than the limit in a window

  function Count(ts: seq<int>, after: int, upTo: int): nat {
    if ts == [] then 0
    else (if after < ts[|ts| - 1] <= upTo then 1 else 0) + Count(ts[..|ts| - 1], after, upTo)
  }

  lemma {:induction false} CountIsRecent(ts: seq<int>, after: int, upTo: int)
    requires forall x :: x in ts ==> x <= upTo
    ensures Count(ts, after, upTo) == |Recent(ts, after)|
  {
    if ts != [] {
      LastOrBefore(ts, ts[..|ts| - 1], ts[|ts| - 1]);
      assert ts[|ts| - 1] in ts;
      CountIsRecent(ts[..|ts| - 1], after, upTo);
    }
  }

  lemma {:induction false} CountShrinks(ts: seq<int>, a: int, b: int, upTo: int)
    requires a <= b
    ensures Count(ts, b, upTo) <= Count(ts, a, upTo)
  {
    if ts != [] { CountShrinks(ts[..|ts| - 1], a, b, upTo); }
  }

  /** Any window, wherever it ends, holds at most `limit` admitted requests. */
  lemma {:induction false} NeverMoreThanLimit(events: seq<Event>, p: Policy, now: nat, end: int)
    requires PolicyOk(p) && Before(events, now)
    ensures Count(HistoryRun(events, p), end - p.window, end) <= p.limit
  {
    if events != [] {
      var before, e := events[..|events| - 1], events[|events| - 1];
      BeforeParts(events, now);
      NeverMoreThanLimit(before, p, e.at, end);
      var h := HistoryRun(before, p);
      if e.Call? && HistoryDecision(h, p, e.at).allowed {
        HistoryIsPast(before, p, e.at);
        assert (h + [e.at as int])[..|h|] == h;
        if end >= e.at {
          CountIsRecent(h, e.at - p.window, end);
          CountShrinks(h, e.at - p.window, end - p.window, end);
        }
      }
    }
  }

  /** The timestamps of the calls that Firestore admitted. */
  function FirestoreAdmits(events: seq<Event>, p: Policy): seq<int> {
    if events == [] then []
    else
      var before, e := events[..|events| - 1], events[|events| - 1];
      FirestoreAdmits(before, p)
      + (if e.Call? && FirestoreDecision(FirestoreRun(before, p), p, e.at).allowed then [e.at] else [])
  }

  lemma {:induction false} FirestoreAdmitsTheHistory(events: seq<Event>, p: Policy, now: nat)
    requires PolicyOk(p) && Before(events, now)
    ensures FirestoreAdmits(events, p) == HistoryRun(events, p)
  {
    if events != [] {
      var before, e := events[..|events| - 1], events[|events| - 1];
      BeforeParts(events, now);
      FirestoreAdmitsTheHistory(before, p, e.at);
      if e.Call? { FirestoreRefinesHistory(before, p, e.at); }
    }
  }

  /** No half-open span of the window's length, wherever it ends, holds more than `limit` admitted requests. */
  lemma FirestoreHoldsTheLimit(events: seq<Event>, p: Policy, now: nat, end: int)
    requires PolicyOk(p) && Before(events, now)
    ensures Count(FirestoreAdmits(events, p), end - p.window, end) <= p.limit
  {
    FirestoreAdmitsTheHistory(events, p, now);
    NeverMoreThanLimit(events, p, now, end);
  }

  // ------------------------------------------------------------------ when a call is admitted, and how many more

  /** A decision that counts: how many were admitted in the half-open window that ends now. */
  ghost predicate DecidedBy(d: Decision, admitted: int, p: Policy) {
    && (d.allowed <==> admitted < p.limit)
    && d.remaining == (if d.allowed then p.limit - admitted - 1 else 0)
  }

  lemma HistoryDecides(events: seq<Event>, p: Policy, now: nat)
    requires PolicyOk(p) && Before(events, now)
    ensures var h := HistoryRun(events, p); DecidedBy(HistoryDecision(h, p, now), Count(h, now - p.window, now), p)
  {
    HistoryIsPast(events, p, now);
    CountIsRecent(HistoryRun(events, p), now - p.window, now);
  }

  /** Every call is admitted exactly if fewer than `limit` were admitted in the window that ends with it. */
  lemma FirestoreAdmitsExactly(events: seq<Event>, p: Policy, now: nat)
    requires PolicyOk(p) && Before(events, now)
    ensures DecidedBy(FirestoreDecision(FirestoreRun(events, p), p, now),
                      Count(FirestoreAdmits(events, p), now - p.window, now), p)
  {
    FirestoreRefinesHistory(events, p, now);
    FirestoreAdmitsTheHistory(events, p, now);
    HistoryDecides(events, p, now);
  }

  /** Calls that all come at one instant. */
  function Simultaneous(t: nat, n: nat): seq<Event> {
    seq(n, _ => Call(t))
  }

  function Least(a: int, b: int): int { if a <= b then a else b }

  /** What the window that ends now has room for. */
  function Room(h: seq<int>, p: Policy, now: int): nat {
    if |Recent(h, now - p.window)| >= p.limit then 0 else p.limit - |Recent(h, now - p.window)|
  }

  lemma HistoryStepTakesRoom(h: seq<int>, p: Policy, now: int)
    requires PolicyOk(p)
    ensures var room := Room(h, p, now);
            && |HistoryStep(h, p, now)| == |h| + Least(1, room)
            && Room(HistoryStep(h, p, now), p, now) == room - Least(1, room)
  {
    RecentAppend(h, now, now - p.window);
  }

  lemma OneMoreSimultaneousCall(events: seq<Event>, t: nat, n: nat)
    ensures events + Simultaneous(t, n + 1) == events + Simultaneous(t, n) + [Call(t)]
  {
  }

  /** n calls at one instant have been admitted as far as there was room. */
  predicate Filled(h: seq<int>, h': seq<int>, p: Policy, now: int, n: nat) {
    var room := Room(h, p, now);
    |h'| == |h| + Least(n, room) && Room(h', p, now) == room - Least(n, room)
  }

  lemma FillsMore(h: seq<int>, h': seq<int>, p: Policy, now: int, n: nat)
    requires PolicyOk(p) && Filled(h, h', p, now, n)
    ensures Filled(h, HistoryStep(h', p, now), p, now, n + 1)
  {
    HistoryStepTakesRoom(h', p, now);
  }

  lemma {:induction false} BurstFillsRoom(events: seq<Event>, p: Policy, now: nat, n: nat)
    requires PolicyOk(p)
    ensures Filled(HistoryRun(events, p), HistoryRun(events + Simultaneous(now, n), p), p, now, n)
    decreases n
  {
    if n == 0 {
      assert events + Simultaneous(now, 0) == events;
    } else {
      var before := events + Simultaneous(now, n - 1);
      BurstFillsRoom(events, p, now, n - 1);
      FillsMore(HistoryRun(events, p), HistoryRun(before, p), p, now, n - 1);
      OneMoreSimultaneousCall(events, now, n - 1);
      RunsOneMore(before, p, Call(now));
    }
  }

  lemma BurstIsBefore(events: seq<Event>, now: nat, n: nat)
    requires Before(events, now)
    ensures Before(events + Simultaneous(now, n), now)
  {
  }

  /** Of a burst as many calls are admitted as there is room for. */
  lemma BurstIsExact(events: seq<Event>, p: Policy, now: nat, n: nat)
    requires PolicyOk(p) && Before(events, now)
    ensures |FirestoreAdmits(events + Simultaneous(now, n), p)|
            == |HistoryRun(events, p)| + Least(n, Room(HistoryRun(events, p), p, now))
  {
    BurstIsBefore(events, now, n);
    FirestoreAdmitsTheHistory(events + Simultaneous(now, n), p, now);
    BurstFillsRoom(events, p, now, n);
  }

  lemma DecisionTellsRoom(events: seq<Event>, p: Policy, now: nat)
    requires PolicyOk(p) && Before(events, now)
    ensures var d := FirestoreDecision(FirestoreRun(events, p), p, now);
            Room(HistoryRun(events, p), p, now) == if d.allowed then d.remaining + 1 else d.remaining
  {
    FirestoreRefinesHistory(events, p, now);
  }

  /** The announced `remaining` is the number of further calls admitted at the same instant. */
  lemma RemainingIsTrue(events: seq<Event>, p: Policy, now: nat, n: nat)
    requires PolicyOk(p) && Before(events, now)
    ensures |FirestoreAdmits(events + Simultaneous(now, n + 1), p)|
            == |FirestoreAdmits(events + Simultaneous(now, 1), p)|
               + Least(n, FirestoreDecision(FirestoreRun(events, p), p, now).remaining)
  {
    BurstIsExact(events, p, now, n + 1);
    BurstIsExact(events, p, now, 1);
    DecisionTellsRoom(events, p, now);
    NonNegativeRemaining(FirestoreRun(events, p), p, now);
  }

  lemma NonNegativeRemaining(d: Document, p: Policy, now: int)
    ensures var decision := FirestoreDecision(d, p, now);
            decision.remaining >= 0 && (!decision.allowed ==> decision.remaining == 0)
  {
  }

  /** After an admission the document may be dropped exactly two windows later. */
  lemma DocumentLastsTwoWindows(events: seq<Event>, p: Policy, now: nat, at: nat)
    requires PolicyOk(p) && FirestoreDecision(FirestoreRun(events, p), p, now).allowed
    ensures FirestoreRun(events + [Call(now)] + [DropDocument(at)], p) == Document([], 0) <==> at >= now + 2 * p.window
  {
    RunsOneMore(events, p, Call(now));
    RunsOneMore(events + [Call(now)], p, DropDocument(at));
  }

  // ------------------------------------------------------------------ the announced reset time

  function Min(ts: seq<int>): int
    requires ts != []
  {
    if |ts| == 1 then ts[0]
    else
      var m := Min(ts[..|ts| - 1]);
      if ts[|ts| - 1] < m then ts[|ts| - 1] else m
  }

  lemma {:induction false} MinIsLeast(ts: seq<int>)
    requires ts != []
    ensures Min(ts) in ts && forall x :: x in ts ==> Min(ts) <= x
  {
    if |ts| > 1 {
      MinIsLeast(ts[..|ts| - 1]);
      LastOrBefore(ts, ts[..|ts| - 1], ts[|ts| - 1]);
    }
  }

  function ResetAt(d: Document, p: Policy, now: int): int
    requires Recent(d.timestamps, now - p.window) != []
  {
    Min(Recent(d.timestamps, now - p.window)) + p.window
  }

  lemma {:induction false} RecentShrinks(ts: seq<int>, a: int, b: int)
    requires a <= b
    ensures |Recent(ts, b)| <= |Recent(ts, a)|
    ensures (exists x :: x in ts && a < x <= b) ==> |Recent(ts, b)| < |Recent(ts, a)|
    ensures (forall x :: x in ts ==> !(a < x <= b)) ==> Recent(ts, b) == Recent(ts, a)
  {
    if ts != [] {
      var before, last := ts[..|ts| - 1], ts[|ts| - 1];
      RecentShrinks(before, a, b);
      LastOrBefore(ts, ts[..|ts| - 1], ts[|ts| - 1]);
      if forall x :: x in ts ==> !(a < x <= b) {
        assert last in ts;
        assert forall x :: x in before ==> x in ts;
      }
    }
  }

  lemma {:induction false} RecentIsShorter(ts: seq<int>, start: int)
    ensures |Recent(ts, start)| <= |ts|
  {
    if ts != [] { RecentIsShorter(ts[..|ts| - 1], start); }
  }

  /** A full list stays full until the instant its oldest recent entry leaves the window. */
  lemma FullUntilOldestLeaves(ts: seq<int>, limit: int, start: int, from: int)
    requires 0 < limit && |ts| <= limit <= |Recent(ts, start)| && start <= from
    ensures Recent(ts, start) != []
    ensures |Recent(ts, from)| < limit <==> from >= Min(Recent(ts, start))
  {
    var valid := Recent(ts, start);
    RecentIsShorter(ts, start);
    MinIsLeast(valid);
    RecentMembers(ts, start);
    RecentShrinks(ts, start, from);
    if from >= Min(valid) {
      assert Min(valid) in ts && start < Min(valid) <= from;
    } else {
      forall x | x in ts ensures !(start < x <= from) { if x > start { assert x in valid; } }
    }
  }

  /** Once announced, the reset time comes before the store may drop the document. */
  lemma ResetBeforeExpiry(d: Document, h: seq<int>, p: Policy, now: int)
    requires PolicyOk(p) && DocumentOk(d, h, p, now) && |Recent(d.timestamps, now - p.window)| >= p.limit
    ensures Recent(d.timestamps, now - p.window) != [] && now < ResetAt(d, p, now) < d.expiresAt
  {
    var valid := Recent(d.timestamps, now - p.window);
    MinIsLeast(valid);
    RecentMembers(d.timestamps, now - p.window);
    assert valid == Recent(h, now - p.window);
    RecentMembers(h, now - p.window);
  }

  /** The document denied a call at `now` and announced `resetAt`. */
  ghost predicate Denied(d: Document, p: Policy, now: int, resetAt: int) {
    && |d.timestamps| <= p.limit <= |Recent(d.timestamps, now - p.window)|
    && Recent(d.timestamps, now - p.window) != [] && resetAt == ResetAt(d, p, now)
    && now < resetAt < d.expiresAt
  }

  lemma DeniedCall(d: Document, p: Policy, now: int, resetAt: int, later: int)
    requires PolicyOk(p) && Denied(d, p, now, resetAt) && now <= later
    ensures FirestoreDecision(d, p, later).allowed <==> later >= resetAt
  {
    FullUntilOldestLeaves(d.timestamps, p.limit, now - p.window, later - p.window);
  }

  /** Every event of the run comes at `now` or later, and every call before the reset time. */
  predicate CallsBefore(events: seq<Event>, now: int, resetAt: int) {
    forall i :: 0 <= i < |events| ==> now <= events[i].at && (events[i].Call? ==> events[i].at < resetAt)
  }

  lemma StaysDenied(d: Document, d': Document, p: Policy, now: int, resetAt: int, e: Event)
    requires PolicyOk(p) && Denied(d, p, now, resetAt) && now <= e.at && (e.Call? ==> e.at < resetAt && d' == d)
    requires d' == d || d' == Document([], 0)
    ensures var d'' := FirestoreEvent(d', p, e); d'' == d' || (d'' == Document([], 0) && e.at >= resetAt)
  {
    if e.Call? { DeniedCall(d, p, now, resetAt, e.at); }
  }

  /** Before the reset time nothing is admitted or dropped; a drop after it leaves the key without a document. */
  lemma {:induction false} UntilReset(events: seq<Event>, p: Policy, now: int, resetAt: int, more: seq<Event>,
                                      later: nat)
    requires PolicyOk(p) && Denied(FirestoreRun(events, p), p, now, resetAt)
    requires Before(more, later) && CallsBefore(more, now, resetAt)
    ensures var d, d' := FirestoreRun(events, p), FirestoreRun(events + more, p);
            d' == d || (d' == Document([], 0) && later >= resetAt)
  {
    if more == [] {
      assert events + more == events;
    } else {
      var before, e := more[..|more| - 1], more[|more| - 1];
      assert events + more == events + before + [e];
      BeforeParts(more, later);
      UntilReset(events, p, now, resetAt, before, e.at);
      StaysDenied(FirestoreRun(events, p), FirestoreRun(events + before, p), p, now, resetAt, e);
      RunsOneMore(events + before, p, e);
    }
  }

  lemma DenialAnnounces(events: seq<Event>, p: Policy, now: nat)
    requires PolicyOk(p) && Before(events, now) && !FirestoreDecision(FirestoreRun(events, p), p, now).allowed
    ensures var d := FirestoreRun(events, p);
            Recent(d.timestamps, now - p.window) != [] && Denied(d, p, now, ResetAt(d, p, now))
  {
    FirestoreRunKeeps(events, p, now);
    ResetBeforeExpiry(FirestoreRun(events, p), HistoryRun(events, p), p, now);
  }

  /**
   After a denial that announced `resetAt`, whatever is called and dropped next: calls are denied until that time,
   and the first call at that time or later is admitted.
   */
  lemma ResetTimeIsExact(events: seq<Event>, p: Policy, now: nat, resetAt: int, more: seq<Event>, later: nat)
    requires PolicyOk(p) && Before(events, now)
    requires var answer := FirestoreAnswer(FirestoreRun(events, p), p, now, now);
             !answer.decision.allowed && answer.resetAt == resetAt
    requires now <= later && Before(more, later) && CallsBefore(more, now, resetAt)
    ensures FirestoreDecision(FirestoreRun(events + more, p), p, later).allowed <==> later >= resetAt
  {
    var d := FirestoreRun(events, p);
    DenialAnnounces(events, p, now);
    UntilReset(events, p, now, resetAt, more, later);
    DeniedCall(d, p, now, resetAt, later);
  }

  /** By the reset time announced with an admission, and not before, nothing admitted so far counts any more. */
  lemma AdmittedResetIsExact(events: seq<Event>, p: Policy, now: nat, later: nat)
    requires PolicyOk(p) && Before(events, now) && now <= later
    requires FirestoreAnswer(FirestoreRun(events, p), p, now, now).decision.allowed
    ensures var resetAt := FirestoreAnswer(FirestoreRun(events, p), p, now, now).resetAt;
            var after := FirestoreRun(events + [Call(now)], p).timestamps;
            Recent(after, later - p.window) == [] <==> later >= resetAt
    ensures FirestoreAnswer(FirestoreRun(events, p), p, now, now).retryAfter == 0
  {
    var all := events + [Call(now)];
    FirestoreRefinesHistory(events, p, now);
    RunsOneMore(events, p, Call(now));
    HistoryIsPast(events, p, now);
    NothingCounts(HistoryRun(events, p), now, later, p.window);
    SameRecentLater(all, p, now, later);
  }

  lemma NothingCounts(h: seq<int>, now: int, later: int, window: int)
    requires forall x :: x in h ==> x <= now
    ensures Recent(h + [now], later - window) == [] <==> later >= now + window
  {
    RecentAppend(h, now, later - window);
    if later >= now + window { NoneRecent(h, later - window); }
  }

  lemma SameRecentLater(events: seq<Event>, p: Policy, now: nat, later: nat)
    requires PolicyOk(p) && Before(events, now) && now <= later
    ensures Recent(FirestoreRun(events, p).timestamps, later - p.window)
         == Recent(HistoryRun(events, p), later - p.window)
  {
    FirestoreRunKeeps(events, p, now);
  }

  /** The retry delay of a denial reaches the reset time from the instant it is computed, and not beyond it. */
  lemma RetryDelayIsExact(resetAt: int, later: int)
    ensures var retryAfter := Refusal(resetAt, later).retryAfter;
            retryAfter >= 0 && later + retryAfter >= resetAt && (retryAfter > 0 ==> later + retryAfter == resetAt)
    ensures !Refusal(resetAt, later).decision.allowed && Refusal(resetAt, later).resetAt == resetAt
  {
  }

  // ------------------------------------------------------------------ Redis refines the history

  ghost predicate Increasing(ts: seq<int>) {
    forall i, j :: 0 <= i < j < |ts| ==> ts[i] < ts[j]
  }

  lemma {:induction false} RecentAsSet(ts: seq<int>, start: int)
    requires Increasing(ts)
    ensures |set x | x in ts && x > start| == |Recent(ts, start)|
  {
    if ts == [] {
      assert (set x | x in ts && x > start) == {};
    } else {
      var before, last := ts[..|ts| - 1], ts[|ts| - 1];
      RecentAsSet(before, start);
      LastOrBefore(ts, before, last);
      var rest := set x | x in before && x > start;
      if last > start {
        assert (set x | x in ts && x > start) == rest + {last};
        assert last !in before;
      } else {
        assert (set x | x in ts && x > start) == rest;
      }
    }
  }

  ghost predicate ScoresOk(s: Scores, h: seq<int>, p: Policy, now: int) {
    && Increasing(h) && (forall x :: x in h ==> 0 <= x <= now)
    && (forall x :: x > now - p.window ==> (x in s.members <==> x in h))
    && (forall x :: x in s.members ==> x in h)
    && (forall x :: x in h ==> x + Ttl(p.window) <= s.expiresAt || x + p.window <= now)
  }

  lemma RedisCountsHistory(s: Scores, h: seq<int>, p: Policy, now: int)
    requires ScoresOk(s, h, p, now)
    ensures RedisDecision(s, p, now) == HistoryDecision(h, p, now)
  {
    RecentAsSet(h, now - p.window);
    assert Pruned(s, p, now) == set x | x in h && x > now - p.window;
  }

  lemma {:induction false} IncreasingAppend(h: seq<int>, now: int)
    requires Increasing(h) && now !in h && forall x :: x in h ==> x <= now
    ensures Increasing(h + [now])
  {
    forall i, j | 0 <= i < j < |h + [now]| ensures (h + [now])[i] < (h + [now])[j] {
      assert h[i] in h;
    }
  }

  lemma PruneKeepsScores(s: Scores, h: seq<int>, p: Policy, now: int)
    requires ScoresOk(s, h, p, now)
    ensures ScoresOk(s.(members := Pruned(s, p, now)), h, p, now)
  {
  }

  lemma AdmitKeepsScores(s: Scores, h: seq<int>, p: Policy, now: int)
    requires PolicyOk(p) && p.window <= Ttl(p.window) && ScoresOk(s, h, p, now) && now >= 0 && now !in h
    ensures ScoresOk(Scores(s.members + {now}, now + Ttl(p.window)), h + [now], p, now)
  {
    IncreasingAppend(h, now);
  }

  /** With a limit of one, an instant at which a request was admitted admits no other. */
  lemma OneAtAnInstant(h: seq<int>, p: Policy, now: int)
    requires PolicyOk(p) && p.limit == 1 && now in h
    ensures !HistoryDecision(h, p, now).allowed
  {
    RecentMembers(h, now - p.window);
    assert now in Recent(h, now - p.window);
  }

  lemma RedisStepKeeps(s: Scores, h: seq<int>, p: Policy, now: int)
    requires PolicyOk(p) && p.window <= Ttl(p.window) && ScoresOk(s, h, p, now) && now >= 0
    requires now !in h || p.limit == 1
    ensures ScoresOk(RedisStep(s, p, now), HistoryStep(h, p, now), p, now)
  {
    RedisCountsHistory(s, h, p, now);
    PruneKeepsScores(s, h, p, now);
    if now in h { OneAtAnInstant(h, p, now); } else { AdmitKeepsScores(s.(members := Pruned(s, p, now)), h, p, now); }
  }

  lemma DropKeepsScores(s: Scores, h: seq<int>, p: Policy, now: int)
    requires PolicyOk(p) && p.window <= Ttl(p.window) && ScoresOk(s, h, p, now) && now >= s.expiresAt
    ensures ScoresOk(Scores({}, 0), h, p, now)
  {
  }

  lemma {:induction false} NotYetInHistory(events: seq<Event>, p: Policy, now: nat)
    requires Before(events, now) && DistinctCalls(events + [Call(now)])
    ensures now !in HistoryRun(events, p)
  {
    if events != [] {
      var before, e := events[..|events| - 1], events[|events| - 1];
      var all := events + [Call(now)];
      assert all[|events| - 1] == e && all[|events|] == Call(now);
      BeforeParts(events, now);
      if e.at == now {
        // only drops share the instant with the coming call
        var shorter := before + [Call(now)];
        assert forall i :: 0 <= i < |shorter| ==> shorter[i] == all[if i == |before| then |events| else i];
        NotYetInHistory(before, p, now);
      } else {
        HistoryIsPast(events, p, now);
        HistoryIsPast(before, p, e.at);
      }
    }
  }

  lemma {:induction false} RedisRunKeeps(events: seq<Event>, p: Policy, now: nat)
    requires PolicyOk(p) && p.window <= Ttl(p.window) && Before(events, now) && (DistinctCalls(events) || p.limit == 1)
    ensures ScoresOk(RedisRun(events, p), HistoryRun(events, p), p, now)
  {
    if events != [] {
      var before, e := events[..|events| - 1], events[|events| - 1];
      BeforeParts(events, now);
      RedisRunKeeps(before, p, e.at);
      var s, h := RedisRun(before, p), HistoryRun(before, p);
      if e.Call? {
        assert before + [Call(e.at)] == events;
        if DistinctCalls(events) { NotYetInHistory(before, p, e.at); }
        RedisStepKeeps(s, h, p, e.at);
      } else if e.DropKey? && e.at >= s.expiresAt {
        DropKeepsScores(s, h, p, e.at);
      }
    }
  }

  ghost predicate Agree(events: seq<Event>, p: Policy, now: nat) {
    RedisDecision(RedisRun(events, p), p, now) == FirestoreDecision(FirestoreRun(events, p), p, now)
  }

  /**
   With distinct timestamps (or a limit of one) and a key expiry no shorter than the window, the script and the
   transaction answer alike on every call, although they prune and expire differently.
   */
  lemma LimitersAgree(events: seq<Event>, p: Policy, now: nat)
    requires PolicyOk(p) && p.window <= Ttl(p.window) && Before(events, now) && (DistinctCalls(events) || p.limit == 1)
    ensures Agree(events, p, now)
  {
    RedisRunKeeps(events, p, now);
    RedisCountsHistory(RedisRun(events, p), HistoryRun(events, p), p, now);
    FirestoreRefinesHistory(events, p, now);
  }

  /** The timestamps of the calls that Redis admitted. */
  function RedisAdmits(events: seq<Event>, p: Policy): seq<int> {
    if events == [] then []
    else
      var before, e := events[..|events| - 1], events[|events| - 1];
      RedisAdmits(before, p)
      + (if e.Call? && RedisDecision(RedisRun(before, p), p, e.at).allowed then [e.at] else [])
  }

  lemma {:induction false} RedisAdmitsTheHistory(events: seq<Event>, p: Policy, now: nat)
    requires PolicyOk(p) && p.window <= Ttl(p.window) && Before(events, now) && (DistinctCalls(events) || p.limit == 1)
    ensures RedisAdmits(events, p) == HistoryRun(events, p)
  {
    if events != [] {
      var before, e := events[..|events| - 1], events[|events| - 1];
      BeforeParts(events, now);
      RedisAdmitsTheHistory(before, p, e.at);
      RedisRunKeeps(before, p, e.at);
      RedisCountsHistory(RedisRun(before, p), HistoryRun(before, p), p, e.at);
    }
  }

  /** Under the same conditions Redis too admits exactly the calls with room in their window. */
  lemma RedisAdmitsExactly(events: seq<Event>, p: Policy, now: nat)
    requires PolicyOk(p) && p.window <= Ttl(p.window) && Before(events, now) && (DistinctCalls(events) || p.limit == 1)
    ensures DecidedBy(RedisDecision(RedisRun(events, p), p, now),
                      Count(RedisAdmits(events, p), now - p.window, now), p)
  {
    RedisAdmitsTheHistory(events, p, now);
    LimitersAgree(events, p, now);
    FirestoreRefinesHistory(events, p, now);
    HistoryDecides(events, p, now);
  }

  /** Under the same conditions Redis too admits no more than `limit` requests in any half-open window. */
  lemma RedisHoldsTheLimit(events: seq<Event>, p: Policy, now: nat, end: int)
    requires PolicyOk(p) && p.window <= Ttl(p.window) && Before(events, now) && (DistinctCalls(events) || p.limit == 1)
    ensures Count(RedisAdmits(events, p), end - p.window, end) <= p.limit
  {
    RedisAdmitsTheHistory(events, p, now);
    NeverMoreThanLimit(events, p, now, end);
  }

  // ------------------------------------------------------------------ the oldest score, and the reset time it gives

  ghost predicate IsLeast(s: set<int>, x: int) {
    x in s && forall y :: y in s ==> x <= y
  }

  lemma {:induction false} LeastBelow(s: set<int>, x: int) returns (least: int)
    requires x in s
    ensures IsLeast(s, least)
  {
    least := x;
    if y :| y in s && y < x {
      least := LeastBelow(s - {x}, y);
      forall z | z in s ensures least <= z { assert z == x || z in s - {x}; }
    }
  }

  lemma SomeMember<T>(s: set<T>) returns (x: T)
    requires s != {}
    ensures x in s
  {
    x :| x in s;
  }

  lemma HasLeast(s: set<int>) returns (least: int)
    requires s != {}
    ensures IsLeast(s, least)
  {
    var x := SomeMember(s);
    least := LeastBelow(s, x);
  }

  lemma PrunedIsRecent(s: Scores, h: seq<int>, p: Policy, now: int, x: int)
    requires ScoresOk(s, h, p, now)
    ensures x in Pruned(s, p, now) <==> x in Recent(h, now - p.window)
  {
    RecentMembers(h, now - p.window);
  }

  lemma LeastPruned(s: Scores, h: seq<int>, p: Policy, now: int, x: int)
    requires ScoresOk(s, h, p, now) && IsLeast(Pruned(s, p, now), x)
    ensures Recent(h, now - p.window) != [] && Min(Recent(h, now - p.window)) == x
  {
    forall y ensures y in Pruned(s, p, now) <==> y in Recent(h, now - p.window) { PrunedIsRecent(s, h, p, now, y); }
    LeastIsMin(Pruned(s, p, now), Recent(h, now - p.window), x);
  }

  lemma SameRecentNow(events: seq<Event>, p: Policy, now: nat)
    requires PolicyOk(p) && Before(events, now)
    ensures Recent(FirestoreRun(events, p).timestamps, now - p.window) == Recent(HistoryRun(events, p), now - p.window)
  {
    FirestoreRunKeeps(events, p, now);
  }

  lemma LeastIsMin(s: set<int>, ts: seq<int>, x: int)
    requires IsLeast(s, x) && forall y :: y in s <==> y in ts
    ensures ts != [] && Min(ts) == x
  {
    assert x in ts;
    MinIsLeast(ts);
  }

  lemma LeastOfHistory(events: seq<Event>, p: Policy, now: nat, oldest: int)
    requires PolicyOk(p) && p.window <= Ttl(p.window) && Before(events, now) && (DistinctCalls(events) || p.limit == 1)
    requires IsLeast(Pruned(RedisRun(events, p), p, now), oldest)
    ensures var recent := Recent(HistoryRun(events, p), now - p.window); recent != [] && Min(recent) == oldest
  {
    RedisRunKeeps(events, p, now);
    LeastPruned(RedisRun(events, p), HistoryRun(events, p), p, now, oldest);
  }

  /** The reset time that the transaction announces in a denial. */
  ghost predicate ResetsAt(d: Document, p: Policy, now: int, resetAt: int) {
    Recent(d.timestamps, now - p.window) != [] && ResetAt(d, p, now) == resetAt
  }

  lemma ResetOfLeast(d: Document, h: seq<int>, p: Policy, now: int, oldest: int)
    requires Recent(d.timestamps, now - p.window) == Recent(h, now - p.window) != []
    requires Min(Recent(h, now - p.window)) == oldest
    ensures ResetsAt(d, p, now, oldest + p.window)
  {
  }

  /** The oldest score that the script names in a denial gives the reset time that the transaction announces. */
  lemma ResetTimesAgree(events: seq<Event>, p: Policy, now: nat, oldest: int)
    requires PolicyOk(p) && p.window <= Ttl(p.window) && Before(events, now) && (DistinctCalls(events) || p.limit == 1)
    requires IsLeast(Pruned(RedisRun(events, p), p, now), oldest)
    ensures ResetsAt(FirestoreRun(events, p), p, now, oldest + p.window)
  {
    LeastOfHistory(events, p, now, oldest);
    SameRecentNow(events, p, now);
    ResetOfLeast(FirestoreRun(events, p), HistoryRun(events, p), p, now, oldest);
  }

  // ------------------------------------------------------------------ the conditions are exact

  /** A window of whole milliseconds is covered by the expiry, which is the next whole second. */
  lemma WholeMillisecondsAreCovered(window: int)
    requires window > 0 && window % MILLISECOND == 0
    ensures window <= Ttl(window) < window + SECOND && Ttl(window) % SECOND == 0
  {
    var ms := window / MILLISECOND;
    assert window == ms * MILLISECOND;
    assert ms <= (ms + 999) / 1000 * 1000;
  }

  /** A window the expiry does not cover makes them differ, after one call and the key's expiry. */
  lemma ShortExpiryIsVisible(p: Policy) returns (events: seq<Event>, now: nat)
    requires PolicyOk(p) && p.window > Ttl(p.window)
    ensures Before(events, now) && DistinctCalls(events)
    ensures RedisDecision(RedisRun(events, p), p, now) != FirestoreDecision(FirestoreRun(events, p), p, now)
  {
    now := Ttl(p.window);
    events := [Call(0)] + [DropKey(now)];
    OneCall(p, 0);
    assert events[..1] == [Call(0)];
    assert Recent([0], now - p.window) == [0];
    assert Pruned(RedisRun(events, p), p, now) == {};
  }

  lemma OneCall(p: Policy, t: nat)
    requires PolicyOk(p)
    ensures RedisRun([Call(t)], p) == Scores({t}, t + Ttl(p.window))
    ensures FirestoreRun([Call(t)], p) == Document([t], t + 2 * p.window)
  {
    assert [Call(t)][..0] == [];
    assert Pruned(Scores({}, 0), p, t) == {};
  }

  /** As long as calls are distinct, the two agree for ever exactly when the expiry covers the window. */
  lemma ExpiryMustCover(p: Policy)
    requires PolicyOk(p)
    ensures p.window <= Ttl(p.window)
            <==> forall events, now :: Before(events, now) && DistinctCalls(events) ==> Agree(events, p, now)
  {
    if p.window <= Ttl(p.window) {
      forall events, now | Before(events, now) && DistinctCalls(events) ensures Agree(events, p, now) {
        LimitersAgree(events, p, now);
      }
    } else {
      var events, now := ShortExpiryIsVisible(p);
      assert !Agree(events, p, now);
    }
  }

  /** What simultaneous calls leave in the set, and how it decides: they are one member. */
  lemma OneMember(p: Policy, t: nat, expiresAt: int)
    requires PolicyOk(p)
    ensures Pruned(Scores({}, expiresAt), p, t) == {} && Pruned(Scores({t}, expiresAt), p, t) == {t}
    ensures RedisDecision(Scores({}, expiresAt), p, t) == Judge(0, p)
    ensures RedisDecision(Scores({t}, expiresAt), p, t) == Judge(1, p)
  {
  }

  function AfterSimultaneous(p: Policy, t: nat, n: nat): Scores {
    if n == 0 then Scores({}, 0) else Scores({t}, t + Ttl(p.window))
  }

  lemma OneMoreSimultaneous(p: Policy, t: nat, n: nat)
    requires PolicyOk(p) && p.limit >= 2
    ensures RedisDecision(AfterSimultaneous(p, t, n), p, t).allowed
    ensures RedisStep(AfterSimultaneous(p, t, n), p, t) == AfterSimultaneous(p, t, n + 1)
  {
    OneMember(p, t, AfterSimultaneous(p, t, n).expiresAt);
    assert {t as int} + {t} == {t} && {} + {t as int} == {t};
  }

  lemma {:induction false} SimultaneousRun(p: Policy, t: nat, n: nat)
    requires PolicyOk(p) && p.limit >= 2
    ensures RedisRun(Simultaneous(t, n), p) == AfterSimultaneous(p, t, n)
  {
    if n > 0 {
      var all := Simultaneous(t, n);
      SimultaneousRun(p, t, n - 1);
      assert all[..|all| - 1] == Simultaneous(t, n - 1);
      OneMoreSimultaneous(p, t, n - 1);
    }
  }

  lemma RedisAdmitsCall(events: seq<Event>, p: Policy, t: nat)
    requires RedisDecision(RedisRun(events, p), p, t).allowed
    ensures |RedisAdmits(events + [Call(t)], p)| == |RedisAdmits(events, p)| + 1
  {
    assert (events + [Call(t)])[..|events|] == events;
  }

  /** With room for two, any number of simultaneous calls is admitted by Redis: the bound needs distinct timestamps. */
  lemma {:induction false} SimultaneousCallsAreAdmitted(p: Policy, t: nat, n: nat)
    requires PolicyOk(p) && p.limit >= 2
    ensures |RedisAdmits(Simultaneous(t, n), p)| == n
  {
    if n > 0 {
      SimultaneousCallsAreAdmitted(p, t, n - 1);
      SimultaneousRun(p, t, n - 1);
      OneMoreSimultaneous(p, t, n - 1);
      RedisAdmitsCall(Simultaneous(t, n - 1), p, t);
      assert Simultaneous(t, n) == Simultaneous(t, n - 1) + [Call(t)];
    }
  }

  lemma AllRecent(one: seq<int>, t: int, start: int)
    requires one == [t] && start < t
    ensures Recent(one, start) == one && Recent(one + [t], start) == one + [t]
  {
    RecentAppend([], t, start);
    assert [] + one == one && Recent([], start) == [];
    RecentAppend(one, t, start);
  }

  lemma DocumentWithTwo(p: Policy, one: seq<int>, t: nat, expiresAt: int)
    requires PolicyOk(p) && p.limit >= 2 && one == [t]
    ensures FirestoreDecision(FirestoreStep(Document(one, expiresAt), p, t), p, t) == Judge(2, p)
  {
    AllRecent(one, t, t - p.window);
  }

  lemma TwoInDocument(p: Policy, t: nat)
    requires PolicyOk(p) && p.limit >= 2
    ensures FirestoreDecision(FirestoreRun(Simultaneous(t, 2), p), p, t) == Judge(2, p)
  {
    assert Simultaneous(t, 2) == [Call(t)] + [Call(t)];
    RunsOneMore([Call(t)], p, Call(t));
    OneCall(p, t);
    DocumentWithTwo(p, [t], t, t + 2 * p.window);
  }

  /** Equal timestamps collapse in the set: with room for two, a third simultaneous call is answered differently. */
  lemma EqualTimestampsAreVisible(p: Policy, t: nat)
    requires PolicyOk(p) && p.limit >= 2
    ensures Before(Simultaneous(t, 2), t) && !Agree(Simultaneous(t, 2), p, t)
  {
    SimultaneousRun(p, t, 2);
    OneMember(p, t, t + Ttl(p.window));
    TwoInDocument(p, t);
  }

  /** With a covering expiry, only a limit of one makes distinct timestamps unnecessary. */
  lemma DistinctCallsAreNeeded(p: Policy)
    requires PolicyOk(p) && p.window <= Ttl(p.window)
    ensures p.limit == 1 <==> forall events, now :: Before(events, now) ==> Agree(events, p, now)
  {
    if p.limit == 1 {
      forall events, now | Before(events, now) ensures Agree(events, p, now) { LimitersAgree(events, p, now); }
    } else {
      EqualTimestampsAreVisible(p, 0);
    }
  }

  // ------------------------------------------------------------------ the limiters as objects

  datatype Result = InvalidPolicy | Checked(decision: Decision, resetAt: int, retryAfter: int)

  function Refusal(resetAt: int, later: int): Result {
    Checked(Decision(false, 0), resetAt, if resetAt < later then 0 else resetAt - later)
  }

  function FirestoreAnswer(d: Document, p: Policy, now: int, later: int): Result
    requires PolicyOk(p)
  {
    var decision := FirestoreDecision(d, p, now);
    if decision.allowed then Checked(decision, now + p.window, 0) else Refusal(ResetAt(d, p, now), later)
  }

  class FirestoreRateLimitService {
    var documents: map<string, Document>

    function DocumentOf(key: string): Document
      reads this
    {
      if key in documents then documents[key] else Document([], 0)
    }

    constructor ()
      ensures documents == map[]
    {
      documents := map[];
    }

    static method After(ts: seq<int>, start: int) returns (kept: seq<int>)
      ensures kept == Recent(ts, start)
    {
      kept := [];
      for i := 0 to |ts|
        invariant kept == Recent(ts[..i], start)
      {
        assert ts[..i + 1][..i] == ts[..i];
        if ts[i] > start {
          kept := kept + [ts[i]];
        }
      }
      assert ts[..|ts|] == ts;
    }

    static method Oldest(ts: seq<int>) returns (oldest: int)
      requires ts != []
      ensures oldest == Min(ts)
      ensures oldest in ts && forall x :: x in ts ==> oldest <= x
    {
      oldest := ts[0];
      for i := 0 to |ts|
        invariant i == 0 ==> oldest == ts[0]
        invariant i > 0 ==> oldest == Min(ts[..i])
      {
        assert ts[..i + 1][..i] == ts[..i];
        if ts[i] < oldest {
          oldest := ts[i];
        }
      }
      assert ts[..|ts|] == ts;
      MinIsLeast(ts);
    }

    /** The document's timestamps within the window, filtered while decoding and once more afterwards. */
    method ValidTimestamps(key: string, windowStart: int) returns (valid: seq<int>)
      ensures valid == Recent(DocumentOf(key).timestamps, windowStart)
    {
      var timestamps := [];
      if key in documents {
        timestamps := After(documents[key].timestamps, windowStart);
      }
      valid := After(timestamps, windowStart);
      RecentTwice(DocumentOf(key).timestamps, windowStart, windowStart);
    }

    /** `later` is the instant at which the retry delay is computed. */
    static method Refuse(valid: seq<int>, p: Policy, later: int) returns (res: Result)
      requires valid != []
      ensures res == Refusal(Min(valid) + p.window, later)
    {
      var oldest := Oldest(valid);
      var resetAt := oldest + p.window;
      var retryAfter := resetAt - later;
      if retryAfter < 0 {
        retryAfter := 0;
      }
      res := Checked(Decision(false, 0), resetAt, retryAfter);
    }

    method CheckRateLimit(key: string, p: Policy, now: int, later: int) returns (res: Result)
      modifies this
      ensures !PolicyOk(p) ==> res == InvalidPolicy && documents == old(documents)
      ensures PolicyOk(p) ==> res == FirestoreAnswer(old(DocumentOf(key)), p, now, later)
      ensures PolicyOk(p) ==>
                documents == if res.decision.allowed
                             then old(documents)[key := FirestoreStep(old(DocumentOf(key)), p, now)]
                             else old(documents)
    {
      if p.limit <= 0 || p.window <= 0 { return InvalidPolicy; }
      var validTimestamps := ValidTimestamps(key, now - p.window);
      if |validTimestamps| >= p.limit {
        res := Refuse(validTimestamps, p, later);
        return;
      }
      res := Admit(key, validTimestamps, p, now);
    }

    /** Rewrites the document with the pruned list and the current request. */
    method Admit(key: string, valid: seq<int>, p: Policy, now: int) returns (res: Result)
      modifies this
      ensures res == Checked(Decision(true, p.limit - |valid| - 1), now + p.window, 0)
      ensures documents == old(documents)[key := Document(valid + [now], now + 2 * p.window)]
    {
      var updated := valid + [now];
      documents := documents[key := Document(updated, now + 2 * p.window)];
      res := Checked(Decision(true, p.limit - |updated|), now + p.window, 0);
    }
  }

  class RedisRateLimitService {
    var sets: map<string, Scores>

    function ScoresOf(key: string): Scores
      reads this
    {
      if key in sets then sets[key] else Scores({}, 0)
    }

    constructor ()
      ensures sets == map[]
    {
      sets := map[];
    }

    /** ZREMRANGEBYSCORE from zero to the start of the window. */
    method Prune(key: string, windowStart: int)
      modifies this
      ensures var entry := old(ScoresOf(key));
              var kept := set x | x in entry.members && !(0 <= x <= windowStart);
              sets == old(sets)[key := entry.(members := kept)]
    {
      var entry := ScoresOf(key);
      var members := entry.members - set x | x in entry.members && 0 <= x <= windowStart;
      assert members == set x | x in entry.members && !(0 <= x <= windowStart);
      sets := sets[key := entry.(members := members)];
    }

    /** ZRANGE 0 0: the member with the least score. */
    static method Oldest(members: set<int>) returns (oldest: int)
      requires members != {}
      ensures IsLeast(members, oldest)
    {
      ghost var least := HasLeast(members);
      oldest :| oldest in members && forall y :: y in members ==> oldest <= y;
    }

    /** The script, one atomic step: the decision, and with a denial the oldest score in the set. */
    method RunScript(key: string, p: Policy, now: int) returns (decision: Decision, oldest: Option<int>)
      requires PolicyOk(p)
      modifies this
      ensures decision == RedisDecision(old(ScoresOf(key)), p, now)
      ensures decision.allowed <==> oldest.None?
      ensures oldest.Some? ==> IsLeast(Pruned(old(ScoresOf(key)), p, now), oldest.value)
      ensures sets == old(sets)[key := RedisStep(old(ScoresOf(key)), p, now)]
    {
      Prune(key, now - p.window);
      var members := ScoresOf(key).members;
      assert members == Pruned(old(ScoresOf(key)), p, now);
      var count := |members|;
      if count < p.limit {
        sets := sets[key := Scores(members + {now}, now + Ttl(p.window))];
        return Decision(true, p.limit - count - 1), None;
      }
      var first := Oldest(members);
      return Decision(false, 0), Some(first);
    }
  }
}
