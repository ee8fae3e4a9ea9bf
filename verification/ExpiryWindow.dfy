/** From the requested lifetime to the last instant a paste can be served. All instants are nanoseconds. */
module ExpiryWindow {
  import opened Common

  const MIN_EXPIRY_SECONDS: int := 60
  const MAX_EXPIRY_SECONDS: int := 30 * 24 * 60 * 60
  const MAX_FREE_TIER_EXPIRY_SECONDS: int := 7 * 24 * 60 * 60

  predicate AcceptedExpiry(seconds: int) {
    MIN_EXPIRY_SECONDS <= seconds <= MAX_EXPIRY_SECONDS
  }

  function Lifetime(seconds: int): int {
    if seconds > MAX_FREE_TIER_EXPIRY_SECONDS then MAX_FREE_TIER_EXPIRY_SECONDS else seconds
  }

  /** What is stored: the expiry truncated to the backend's resolution. */
  function StoredExpiry(created: int, lifetime: int, tick: int): int
    requires tick > 0
  {
    (created + lifetime * SECOND) / tick
  }

  /** The comparison in the SELECT, which truncates the clock as well. */
  predicate SelectedAt(stored: int, now: int, tick: int)
    requires tick > 0
  {
    stored > now / tick
  }

  /** The handler compares the parsed expiry with an untruncated clock, a moment later. */
  predicate StillServedAt(stored: int, now: int, tick: int) {
    !(now > stored * tick)
  }

  /** The single instant up to which a paste is served. */
  function CutOff(created: int, lifetime: int, tick: int): int
    requires tick > 0
  {
    StoredExpiry(created, lifetime, tick) * tick
  }

  lemma FloorBounds(x: int, tick: int)
    requires tick > 0
    ensures x - tick < x / tick * tick <= x
  {
    assert x == x / tick * tick + x % tick;
  }

  lemma TicksBelow(k: int, now: int, tick: int)
    requires tick > 0
    ensures now / tick < k <==> now < k * tick
  {
    var q := now / tick;
    FloorBounds(now, tick);
    if q < k {
      TimesKeepsOrder(q + 1, k, tick);
      assert (q + 1) * tick == q * tick + tick;
    } else {
      TimesKeepsOrder(k, q, tick);
    }
  }

  /**
   For every accepted request there is one cut-off, within one tick before the promised expiry and never after it:
   the query selects the paste exactly before the cut-off, and the handler serves it exactly up to it.
   */
  lemma ServedUpToOneCutOff(created: int, requested: int, tick: int, selected: int, served: int)
    requires tick > 0 && AcceptedExpiry(requested)
    ensures var promised := created + Lifetime(requested) * SECOND;
            var cut := CutOff(created, Lifetime(requested), tick);
            var stored := StoredExpiry(created, Lifetime(requested), tick);
            && promised - tick < cut <= promised
            && (SelectedAt(stored, selected, tick) <==> selected < cut)
            && (StillServedAt(stored, served, tick) <==> served <= cut)
    ensures MIN_EXPIRY_SECONDS <= Lifetime(requested) <= MAX_FREE_TIER_EXPIRY_SECONDS
    ensures Lifetime(requested) <= requested
    ensures Lifetime(requested) == requested || Lifetime(requested) == MAX_FREE_TIER_EXPIRY_SECONDS
  {
    FloorBounds(created + Lifetime(requested) * SECOND, tick);
    TicksBelow(StoredExpiry(created, Lifetime(requested), tick), selected, tick);
  }
}
