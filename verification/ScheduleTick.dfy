/** selectWorkflowScheduleTick: which cron occurrence a scheduler pass fires. */
module ScheduleTick {
  import opened Text
  import opened Wrappers

  /** Nanoseconds since the Unix epoch. */
  type Instant = int

  const SECOND := 1_000_000_000

  /** time.Time{}: the first instant of year 1, Go's "no time". */
  const NO_TIME: Instant := -62_135_596_800 * SECOND

  /** Time.Unix: whole seconds, rounded down. */
  function Unix(t: Instant): int {
    t / SECOND
  }

  /** cron.Schedule.Next in the configured location. */
  type Schedule = Instant -> Instant

  /** A well-behaved schedule: an endless set of whole-second occurrences, of which Next gives the
      least one after an instant. */
  ghost predicate Cron(next: Schedule, ticks: iset<Instant>) {
    && (forall t :: Next(next, ticks, t))
    && (forall u :: u in ticks ==> u % SECOND == 0)
  }

  ghost predicate Next(next: Schedule, ticks: iset<Instant>, t: Instant) {
    next(t) in ticks && next(t) != NO_TIME && t < next(t) && forall u :: u in ticks && t < u ==> next(t) <= u
  }

  // ---- 64-bit arithmetic --------------------------------------------------------------

  const TWO_64 := 0x1_0000_0000_0000_0000

  predicate IsInt64(x: int) {
    MIN_INT <= x <= MAX_INT
  }

  /** Conversion to uint64, and wrap-around of uint64 operations. */
  function U64(x: int): int {
    x % TWO_64
  }

  /** Conversion to int64, and wrap-around of int64 operations. */
  function I64(x: int): int {
    if U64(x) > MAX_INT then U64(x) - TWO_64 else U64(x)
  }

  /** The unsigned distance, as the bisection computes it. */
  function Distance(low: int, high: int): int {
    U64(U64(high) - U64(low))
  }

  /** The midpoint, as the bisection computes it. */
  function Middle(low: int, high: int): int {
    I64(low + I64(Distance(low, high) / 2))
  }

  lemma Wrapped(x: int)
    requires -TWO_64 <= x < TWO_64
    ensures U64(x) == if x < 0 then x + TWO_64 else x
    ensures IsInt64(x) ==> I64(x) == x
  {
    if x < 0 {
      assert (x + TWO_64) % TWO_64 == x % TWO_64;
    }
  }

  /** For every pair of int64 endpoints the wrapped operations give the true distance and the
      true midpoint, also where the interval crosses the epoch or spans the whole range. */
  lemma BisectionIsExact(low: int, high: int)
    requires IsInt64(low) && IsInt64(high) && low <= high
    ensures Distance(low, high) == high - low
    ensures Middle(low, high) == low + (high - low) / 2
  {
    hide U64, I64;
    Wrapped(low);
    Wrapped(high);
    Wrapped(U64(high) - U64(low));
    Wrapped((high - low) / 2);
    Wrapped(low + (high - low) / 2);
  }

  function Pow2(n: nat): nat {
    if n == 0 then 1 else 2 * Pow2(n - 1)
  }

  // ---- Selection ----------------------------------------------------------------------

  datatype Selection = Due(tick: Instant, following: Instant) | NotDue(upcoming: Instant) | Invalid

  predicate KnownPolicy(policy: string) {
    policy == "" || policy == "skip" || policy == "catch_up"
  }

  /** What the selector promises for a well-behaved schedule. */
  ghost predicate Selects(next: Schedule, ticks: iset<Instant>, lastFired: Instant, now: Instant, policy: string, r: Selection) {
    var first := next(lastFired);
    if lastFired == NO_TIME || now == NO_TIME || !KnownPolicy(Normalize(policy)) then r == Invalid
    else if now < first then r == NotDue(first)
    else if Normalize(policy) == "catch_up" then r == Due(first, next(first))
    else
      && r.Due?
      && r.tick in ticks && lastFired < r.tick <= now && (forall u :: u in ticks && u <= now ==> u <= r.tick)
      && r.following in ticks && now < r.following && (forall u :: u in ticks && now < u ==> r.following <= u)
  }

  /** selectWorkflowScheduleTick.  Whatever the schedule does, a tick reported due lies after the
      last one fired and not after now, and the search is bounded. */
  method SelectWorkflowScheduleTick(next: Schedule, ghost ticks: iset<Instant>, lastFired: Instant, now: Instant, policy: string)
    returns (r: Selection, probes: nat)
    requires IsInt64(Unix(lastFired)) && IsInt64(Unix(now))
    ensures probes <= 64
    ensures r.Due? ==> lastFired < r.tick <= now && r.tick < r.following
    ensures Cron(next, ticks) ==> Selects(next, ticks, lastFired, now, policy, r)
    ensures Cron(next, ticks) && lastFired != NO_TIME && now != NO_TIME ==>
              var known := Lower(Trim(policy)) in {"", "skip", "catch_up"};
              && (r.Invalid? <==> !known)
              && (known ==> (r.Due? <==> exists u :: u in ticks && lastFired < u <= now))
              && (r.Due? && Lower(Trim(policy)) != "catch_up" ==>
                    && r.tick in ticks && (forall u :: u in ticks && u <= now ==> u <= r.tick)
                    && r.following in ticks && now < r.following && (forall u :: u in ticks && now < u ==> r.following <= u))
              && (r.Due? && Lower(Trim(policy)) == "catch_up" ==>
                    && r.tick in ticks && (forall u :: u in ticks && lastFired < u ==> r.tick <= u)
                    && r.following in ticks && (forall u :: u in ticks && r.tick < u ==> r.following <= u))
  {
    r, probes := SelectTick(next, ticks, lastFired, now, policy);
    if Cron(next, ticks) && lastFired != NO_TIME && now != NO_TIME {
      SelectsText(next, ticks, lastFired, now, policy, r);
    }
    hide Cron, Selects, Lower, Trim;
  }

  lemma SelectsText(next: Schedule, ticks: iset<Instant>, lastFired: Instant, now: Instant, policy: string, r: Selection)
    requires Cron(next, ticks) && Selects(next, ticks, lastFired, now, policy, r) && lastFired != NO_TIME && now != NO_TIME
    ensures var known := Lower(Trim(policy)) in {"", "skip", "catch_up"};
            && (r.Invalid? <==> !known)
            && (known ==> (r.Due? <==> exists u :: u in ticks && lastFired < u <= now))
            && (r.Due? && Lower(Trim(policy)) != "catch_up" ==>
                  && r.tick in ticks && (forall u :: u in ticks && u <= now ==> u <= r.tick)
                  && r.following in ticks && now < r.following && (forall u :: u in ticks && now < u ==> r.following <= u))
            && (r.Due? && Lower(Trim(policy)) == "catch_up" ==>
                  && r.tick in ticks && (forall u :: u in ticks && lastFired < u ==> r.tick <= u)
                  && r.following in ticks && (forall u :: u in ticks && r.tick < u ==> r.following <= u))
  {
    hide Lower, Trim;
    var first := next(lastFired);
    assert Next(next, ticks, lastFired) && Next(next, ticks, first);
  }

  /** The selection itself. */
  method SelectTick(next: Schedule, ghost ticks: iset<Instant>, lastFired: Instant, now: Instant, policy: string)
    returns (r: Selection, probes: nat)
    requires IsInt64(Unix(lastFired)) && IsInt64(Unix(now))
    ensures probes <= 64
    ensures r.Due? ==> lastFired < r.tick <= now && r.tick < r.following
    ensures Cron(next, ticks) ==> Selects(next, ticks, lastFired, now, policy, r)
  {
    probes := 0;
    var normalized := Normalize(policy);
    hide Normalize;
    if lastFired == NO_TIME || now == NO_TIME || !KnownPolicy(normalized) {
      return Invalid, probes;
    }
    var first := next(lastFired);
    assert Cron(next, ticks) ==> Next(next, ticks, lastFired);
    if first == NO_TIME || first <= lastFired {
      return Invalid, probes;
    }
    if now < first {
      return NotDue(first), probes;
    }
    var following := next(first);
    assert Cron(next, ticks) ==> Next(next, ticks, first);
    if following == NO_TIME || following <= first {
      return Invalid, probes;
    }
    if normalized == "catch_up" || now < following {
      return Due(first, following), probes;
    }
    var found;
    found, probes := Bisect(next, ticks, first, following, now);
    if found.None? {
      return Invalid, probes;
    }
    var selected := found.value;
    var after := next(selected);
    assert Cron(next, ticks) ==> Next(next, ticks, selected);
    if after == NO_TIME || after <= selected || selected < first || now < selected || after <= now {
      return Invalid, probes;
    }
    return Due(selected, after), probes;
  }

  /** A whole second after `t` is at least one second past the second `t` falls in. */
  lemma NextSecond(t: Instant, tick: Instant)
    requires tick % SECOND == 0 && Unix(t) * SECOND < tick
    ensures t < tick && (Unix(t) + 1) * SECOND <= tick
  {
  }

  /** The bisection over seconds; None stands for its invalid exits. */
  method Bisect(next: Schedule, ghost ticks: iset<Instant>, first: Instant, following: Instant, now: Instant)
    returns (r: Option<Instant>, probes: nat)
    requires IsInt64(Unix(first)) && IsInt64(Unix(now)) && first < following <= now && following == next(first)
    ensures probes <= 64
    ensures Cron(next, ticks) && first in ticks ==>
              && r.Some? && r.value in ticks && first < r.value <= now
              && forall u :: u in ticks && u <= now ==> u <= r.value
  {
    probes := 0;
    ghost var regular := Cron(next, ticks) && first in ticks;
    var low, high := Unix(first), Unix(now);
    if regular {
      assert Next(next, ticks, first) && Next(next, ticks, high * SECOND);
      NextSecond(now, next(high * SECOND));
    }
    if low >= high {
      return None, probes;
    }
    var selected := following;
    BisectionIsExact(low, high);
    Pow64();
    hide Distance, Middle, Cron, Next;
    while Distance(low, high) > 1
      invariant IsInt64(low) && IsInt64(high) && low < high
      invariant probes <= 64 && high - low <= Pow2(64 - probes)
      invariant Distance(low, high) == high - low
      invariant regular ==> first <= low * SECOND && selected == next(low * SECOND) <= now < next(high * SECOND)
      decreases high - low
    {
      var middle := Middle(low, high);
      BisectionIsExact(low, high);
      assert low < middle < high;
      var candidate := next(middle * SECOND);
      probes := probes + 1;
      if regular {
        Forward(next, ticks, middle * SECOND);
      }
      if candidate == NO_TIME || candidate <= middle * SECOND {
        return None, probes;
      }
      if now < candidate {
        high := middle;
      } else {
        low, selected := middle, candidate;
      }
      BisectionIsExact(low, high);
    }
    if regular {
      LastPlateau(next, ticks, low, now);
    }
    return Some(selected), probes;
  }

  lemma Forward(next: Schedule, ticks: iset<Instant>, t: Instant)
    requires Cron(next, ticks)
    ensures next(t) != NO_TIME && t < next(t)
  {
    assert Next(next, ticks, t);
  }

  lemma Pow64()
    ensures Pow2(64) == TWO_64
  {
    assert Pow2(1) == 2 && Pow2(2) == 4;
    PowSquare(2);
    PowSquare(4);
    PowSquare(8);
    PowSquare(16);
    PowSquare(32);
  }

  lemma {:induction false} PowSquare(n: nat)
    ensures Pow2(2 * n) == Pow2(n) * Pow2(n)
  {
    if n > 0 {
      PowSquare(n - 1);
      assert Pow2(2 * n) == 2 * Pow2(2 * n - 1) == 4 * Pow2(2 * (n - 1));
    }
  }

  /** When Next is due from one second and not from the following one, it is the last due occurrence. */
  lemma LastPlateau(next: Schedule, ticks: iset<Instant>, low: int, now: Instant)
    requires Cron(next, ticks) && next(low * SECOND) <= now < next((low + 1) * SECOND)
    ensures next(low * SECOND) in ticks && low * SECOND < next(low * SECOND)
    ensures forall u :: u in ticks && u <= now ==> u <= next(low * SECOND)
  {
    assert Next(next, ticks, low * SECOND) && Next(next, ticks, (low + 1) * SECOND);
    NextSecond(low * SECOND, next(low * SECOND));
  }
}
