/** The fence rule: keeping a passed bound passed while the wall clock steps either way. */
module Fences {
  import opened Widths
  import opened Lifetimes

  /** The time overdue: the wait reading less the wait deadline, never negative. */
  function Overdue(b: Bound, at: ClockReading): (ns: nat)
    ensures ns == Max(0, -b.RemainingNs(at))
  {
    Max(0, at.wait - b.WaitDeadline(at, 0))
  }

  /** Moves the continuous deadline to where the bound fell on this reading, saturating at 0. */
  function Fenced(b: Bound, at: ClockReading): Bound {
    Bound(b.notAfter, Continuous(at.continuous.boot, Max(0, at.continuous.ns - Overdue(b, at))))
  }

  predicate Saturates(b: Bound, at: ClockReading) {
    Overdue(b, at) > at.continuous.ns
  }

  /** A reading the continuous clock refused to give. */
  predicate IsRefused(r: ClockReading) {
    r.continuous.ns == U64_MAX
  }

  /** `next` is a later reading of the same session: since a good reading, continuous time went
      on at least as long as wait time, and the wall clock may have been set anywhere. */
  predicate Follows(at: ClockReading, next: ClockReading) {
    && next.continuous.boot == at.continuous.boot
    && at.wait <= next.wait
    && (IsRefused(at) || next.wait - at.wait <= next.continuous.ns - at.continuous.ns)
  }

  /** Time the host slept between two readings: continuous time the wait clock did not count. */
  function Asleep(at: ClockReading, next: ClockReading): int {
    (next.continuous.ns - at.continuous.ns) - (next.wait - at.wait)
  }

  /** Awake time, sleep, wall steps and refusals of the manual clock all lead to readings that follow. */
  lemma ClockStepsFollow(r: ClockReading, ms: u64, wall: u64)
    requires r.continuous.ns + ms * NS_PER_MS < U64_MAX
    ensures Follows(r, Advanced(r, ms))
    ensures Follows(r, r.(continuous := Continuous(r.continuous.boot, r.continuous.ns + ms * NS_PER_MS)))
    ensures Follows(r, r.(wall := wall))
    ensures Follows(r, r.(continuous := Continuous(r.continuous.boot, U64_MAX)))
  {
  }

  /** A run of readings in one boot session, good and refused. */
  predicate Trace(readings: seq<ClockReading>) {
    forall i, j | 0 <= i <= j < |readings| :: Follows(readings[i], readings[j])
  }

  /** A reading that follows the last good one, no earlier than the last, continues the run. */
  lemma TraceGrows(readings: seq<ClockReading>, good: nat, next: ClockReading)
    requires Trace(readings) && good < |readings| && !IsRefused(readings[good])
    requires forall k | good < k < |readings| :: IsRefused(readings[k])
    requires Follows(readings[good], next) && readings[|readings| - 1].wait <= next.wait
    ensures Trace(readings + [next])
  {
    var more := readings + [next];
    forall i, j | 0 <= i <= j < |more| ensures Follows(more[i], more[j]) {
      if j < |readings| {
        assert Follows(readings[i], readings[j]);
      } else if i < |readings| {
        assert Follows(readings[i], readings[|readings| - 1]);
        if i <= good { assert Follows(readings[i], readings[good]); }
      }
    }
  }

  predicate Reached(b: Bound, now: ClockReading, extraMs: u64) {
    b.WaitDeadline(now, extraMs) <= now.wait
  }

  // ---------------------------------------------------------------- one fence

  /** A fence at a passed good reading holds at every later reading of the session. Its wait
      deadline comes earlier than at the fence by at least the time asleep since, or, when it
      saturated, no later than the extra time after boot. */
  lemma FenceHolds(b: Bound, readings: seq<ClockReading>, i: nat, j: nat, extraMs: u64)
    requires Trace(readings) && i <= j < |readings|
    requires !IsRefused(readings[i]) && b.Passed(readings[i])
    ensures var at, now := readings[i], readings[j];
            var kept := Fenced(b, at);
            && kept.Passed(now) && 0 <= Asleep(at, now)
            && (if Saturates(b, at) then
                  kept.WaitDeadline(now, extraMs) <= now.wait - now.continuous.ns + extraMs * NS_PER_MS
                else
                  kept.WaitDeadline(now, extraMs) <= b.WaitDeadline(at, extraMs) - Asleep(at, now))
  {
    assert Follows(readings[i], readings[j]);
  }

  /** The fence keeps the wall deadline and puts the continuous one, in the reading's session, as
      far back as the wait deadline lies, or at 0. */
  lemma FenceIsWhereBoundFell(b: Bound, at: ClockReading)
    requires b.Passed(at)
    ensures Fenced(b, at).notAfter == b.notAfter && Fenced(b, at).continuous.boot == at.continuous.boot
    ensures at.continuous.ns - Fenced(b, at).continuous.ns == Min(at.continuous.ns, at.wait - b.WaitDeadline(at, 0))
    ensures Saturates(b, at) <==> at.wait - b.WaitDeadline(at, 0) > at.continuous.ns
  {
  }

  /** While the host stays awake and no wall step makes the wall reading the lesser, the kept
      deadline is exactly the fence's. */
  lemma FenceIsExactAwake(b: Bound, at: ClockReading, now: ClockReading, extraMs: u64)
    requires b.Passed(at) && !IsRefused(at) && !Saturates(b, at) && Follows(at, now) && Asleep(at, now) == 0
    requires (b.notAfter - now.wall) * NS_PER_MS >= b.RemainingNs(at) - (now.wait - at.wait)
    ensures Fenced(b, at).WaitDeadline(now, extraMs) == b.WaitDeadline(at, extraMs)
  {
  }

  /** Applying the rule again never moves the deadline later. */
  lemma FenceNeverRises(b: Bound, at: ClockReading)
    requires b.Passed(at) && b.continuous.boot == at.continuous.boot
    ensures Fenced(b, at).continuous.ns <= b.continuous.ns
  {
  }

  /** A cap reached at the fence stays reached at a later reading, wherever the wall clock is put,
      exactly when the fence did not saturate or the extra time since boot has gone by. */
  lemma CapStaysReached(b: Bound, at: ClockReading, next: ClockReading, extraMs: u64)
    requires b.Passed(at) && !IsRefused(at) && Reached(b, at, extraMs) && Follows(at, next)
    ensures (forall wall: u64 :: Reached(Fenced(b, at), next.(wall := wall), extraMs))
            <==> !Saturates(b, at) || next.continuous.ns >= extraMs * NS_PER_MS
  {
    var kept := Fenced(b, at);
    if Saturates(b, at) && next.continuous.ns < extraMs * NS_PER_MS {
      assert !Reached(kept, next.(wall := 0), extraMs);
    }
  }

  /** Taking the earlier of the bound and one that ends now is not a fence: for a bound passed on
      its wall reading alone, once the wall is set back its wait deadline is later than the
      fence's by the whole time overdue. */
  lemma EarlierNowIsLater(b: Bound, at: ClockReading, wall: u64, extraMs: u64)
    requires b.notAfter <= at.wall && !IsRefused(at) && !Saturates(b, at)
    requires b.continuous.boot == at.continuous.boot && at.continuous.ns <= b.continuous.ns && wall <= b.notAfter
    ensures After(at, 0).Some?
    ensures var back := at.(wall := wall);
            b.Earlier(After(at, 0).value).WaitDeadline(back, extraMs)
            == Fenced(b, at).WaitDeadline(back, extraMs) + Overdue(b, at)
  {
    var ended := After(at, 0).value;
    assert ended == Bound(at.wall, at.continuous);
    assert b.Earlier(ended).continuous == at.continuous;
  }

  // ---------------------------------------------------------------- refused readings

  /** At a refused reading the rule gives a passed bound back exactly when the bound is of the
      reading's session and the wall is not more overdue, or the deadline is 0 already. */
  lemma RefusedReadingKeepsBound(b: Bound, refused: ClockReading)
    requires IsRefused(refused) && b.Passed(refused)
    ensures Fenced(b, refused) == b
            <==> && b.continuous.boot == refused.continuous.boot
                 && ((refused.wall - b.notAfter) * NS_PER_MS <= U64_MAX - b.continuous.ns || b.continuous.ns == 0)
  {
  }

  /** Two refused readings at which the rule moves the bound, the time overdue within 64 bits: a
      wall set far ahead, and a bound of an earlier session. */
  lemma RefusedReadingCanMoveBound()
    ensures var b, at := Bound(0, Continuous(0, 1_000_000)), ClockReading(18_446_744_073_709, Continuous(0, U64_MAX), 0);
            b.Passed(at) && Overdue(b, at) <= U64_MAX && Fenced(b, at) == Bound(0, Continuous(0, 551_615))
    ensures var b, at := Bound(0, Continuous(0, 5)), ClockReading(0, Continuous(1, U64_MAX), 0);
            b.Passed(at) && Overdue(b, at) == 0 && Fenced(b, at) == Bound(0, Continuous(1, U64_MAX))
  {
    assert Overdue(Bound(0, Continuous(0, 1_000_000)), ClockReading(18_446_744_073_709, Continuous(0, U64_MAX), 0))
        == 18_446_744_073_709_000_000;
  }

  /** What the caller does at a refused reading instead: a continuous deadline of 0. */
  function Zeroed(b: Bound, at: ClockReading): Bound {
    Bound(b.notAfter, Continuous(at.continuous.boot, 0))
  }

  /** A deadline of 0 does fence, and its cap is reached at every reading of the session, wherever
      the wall clock is put, exactly from the extra time after boot on. */
  lemma ZeroDeadlineFences(b: Bound, at: ClockReading, now: ClockReading, extraMs: u64)
    requires now.continuous.boot == at.continuous.boot
    ensures Zeroed(b, at).Passed(now)
    ensures (forall wall: u64 :: Reached(Zeroed(b, at), now.(wall := wall), extraMs))
            <==> now.continuous.ns >= extraMs * NS_PER_MS
  {
    if now.continuous.ns < extraMs * NS_PER_MS {
      assert !Reached(Zeroed(b, at), now.(wall := 0), extraMs);
    }
  }

  // ---------------------------------------------------------------- the rule kept over a run

  /** The caller's rule at one reading: nothing while the bound has not passed, the fence at a
      good reading, and a deadline of 0 at a refused one. */
  function Ruled(b: Bound, at: ClockReading): Bound {
    if !b.Passed(at) then b else if IsRefused(at) then Zeroed(b, at) else Fenced(b, at)
  }

  /** The bound a caller holds before reading `n` of a run. */
  function Kept(b: Bound, readings: seq<ClockReading>, n: nat): Bound
    requires n <= |readings|
  {
    if n == 0 then b else Ruled(Kept(b, readings, n - 1), readings[n - 1])
  }

  /** The rule sets a deadline of 0 that the time overdue does not account for. */
  predicate Zeroes(held: Bound, at: ClockReading) {
    IsRefused(at) || Saturates(held, at)
  }

  lemma RuledNext(held: Bound, at: ClockReading, next: ClockReading, extraMs: u64)
    requires held.Passed(at) && Follows(at, next)
    ensures Ruled(held, at).Passed(next)
    ensures !Zeroes(held, at) ==>
              Ruled(held, at).WaitDeadline(next, extraMs) <= held.WaitDeadline(at, extraMs) - Asleep(at, next)
  {
  }

  /** Once passed, the kept bound is passed at every later reading of the run, good or refused. */
  lemma {:induction false} KeptStaysPassed(b: Bound, readings: seq<ClockReading>, i: nat, j: nat)
    requires Trace(readings) && i <= j < |readings|
    requires Kept(b, readings, i).Passed(readings[i])
    ensures Kept(b, readings, j).Passed(readings[j])
    decreases j
  {
    if i < j {
      KeptStaysPassed(b, readings, i, j - 1);
      assert Follows(readings[j - 1], readings[j]);
      RuledNext(Kept(b, readings, j - 1), readings[j - 1], readings[j], 0);
    }
  }

  /** No reading from `i` up to `j` zeroes the deadline. */
  predicate NeverZeroes(b: Bound, readings: seq<ClockReading>, i: nat, j: nat)
    requires j <= |readings|
    decreases j
  {
    i < j ==> NeverZeroes(b, readings, i, j - 1) && !Zeroes(Kept(b, readings, j - 1), readings[j - 1])
  }

  /** Until then the kept wait deadline never moves later, and sleep moves it earlier. */
  lemma {:induction false} KeptDeadlineNeverLater(
    b: Bound, readings: seq<ClockReading>, i: nat, j: nat, extraMs: u64)
    requires Trace(readings) && i <= j < |readings|
    requires Kept(b, readings, i).Passed(readings[i])
    requires NeverZeroes(b, readings, i, j)
    ensures Kept(b, readings, j).WaitDeadline(readings[j], extraMs)
            <= Kept(b, readings, i).WaitDeadline(readings[i], extraMs) - Asleep(readings[i], readings[j])
    ensures i < j ==> 0 <= Asleep(readings[i], readings[j])
    decreases j
  {
    assert Follows(readings[i], readings[j]);
    if i < j {
      KeptStaysPassed(b, readings, i, j - 1);
      KeptDeadlineNeverLater(b, readings, i, j - 1, extraMs);
      assert Follows(readings[j - 1], readings[j]);
      RuledNext(Kept(b, readings, j - 1), readings[j - 1], readings[j], extraMs);
      GoodBefore(b, readings, i, j);
    }
  }

  lemma {:induction false} GoodBefore(b: Bound, readings: seq<ClockReading>, i: nat, j: nat)
    requires i < j <= |readings| && NeverZeroes(b, readings, i, j)
    ensures !IsRefused(readings[i])
    decreases j
  {
    if i < j - 1 { GoodBefore(b, readings, i, j - 1); }
  }

  /** A deadline of 0 in the reading's session stays 0 under the rule. */
  lemma ZeroStays(held: Bound, at: ClockReading)
    requires held.Passed(at)
    requires held.continuous == Continuous(at.continuous.boot, 0) || Zeroes(held, at)
    ensures Ruled(held, at).continuous == Continuous(at.continuous.boot, 0)
  {
  }

  lemma {:induction false} ZeroedStaysZero(b: Bound, readings: seq<ClockReading>, i: nat, j: nat)
    requires Trace(readings) && i < j < |readings|
    requires Kept(b, readings, i).Passed(readings[i]) && !NeverZeroes(b, readings, i, j)
    ensures Kept(b, readings, j).continuous == Continuous(readings[j].continuous.boot, 0)
    decreases j
  {
    var held, at := Kept(b, readings, j - 1), readings[j - 1];
    KeptStaysPassed(b, readings, i, j - 1);
    assert Follows(at, readings[j]);
    if !NeverZeroes(b, readings, i, j - 1) {
      ZeroedStaysZero(b, readings, i, j - 1);
    }
    ZeroStays(held, at);
  }

  /** Over a run of applying the rule, a cap once reached stays reached wherever the wall clock is
      put exactly when no reading since zeroed the deadline, or the extra time since boot has
      gone by. */
  lemma KeptCapStaysReached(b: Bound, readings: seq<ClockReading>, i: nat, j: nat, extraMs: u64)
    requires Trace(readings) && i < j < |readings|
    requires Kept(b, readings, i).Passed(readings[i]) && Reached(Kept(b, readings, i), readings[i], extraMs)
    ensures (forall wall: u64 :: Reached(Kept(b, readings, j), readings[j].(wall := wall), extraMs))
            <==> NeverZeroes(b, readings, i, j) || readings[j].continuous.ns >= extraMs * NS_PER_MS
  {
    var held, now := Kept(b, readings, j), readings[j];
    if NeverZeroes(b, readings, i, j) {
      forall wall: u64 ensures Reached(held, now.(wall := wall), extraMs) {
        ReachedAnyWall(b, readings, i, j, extraMs, wall);
      }
    } else {
      ZeroedStaysZero(b, readings, i, j);
      assert held == Zeroed(held, now);
      ZeroDeadlineFences(held, now, now, extraMs);
    }
  }

  /** Until the deadline is zeroed, the cap is reached wherever the last reading's wall is put. */
  lemma ReachedAnyWall(b: Bound, readings: seq<ClockReading>, i: nat, j: nat, extraMs: u64, wall: u64)
    requires Trace(readings) && i < j < |readings| && NeverZeroes(b, readings, i, j)
    requires Kept(b, readings, i).Passed(readings[i]) && Reached(Kept(b, readings, i), readings[i], extraMs)
    ensures Reached(Kept(b, readings, j), readings[j].(wall := wall), extraMs)
  {
    var held, at, next := Kept(b, readings, j - 1), readings[j - 1], readings[j].(wall := wall);
    KeptStaysPassed(b, readings, i, j - 1);
    KeptDeadlineNeverLater(b, readings, i, j - 1, extraMs);
    assert Follows(readings[i], at) && Follows(at, readings[j]);
    RuledNext(held, at, next, extraMs);
    if i < j - 1 { assert 0 <= Asleep(readings[i], at); }
  }

  /** A cap reached at a wall reading far ahead, and not reached after the wall is set back. */
  lemma CapCanBeLost(b: Bound, readings: seq<ClockReading>)
    requires b == Bound(0, Continuous(0, 0))
    requires readings == [ClockReading(10, Continuous(0, 5), 0), ClockReading(0, Continuous(0, 5), 0)]
    ensures Trace(readings) && Reached(Kept(b, readings, 0), readings[0], 1)
    ensures Kept(b, readings, 1).Passed(readings[1]) && !Reached(Kept(b, readings, 1), readings[1], 1)
  {
    assert Overdue(b, readings[0]) == 10 * NS_PER_MS;
    assert Kept(b, readings, 1) == Bound(0, Continuous(0, 0));
  }

  lemma {:induction false} KeptSession(b: Bound, readings: seq<ClockReading>, n: nat)
    requires Trace(readings) && n < |readings| && b.continuous.boot == readings[0].continuous.boot
    ensures Kept(b, readings, n).continuous.boot == readings[n].continuous.boot
  {
    assert Follows(readings[0], readings[n]);
    if n > 0 {
      KeptSession(b, readings, n - 1);
      assert Follows(readings[n - 1], readings[n]);
    }
  }

  /** Over a run of the bound's own session, the continuous deadline only falls. */
  lemma {:induction false} KeptDeadlineFalls(b: Bound, readings: seq<ClockReading>, i: nat, j: nat)
    requires Trace(readings) && i <= j <= |readings|
    requires |readings| > 0 ==> b.continuous.boot == readings[0].continuous.boot
    ensures Kept(b, readings, j).continuous.ns <= Kept(b, readings, i).continuous.ns
    decreases j
  {
    if i < j {
      KeptDeadlineFalls(b, readings, i, j - 1);
      KeptSession(b, readings, j - 1);
      if Kept(b, readings, j - 1).Passed(readings[j - 1]) {
        FenceNeverRises(Kept(b, readings, j - 1), readings[j - 1]);
      }
    }
  }
}
