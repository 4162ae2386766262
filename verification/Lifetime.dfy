/** Two-clock deadlines: bounds, the manual clock, and the fence rule over whole clock runs. */
module Lifetimes {
  import opened Wrappers
  import opened Widths

  const NS_PER_MS := 1_000_000

  /** A host boot session, by its identity. */
  type BootSession = nat

  datatype Continuous = Continuous(boot: BootSession, ns: u64)

  /** One reading of the three clocks. The wait clock is an instant on an unbounded line. */
  datatype ClockReading = ClockReading(wall: u64, continuous: Continuous, wait: int)

  datatype Bound = Bound(notAfter: u64, continuous: Continuous) {
    predicate Passed(now: ClockReading) {
      || now.wall >= notAfter
      || (now.continuous.boot == continuous.boot && now.continuous.ns >= continuous.ns)
    }

    /** Nanoseconds left on the reading with less time left; negative after the bound. */
    function RemainingNs(now: ClockReading): (left: int)
      ensures left <= 0 <==> Passed(now)
    {
      var wall := (notAfter - now.wall) * NS_PER_MS;
      if now.continuous.boot != continuous.boot then wall else Min(wall, continuous.ns - now.continuous.ns)
    }

    /** Rounded up to milliseconds: 0 exactly when the bound has passed. */
    function RemainingMs(now: ClockReading): (ms: u64)
      ensures ms == 0 <==> Passed(now)
      ensures !Passed(now) ==> (ms - 1) * NS_PER_MS < RemainingNs(now) <= ms * NS_PER_MS
    {
      var left := Max(RemainingNs(now), 0);
      Saturated((left + NS_PER_MS - 1) / NS_PER_MS)
    }

    /** Each reading taken separately within one session; across sessions, one bound whole. */
    function Earlier(other: Bound): Bound {
      if continuous.boot != other.continuous.boot then
        if other.notAfter < notAfter then other else this
      else
        Bound(Min(notAfter, other.notAfter),
              Continuous(continuous.boot, Min(continuous.ns, other.continuous.ns)))
    }

    /** Where the bound plus `extraMs` falls on the wait clock. The shift is built from whole
        seconds and nanoseconds, and it is exact: no reading makes the seconds saturate. */
    function WaitDeadline(now: ClockReading, extraMs: u64): (deadline: int)
      ensures deadline == now.wait + RemainingNs(now) + extraMs * NS_PER_MS
    {
      var ns := RemainingNs(now) + extraMs * NS_PER_MS;
      if ns >= 0 then now.wait + DurationFromNs(ns) else now.wait - DurationFromNs(-ns)
    }
  }

  function DurationFromNs(ns: nat): (d: nat)
    ensures ns / 1_000_000_000 <= U64_MAX ==> d == ns
  {
    var seconds := if ns / 1_000_000_000 <= U64_MAX then ns / 1_000_000_000 else U64_MAX;
    seconds * 1_000_000_000 + ns % 1_000_000_000
  }

  /** The bound `ms` after `now`, unless one of its readings would overflow. */
  function After(now: ClockReading, ms: u64): (b: Option<Bound>)
    ensures b.Some? ==> b.value.RemainingNs(now) == ms * NS_PER_MS
    ensures b.None? <==> now.wall + ms > U64_MAX || now.continuous.ns + ms * NS_PER_MS > U64_MAX
    ensures b.Some? ==>
              forall r: ClockReading ::
                b.value.Passed(r)
                <==> || r.wall >= now.wall + ms
                     || (r.continuous.boot == now.continuous.boot && r.continuous.ns >= now.continuous.ns + ms * NS_PER_MS)
  {
    if ms * NS_PER_MS > U64_MAX || now.continuous.ns + ms * NS_PER_MS > U64_MAX || now.wall + ms > U64_MAX then
      None
    else
      Some(Bound(now.wall + ms, Continuous(now.continuous.boot, now.continuous.ns + ms * NS_PER_MS)))
  }

  // ---------------------------------------------------------------- the algebra of bounds

  lemma RoundUpIsMonotone(a: nat, b: nat)
    ensures (Min(a, b) + NS_PER_MS - 1) / NS_PER_MS == Min((a + NS_PER_MS - 1) / NS_PER_MS, (b + NS_PER_MS - 1) / NS_PER_MS)
  {
  }

  /** Within one session, the earlier bound is passed when either is, and has the lesser times. */
  lemma EarlierIsEither(a: Bound, b: Bound, now: ClockReading, extraMs: u64)
    requires a.continuous.boot == b.continuous.boot
    ensures var e := a.Earlier(b);
            && (e.Passed(now) <==> a.Passed(now) || b.Passed(now))
            && e.RemainingMs(now) == Min(a.RemainingMs(now), b.RemainingMs(now))
            && e.WaitDeadline(now, extraMs) == Min(a.WaitDeadline(now, extraMs), b.WaitDeadline(now, extraMs))
  {
    assert a.Earlier(b).RemainingNs(now) == Min(a.RemainingNs(now), b.RemainingNs(now));
    RoundUpIsMonotone(Max(a.RemainingNs(now), 0), Max(b.RemainingNs(now), 0));
  }

  /** Across sessions one bound is dropped whole, so a reading of the dropped session, past the
      dropped continuous deadline only, is the one kind the earlier bound misses. */
  lemma EarlierAcrossSessions(a: Bound, b: Bound, now: ClockReading)
    requires a.continuous.boot != b.continuous.boot
    ensures var dropped := if b.notAfter < a.notAfter then a else b;
            (a.Earlier(b).Passed(now) <==> a.Passed(now) || b.Passed(now))
            <==> !(&& now.continuous.boot == dropped.continuous.boot
                   && now.continuous.ns >= dropped.continuous.ns
                   && now.wall < Min(a.notAfter, b.notAfter))
  {
  }

  // ---------------------------------------------------------------- the manual clock

  function Saturated(value: int): (r: u64)
    ensures 0 <= value <= U64_MAX ==> r == value
    ensures value < 0 ==> r == 0
    ensures value > U64_MAX ==> r == U64_MAX
  {
    Max(0, Min(value, U64_MAX))
  }

  function Advanced(r: ClockReading, ms: nat): ClockReading {
    ClockReading(Saturated(r.wall + ms),
                 Continuous(r.continuous.boot, Saturated(r.continuous.ns + ms * NS_PER_MS)),
                 r.wait + ms * NS_PER_MS)
  }

  class ManualClock {
    var reading: ClockReading

    constructor (wall: u64, boot: BootSession, continuousNs: u64, wait: int)
      ensures reading == ClockReading(wall, Continuous(boot, continuousNs), wait)
    {
      reading := ClockReading(wall, Continuous(boot, continuousNs), wait);
    }

    method AdvanceWallMs(ms: int)
      modifies this
      ensures reading == old(reading).(wall := Saturated(old(reading).wall + ms))
    {
      reading := reading.(wall := Saturated(reading.wall + ms));
    }

    method AdvanceContinuousMs(ms: u64)
      modifies this
      ensures reading == old(reading).(continuous :=
                Continuous(old(reading).continuous.boot, Saturated(old(reading).continuous.ns + ms * NS_PER_MS)))
    {
      var step := Saturated(ms * NS_PER_MS);
      reading := reading.(continuous := Continuous(reading.continuous.boot, Saturated(reading.continuous.ns + step)));
    }

    method AdvanceWaitMs(ms: u64)
      modifies this
      ensures reading == old(reading).(wait := old(reading).wait + ms * NS_PER_MS)
    {
      reading := reading.(wait := reading.wait + ms * NS_PER_MS);
    }

    /** Time passing on an awake host moves all three readings together. */
    method AdvanceAllMs(ms: u64)
      modifies this
      ensures reading == Advanced(old(reading), ms)
    {
      reading := reading.(wall := Saturated(reading.wall + ms));
      AdvanceContinuousMs(ms);
      AdvanceWaitMs(ms);
    }

    method SetBoot(boot: BootSession, continuousNs: u64)
      modifies this
      ensures reading == old(reading).(continuous := Continuous(boot, continuousNs))
    {
      reading := reading.(continuous := Continuous(boot, continuousNs));
    }
  }

  function Total(steps: seq<u64>): nat {
    if steps == [] then 0 else steps[0] + Total(steps[1..])
  }

  function AdvancedBy(r: ClockReading, steps: seq<u64>): ClockReading
    decreases |steps|
  {
    if steps == [] then r else AdvancedBy(Advanced(r, steps[0]), steps[1..])
  }

  lemma {:induction false} StepsAddUp(r: ClockReading, steps: seq<u64>)
    ensures AdvancedBy(r, steps) == Advanced(r, Total(steps))
    decreases |steps|
  {
    if steps != [] {
      StepsAddUp(Advanced(r, steps[0]), steps[1..]);
    }
  }

  /** What remains is what an awake host takes: while no reading saturates, a bound is passed after
      some milliseconds exactly when its remaining ones, rounded up, have gone by. */
  lemma RemainingIsAwakeTime(b: Bound, r: ClockReading, ms: u64)
    requires r.wall + ms <= U64_MAX && r.continuous.ns + ms * NS_PER_MS <= U64_MAX
    ensures b.Passed(Advanced(r, ms)) <==> ms >= b.RemainingMs(r)
    ensures b.RemainingNs(Advanced(r, ms)) == b.RemainingNs(r) - ms * NS_PER_MS
  {
  }

  /** Over any awake run, a bound of `ms` passes exactly when `ms` have gone by, and until a
      reading saturates its wait deadline is one fixed instant. */
  lemma BoundOverAwakeRun(start: ClockReading, ms: u64, steps: seq<u64>, extraMs: u64)
    requires After(start, ms).Some?
    ensures var b, now := After(start, ms).value, AdvancedBy(start, steps);
            && (b.Passed(now) <==> Total(steps) >= ms)
            && (start.wall + Total(steps) <= U64_MAX && start.continuous.ns + Total(steps) * NS_PER_MS <= U64_MAX ==>
                  b.WaitDeadline(now, extraMs) == start.wait + (ms + extraMs) * NS_PER_MS)
  {
    StepsAddUp(start, steps);
  }
}
