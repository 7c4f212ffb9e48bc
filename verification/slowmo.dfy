/**
  Slow motion: a trigger drops the physics clock to a quarter of real
  speed, and over the next two seconds of real time the clock eases back to
  full speed.
 */
module Slowmo {
  import opened Base

  /** `Duration::from_secs(2)`, in nanoseconds. */
  const DURATION: nat := 2_000_000_000

  /** The relative speed of the physics clock right after a trigger. */
  const SLOW_SPEED: real := 0.25

  /** The physics clock's relative speed and the `SlowmoTimer` resource,
      in nanoseconds of real time left, when it exists. */
  datatype Clock = Clock(speed: real, timer: Option<nat>)

  /** A running timer has time left and never more than the full
      duration: it is removed when it reaches zero. */
  predicate Valid(c: Clock)
  {
    c.timer.Some? ==> 0 < c.timer.value <= DURATION
  }

  /** `start_slowmo`: quarter speed and a full timer, whether or not a
      timer was already running. */
  function StartSlowmo(c: Clock): (r: Clock)
    ensures r == Clock(SLOW_SPEED, Some(DURATION))
    ensures Valid(r)
  {
    Clock(SLOW_SPEED, Some(DURATION))
  }

  /** `Duration::saturating_sub`. */
  function SaturatingSub(a: nat, b: nat): (r: nat)
    ensures r <= a
    ensures r == 0 <==> a <= b
    ensures r > 0 ==> r + b == a
  {
    if a <= b then 0 else a - b
  }

  /** The fraction of the slow-motion period that has passed. */
  function Progress(timer: nat): real
    requires timer <= DURATION
  {
    (DURATION - timer) as real / DURATION as real
  }

  /** `ease_in_clock` for a real-time step of `delta` nanoseconds, with
      `easing` standing for `simple_easing::expo_in`. The system runs only
      while the timer exists. A timer above two seconds would make the
      subtraction `Duration::from_secs(2) - timer` panic. */
  function EaseInClock(c: Clock, delta: nat, easing: real -> real): (r: Result<Clock>)
    ensures c.timer.None? ==> r == Ok(c)
    ensures r.Err? <==> c.timer.Some? && SaturatingSub(c.timer.value, delta) > DURATION
    ensures r.Ok? && c.timer.Some? ==>
              var t := SaturatingSub(c.timer.value, delta);
              && r.value.speed == SLOW_SPEED + 0.75 * easing(Progress(t))
              && (r.value.timer.None? <==> t == 0)
              && (r.value.timer.Some? ==> r.value.timer.value == t)
  {
    if c.timer.None? then Ok(c)
    else
      var t := SaturatingSub(c.timer.value, delta);
      if t > DURATION then Err(Panic("overflow when subtracting durations"))
      else
        var speed := SLOW_SPEED + 0.75 * easing(Progress(t));
        Ok(Clock(speed, if t == 0 then None else Some(t)))
  }

  /** A valid clock never reaches the panic, stays valid, and its timer
      only goes down. */
  lemma EaseKeepsValid(c: Clock, delta: nat, easing: real -> real)
    requires Valid(c)
    ensures EaseInClock(c, delta, easing).Ok?
    ensures Valid(EaseInClock(c, delta, easing).value)
    ensures c.timer.Some? && EaseInClock(c, delta, easing).value.timer.Some? ==>
              EaseInClock(c, delta, easing).value.timer.value <= c.timer.value
  {
  }

  /** The progress of a valid timer lies in `[0, 1]`. */
  lemma ProgressInUnitRange(timer: nat)
    requires timer <= DURATION
    ensures 0.0 <= Progress(timer) <= 1.0
  {
  }

  /** With an easing that maps `[0, 1]` into `[0, 1]`, the clock's speed
      after a step lies between a quarter and full speed. */
  lemma SpeedBetweenSlowAndFull(c: Clock, delta: nat, easing: real -> real)
    requires Valid(c) && c.timer.Some?
    requires forall x :: 0.0 <= x <= 1.0 ==> 0.0 <= easing(x) <= 1.0
    ensures SLOW_SPEED <= EaseInClock(c, delta, easing).value.speed <= 1.0
  {
    var t := SaturatingSub(c.timer.value, delta);
    ProgressInUnitRange(t);
  }

  /** The clock after a run of real-time steps. */
  function EaseRun(c: Clock, deltas: seq<nat>, easing: real -> real): Result<Clock>
    decreases |deltas|
  {
    if |deltas| == 0 then Ok(c)
    else match EaseInClock(c, deltas[0], easing)
      case Err(e) => Err(e)
      case Ok(next) => EaseRun(next, deltas[1..], easing)
  }

  function Sum(s: seq<nat>): nat
  {
    if |s| == 0 then 0 else s[0] + Sum(s[1..])
  }

  /** Once the steps add up to the time left, the timer is gone; before
      that it holds exactly the time left. */
  lemma {:induction false} TimerRunsOut(c: Clock, deltas: seq<nat>, easing: real -> real)
    requires Valid(c)
    ensures EaseRun(c, deltas, easing).Ok?
    ensures var r := EaseRun(c, deltas, easing).value;
            && Valid(r)
            && (c.timer.Some? && Sum(deltas) >= c.timer.value ==> r.timer.None?)
            && (c.timer.Some? && Sum(deltas) < c.timer.value ==> r.timer == Some(c.timer.value - Sum(deltas)))
    decreases |deltas|
  {
    if |deltas| > 0 {
      EaseKeepsValid(c, deltas[0], easing);
      var next := EaseInClock(c, deltas[0], easing).value;
      assert EaseRun(c, deltas, easing) == EaseRun(next, deltas[1..], easing);
      assert Sum(deltas) == deltas[0] + Sum(deltas[1..]);
      TimerRunsOut(next, deltas[1..], easing);
      if next.timer.None? {
        EaseRunIdle(next, deltas[1..], easing);
      }
    }
  }

  /** Without a timer the ease step does not run at all. */
  lemma {:induction false} EaseRunIdle(c: Clock, deltas: seq<nat>, easing: real -> real)
    requires c.timer.None?
    ensures EaseRun(c, deltas, easing) == Ok(c)
    decreases |deltas|
  {
    if |deltas| > 0 {
      EaseRunIdle(c, deltas[1..], easing);
    }
  }
}
