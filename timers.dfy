/**
 * Bevy's `Timer`, abstracted as a counter of elapsed ticks (a tick is any fixed unit of
 * time; the model uses milliseconds for the source's constants).
 *
 * `finished` is a stored flag: a tick sets it to "elapsed reached the duration". A `Once`
 * timer then clamps its elapsed time to the duration and ignores further ticks; a
 * `Repeating` timer wraps its elapsed time around the duration. `justFinished` is true
 * exactly after the tick on which the timer reached its duration.
 */
module Timers {

  datatype TimerMode = Once | Repeating

  datatype Timer = Timer(duration: nat, elapsed: nat, mode: TimerMode, finished: bool, justFinished: bool)

  /** `Timer::from_seconds(d, mode)`: nothing elapsed, not finished. */
  function NewTimer(duration: nat, mode: TimerMode): (t: Timer)
    ensures t.duration == duration && t.mode == mode
    ensures t.elapsed == 0 && !t.finished && !t.justFinished
  {
    Timer(duration, 0, mode, false, false)
  }

  /** A timer whose elapsed time is where its mode keeps it. */
  ghost predicate Consistent(t: Timer)
  {
    && (t.mode == Once ==> t.elapsed <= t.duration)
    && (t.mode == Once && t.finished ==> t.elapsed == t.duration)
    && (t.mode == Repeating && t.duration > 0 ==> t.elapsed < t.duration)
  }

  /** `Timer::tick(delta)` (the timer is never paused in the source). */
  function Tick(t: Timer, delta: nat): (r: Timer)
    ensures r.duration == t.duration && r.mode == t.mode
    // a finished Once timer ignores ticks, and reports no new finish
    ensures t.mode == Once && t.finished ==> r.finished && !r.justFinished && r.elapsed == t.elapsed
    // otherwise it finishes exactly when the accumulated time reaches the duration
    ensures !(t.mode == Once && t.finished) ==>
              (r.finished <==> t.elapsed + delta >= t.duration) && r.justFinished == r.finished
    ensures !r.finished && !(t.mode == Once && t.finished) ==> r.elapsed == t.elapsed + delta
    // Once timers clamp, Repeating timers wrap
    ensures Consistent(t) ==> Consistent(r)
    ensures t.mode == Repeating && r.finished && t.duration > 0 ==> r.elapsed == (t.elapsed + delta) % t.duration
  {
    if t.mode == Once && t.finished then
      t.(justFinished := false)
    else
      var e := t.elapsed + delta;
      if e < t.duration then
        t.(elapsed := e, finished := false, justFinished := false)
      else if t.mode == Repeating then
        t.(elapsed := if t.duration == 0 then 0 else e % t.duration, finished := true, justFinished := true)
      else
        t.(elapsed := t.duration, finished := true, justFinished := true)
  }

  /** `Timer::reset()`: back to zero elapsed time, not finished. */
  function Reset(t: Timer): (r: Timer)
    ensures r == NewTimer(t.duration, t.mode)
  {
    t.(elapsed := 0, finished := false, justFinished := false)
  }

  /** Ticking a Once timer by the pieces of a split delta is ticking it by the whole delta. */
  lemma OnceTickSplits(t: Timer, a: nat, b: nat)
    requires t.mode == Once && Consistent(t)
    ensures Tick(Tick(t, a), b).finished == Tick(t, a + b).finished
    ensures Tick(Tick(t, a), b).elapsed == Tick(t, a + b).elapsed
  {
  }
}
