// The accumulate-while-running timer (src/combina_bnb_solver/Timer.hpp).
// The clock is not modelled: every operation that reads `Clock::now()`
// takes the reading as a parameter, in seconds.

module Timers {
  import opened Common

  class ChronoTimer {
    var running: bool
    /** The accumulated duration; `None` while the default constructor
        has left it uninitialised. */
    var acc: Option<real>
    var start: real

    /** `ChronoTimer(clock)`: stopped, with a zero accumulator. */
    constructor (clockStart: real)
      ensures !running && acc == Some(0.0) && start == clockStart
    {
      running := false;
      acc := Some(0.0);
      start := clockStart;
    }

    /** `ChronoTimer()`: stopped; the accumulator is left unset, so
        `reset` must come before `stop` or `secs`. */
    constructor Default(clockStart: real)
      ensures !running && acc == None && start == clockStart
    {
      running := false;
      acc := None;
      start := clockStart;
    }

    /** The copy constructor. */
    constructor Copy(other: ChronoTimer)
      ensures running == other.running && acc == other.acc && start == other.start
    {
      running := other.running;
      acc := other.acc;
      start := other.start;
    }

    /** `is_running()`. */
    function IsRunning(): (r: bool)
      reads this
      ensures r <==> running
    {
      running
    }

    /** `secs()` at clock reading `now`: the accumulator plus the current
        interval while running. */
    function Secs(now: real): (r: real)
      reads this
      requires acc.Some?
      ensures !running ==> r == acc.value
      ensures running ==> r - acc.value == now - start
    {
      var dur := acc.value;
      if running then dur + (now - start) else dur
    }

    /** `start()`: a running timer is left alone. */
    method Start(now: real)
      modifies this
      ensures running
      ensures acc == old(acc)
      ensures start == if old(running) then old(start) else now
      ensures old(acc).Some? ==> Secs(now) == old(Secs(now))
    {
      if !running {
        running := true;
        start := now;
      }
    }

    /** `stop()`: fold the current interval into the accumulator. */
    method Stop(now: real)
      requires running ==> acc.Some?
      modifies this
      ensures !running && start == old(start)
      ensures acc == if old(running) then Some(old(acc).value + (now - old(start))) else old(acc)
      ensures old(acc).Some? ==> Secs(now) == old(Secs(now))
    {
      if running {
        acc := Some(acc.value + (now - start));
        running := false;
      }
    }

    /** `reset()`: zero the accumulator and restart a running interval. */
    method Reset(now: real)
      modifies this
      ensures running == old(running) && acc == Some(0.0)
      ensures start == if old(running) then now else old(start)
      ensures Secs(now) == 0.0
    {
      acc := Some(0.0);
      if running {
        start := now;
      }
    }
  }

  /** With a steady clock a reading never decreases, and neither does
      `secs()`. */
  lemma SecsMonotone(t: ChronoTimer, a: real, b: real)
    requires t.acc.Some? && a <= b
    ensures t.Secs(a) <= t.Secs(b)
    ensures !t.running ==> t.Secs(a) == t.Secs(b)
  {
  }
}
