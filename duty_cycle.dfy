/** The sleep arithmetic shared by every duty cycle of the simulation: the
    agents of compubact.py and v2/cb_base.py and the update cycle of
    `ContainingSpace`. A process sleeps from `startsAt` for `left` seconds;
    three things can end a sleep, and each starts the next one:
    - the timeout fires: the next sleep is a full `period` from the wake time;
    - a handled interrupt preempts it: the next sleep starts now and lasts
      `period` minus the time elapsed since the sleep began;
    - an ignored interrupt: the next sleep starts now with the same length. */
module DutyCycle {

  datatype Sleep = Sleep(startsAt: real, left: real)

  /** When the timeout of sleep `s` fires. */
  function WakeTime(s: Sleep): real {
    s.startsAt + s.left
  }

  /** An interrupt can only reach a process while it sleeps. */
  predicate During(s: Sleep, now: real) {
    s.startsAt <= now <= WakeTime(s)
  }

  /** The sleep that starts when sleep `s` runs to its end. */
  function Completed(period: real, s: Sleep): (r: Sleep)
    ensures r.startsAt == WakeTime(s)
    ensures WakeTime(r) == WakeTime(s) + period
  {
    Sleep(WakeTime(s), period)
  }

  /** The sleep that follows an interrupt at `now` whose handler recomputes
      the remaining time as `period - (now - s.startsAt)`. */
  function Preempted(period: real, s: Sleep, now: real): (r: Sleep)
    ensures r.startsAt == now
    // the wake time falls one period after the interrupted sleep began
    ensures WakeTime(r) == s.startsAt + period
    // interrupted while sleeping, the remaining time stays within [0, period]
    ensures s.left <= period && During(s, now) ==> 0.0 <= r.left <= period
  {
    Sleep(now, period - (now - s.startsAt))
  }

  /** The sleep that follows an interrupt at `now` that leaves the sleep
      length untouched: the process sleeps the same length again from now. */
  function Resumed(s: Sleep, now: real): (r: Sleep)
    ensures r.startsAt == now && r.left == s.left
    // the wake time is pushed back by exactly the time already slept
    ensures WakeTime(r) == WakeTime(s) + (now - s.startsAt)
  {
    Sleep(now, s.left)
  }

  /** The sleep after a series of preempting interrupts at `times`. */
  function PreemptAll(period: real, s: Sleep, times: seq<real>): Sleep
    decreases |times|
  {
    if times == [] then s else PreemptAll(period, Preempted(period, s, times[0]), times[1..])
  }

  /** The interrupts arrive in order, each while the then-current sleep lasts. */
  predicate InterruptsWhileSleeping(period: real, s: Sleep, times: seq<real>)
    decreases |times|
  {
    times == [] ||
    (During(s, times[0]) && InterruptsWhileSleeping(period, Preempted(period, s, times[0]), times[1..]))
  }

  /** A full sleep cut once keeps the wake time it had: the cadence survives. */
  lemma OnePreemptionKeepsCadence(period: real, s: Sleep, now: real)
    requires s.left == period
    ensures WakeTime(Preempted(period, s, now)) == WakeTime(s)
  {
  }

  /** After one or more preempting interrupts, the process wakes one period
      after the sleep that the LAST interrupt cut short began, which is the
      second-to-last interrupt when there are two or more. A full sleep cut
      twice therefore wakes late by the time of the first cut. */
  lemma {:induction false} PreemptAllWakeTime(period: real, s: Sleep, times: seq<real>)
    requires |times| >= 1
    ensures WakeTime(PreemptAll(period, s, times))
         == (if |times| == 1 then s.startsAt else times[|times| - 2]) + period
    decreases |times|
  {
    var s1 := Preempted(period, s, times[0]);
    if |times| == 1 {
      assert PreemptAll(period, s1, times[1..]) == s1;
    } else {
      PreemptAllWakeTime(period, s1, times[1..]);
      if |times| > 2 {
        assert times[1..][|times[1..]| - 2] == times[|times| - 2];
      }
    }
  }

  /** Preempting interrupts that arrive while sleeping keep the remaining
      time within [0, period]. */
  lemma {:induction false} PreemptAllBounded(period: real, s: Sleep, times: seq<real>)
    requires 0.0 <= s.left <= period
    requires InterruptsWhileSleeping(period, s, times)
    ensures 0.0 <= PreemptAll(period, s, times).left <= period
    decreases |times|
  {
    if times != [] {
      PreemptAllBounded(period, Preempted(period, s, times[0]), times[1..]);
    }
  }

  /** Concretely: a full sleep cut twice wakes later than it would have. */
  lemma TwoPreemptionsDelayWake(period: real, s: Sleep, t1: real, t2: real)
    requires s.left == period && s.startsAt < t1
    ensures WakeTime(PreemptAll(period, s, [t1, t2])) == WakeTime(s) + (t1 - s.startsAt)
    ensures WakeTime(PreemptAll(period, s, [t1, t2])) > WakeTime(s)
  {
    PreemptAllWakeTime(period, s, [t1, t2]);
  }
}
