/** The generic agent of v2/cb_base.py: an `acting` loop that sleeps for
    `sleep_time_left`, runs `sustenance_activity` when the sleep completes
    and `on_interrupt_activity` when it is interrupted, and a `listening`
    loop that stores each event passing its filter and interrupts the
    acting loop. The two activities belong to the specialisations
    (`CbHeater`, `CbThermometer`), which hold a `CbBase` and call its steps
    around their own activity. */
module Base {
  import opened Wrappers
  import opened DutyCycle

  /** A queue event `(kind, target, time)` as the v2 event generators build it. */
  datatype Event = Event(kind: string, target: Option<string>, stamp: real)

  /** The listening filter: an event is taken when its kind is the agent's kind. */
  predicate Accepts(kind: string, ev: Event) {
    ev.kind == kind
  }

  class CbBase {
    const id: string
    const kind: string
    const period: real
    /** The last event the listening loop picked up (`None` before the first). */
    var event: Option<Event>
    var sleepTimeLeft: real
    var sleepStartsAt: real

    /** The interrupt handler never touches `sleep_time_left`, so every sleep
        is a full period. */
    ghost predicate Valid()
      reads this
    {
      period >= 0.0 && sleepTimeLeft == period
    }

    /** The sleep in progress. */
    function Current(): Sleep
      reads this
    {
      Sleep(sleepStartsAt, sleepTimeLeft)
    }

    /** Starts the acting loop at `now`: the first sleep is one full period
        (simpy refuses a negative delay, hence the precondition). */
    constructor(id: string, kind: string, period: real, now: real)
      requires period >= 0.0
      ensures Valid()
      ensures this.id == id && this.kind == kind && this.period == period
      ensures event == None
      ensures Current() == Sleep(now, period)
    {
      this.id := id;
      this.kind := kind;
      this.period := period;
      event := None;
      sleepTimeLeft := period;
      sleepStartsAt := now;
    }

    /** The timeout fires: the caller runs `sustenance_activity` exactly once
        at the returned time, then the next sleep of a full period begins. */
    method CompleteSleep() returns (now: real)
      requires Valid()
      modifies this`sleepTimeLeft, this`sleepStartsAt
      ensures Valid()
      ensures now == WakeTime(old(Current()))
      ensures Current() == Completed(period, old(Current()))
    {
      now := sleepStartsAt + sleepTimeLeft;
      sleepTimeLeft := period;
      sleepStartsAt := now;
    }

    /** An interrupt at `now` during the sleep: the caller runs
        `on_interrupt_activity` exactly once; `sleep_time_left` is kept, so
        the next sleep lasts the same from `now`. */
    method Interrupted(now: real)
      requires Valid() && During(Current(), now)
      modifies this`sleepStartsAt
      ensures Valid()
      ensures Current() == Resumed(old(Current()), now)
      ensures sleepTimeLeft == period
    {
      sleepStartsAt := now;
    }

    /** The listening loop is offered `ev` at `now`. An event passing the
        filter is stored in `event` and then interrupts the sleep once; any
        other event is not taken and changes nothing. */
    method Listen(ev: Event, now: real) returns (accepted: bool)
      requires Valid() && During(Current(), now)
      modifies this`event, this`sleepStartsAt
      ensures Valid()
      ensures accepted <==> Accepts(kind, ev)
      ensures accepted ==> event == Some(ev) && Current() == Resumed(old(Current()), now)
      ensures !accepted ==> event == old(event) && Current() == old(Current())
    {
      accepted := Accepts(kind, ev);
      if accepted {
        event := Some(ev);
        Interrupted(now);
      }
    }
  }
}
