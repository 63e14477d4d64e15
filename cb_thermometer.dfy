/** `CbThermometer` (v2/cb_thermometer.py): an agent on the `CbBase` duty
    cycle whose sustenance activity latches the temperature of its context,
    a `ContainingSpace`, into `last_temp_read`. It only reads the space. */
module Thermometer {
  import opened Wrappers
  import opened DutyCycle
  import Base
  import Space

  /** The value `last_temp_read` holds before the first reading. */
  const NoReading: real := -1.0

  class CbThermometer {
    const base: Base.CbBase
    /** The space it measures; `null` stands for a missing (falsy) context. */
    const context: Space.ContainingSpace?
    var lastTempRead: real

    ghost predicate Valid()
      reads this, base
    {
      base.Valid()
    }

    /** Nothing has been read yet. */
    constructor(now: real, id: string, kind: string, period: real, context: Space.ContainingSpace?)
      requires period >= 0.0
      ensures Valid() && fresh(base)
      ensures base.id == id && base.kind == kind && base.period == period
      ensures base.event == None && base.Current() == Sleep(now, period)
      ensures this.context == context && lastTempRead == NoReading
    {
      base := new Base.CbBase(id, kind, period, now);
      this.context := context;
      lastTempRead := NoReading;
    }

    /** Copies the space's temperature when there is a space; without one
        the last reading stays. The space itself is not written. */
    method SustenanceActivity()
      modifies this`lastTempRead
      ensures context != null ==> lastTempRead == context.temperature
      ensures context == null ==> lastTempRead == old(lastTempRead)
    {
      if context != null {
        lastTempRead := context.temperature;
      }
    }

    /** Only reports on the console; changes nothing. */
    method OnInterruptActivity()
    {
    }

    /** The sleep completes: the reading is taken once, at the returned
        time, and the next full-period sleep starts. */
    method CycleTimeout() returns (now: real)
      requires Valid()
      modifies base, this`lastTempRead
      ensures Valid()
      ensures now == WakeTime(old(base.Current()))
      ensures base.Current() == Completed(base.period, old(base.Current()))
      ensures base.event == old(base.event)
      ensures context != null ==> lastTempRead == context.temperature
      ensures context == null ==> lastTempRead == old(lastTempRead)
    {
      now := base.CompleteSleep();
      SustenanceActivity();
    }

    /** The listening loop is offered `ev` at `now`: an accepted event is
        stored and interrupts the sleep; the reading is not touched either way. */
    method OnEvent(ev: Base.Event, now: real) returns (accepted: bool)
      requires Valid() && During(base.Current(), now)
      modifies base
      ensures Valid()
      ensures accepted <==> Base.Accepts(base.kind, ev)
      ensures accepted ==> base.event == Some(ev) && base.Current() == Resumed(old(base.Current()), now)
      ensures !accepted ==> unchanged(base)
    {
      accepted := base.Listen(ev, now);
      if accepted {
        OnInterruptActivity();
      }
    }
  }

  /** A thermometer with a 10 s period in a room at 290 K reads nothing
      until its first sleep completes at t = 10, and then reads 290 K; a
      thermometer without a space keeps the -1 it started with. */
  method ReadingScenario() returns (initial: real, atFirstWake: real, wokeAt: real, detached: real)
    ensures initial == -1.0
    ensures atFirstWake == 290.0 && wokeAt == 10.0
    ensures detached == -1.0
  {
    var room := new Space.ContainingSpace(0.0, 288.0, 290.0, 75.0);
    var t1 := new CbThermometer(0.0, "t1", "thermometer", 10.0, room);
    initial := t1.lastTempRead;
    wokeAt := t1.CycleTimeout();
    atFirstWake := t1.lastTempRead;
    var t2 := new CbThermometer(0.0, "t2", "thermometer", 10.0, null);
    var _ := t2.CycleTimeout();
    detached := t2.lastTempRead;
  }
}
