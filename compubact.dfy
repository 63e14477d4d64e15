/** compubact.py, the first prototype of a computational bacterium: a
    `BacterialContext` whose ambient temperature falls by one degree per
    update, bacteria of kind `"sensor"` or `"actuator"` that sleep, act and
    are interrupted by queue events of their own kind, and the generator
    that feeds the queue alternating `sensor` and `actuator` ticks. Every
    bacterium registers itself with a `MessageDispatcher`.

    simpy's timeouts and interrupts become the explicit step methods
    `Timeout` and `Interrupt` (and `Listen`, the listening loop picking up
    one event); the event a sensor puts on the queue is returned instead. */
module Compubact {
  import opened Wrappers
  import opened DutyCycle
  import Messaging

  /** `RT_MEAN`: the context's starting ambient temperature. */
  const RtMean: real := 20.0
  /** Below this ambient temperature a sensor raises an alarm. */
  const LowTemperatureThreshold: real := 18.0

  /** A queue event, the pair `(kind, detail)`. */
  datatype Event = Event(kind: string, detail: string)

  /** The event kinds' message types: an actuator handles the two
      temperature alarms, every other kind handles nothing. */
  function MsgTypes(kind: string): (r: seq<string>)
    ensures kind == "actuator" ==> r == ["low temperature", "high temperature"]
    ensures kind != "actuator" ==> r == []
  {
    if kind == "actuator" then ["low temperature", "high temperature"] else []
  }

  /** The listening filter: a bacterium takes the events of its own kind. */
  predicate Accepts(kind: string, ev: Event) {
    ev.kind == kind
  }

  /** The interrupt handler acts on the stored event only if its detail is
      one of the bacterium's message types. */
  predicate Handles(msgTypes: seq<string>, event: Option<Event>) {
    event.Some? && event.value.detail in msgTypes
  }

  /** Only an actuator ever handles an interrupt, and it handles exactly
      the two alarms. */
  lemma OnlyActuatorsHandle(kind: string, event: Option<Event>)
    ensures Handles(MsgTypes(kind), event) <==>
              kind == "actuator" && event.Some? &&
              (event.value.detail == "low temperature" || event.value.detail == "high temperature")
  {
    if kind == "actuator" && event.Some? && event.value.detail in MsgTypes(kind) {
      assert event.value.detail in ["low temperature", "high temperature"];
    }
  }

  /** What a bacterium of kind `kind` puts on the queue when its sleep
      completes with the context at `ambient`. */
  function WakeEmission(kind: string, ambient: real): (r: Option<Event>)
    ensures r.Some? <==> kind == "sensor" && ambient < LowTemperatureThreshold
    ensures r.Some? ==> r.value == Event("actuator", "low temperature")
  {
    if kind == "sensor" && ambient < LowTemperatureThreshold then Some(Event("actuator", "low temperature"))
    else None
  }

  /** A sensor's alarm is an event that an actuator, and only an actuator,
      takes and handles. */
  lemma AlarmReachesActuators(ambient: real, kind: string)
    requires ambient < LowTemperatureThreshold
    ensures WakeEmission("sensor", ambient).Some?
    ensures Accepts(kind, WakeEmission("sensor", ambient).value) <==> kind == "actuator"
    ensures Handles(MsgTypes("actuator"), WakeEmission("sensor", ambient))
  {
    assert "low temperature" in MsgTypes("actuator");
  }

  /** The `n`-th event of the generator, counting from 1. */
  function NthEvent(n: nat): Event
    requires n >= 1
  {
    if n % 2 == 1 then Event("sensor", "tick") else Event("actuator", "tick")
  }

  /** Consecutive generated events go to different kinds, each a tick that
      exactly one of the two kinds takes. */
  lemma GeneratedEventsAlternate(n: nat)
    requires n >= 1
    ensures NthEvent(n).detail == "tick"
    ensures Accepts("sensor", NthEvent(n)) <==> n % 2 == 1
    ensures Accepts("actuator", NthEvent(n)) <==> n % 2 == 0
    ensures NthEvent(n).kind != NthEvent(n + 1).kind
  {
  }

  /** The first `count` puts of `event_generator` started at `start`: the
      counter goes up by one per put and its parity picks the kind. */
  method GenerateEvents(start: real, period: real, count: nat) returns (puts: seq<(real, Event)>)
    ensures |puts| == count
    ensures forall i :: 0 <= i < count ==> puts[i] == (start + (i + 1) as real * period, NthEvent(i + 1))
  {
    var now := start;
    var eventNo := 0;
    puts := [];
    while eventNo < count
      invariant 0 <= eventNo <= count && |puts| == eventNo
      invariant now == start + eventNo as real * period
      invariant forall i :: 0 <= i < eventNo ==> puts[i].0 == start + (i + 1) as real * period
      invariant forall i :: 0 <= i < eventNo ==> puts[i].1 == NthEvent(i + 1)
    {
      assert (eventNo + 1) as real * period == eventNo as real * period + period;
      now := now + period;
      eventNo := eventNo + 1;
      var event;
      if eventNo % 2 == 1 {
        event := Event("sensor", "tick");
      } else {
        event := Event("actuator", "tick");
      }
      assert event == NthEvent(eventNo);
      puts := puts + [(now, event)];
    }
  }

  class BacterialContext {
    var ambientTemperature: real
    /** How many updates have run. */
    ghost var updates: nat

    ghost predicate Valid()
      reads this
    {
      ambientTemperature == RtMean - updates as real
    }

    constructor()
      ensures Valid() && updates == 0 && ambientTemperature == RtMean
    {
      ambientTemperature := RtMean;
      updates := 0;
    }

    /** One update: one degree colder. */
    method Update()
      requires Valid()
      modifies this
      ensures Valid() && updates == old(updates) + 1
      ensures ambientTemperature == old(ambientTemperature) - 1.0
    {
      ambientTemperature := ambientTemperature - 1.0;
      updates := updates + 1;
    }
  }

  /** After `n` updates a sensor raises the alarm exactly when `n` is at
      least 3 (20, 19 and 18 degrees are not below the threshold). */
  lemma AlarmAfterThreeUpdates(n: nat)
    ensures WakeEmission("sensor", RtMean - n as real).Some? <==> n >= 3
  {
  }

  class ComputationalBacterium {
    const name: string
    const kind: string
    const period: real
    const context: BacterialContext
    const msgTypes: seq<string>
    const dispatcher: Messaging.MessageDispatcher
    /** The last event the listening loop picked up, until it is handled. */
    var event: Option<Event>
    var sleepTimeLeft: real
    var sleepStartsAt: real

    /** The remaining sleep stays within one period. */
    ghost predicate Valid()
      reads this
    {
      && period >= 0.0
      && 0.0 <= sleepTimeLeft <= period
      && msgTypes == MsgTypes(kind)
    }

    /** The sleep in progress. */
    function Current(): Sleep
      reads this
    {
      Sleep(sleepStartsAt, sleepTimeLeft)
    }

    /** Registers with the dispatcher and starts sleeping a full period at
        `now` (simpy refuses a negative delay, hence the precondition). */
    constructor(now: real, name: string, kind: string, period: real,
                context: BacterialContext, dispatcher: Messaging.MessageDispatcher)
      requires period >= 0.0
      modifies dispatcher`bacteria
      ensures Valid()
      ensures this.name == name && this.kind == kind && this.period == period
      ensures this.context == context && this.dispatcher == dispatcher
      ensures event == None && Current() == Sleep(now, period)
      ensures dispatcher.bacteria == old(dispatcher.bacteria) + [this]
    {
      this.name := name;
      this.kind := kind;
      this.period := period;
      this.context := context;
      this.dispatcher := dispatcher;
      event := None;
      sleepTimeLeft := period;
      sleepStartsAt := now;
      msgTypes := MsgTypes(kind);
      new;
      dispatcher.Register(this);
    }

    /** The sleep completes: a sensor reads the context and may return an
        alarm to put on the queue; the next sleep is a full period. */
    method Timeout() returns (now: real, emitted: Option<Event>)
      requires Valid()
      modifies this`sleepTimeLeft, this`sleepStartsAt
      ensures Valid()
      ensures now == WakeTime(old(Current()))
      ensures Current() == Completed(period, old(Current()))
      ensures emitted == WakeEmission(kind, context.ambientTemperature)
    {
      now := sleepStartsAt + sleepTimeLeft;
      emitted := None;
      if kind == "sensor" {
        if context.ambientTemperature < LowTemperatureThreshold {
          emitted := Some(Event("actuator", "low temperature"));
        }
      }
      sleepTimeLeft := period;
      sleepStartsAt := now;
    }

    /** An interrupt at `now` during the sleep. A handled event is cleared
        and the next sleep lasts what was left of the period; otherwise the
        event stays and the sleep restarts with its old length. */
    method Interrupt(now: real)
      requires Valid() && During(Current(), now)
      modifies this`event, this`sleepTimeLeft, this`sleepStartsAt
      ensures Valid()
      ensures Handles(msgTypes, old(event)) ==>
                event == None && Current() == Preempted(period, old(Current()), now)
      ensures !Handles(msgTypes, old(event)) ==>
                event == old(event) && Current() == Resumed(old(Current()), now)
    {
      if event.Some? && event.value.detail in msgTypes {
        event := None;
        sleepTimeLeft := period - (now - sleepStartsAt);
      }
      sleepStartsAt := now;
    }

    /** The listening loop is offered `ev` at `now`: an event of the
        bacterium's kind is stored and interrupts the sleep once. */
    method Listen(ev: Event, now: real) returns (accepted: bool)
      requires Valid() && During(Current(), now)
      modifies this`event, this`sleepTimeLeft, this`sleepStartsAt
      ensures Valid()
      ensures accepted <==> Accepts(kind, ev)
      ensures accepted && Handles(msgTypes, Some(ev)) ==>
                event == None && Current() == Preempted(period, old(Current()), now)
      ensures accepted && !Handles(msgTypes, Some(ev)) ==>
                event == Some(ev) && Current() == Resumed(old(Current()), now)
      ensures !accepted ==> event == old(event) && Current() == old(Current())
    {
      accepted := Accepts(kind, ev);
      if accepted {
        event := Some(ev);
        Interrupt(now);
      }
    }
  }

  /** An actuator with a 10 s period that takes a low-temperature alarm at
      t = 4 sleeps the remaining 6 s and acts at t = 10, not t = 14; a tick
      at t = 4 is taken but not handled, so it sleeps the full 10 s again. */
  method ActuatorAlarmScenario() returns (leftAfterAlarm: real, actsAt: real, leftAfterTick: real, actsAfterTickAt: real)
    ensures leftAfterAlarm == 6.0 && actsAt == 10.0
    ensures leftAfterTick == 10.0 && actsAfterTickAt == 14.0
  {
    var context := new BacterialContext();
    var dispatcher := new Messaging.MessageDispatcher();
    var a1 := new ComputationalBacterium(0.0, "a1", "actuator", 10.0, context, dispatcher);
    var accepted := a1.Listen(Event("actuator", "low temperature"), 4.0);
    assert "low temperature" in a1.msgTypes;
    leftAfterAlarm := a1.sleepTimeLeft;
    var emitted;
    actsAt, emitted := a1.Timeout();
    var a2 := new ComputationalBacterium(0.0, "a2", "actuator", 10.0, context, dispatcher);
    accepted := a2.Listen(Event("actuator", "tick"), 4.0);
    assert "tick" !in a2.msgTypes;
    leftAfterTick := a2.sleepTimeLeft;
    actsAfterTickAt, emitted := a2.Timeout();
  }

  /** A sensor that wakes after two context updates reads 18 degrees and
      stays quiet; after the third update it reads 17 and raises the alarm. */
  method SensorAlarmScenario() returns (first: Option<Event>, second: Option<Event>)
    ensures first == None
    ensures second == Some(Event("actuator", "low temperature"))
  {
    var context := new BacterialContext();
    var dispatcher := new Messaging.MessageDispatcher();
    var s1 := new ComputationalBacterium(0.0, "s1", "sensor", 10.0, context, dispatcher);
    context.Update();
    context.Update();
    var now;
    now, first := s1.Timeout();
    context.Update();
    now, second := s1.Timeout();
  }

  /** Three bacteria register themselves and the second registers once
      more; a message from the first gets uid 1, the next one uid 2. */
  method BroadcastScenario() returns (firstUid: Option<nat>, secondUid: Option<nat>)
    ensures firstUid == Some(1) && secondUid == Some(2)
  {
    var context := new BacterialContext();
    var dispatcher := new Messaging.MessageDispatcher();
    var b1 := new ComputationalBacterium(0.0, "b1", "sensor", 10.0, context, dispatcher);
    var b2 := new ComputationalBacterium(0.0, "b2", "actuator", 10.0, context, dispatcher);
    var b3 := new ComputationalBacterium(0.0, "b3", "actuator", 10.0, context, dispatcher);
    dispatcher.Register(b2);
    var m1 := new Messaging.Message(b1);
    var delivered := dispatcher.Broadcast(m1);
    firstUid := m1.uid;
    var m2 := new Messaging.Message(b2);
    delivered := dispatcher.Broadcast(m2);
    secondUid := m2.uid;
  }
}
