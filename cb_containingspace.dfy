/** `ContainingSpace` (v2/cb_containingspace.py), the room whose temperature
    drifts towards an equilibrium set by its active heat sources, and
    `CbHeater` (v2/cb_heater.py), the heat source. They share a module
    because each refers to the other: the space keeps its heaters, and a
    heater keeps the space's `heat_source_output_changed` as its listener
    callback (modelled as the space itself, or `null` for `None`).

    simpy's timeout and interrupt of the space's `update` process become the
    methods `CycleTimeout` and `CycleInterrupt`; the interrupt a mutator
    sends is handled at the same instant, `now`. */
module Space {
  import opened Wrappers
  import opened DutyCycle
  import Thermal
  import ListOps
  import Base
  import Heater

  /** What the space reads from its heaters, in registration order. */
  function ReadingsOf(hs: seq<CbHeater>): (r: seq<Thermal.Reading>)
    reads hs
    ensures |r| == |hs|
    ensures forall i :: 0 <= i < |hs| ==> r[i] == Thermal.Reading(hs[i].heatOutput, hs[i].heatOn)
  {
    seq(|hs|, i requires 0 <= i < |hs| reads hs => Thermal.Reading(hs[i].heatOutput, hs[i].heatOn))
  }

  /** The heat of a space whose only source is `h`. */
  lemma SingleSourceHeat(h: CbHeater)
    requires h.heatOutput >= 0.0
    ensures Thermal.CurrentHeat(ReadingsOf([h])) == if h.heatOn then h.heatOutput else 0.0
  {
    assert ReadingsOf([h]) == [Thermal.Reading(h.heatOutput, h.heatOn)];
    Thermal.ActiveOutputSingle(Thermal.Reading(h.heatOutput, h.heatOn));
  }

  /** Every heater's output is non-negative. */
  predicate OutputsNonNegative(hs: seq<CbHeater>)
    reads hs
  {
    forall i :: 0 <= i < |hs| ==> hs[i].heatOutput >= 0.0
  }

  /** No heater is on. */
  predicate AllOff(hs: seq<CbHeater>)
    reads hs
  {
    forall i :: 0 <= i < |hs| ==> !hs[i].heatOn
  }

  /** With no source on, the sources that are on are none. */
  lemma NoneOnIsEmpty(readings: seq<Thermal.Reading>)
    ensures (forall i :: 0 <= i < |readings| ==> !readings[i].heatOn) ==> Thermal.OnOnly(readings) == []
  {
  }

  /** The room's heat is the summed output of the heaters that are on when
      no output is negative, and 0 when no heater is on. */
  lemma HeatFromSourcesIsActiveSum(room: ContainingSpace)
    ensures OutputsNonNegative(room.heatSources) ==>
              room.CurrentHeatFromSources() == Thermal.TotalOutput(Thermal.OnOnly(ReadingsOf(room.heatSources)))
    ensures AllOff(room.heatSources) ==> room.CurrentHeatFromSources() == 0.0
  {
    var readings := ReadingsOf(room.heatSources);
    Thermal.ActiveOutputCountsOnlyOn(readings);
    NoneOnIsEmpty(readings);
    if OutputsNonNegative(room.heatSources) {
      Thermal.ActiveOutputNonNegative(readings);
    }
  }

  /** With no heater on, the target equilibrium is the low one. */
  lemma EquilibriumsWithAllOff(room: ContainingSpace)
    requires AllOff(room.heatSources)
    ensures room.ComputeEquilibriums() == (room.lowEquilibrium, room.lowEquilibrium)
  {
    HeatFromSourcesIsActiveSum(room);
  }

  class CbHeater {
    const base: Base.CbBase
    const heatOutput: real
    const outputUnit: string
    var heatOn: bool
    var listener: ContainingSpace?

    ghost predicate Valid()
      reads this, base
    {
      base.Valid()
    }

    /** A heater is off and has no listener unless told otherwise. */
    constructor(now: real, id: string, kind: string, period: real, output: real, heatOn: bool := false)
      requires period >= 0.0
      ensures Valid() && fresh(base)
      ensures base.id == id && base.kind == kind && base.period == period
      ensures base.event == None && base.Current() == Sleep(now, period)
      ensures heatOutput == output && outputUnit == "watts"
      ensures this.heatOn == heatOn && listener == null
    {
      base := new Base.CbBase(id, kind, period, now);
      heatOutput := output;
      this.heatOn := heatOn;
      outputUnit := "watts";
      listener := null;
    }

    /** Replaces the stored callback, `null` included. */
    method SetListenerCallback(callback: ContainingSpace?)
      modifies this`listener
      ensures listener == callback
    {
      listener := callback;
    }

    /** Only reports on the console; changes nothing. */
    method SustenanceActivity()
    {
    }

    /** The sleep completes: `sustenance_activity` runs once and the heater
        sleeps another period; its own state is untouched. */
    method CycleTimeout() returns (now: real)
      requires Valid()
      modifies base
      ensures Valid()
      ensures now == WakeTime(old(base.Current()))
      ensures base.Current() == Completed(base.period, old(base.Current()))
      ensures base.event == old(base.event)
    {
      now := base.CompleteSleep();
      SustenanceActivity();
    }

    /** Switches on `heat_on` and off on `heat_off` as `Heater.Switch` says,
        and calls the listener once, at `now`, exactly when the state
        changed and a listener is set. */
    method OnInterruptActivity(now: real) returns (notified: bool)
      requires base.event.Some?
      requires listener != null ==> listener.Valid() && listener.Pending(now)
      modifies this`heatOn, listener
      ensures (heatOn, heatOn != old(heatOn)) == Heater.Switch(old(heatOn), base.event.value.kind)
      ensures notified <==> heatOn != old(heatOn) && listener != null
      ensures listener != null ==> listener.Valid()
      ensures notified ==> listener.NotifiedFrom(old(listener.State()), this, now)
      ensures !notified && listener != null ==> unchanged(listener)
    {
      var changed := false;
      if base.event.value.kind == "heat_on" && !heatOn {
        heatOn := true;
        changed := true;
      } else if base.event.value.kind == "heat_off" && heatOn {
        heatOn := false;
        changed := true;
      }
      notified := listener != null && changed;
      if notified {
        listener.HeatSourceOutputChanged(this, now);
      }
    }

    /** The listening loop is offered `ev` at `now`: an accepted event is
        stored, interrupts the sleep, and `on_interrupt_activity` runs once. */
    method OnEvent(ev: Base.Event, now: real) returns (accepted: bool, notified: bool)
      requires Valid() && During(base.Current(), now)
      requires listener != null ==> listener.Valid() && listener.Pending(now)
      modifies base, this`heatOn, listener
      ensures Valid()
      ensures accepted <==> Base.Accepts(base.kind, ev)
      ensures !accepted ==> !notified && heatOn == old(heatOn) && unchanged(base)
      ensures !accepted && listener != null ==> unchanged(listener)
      ensures accepted ==> base.event == Some(ev) && base.Current() == Resumed(old(base.Current()), now)
      ensures accepted ==> (heatOn, heatOn != old(heatOn)) == Heater.Switch(old(heatOn), ev.kind)
      ensures notified <==> accepted && heatOn != old(heatOn) && listener != null
      ensures notified ==> listener.NotifiedFrom(old(listener.State()), this, now)
      ensures accepted && !notified && listener != null ==> unchanged(listener)
    {
      notified := false;
      accepted := base.Listen(ev, now);
      if accepted {
        notified := OnInterruptActivity(now);
      }
    }
  }

  /** A space's temperature, sources and duty-cycle state, as one value. */
  datatype SpaceState = SpaceState(
    temperature: real, heatSources: seq<CbHeater>, cycle: Sleep,
    heatOutputAtStart: real, equilibriumsAtStart: (real, real), interrupts: nat)

  class ContainingSpace {
    const lowEquilibrium: real
    const volume: real
    const cycleLength: real
    var temperature: real
    var heatSources: seq<CbHeater>
    // the state of the `update` loop
    var cycleStartTime: real
    var timeToNextUpdate: real
    var heatOutputAtStart: real
    var equilibriumsAtStart: (real, real)
    /** How many interrupts the duty process has received. */
    ghost var interrupts: nat

    ghost predicate Valid()
      reads this
    {
      && cycleLength == Thermal.CycleLength
      && 0.0 <= timeToNextUpdate <= cycleLength
      && ListOps.Distinct(heatSources)
      && heatOutputAtStart >= 0.0
      && equilibriumsAtStart == Thermal.Equilibriums(lowEquilibrium, volume, heatOutputAtStart)
    }

    /** The cycle in progress. */
    function Cycle(): Sleep
      reads this
    {
      Sleep(cycleStartTime, timeToNextUpdate)
    }

    /** `now` falls inside the cycle in progress: the update process waits
        on its timeout then, so it can be interrupted. */
    predicate Pending(now: real)
      reads this
    {
      During(Cycle(), now)
    }

    /** `current_heat_from_sources`: the active output of the registered
        heaters, never negative (`HeatFromSourcesIsActiveSum` says more). */
    function CurrentHeatFromSources(): (h: real)
      reads this`heatSources, heatSources
      ensures h >= 0.0
    {
      Thermal.CurrentHeat(ReadingsOf(heatSources))
    }

    /** `compute_equilibriums`: the fixed low bound, and a target at least
        that high in a room of non-negative volume. */
    function ComputeEquilibriums(): (eq: (real, real))
      reads this`heatSources, heatSources
      ensures eq.0 == lowEquilibrium
      ensures volume >= 0.0 ==> eq.1 >= lowEquilibrium
    {
      Thermal.Equilibriums(lowEquilibrium, volume, CurrentHeatFromSources())
    }

    /** The state the duty cycle works on, as one value. */
    ghost function State(): SpaceState
      reads this
    {
      SpaceState(temperature, heatSources, Cycle(), heatOutputAtStart, equilibriumsAtStart, interrupts)
    }

    /** What handling one interrupt at `now` did, from state `prev`: the
        temperature is set for the time since the cycle started, from the
        output and targets snapshotted at its start; a new cycle starts now,
        shortened by the time passed, with fresh snapshots. */
    ghost predicate InterruptedFrom(prev: SpaceState, now: real)
      reads this, heatSources
    {
      && temperature == Thermal.SettledTemperature(
           prev.temperature, prev.equilibriumsAtStart,
           Thermal.CoolingGradient(now - prev.cycle.startsAt),
           Thermal.WarmingGradient(now - prev.cycle.startsAt, prev.heatOutputAtStart))
      && temperature >= lowEquilibrium
      && Cycle() == Preempted(cycleLength, prev.cycle, now)
      && heatOutputAtStart == CurrentHeatFromSources()
      && interrupts == prev.interrupts + 1
    }

    /** What `heat_source_output_changed(h)` at `now` did, from state
        `prev`: exactly one interrupt when `h` is one of the sources,
        nothing otherwise. */
    ghost predicate NotifiedFrom(prev: SpaceState, h: CbHeater, now: real)
      reads this, heatSources
    {
      && heatSources == prev.heatSources
      && (h in heatSources ==> InterruptedFrom(prev, now))
      && (h !in heatSources ==> State() == prev)
    }

    /** A space with no sources; its first cycle starts at `now`. */
    constructor(now: real, lowEq: real, startTemp: real, volume: real)
      ensures Valid()
      ensures lowEquilibrium == lowEq && temperature == startTemp && this.volume == volume
      ensures heatSources == [] && interrupts == 0
      ensures Cycle() == Sleep(now, Thermal.CycleLength)
      ensures heatOutputAtStart == 0.0 && equilibriumsAtStart == (lowEq, lowEq)
    {
      lowEquilibrium := lowEq;
      temperature := startTemp;
      this.volume := volume;
      cycleLength := Thermal.CycleLength;
      heatSources := [];
      timeToNextUpdate := Thermal.CycleLength;
      interrupts := 0;
      new;
      StartCycle(now);
    }

    /** The top of the `update` loop: record the start time and snapshot
        the active output and the equilibrium targets. */
    method StartCycle(now: real)
      modifies this`cycleStartTime, this`heatOutputAtStart, this`equilibriumsAtStart
      ensures cycleStartTime == now
      ensures heatOutputAtStart == CurrentHeatFromSources()
      ensures equilibriumsAtStart == Thermal.Equilibriums(lowEquilibrium, volume, heatOutputAtStart)
    {
      cycleStartTime := now;
      heatOutputAtStart := CurrentHeatFromSources();
      equilibriumsAtStart := ComputeEquilibriums();
    }

    method ComputeAndSetTemperature(eqTarget: (real, real), coolingGradient: real, warmingGradient: real)
      modifies this`temperature
      ensures temperature == Thermal.SettledTemperature(old(temperature), eqTarget, coolingGradient, warmingGradient)
    {
      var gradient := 0.0;
      if temperature > eqTarget.1 {
        gradient := Thermal.Min(temperature - eqTarget.1, coolingGradient);
        temperature := temperature - gradient;
      } else if temperature < eqTarget.1 {
        gradient := Thermal.Min(eqTarget.1 - temperature, warmingGradient);
        temperature := temperature + gradient;
      }
      if temperature < eqTarget.0 {
        temperature := eqTarget.0;
      }
    }

    /** The cycle's timeout fires: the temperature is set for the full cycle
        from the snapshots, and a full cycle starts. */
    method CycleTimeout() returns (now: real)
      requires Valid()
      modifies this
      ensures Valid()
      ensures now == WakeTime(old(Cycle()))
      ensures temperature == Thermal.SettledTemperature(
                old(temperature), old(equilibriumsAtStart),
                Thermal.CoolingGradient(old(timeToNextUpdate)),
                Thermal.WarmingGradient(old(timeToNextUpdate), old(heatOutputAtStart)))
      ensures temperature >= lowEquilibrium
      ensures Cycle() == Completed(cycleLength, old(Cycle()))
      ensures heatOutputAtStart == CurrentHeatFromSources()
      ensures heatSources == old(heatSources) && interrupts == old(interrupts)
    {
      now := cycleStartTime + timeToNextUpdate;
      var timePassed := now - cycleStartTime;
      ComputeAndSetTemperature(equilibriumsAtStart,
                               Thermal.CoolingGradient(timePassed),
                               Thermal.WarmingGradient(timePassed, heatOutputAtStart));
      timeToNextUpdate := cycleLength;
      StartCycle(now);
    }

    /** The cycle is interrupted at `now`. */
    method CycleInterrupt(now: real)
      requires Valid() && Pending(now)
      modifies this
      ensures Valid()
      ensures heatSources == old(heatSources)
      ensures InterruptedFrom(old(State()), now)
    {
      var timePassed := now - cycleStartTime;
      ComputeAndSetTemperature(equilibriumsAtStart,
                               Thermal.CoolingGradient(timePassed),
                               Thermal.WarmingGradient(timePassed, heatOutputAtStart));
      timeToNextUpdate := cycleLength - timePassed;
      interrupts := interrupts + 1;
      StartCycle(now);
    }

    /** Adds `h` unless it is already a source; a new source gets this
        space as its listener and interrupts the cycle once. */
    method AddHeatSource(h: CbHeater, now: real)
      requires Valid() && Pending(now)
      modifies this, h`listener
      ensures Valid()
      ensures h in old(heatSources) ==> unchanged(this) && h.listener == old(h.listener)
      ensures h !in old(heatSources) ==> heatSources == old(heatSources) + [h] && h.listener == this
      ensures h !in old(heatSources) ==> InterruptedFrom(old(State()), now)
    {
      if h !in heatSources {
        ghost var prev := State();
        ListOps.AppendKeepsDistinct(heatSources, h);
        heatSources := heatSources + [h];
        h.SetListenerCallback(this);
        assert State() == prev.(heatSources := heatSources);
        CycleInterrupt(now);
      }
    }

    /** Removes `h` if it is a source; it loses its listener and the cycle
        is interrupted once. */
    method RemoveHeatSource(h: CbHeater, now: real)
      requires Valid() && Pending(now)
      modifies this, h`listener
      ensures Valid()
      ensures h !in old(heatSources) ==> unchanged(this) && h.listener == old(h.listener)
      ensures h in old(heatSources) ==> heatSources == ListOps.RemoveFirst(old(heatSources), h)
      ensures h in old(heatSources) ==> h !in heatSources && h.listener == null
      ensures h in old(heatSources) ==> InterruptedFrom(old(State()), now)
    {
      if h in heatSources {
        ghost var prev := State();
        ListOps.RemoveFirstOfDistinct(heatSources, h);
        heatSources := ListOps.RemoveFirst(heatSources, h);
        h.SetListenerCallback(null);
        assert State() == prev.(heatSources := heatSources);
        CycleInterrupt(now);
      }
    }

    /** A source's output changed: interrupt once if `h` is a source. */
    method HeatSourceOutputChanged(h: CbHeater, now: real)
      requires Valid() && Pending(now)
      modifies this
      ensures Valid()
      ensures NotifiedFrom(old(State()), h, now)
      ensures h !in heatSources ==> unchanged(this)
    {
      if h in heatSources {
        CycleInterrupt(now);
      }
    }
  }

  /** No sources, low equilibrium 288 K, 290 K at the start, a 5 x 5 x 3 m
      room: one full 30 s cycle cools it by `cooling_gradient(30)` = 0.05 K. */
  method QuietCycleScenario() returns (before: real, after: real)
    ensures before == 290.0 && after == 289.95
  {
    var room := new ContainingSpace(0.0, 288.0, 290.0, 5.0 * 5.0 * 3.0);
    assert room.equilibriumsAtStart == (288.0, 288.0) && room.timeToNextUpdate == 30.0;
    before := room.temperature;
    var now := room.CycleTimeout();
    assert Thermal.CoolingGradient(30.0) == 0.05;
    after := room.temperature;
  }

  /** A 300 W source, already on, is added 10 s into the first cycle. The
      temperature is set for those 10 s from the snapshot taken with no
      source (cooling by 10/600 K), the next cycle lasts the remaining 20 s,
      and at its end the space has warmed by `warming_gradient(20, 300)` =
      0.1 K towards its new target of 290.25 K. */
  method SourceAddedMidCycleScenario() returns (atInterrupt: real, nextCycle: real, atCycleEnd: real)
    ensures atInterrupt == 290.0 - 1.0 / 60.0
    ensures nextCycle == 20.0
    ensures atCycleEnd == atInterrupt + 0.1
  {
    var room := new ContainingSpace(0.0, 288.0, 290.0, 75.0);
    var h2 := new CbHeater(0.0, "h2", "heat_on", 10.0, 300.0, true);
    room.AddHeatSource(h2, 10.0);
    assert room.heatSources == [h2];
    SingleSourceHeat(h2);
    assert room.heatOutputAtStart == 300.0;
    assert room.equilibriumsAtStart == (288.0, 290.25);
    assert room.Cycle() == Sleep(10.0, 20.0);
    atInterrupt := room.temperature;
    assert atInterrupt == 290.0 - 1.0 / 60.0;
    nextCycle := room.timeToNextUpdate;
    var now := room.CycleTimeout();
    atCycleEnd := room.temperature;
  }
}
