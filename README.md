# Computational bacteria and a heated room, modelled in Dafny

The simulation has agents, called computational bacteria. Each runs a duty cycle: it sleeps for a period, acts, and starts sleeping again. An event of its own kind interrupts the sleep.

Beside the agents is `ContainingSpace`, a room. Its temperature moves towards an equilibrium that depends on the output of the heaters that are on. A heater tells the room when it switches, and the room then cuts its own update cycle short. A `MessageDispatcher` broadcasts numbered messages to the registered bacteria.

This project models that logic over explicit time. A simpy timeout becomes a step method that returns the wake time, for example `CycleTimeout` or `Timeout`. A simpy interrupt becomes a step method that takes the current time `now` and may only be called while the process sleeps, for example `CycleInterrupt`, `Interrupted` or `Interrupt`. The listening loop picking up one event becomes `Listen` or `OnEvent`.

| file | module | models |
|---|---|---|
| `duty_cycle.dfy` | `DutyCycle` | the sleep arithmetic every duty cycle shares: a completed sleep, a preempted sleep that keeps what was left of the period, and a resumed sleep that restarts with the same length |
| `thermal.dfy` | `Thermal` | the room's pure arithmetic: active heat output, equilibrium targets, cooling and warming gradients, and the clamped temperature step |
| `cb_containingspace.dfy` | `Space` | the `ContainingSpace` class, with its update cycle and heat-source registry, and the `CbHeater` class that notifies it |
| `cb_heater.dfy` | `Heater` | the heater's switching decision |
| `cb_base.dfy` | `Base` | the generic `CbBase` sleep/act/interrupt skeleton and its listening filter |
| `cb_thermometer.dfy` | `Thermometer` | `CbThermometer`, which latches the room temperature |
| `compubact.dfy` | `Compubact` | the first prototype: `BacterialContext`, `ComputationalBacterium` and the event generator |
| `messaging.dfy` | `Messaging` | `MessageDispatcher` and `Message` |
| `list_ops.dfy`, `wrappers.dfy` | `ListOps`, `Wrappers` | Python list membership and `remove`, and `Option` |

`CbHeater` and `CbThermometer` extend `CbBase` in the source. Here each holds a `CbBase` and runs its own activity around the base's steps.

The room's update cycle measures the elapsed time from its latest restart. The bacteria's `acting` loop in `compubact.py` does the same. A single interrupt in a cycle therefore keeps the update cadence. A second interrupt in the same cycle shortens a cycle that had already been shortened, so the next update comes late by the time of the first cut. The model keeps this behaviour as written. `DutyCycle.PreemptAllWakeTime` and `DutyCycle.TwoPreemptionsDelayWake` prove it.

Some behaviours of the code a reader might not expect, all modelled as written except the third, which is a precondition:
- The remaining sleep is not clamped at zero. It stays within `[0, period]` anyway, provided interrupts arrive only during a sleep.
- Registering a bacterium twice is not an error.
- Unregistering an absent bacterium is the failure of Python's `list.remove`. It is modelled as a precondition.
- The listening filter compares only the event's kind. The target is never checked.
- `heat_source_output_changed` does not change the registry.

## Model

| member | source | states |
|---|---|---|
| `ListOps.RemoveFirst` | v2/cb_containingspace.py:147 | `list.remove`: one element shorter, the multiset minus one `x`, everything before the first `x` unchanged and everything after it shifted down by one in order, so exactly the first `x` is removed; an absent `x` leaves the list as it is |
| `ListOps.AppendKeepsDistinct` | v2/cb_containingspace.py:137-138 | appending a source that is not yet registered keeps the registry duplicate-free |
| `ListOps.RemoveFirstOfDistinct` | v2/cb_containingspace.py:146-147 | removing from a duplicate-free registry keeps it duplicate-free and removes exactly that source |
| `DutyCycle.Completed` | v2/cb_base.py:35-39 | a completed sleep starts the next one at the wake time, and it lasts a full period |
| `DutyCycle.Preempted` | compubact.py:126 | a handled interrupt starts the next sleep now, and it wakes one period after the cut sleep began; if the interrupt came during the sleep, the remaining time is within `[0, period]` |
| `DutyCycle.Resumed` | v2/cb_base.py:40-42 | an interrupt that keeps `sleep_time_left` restarts a sleep of the same length now, pushing the wake time back by the time already slept |
| `DutyCycle.OnePreemptionKeepsCadence` | v2/cb_containingspace.py:77-79 | one interrupt in a full cycle leaves the next update where it would have been |
| `DutyCycle.PreemptAllWakeTime` | v2/cb_containingspace.py:49-79 | after interrupts at `t1..tn` the process wakes one period after the second-to-last interrupt (after the cycle start when there is only one) |
| `DutyCycle.PreemptAllBounded` | compubact.py:93-126 | interrupts that arrive while sleeping keep `0 <= sleep_time_left <= period` |
| `DutyCycle.TwoPreemptionsDelayWake` | v2/cb_containingspace.py:70-79 | a full cycle cut twice wakes late by the time of the first cut, so strictly later than planned |
| `Thermal.OnOnly` | v2/cb_containingspace.py:105 | exactly the sources that are on are selected, each as often as it occurs among the sources, so equal readings of two heaters are both counted |
| `Thermal.CurrentHeat` | v2/cb_containingspace.py:103-108 | the heat is never negative; it is the active output when that is non-negative and 0 otherwise |
| `Thermal.Equilibriums` | v2/cb_containingspace.py:110-118 | the first target is the low equilibrium; with no output the high target equals it; with non-negative volume and output the high target is never below it |
| `Thermal.CoolingGradient` | v2/cb_containingspace.py:120-122 | 0.1 K per minute (gradient times 600 is the time span), non-negative for a non-negative span |
| `Thermal.WarmingGradient` | v2/cb_containingspace.py:124-133 | minus the cooling gradient with no output, the cooling gradient scaled by output/100 otherwise; its sign follows the output |
| `Thermal.SettledTemperature` | v2/cb_containingspace.py:81-101 | never below the low equilibrium; from above the target it falls by at most the cooling gradient and never past the target; from below it never passes the target and rises by at most the warming gradient; at the target it is unchanged apart from the low clamp |
| `Thermal.ActiveOutputAppend` | v2/cb_containingspace.py:135-138 | adding sources adds their active output to the total |
| `Thermal.ActiveOutputSingle` | v2/cb_containingspace.py:105 | a lone source contributes its output when on and nothing when off |
| `Thermal.ActiveOutputCountsOnlyOn` | v2/cb_containingspace.py:105 | the active output is the plain sum over the sources that are on |
| `Thermal.ActiveOutputNonNegative` | v2/cb_containingspace.py:103-108 | with non-negative outputs the active output is non-negative, so the clamp to 0 never applies |
| `Thermal.ActiveOutputUpdate` | v2/cb_containingspace.py:153-161 | switching one source changes the total by exactly the difference of its contributions |
| `Thermal.ActiveOutputRemove` | v2/cb_containingspace.py:144-147 | removing a source takes away exactly its contribution |
| `Thermal.CycleUpdateApproachesTarget` | v2/cb_containingspace.py:53-61 | one update from the cycle-start snapshots, starting at or above the low equilibrium, moves the temperature towards the target by at most the applicable gradient, never past it and never below the low equilibrium |
| `Base.CbBase.constructor` | v2/cb_base.py:31-35 | the first sleep starts now, lasts a full period, and no event has been taken |
| `Base.CbBase.CompleteSleep` | v2/cb_base.py:35-39 | the sleep ends at its wake time and the next full-period sleep starts there |
| `Base.CbBase.Interrupted` | v2/cb_base.py:40-42 | an interrupt keeps `sleep_time_left` and restarts the sleep now |
| `Base.CbBase.Listen` | v2/cb_base.py:45-50 | an event is taken if and only if its kind is the agent's kind; a taken event is stored and then interrupts the sleep; any other event changes nothing |
| `Heater.Switch` | v2/cb_heater.py:27-33 | `heat_on` switches an off heater on, `heat_off` switches an on heater off, anything else leaves it; "changed" holds exactly when the state differs |
| `Heater.SwitchIdempotent` | v2/cb_heater.py:27-33 | the same event twice changes nothing the second time |
| `Space.ReadingsOf` | v2/cb_containingspace.py:105 | the room reads each source's output and on/off state, in registration order |
| `Space.SingleSourceHeat` | v2/cb_containingspace.py:103-108 | a room with one source has that source's output as its heat when it is on, and 0 when it is off |
| `Space.HeatFromSourcesIsActiveSum` | v2/cb_containingspace.py:103-108 | the room's heat is the plain sum of the outputs of the heaters that are on, when no output is negative, and 0 when no heater is on |
| `Space.EquilibriumsWithAllOff` | v2/cb_containingspace.py:110-118 | with no heater on, both equilibriums are the room's low equilibrium |
| `Space.CbHeater.constructor` | v2/cb_heater.py:6-14 | a new heater is off unless told otherwise, has the given output and no listener |
| `Space.CbHeater.SetListenerCallback` | v2/cb_heater.py:16-17 | the listener is replaced, `null` included |
| `Space.CbHeater.CycleTimeout` | v2/cb_heater.py:19-23 | a completed sleep changes none of the heater's own state |
| `Space.CbHeater.OnInterruptActivity` | v2/cb_heater.py:25-35 | the new state follows `Heater.Switch`; the listener is notified exactly when the state changed and a listener is set; a notified room handles exactly one interrupt at `now` |
| `Space.CbHeater.OnEvent` | v2/cb_heater.py:25-35 | a taken event switches the heater and notifies the room only on change; an event of another kind changes nothing |
| `Space.ContainingSpace.constructor` | v2/cb_containingspace.py:24-32 | no sources, the given temperature, and a first 30 s cycle starting now with a 0 W snapshot |
| `Space.ContainingSpace.CurrentHeatFromSources` | v2/cb_containingspace.py:103-108 | `Thermal.CurrentHeat` applied to `ReadingsOf(heatSources)`: the active output of the registered heaters, never negative |
| `Space.ContainingSpace.ComputeEquilibriums` | v2/cb_containingspace.py:110-118 | `Thermal.Equilibriums` applied to the room's low equilibrium, its volume and its current heat: the low bound is fixed, and the target is never below it in a room of non-negative volume |
| `Space.ContainingSpace.StartCycle` | v2/cb_containingspace.py:49-54 | a cycle records its start time and snapshots the active output and the equilibriums for that output |
| `Space.ContainingSpace.ComputeAndSetTemperature` | v2/cb_containingspace.py:81-101 | the new temperature is `Thermal.SettledTemperature` of the old one |
| `Space.ContainingSpace.CycleTimeout` | v2/cb_containingspace.py:56-64 | at the wake time the temperature is set from the cycle-start snapshots for the full cycle, and a full cycle starts with fresh snapshots |
| `Space.ContainingSpace.CycleInterrupt` | v2/cb_containingspace.py:65-79 | the temperature is set from the cycle-start snapshots for the time since the cycle started; the next cycle starts now and lasts the cycle length minus that time; the remaining time stays within `[0, cycle_length]` |
| `Space.ContainingSpace.AddHeatSource` | v2/cb_containingspace.py:135-142 | a present source changes nothing; a new one is appended, gets the room as its listener, and causes exactly one interrupt; the registry stays duplicate-free |
| `Space.ContainingSpace.RemoveHeatSource` | v2/cb_containingspace.py:144-151 | an absent source changes nothing; a present one is removed, loses its listener, and causes exactly one interrupt |
| `Space.ContainingSpace.HeatSourceOutputChanged` | v2/cb_containingspace.py:153-161 | exactly one interrupt if the source is registered, nothing otherwise; the registry never changes |
| `Space.QuietCycleScenario` | v2/cb_containingspace.py:19-31 | with no sources, low equilibrium 288 K and a start at 290 K, one full 30 s cycle ends at 289.95 K |
| `Space.SourceAddedMidCycleScenario` | v2/cb_containingspace.py:65-79 | a 300 W source added 10 s into a cycle: cooling by 1/60 K for those 10 s from the empty snapshot, a 20 s cycle next, and 0.1 K of warming at its end |
| `Thermometer.CbThermometer.constructor` | v2/cb_thermometer.py:6-13 | `last_temp_read` starts at -1 |
| `Thermometer.CbThermometer.SustenanceActivity` | v2/cb_thermometer.py:17-19 | with a room it copies the room's temperature; without one the last reading stays; the room is not written |
| `Thermometer.CbThermometer.CycleTimeout` | v2/cb_thermometer.py:17-20 | a completed sleep takes exactly one reading and starts a full-period sleep |
| `Thermometer.CbThermometer.OnEvent` | v2/cb_thermometer.py:22-23 | a taken event interrupts the sleep and leaves the reading alone |
| `Thermometer.ReadingScenario` | v2/cb_thermometer.py:13-19 | a thermometer reads -1 until its first wake at t = 10, then 290 K; one without a room keeps -1 |
| `Messaging.Message.constructor` | messaging.py:23-25 | a new message has its sender and no uid |
| `Messaging.Recipients` | messaging.py:12-14 | the sender is never among the recipients, and everyone else is counted once per registration |
| `Messaging.RecipientsCount` | messaging.py:12-14 | every bacterium other than the sender is reached exactly as often as it is registered, and is reached if and only if it is registered |
| `Messaging.RecipientsAppend` | messaging.py:12-14 | delivery keeps registration order |
| `Messaging.RecipientsWithoutSender` | messaging.py:12-14 | when the sender is not registered, every registered bacterium is reached, in order |
| `Messaging.RegisteredTwiceReceivesTwice` | messaging.py:16-17 | registered as `[a, b, c, b]`, a message from `a` reaches `b`, `c`, `b` |
| `Messaging.IssuedUidsIncrease` | messaging.py:6-10 | uids counted up from 1 are strictly increasing and never repeat |
| `Messaging.MessageDispatcher.constructor` | messaging.py:4-6 | no bacteria, and the next uid is 1 |
| `Messaging.MessageDispatcher.Broadcast` | messaging.py:7-14 | the message gets the current uid and the counter goes up by one; delivery is `Recipients` of the unchanged registry |
| `Messaging.MessageDispatcher.Register` | messaging.py:16-17 | the bacterium is appended, duplicates allowed |
| `Messaging.MessageDispatcher.Unregister` | messaging.py:19-20 | the first registration of a registered bacterium is removed |
| `Compubact.MsgTypes` | compubact.py:80-83 | an actuator handles the two temperature alarms; every other kind handles nothing |
| `Compubact.OnlyActuatorsHandle` | compubact.py:118 | an interrupt is handled if and only if the bacterium is an actuator and the stored event is one of the two alarms |
| `Compubact.WakeEmission` | compubact.py:100-106 | a wake-up puts an alarm on the queue if and only if a sensor reads below 18.0, and the alarm is `('actuator', 'low temperature')` |
| `Compubact.AlarmReachesActuators` | compubact.py:103-106 | a sensor's alarm is taken by actuators only, and an actuator handles it |
| `Compubact.GeneratedEventsAlternate` | compubact.py:141-148 | the n-th generated event is a tick for sensors when n is odd and for actuators when n is even, so consecutive events alternate |
| `Compubact.GenerateEvents` | compubact.py:138-149 | the i-th put happens i periods after the start and carries the i-th event |
| `Compubact.BacterialContext.constructor` | compubact.py:42-43 | the ambient temperature starts at 20.0 |
| `Compubact.BacterialContext.Update` | compubact.py:47-51 | each update lowers the ambient temperature by exactly 1 |
| `Compubact.AlarmAfterThreeUpdates` | compubact.py:43-51 | a sensor raises the alarm after n updates if and only if n is at least 3 |
| `Compubact.ComputationalBacterium.constructor` | compubact.py:65-83 | it registers itself with the dispatcher, has no event, and sleeps a full period from now |
| `Compubact.ComputationalBacterium.Timeout` | compubact.py:93-113 | at the wake time it emits `WakeEmission` for its kind and the context's temperature, and the next sleep is a full period |
| `Compubact.ComputationalBacterium.Interrupt` | compubact.py:114-126 | a handled event is cleared and the next sleep is the rest of the period; otherwise the event and the sleep length stay; `0 <= sleep_time_left <= period` is kept |
| `Compubact.ComputationalBacterium.Listen` | compubact.py:131-136 | an event is taken if and only if its kind is the bacterium's kind; a taken event is stored and interrupts the sleep |
| `Compubact.ActuatorAlarmScenario` | compubact.py:118-126 | an actuator with a 10 s period alarmed at t = 4 sleeps 6 s and acts at t = 10; after a tick it sleeps 10 s again and acts at t = 14 |
| `Compubact.SensorAlarmScenario` | compubact.py:100-106 | after two context updates (18.0) a sensor stays quiet; after three (17.0) it raises the alarm |
| `Compubact.BroadcastScenario` | messaging.py:6-10 | the first broadcast gets uid 1 and the second uid 2 |

## Left out

- simpy (`Environment`, `process`, `timeout`, `interrupt`, `FilterStore`) is not modelled. Time is an explicit `now`, and each timeout or interrupt is a step method. No scheduler or queue order is modelled: the caller decides when each step happens.
- The queue itself is not modelled. A sensor's alarm is returned by `Compubact.ComputationalBacterium.Timeout`, and `Compubact.GenerateEvents` returns its puts as a list with their times.
- The `while True` loops become single steps. `Compubact.GenerateEvents` covers the first `count` puts of the endless generator.
- The context's update process runs on its own timer. `Compubact.BacterialContext.Update` is one tick of it, and the caller chooses when it happens.
- Console output, including `CbHeater.sustenance_activity` and `CbThermometer.on_interrupt_activity`, which only print, is not modelled. Their models change nothing.
- `temperature_dist` and the random seed are unused randomness and are not modelled.
- Temperatures, gradients and times are exact `real`s, so floating-point rounding is not modelled.
- The driver and test scripts, and the commented-out test block of `v2/cb_containingspace.py`, are not modelled.
- `CbBase.__init__` and `init_cb_process` refer to undefined names, and the subclasses call the base constructor with too many arguments. The model uses the fields (`id`, `kind`, `period`, `event`) directly.
- `CbHeater` and `CbThermometer` pass a list of event kinds (v2/cb_containingspace_test.py:39), while the base filter compares the event's kind with `self.kind` by equality (v2/cb_base.py:47). As written, that comparison is never true, so no heater or thermometer ever takes an event. The model gives each agent a single-string kind, so an agent takes the events of exactly that kind. A given heater's `OnEvent` therefore switches it on, or switches it off, but never both.
- `bacterium.receive` is defined by no class. `Messaging.MessageDispatcher.Broadcast` returns the bacteria it would call instead of calling them.
- The second element of an event, for example a heater's id, is never checked by any filter and is not modelled.
- An interrupt is modelled as handled at the instant it is sent. A heater's notification and the room's recomputation therefore happen at the same `now`.
- An interrupt sent to a process that is not sleeping is not modelled. Every interrupt step requires `now` to fall within the current sleep.
