/** The decision in `CbHeater.on_interrupt_activity` (v2/cb_heater.py): a
    `'heat_on'` event switches an off heater on, a `'heat_off'` event
    switches an on heater off, and every other case leaves it as it is.
    The `CbHeater` class itself lives in module Space, beside the
    `ContainingSpace` it notifies. */
module Heater {

  /** The heater's state after an event of kind `eventKind`, and whether it changed. */
  function Switch(heatOn: bool, eventKind: string): (r: (bool, bool))
    ensures r.1 <==> r.0 != heatOn
    ensures r.1 <==> (eventKind == "heat_on" && !heatOn) || (eventKind == "heat_off" && heatOn)
    ensures r.0 == (if eventKind == "heat_on" then true else if eventKind == "heat_off" then false else heatOn)
  {
    var changed := (eventKind == "heat_on" && !heatOn) || (eventKind == "heat_off" && heatOn);
    (if changed then !heatOn else heatOn, changed)
  }

  /** A second event of the same kind changes nothing, and so notifies nobody. */
  lemma SwitchIdempotent(heatOn: bool, eventKind: string)
    ensures Switch(Switch(heatOn, eventKind).0, eventKind) == (Switch(heatOn, eventKind).0, false)
  {
  }
}
