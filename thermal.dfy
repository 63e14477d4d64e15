/** The pure arithmetic of `ContainingSpace` (v2/cb_containingspace.py):
    the heat output of the active sources, the equilibrium targets, the
    cooling and warming gradients, and the clamped temperature step. The
    class that drives them over time is in module Space. Temperatures are
    in Kelvin, times in seconds, outputs in watts. */
module Thermal {

  /** Updates per minute. */
  const UpdateFreq: real := 2.0

  /** The length of one update cycle in seconds: a minute divided by the update frequency. */
  const CycleLength: real := 1.0 / UpdateFreq * 60.0

  /** What the space reads from one heat source: its output and whether it is on. */
  datatype Reading = Reading(heatOutput: real, heatOn: bool)

  /** What one source adds to the total: its output when on, nothing when off. */
  function Contribution(r: Reading): real {
    if r.heatOn then r.heatOutput else 0.0
  }

  /** The summed output of the sources that are on. */
  function ActiveOutput(sources: seq<Reading>): real
    decreases |sources|
  {
    if sources == [] then 0.0 else Contribution(sources[0]) + ActiveOutput(sources[1..])
  }

  /** The sources that are on. */
  function OnOnly(sources: seq<Reading>): (r: seq<Reading>)
    ensures forall x :: x in r <==> x in sources && x.heatOn
    ensures forall x :: multiset(r)[x] == if x.heatOn then multiset(sources)[x] else 0
    decreases |sources|
  {
    if sources == [] then []
    else
      assert sources == [sources[0]] + sources[1..];
      (if sources[0].heatOn then [sources[0]] else []) + OnOnly(sources[1..])
  }

  /** The plain sum of all outputs, on or off. */
  function TotalOutput(sources: seq<Reading>): real
    decreases |sources|
  {
    if sources == [] then 0.0 else sources[0].heatOutput + TotalOutput(sources[1..])
  }

  /** `current_heat_from_sources`: the active output, with a negative total
      replaced by 0. */
  function CurrentHeat(sources: seq<Reading>): (h: real)
    ensures h >= 0.0
    ensures ActiveOutput(sources) >= 0.0 ==> h == ActiveOutput(sources)
    ensures ActiveOutput(sources) < 0.0 ==> h == 0.0
  {
    var total := ActiveOutput(sources);
    if total < 0.0 then 0.0 else total
  }

  /** `compute_equilibriums`: the fixed low equilibrium and the target the
      active output can hold the space at. */
  function Equilibriums(lowEq: real, volume: real, totalOutput: real): (eq: (real, real))
    ensures eq.0 == lowEq
    ensures totalOutput == 0.0 ==> eq.1 == lowEq
    ensures volume >= 0.0 && totalOutput >= 0.0 ==> eq.1 >= lowEq
  {
    (lowEq, totalOutput * volume / 10000.0 + lowEq)
  }

  /** `cooling_gradient`: a constant 0.1 K per minute. */
  function CoolingGradient(timeSpan: real): (g: real)
    ensures g * 600.0 == timeSpan
    ensures timeSpan >= 0.0 ==> g >= 0.0
  {
    timeSpan / 60.0 * 0.1
  }

  /** `warming_gradient`: with no output the space keeps cooling (a negative
      gradient of the cooling magnitude); otherwise the cooling rate scaled by
      output / 100. */
  function WarmingGradient(timeSpan: real, totalOutput: real): (g: real)
    ensures totalOutput == 0.0 ==> g == -CoolingGradient(timeSpan)
    ensures totalOutput != 0.0 ==> g == CoolingGradient(timeSpan) * (totalOutput / 100.0)
    ensures timeSpan >= 0.0 && totalOutput > 0.0 ==> g >= 0.0
    ensures timeSpan >= 0.0 && totalOutput == 0.0 ==> g <= 0.0
  {
    if totalOutput == 0.0 then -CoolingGradient(timeSpan)
    else
      var g := timeSpan / 60.0 * (totalOutput / 100.0 * 0.1);
      assert timeSpan >= 0.0 && totalOutput > 0.0 ==> g >= 0.0 by {
        if timeSpan >= 0.0 && totalOutput > 0.0 {
          assert timeSpan / 60.0 >= 0.0 && totalOutput / 100.0 * 0.1 > 0.0;
        }
      }
      g
  }

  function Min(a: real, b: real): real {
    if a <= b then a else b
  }

  /** The temperature `compute_and_set_temperature` leaves: a step towards
      the target `eqTarget.1` by at most the matching gradient, not past it,
      then raised to the low equilibrium `eqTarget.0` if it fell below. */
  function SettledTemperature(temp: real, eqTarget: (real, real), cooling: real, warming: real): (r: real)
    // never below the low equilibrium
    ensures r >= eqTarget.0
    // above the target: falls by at most the cooling gradient, never past the target
    ensures temp > eqTarget.1 && cooling >= 0.0 && eqTarget.0 <= eqTarget.1 ==>
              eqTarget.1 <= r <= temp && temp - r <= cooling &&
              (r == eqTarget.1 || temp - r == cooling)
    // below the target: never above it
    ensures temp < eqTarget.1 && eqTarget.0 <= eqTarget.1 ==> r <= eqTarget.1
    // below the target with a non-negative warming gradient: rises by at most that gradient
    ensures temp < eqTarget.1 && eqTarget.0 <= temp && warming >= 0.0 ==>
              temp <= r <= temp + warming && (r == eqTarget.1 || r - temp == warming)
    // at the target: unchanged apart from the low clamp
    ensures temp == eqTarget.1 ==> r == (if temp < eqTarget.0 then eqTarget.0 else temp)
  {
    var moved :=
      if temp > eqTarget.1 then temp - Min(temp - eqTarget.1, cooling)
      else if temp < eqTarget.1 then temp + Min(eqTarget.1 - temp, warming)
      else temp;
    if moved < eqTarget.0 then eqTarget.0 else moved
  }

  lemma {:induction false} ActiveOutputAppend(a: seq<Reading>, b: seq<Reading>)
    ensures ActiveOutput(a + b) == ActiveOutput(a) + ActiveOutput(b)
    decreases |a|
  {
    if a != [] {
      assert (a + b)[1..] == a[1..] + b;
      ActiveOutputAppend(a[1..], b);
    } else {
      assert a + b == b;
    }
  }

  /** A single source contributes all of the active output. */
  lemma ActiveOutputSingle(r: Reading)
    ensures ActiveOutput([r]) == Contribution(r)
  {
    assert [r][1..] == [];
  }

  /** Only the sources that are on count: the active output is the plain
      sum over the sources that are on. */
  lemma {:induction false} ActiveOutputCountsOnlyOn(sources: seq<Reading>)
    ensures ActiveOutput(sources) == TotalOutput(OnOnly(sources))
    decreases |sources|
  {
    if sources != [] {
      ActiveOutputCountsOnlyOn(sources[1..]);
      var head := if sources[0].heatOn then [sources[0]] else [];
      TotalOutputAppend(head, OnOnly(sources[1..]));
    }
  }

  lemma {:induction false} TotalOutputAppend(a: seq<Reading>, b: seq<Reading>)
    ensures TotalOutput(a + b) == TotalOutput(a) + TotalOutput(b)
    decreases |a|
  {
    if a != [] {
      assert (a + b)[1..] == a[1..] + b;
      TotalOutputAppend(a[1..], b);
    } else {
      assert a + b == b;
    }
  }

  /** With non-negative outputs the active output is non-negative, so
      `current_heat_from_sources` returns it unchanged. */
  lemma {:induction false} ActiveOutputNonNegative(sources: seq<Reading>)
    requires forall i :: 0 <= i < |sources| ==> sources[i].heatOutput >= 0.0
    ensures ActiveOutput(sources) >= 0.0
    ensures CurrentHeat(sources) == ActiveOutput(sources)
    decreases |sources|
  {
    if sources != [] {
      ActiveOutputNonNegative(sources[1..]);
    }
  }

  /** Changing one source (switching it on or off) changes the active output
      by exactly the difference of its contributions. */
  lemma {:induction false} ActiveOutputUpdate(sources: seq<Reading>, i: nat, r: Reading)
    requires i < |sources|
    ensures ActiveOutput(sources[i := r]) == ActiveOutput(sources) - Contribution(sources[i]) + Contribution(r)
    decreases |sources|
  {
    if i > 0 {
      assert sources[i := r][1..] == sources[1..][i - 1 := r];
      ActiveOutputUpdate(sources[1..], i - 1, r);
    }
  }

  /** Removing one source takes away exactly its contribution. */
  lemma ActiveOutputRemove(sources: seq<Reading>, i: nat)
    requires i < |sources|
    ensures ActiveOutput(sources[..i] + sources[i + 1..]) == ActiveOutput(sources) - Contribution(sources[i])
  {
    var before, after := sources[..i], sources[i + 1..];
    var rest := [sources[i]] + after;
    assert sources == before + rest;
    assert rest[1..] == after;
    ActiveOutputAppend(before, rest);
    ActiveOutputAppend(before, after);
  }

  /** One update of the space, with the snapshots the duty cycle takes at
      cycle start, starting at or above the low equilibrium: the temperature
      moves towards the target and never past it, by at most the gradient
      that applies, and stays at or above the low equilibrium. */
  lemma CycleUpdateApproachesTarget(temp: real, lowEq: real, volume: real, heat: real, timeSpan: real)
    requires heat >= 0.0 && volume >= 0.0 && timeSpan >= 0.0 && temp >= lowEq
    ensures var eq := Equilibriums(lowEq, volume, heat);
            var r := SettledTemperature(temp, eq, CoolingGradient(timeSpan), WarmingGradient(timeSpan, heat));
            && r >= lowEq
            && (temp >= eq.1 ==> eq.1 <= r <= temp && temp - r <= CoolingGradient(timeSpan))
            && (temp < eq.1 ==> temp <= r <= eq.1 && r - temp <= WarmingGradient(timeSpan, heat))
            && (temp == eq.1 ==> r == temp)
  {
    var eq := Equilibriums(lowEq, volume, heat);
    if temp < eq.1 {
      // a target above the low equilibrium needs some output, so the space warms
      assert heat > 0.0;
    }
  }
}
