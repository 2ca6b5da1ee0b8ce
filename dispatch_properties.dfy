/** What the hourly dispatch rules guarantee about every plan that satisfies them. */
module DispatchProperties {
  import opened Dispatch

  /** Hydrogen quantities of one hour that are summed over the horizon. */
  datatype Flow = Exported | Produced | ToStorage | FromStorage | ToPipe

  function Amount(h: Hour, f: Flow): real
  {
    match f
    case Exported => h.h2Export
    case Produced => h.h2Produced
    case ToStorage => h.h2ToStorage
    case FromStorage => h.h2StorageToPipe
    case ToPipe => h.h2ToPipe
  }

  /** The sum of one hydrogen quantity over a run of hours. */
  function Total(hours: seq<Hour>, f: Flow): real
  {
    if |hours| == 0 then 0.0 else Total(hours[..|hours| - 1], f) + Amount(hours[|hours| - 1], f)
  }

  /** The charge the battery gives up over a run of hours. */
  function TotalDrawn(p: Params, hours: seq<Hour>): real
    requires p.Nonsingular()
  {
    if |hours| == 0 then 0.0 else TotalDrawn(p, hours[..|hours| - 1]) + Drawn(p, hours[|hours| - 1])
  }

  /** The charge the battery takes in over a run of hours. */
  function TotalCharged(p: Params, hours: seq<Hour>): real
  {
    if |hours| == 0 then 0.0 else TotalCharged(p, hours[..|hours| - 1]) + Charged(p, hours[|hours| - 1])
  }

  /** An hour with every flow zero. */
  function Idle(): Hour
  {
    Hour(0.0, 0.0, 0.0, 0.0, 0.0, 0.0, 0.0, 0.0, 0.0, 0.0, 0.0, 0.0, 0.0, 0.0,
         0.0, 0.0, 0.0, 0.0, 0.0, 0.0, 0.0, 0.0, 0.0, 0.0, 0.0, 0.0, 0.0, 0.0)
  }

  // ---------------------------------------------------------------------------
  // Balances that follow from the rules

  /** In every hour of a feasible plan the generated electricity is accounted for exactly: curtailed,
      exported directly, charged into the battery, or fed directly to the electrolyser or a compressor;
      and the hydrogen produced is exported directly or stored. */
  lemma HourlyConservation(p: Params, s: Sizing, hours: seq<Hour>, i: nat)
    requires p.Nonsingular() && p.WindCovered() && Feasible(p, s, hours) && i < |hours|
    ensures var h := hours[i];
      h.pv + h.wind == h.curtailed + (h.electricityExport - h.batteryToGrid) + h.toBattery +
                       h.toElectrolyser + h.exportCompressorDirect + h.storageCompressorDirect
    ensures var h := hours[i];
      h.h2Produced == (h.h2Export - h.h2StorageToPipe) + h.h2ToStorage
  {
    assert HourOk(p, s, hours, i);
  }

  /** The step guards alone keep the hydrogen level within [0, buffer]: with the level empty at hour 1,
      outflow at most the previous level and inflow at most the room left, neither the level bound
      nor the level's non-negativity needs to be posted. */
  lemma StorageGuardsBoundLevel(s: Sizing, hours: seq<Hour>)
    requires s.buffer >= 0.0
    requires |hours| > 0 ==> hours[0].h2Level == 0.0
    requires forall i :: 0 < i < |hours| ==>
      var h, prev := hours[i], hours[i - 1].h2Level;
      h.h2ToStorage >= 0.0 && h.h2StorageToPipe >= 0.0 &&
      h.h2Level == prev + h.h2ToStorage - h.h2StorageToPipe &&
      h.h2StorageToPipe <= prev && h.h2ToStorage <= s.buffer - prev
    ensures forall i :: 0 <= i < |hours| ==> 0.0 <= hours[i].h2Level <= s.buffer
  {
    forall i | 0 < i < |hours|
      ensures 0.0 <= hours[i].h2Level <= s.buffer
    {
      var h, prev := hours[i], hours[i - 1].h2Level;
      assert h.h2Level == prev + h.h2ToStorage - h.h2StorageToPipe;
    }
  }

  /** The battery guards alone keep the state of charge at most 90% of capacity from hour 2 on, when
      the previous charge is non-negative and the self-discharge factor at most 1. */
  lemma BatteryGuardsBoundCharge(p: Params, s: Sizing, prev: real, h: Hour)
    requires p.Nonsingular() && p.selfDischarge <= 1.0 && prev >= 0.0 && h.NonNegative()
    requires Drawn(p, h) >= 0.0
    requires h.soc == NextSoc(p, prev, h)
    requires Charged(p, h) <= s.battery * SocMax - prev
    ensures h.soc <= s.battery * SocMax
  {
    SelfDischargeLoses(prev, p.selfDischarge);
  }

  /** The electrolyser load drifts from its hour-1 value by at most RampLimit per hour. */
  lemma {:induction false} RampBoundsDrift(p: Params, s: Sizing, hours: seq<Hour>, i: nat)
    requires p.Nonsingular() && p.WindCovered() && Feasible(p, s, hours) && i < |hours|
    ensures hours[0].electrolyserLoad - RampLimit * i as real <= hours[i].electrolyserLoad
    ensures hours[i].electrolyserLoad <= hours[0].electrolyserLoad + RampLimit * i as real
  {
    if i > 0 {
      RampBoundsDrift(p, s, hours, i - 1);
      assert HourOk(p, s, hours, i);
    }
  }

  /** Every feasible plan over a horizon of at least one hour fits its PV and wind in 90% of the
      hub area; a sizing with a larger footprint therefore admits no plan. */
  lemma FeasibleFitsHub(p: Params, s: Sizing, hours: seq<Hour>)
    requires p.Nonsingular() && p.WindCovered() && |p.pvYield| > 0 && Feasible(p, s, hours)
    ensures Footprint(p, s) <= AreaUtilisation * p.hubArea
  {
    assert HourOk(p, s, hours, 0);
  }

  /** The area rule is posted once per hour, so an empty horizon does not bound the footprint at all:
      with no hours, every sizing within its bounds is feasible, however large its footprint. */
  lemma EmptyHorizonIgnoresArea(p: Params, s: Sizing)
    requires p.Nonsingular() && |p.pvYield| == 0 && SizingOk(s)
    ensures p.WindCovered() && Feasible(p, s, [])
  {
  }

  // ---------------------------------------------------------------------------
  // Hour 1: the rules as written let the stores give up what they never held

  /** Parameters for the one-hour examples below: every factor 1, a pipe of 2 kg per hour. */
  function OneHour(): Params
  {
    Params([0.0], [0.0], 1.0, 1.0, 1.0, 1.0, 1.0, 1.0, 1.0, 2.0, 1.0, 1.0, 1.0, 1.0)
  }

  /** A battery of 1 kWh and nothing else. */
  function BatteryOnly(): Sizing
  {
    Sizing(0.0, 0, 1.0, 0.0, 0.0, 0.0, 0.0)
  }

  /** The hour used below: x kWh sold from the battery and x kg exported from the hydrogen storage,
      every other flow zero. */
  function DrawHour(x: real): Hour
  {
    Idle().(batteryToGrid := x, electricityExport := x, h2StorageToPipe := x, h2Export := x)
  }

  /** As written, a one-hour plan that produces no hydrogen can export up to 1 kg of it "from
      storage", and a battery that was never charged can sell up to 1 kWh to the grid: the plan
      satisfies every rule, yet exports more than it produced and draws more than it charged. */
  lemma HourOneDrawsFromEmptyStores(x: real)
    requires 0.0 < x <= 1.0
    ensures Feasible(OneHour(), BatteryOnly(), [DrawHour(x)])
    ensures Total([DrawHour(x)], Exported) > Total([DrawHour(x)], Produced)
    ensures TotalDrawn(OneHour(), [DrawHour(x)]) > TotalCharged(OneHour(), [DrawHour(x)])
    ensures !FeasibleFromEmpty(OneHour(), BatteryOnly(), [DrawHour(x)])
  {
    var p, s, hours := OneHour(), BatteryOnly(), [DrawHour(x)];
    assert HourOk(p, s, hours, 0);
    assert hours[..0] == [];
  }

  /** Summing an hourly identity a = b + c over a run of hours. */
  lemma {:induction false} TotalSplit(hours: seq<Hour>, a: Flow, b: Flow, c: Flow)
    requires forall i :: 0 <= i < |hours| ==> Amount(hours[i], a) == Amount(hours[i], b) + Amount(hours[i], c)
    ensures Total(hours, a) == Total(hours, b) + Total(hours, c)
  {
    if |hours| > 0 {
      var n := |hours| - 1;
      assert forall i :: 0 <= i < n ==> hours[..n][i] == hours[i];
      TotalSplit(hours[..n], a, b, c);
    }
  }

  /** In a plan feasible from empty stores, up to hour k, what left the hydrogen storage plus what is
      still in it is at most what went in. */
  lemma {:induction false} StorageBalance(p: Params, s: Sizing, hours: seq<Hour>, k: nat)
    requires p.Nonsingular() && p.WindCovered() && FeasibleFromEmpty(p, s, hours) && 1 <= k <= |hours|
    ensures Total(hours[..k], FromStorage) + hours[k - 1].h2Level <= Total(hours[..k], ToStorage)
  {
    assert HourOk(p, s, hours, k - 1);
    assert hours[..k][..k - 1] == hours[..k - 1];
    if k > 1 {
      StorageBalance(p, s, hours, k - 1);
    }
  }

  /** With nothing drawn from the empty storage at hour 1, the hydrogen exported over the horizon
      never exceeds the hydrogen produced. */
  lemma ExportWithinProduction(p: Params, s: Sizing, hours: seq<Hour>)
    requires p.Nonsingular() && p.WindCovered() && FeasibleFromEmpty(p, s, hours)
    ensures Total(hours, Exported) <= Total(hours, Produced)
  {
    forall i | 0 <= i < |hours|
      ensures Amount(hours[i], Exported) == Amount(hours[i], ToPipe) + Amount(hours[i], FromStorage)
      ensures Amount(hours[i], Produced) == Amount(hours[i], ToStorage) + Amount(hours[i], ToPipe)
      ensures hours[i].h2Level >= 0.0
    {
      assert HourOk(p, s, hours, i);
    }
    TotalSplit(hours, Exported, ToPipe, FromStorage);
    TotalSplit(hours, Produced, ToStorage, ToPipe);
    if |hours| > 0 {
      StorageBalance(p, s, hours, |hours|);
      assert hours[..|hours|] == hours;
    }
  }

  /** The battery rules of hour i + 1 of a feasible plan, as the step of the balance below needs them. */
  lemma BatteryStep(p: Params, s: Sizing, hours: seq<Hour>, i: nat)
    requires p.Nonsingular() && p.WindCovered() && Feasible(p, s, hours) && 0 < i < |hours|
    ensures hours[i].soc == NextSoc(p, hours[i - 1].soc, hours[i])
    ensures hours[i - 1].soc >= 0.0 && hours[i].toBattery >= 0.0
  {
    assert HourOk(p, s, hours, i) && HourOk(p, s, hours, i - 1);
    assert hours[i].NonNegative() && hours[i - 1].NonNegative();
    assert Battery(p, s, hours, i);
  }

  /** The battery at hour 1 of a feasible plan: empty, and nothing negative charged. */
  lemma BatteryStart(p: Params, s: Sizing, hours: seq<Hour>)
    requires p.Nonsingular() && p.WindCovered() && Feasible(p, s, hours) && 0 < |hours|
    ensures hours[0].soc == 0.0 && hours[0].toBattery >= 0.0
  {
    assert HourOk(p, s, hours, 0);
    assert hours[0].NonNegative() && Battery(p, s, hours, 0);
  }

  /** At hour 1 of a plan feasible from empty stores, the battery is empty, nothing is drawn from it
      and nothing negative is charged into it. */
  lemma BatteryStartFromEmpty(p: Params, s: Sizing, hours: seq<Hour>)
    requires p.Nonsingular() && p.WindCovered() && FeasibleFromEmpty(p, s, hours) && 0 < |hours|
    requires p.chargeRate >= 0.0
    ensures hours[0].soc == 0.0 && Drawn(p, hours[0]) == 0.0 && Charged(p, hours[0]) >= 0.0
  {
    BatteryStart(p, s, hours);
    assert HourOk(p, s, hours, 0) && hours[0].NonNegative();
    assert hours[0].Discharge() == 0.0;
    NonNegativeProduct(hours[0].toBattery, p.chargeRate);
  }

  /** A product of two non-negative quantities is non-negative. */
  lemma NonNegativeProduct(a: real, b: real)
    requires a >= 0.0 && b >= 0.0
    ensures a * b >= 0.0
  {
  }

  /** Self-discharge with a factor at most 1 never adds charge. */
  lemma SelfDischargeLoses(prev: real, factor: real)
    requires prev >= 0.0 && factor <= 1.0
    ensures prev * factor <= prev
  {
    assert prev * (1.0 - factor) >= 0.0;
  }

  /** In a plan feasible from empty stores, up to hour k, the energy drawn from the battery plus the
      charge left in it is at most the energy put in, when self-discharge only loses charge. */
  lemma {:induction false} BatteryBalance(p: Params, s: Sizing, hours: seq<Hour>, k: nat)
    requires p.Nonsingular() && p.WindCovered() && FeasibleFromEmpty(p, s, hours) && 1 <= k <= |hours|
    requires p.selfDischarge <= 1.0 && p.chargeRate >= 0.0
    ensures TotalDrawn(p, hours[..k]) + hours[k - 1].soc <= TotalCharged(p, hours[..k])
  {
    var h := hours[k - 1];
    assert hours[..k][..k - 1] == hours[..k - 1];
    assert TotalDrawn(p, hours[..k]) == TotalDrawn(p, hours[..k - 1]) + Drawn(p, h);
    assert TotalCharged(p, hours[..k]) == TotalCharged(p, hours[..k - 1]) + Charged(p, h);
    if k == 1 {
      BatteryStartFromEmpty(p, s, hours);
    } else {
      BatteryBalance(p, s, hours, k - 1);
      BatteryStep(p, s, hours, k - 1);
      var prev := hours[k - 2].soc;
      SelfDischargeLoses(prev, p.selfDischarge);
      assert h.soc <= prev + Charged(p, h) - Drawn(p, h);
    }
  }

  /** With nothing drawn from the empty battery at hour 1, the battery never gives up more energy
      over the horizon than it took in. */
  lemma DrawnWithinCharged(p: Params, s: Sizing, hours: seq<Hour>)
    requires p.Nonsingular() && p.WindCovered() && FeasibleFromEmpty(p, s, hours)
    requires p.selfDischarge <= 1.0 && p.chargeRate >= 0.0
    ensures TotalDrawn(p, hours) <= TotalCharged(p, hours)
  {
    if |hours| > 0 {
      BatteryBalance(p, s, hours, |hours|);
      assert HourOk(p, s, hours, |hours| - 1);
      assert hours[..|hours|] == hours;
    }
  }
}
