/** The hourly dispatch rules of the energy hub optimisation model, stated as a feasibility check
    of a candidate plan: one sizing (the six decision variables) and one record of flows per hour.
    Nothing here chooses a plan or claims one is optimal; a plan either satisfies every rule or not.

    Hours are numbered from 0 in the model: element i of the plan is hour t = i + 1 of the source,
    and it reads row i of the hourly input series (the source reads row t - 1). */
module Dispatch {

  /** The battery operates between 10% and 90% of its capacity. */
  const SocMin: real := 0.10
  const SocMax: real := 0.90
  /** The export pipeline is used up to 85% of its nameplate capacity. */
  const PipeUtilisation: real := 0.85
  /** PV and wind may occupy up to 90% of the hub area. */
  const AreaUtilisation: real := 0.9
  /** Bound on the hour-to-hour change of the electrolyser load. */
  const RampLimit: real := 10.0
  /** Upper bound of the hydrogen buffer size, kg. */
  const BufferLimit: real := 3000000.0
  /** Square metres per square kilometre. */
  const SquareMetresPerKm2: real := 1000000.0

  /** Parameters and hourly input series of one model instance. */
  datatype Params = Params(
    pvYield: seq<real>,              // kWh per m2 of PV area in each hour (its length fixes the horizon)
    windYield: seq<real>,            // kWh per wind turbine in each hour
    selfDischarge: real,             // share of the state of charge kept from one hour to the next
    chargeRate: real,                // charging efficiency
    dischargeRate: real,             // discharging efficiency
    chargeDischargePower: real,      // charge or discharge throughput per hour, as a share of capacity
    electrolyserEfficiency: real,    // kWh per kg of hydrogen
    compressorPowerExport: real,     // kWh per kg compressed to export pressure
    compressorPowerStorage: real,    // kWh per kg compressed to storage pressure
    pipeCapacity: real,              // kg per hour
    pvKwpPerM2: real,                // installed kWp per m2 of PV area
    pvAreaPerKwp: real,              // m2 of hub footprint per kWp
    turbineArea: real,               // km2 per turbine
    hubArea: real)                   // km2
  {
    /** The rules divide by the discharge rate and by the electrolyser efficiency. */
    predicate Nonsingular()
    {
      dischargeRate != 0.0 && electrolyserEfficiency != 0.0
    }

    /** Every hour of the horizon has a wind row. */
    predicate WindCovered()
    {
      |windYield| >= |pvYield|
    }
  }

  /** The six decision variables (x1 .. x6 with x5b). */
  datatype Sizing = Sizing(
    pvArea: real,              // x1, m2
    turbines: int,             // x2, number of turbines
    battery: real,             // x3, kWh
    electrolyser: real,        // x4, kW
    compressorExport: real,    // x5, kW
    compressorStorage: real,   // x5b, kW
    buffer: real)              // x6, kg

  /** The flow variables of one hour. */
  datatype Hour = Hour(
    pv: real, wind: real,                      // generation
    used: real, curtailed: real,
    toGrid: real, toBattery: real, toH2: real, // where the used electricity goes
    toElectrolyser: real, toCompressor: real,  // split of the electricity for hydrogen
    batteryToGrid: real, batteryToElectrolyser: real,
    batteryToExportCompressor: real, batteryToStorageCompressor: real,
    soc: real,                                 // battery state of charge
    electrolyserLoad: real,
    exportCompressorDirect: real, storageCompressorDirect: real,
    exportCompressorLoad: real, storageCompressorLoad: real,
    h2Electricity: real,                       // electricity used for hydrogen in all
    h2Produced: real, h2ToStorage: real, h2ToPipe: real,
    h2StorageToPipe: real, h2Export: real,
    h2Level: real,                             // hydrogen storage level
    electricityExport: real,
    variation: real)                           // change of the electrolyser load since the previous hour
  {
    /** Everything the battery delivers in the hour, to all four destinations. */
    function Discharge(): real
    {
      batteryToGrid + batteryToElectrolyser + batteryToExportCompressor + batteryToStorageCompressor
    }

    /** Every flow variable is non-negative except the load variation. */
    predicate NonNegative()
    {
      pv >= 0.0 && wind >= 0.0 && used >= 0.0 && curtailed >= 0.0 &&
      toGrid >= 0.0 && toBattery >= 0.0 && toH2 >= 0.0 &&
      toElectrolyser >= 0.0 && toCompressor >= 0.0 &&
      batteryToGrid >= 0.0 && batteryToElectrolyser >= 0.0 &&
      batteryToExportCompressor >= 0.0 && batteryToStorageCompressor >= 0.0 &&
      soc >= 0.0 && electrolyserLoad >= 0.0 &&
      exportCompressorDirect >= 0.0 && storageCompressorDirect >= 0.0 &&
      exportCompressorLoad >= 0.0 && storageCompressorLoad >= 0.0 &&
      h2Electricity >= 0.0 && h2Produced >= 0.0 && h2ToStorage >= 0.0 && h2ToPipe >= 0.0 &&
      h2StorageToPipe >= 0.0 && h2Export >= 0.0 && h2Level >= 0.0 && electricityExport >= 0.0
    }
  }

  /** Bounds of the decision variables: all non-negative, the buffer at most BufferLimit. */
  predicate SizingOk(s: Sizing)
  {
    s.pvArea >= 0.0 && s.turbines >= 0 && s.battery >= 0.0 && s.electrolyser >= 0.0 &&
    s.compressorExport >= 0.0 && s.compressorStorage >= 0.0 && 0.0 <= s.buffer <= BufferLimit
  }

  // ---------------------------------------------------------------------------
  // One predicate per constraint family

  /** PV and wind generation are the sizing times the hour's yield. */
  predicate Generation(p: Params, s: Sizing, h: Hour, i: nat)
    requires i < |p.pvYield| && i < |p.windYield|
  {
    h.pv == s.pvArea * p.pvYield[i] && h.wind == s.turbines as real * p.windYield[i]
  }

  /** Used electricity is generation minus curtailment, and goes to the grid, the battery or hydrogen. */
  predicate ElectricityBalance(h: Hour)
  {
    h.used == (h.pv + h.wind) - h.curtailed && h.used == h.toGrid + h.toBattery + h.toH2
  }

  /** The charge an hour takes out of the battery: its discharge over the discharge rate. */
  function Drawn(p: Params, h: Hour): real
    requires p.Nonsingular()
  {
    h.Discharge() / p.dischargeRate
  }

  /** The charge an hour puts into the battery: its charge times the charge rate. */
  function Charged(p: Params, h: Hour): real
  {
    h.toBattery * p.chargeRate
  }

  /** The state of charge after an hour that starts from prev. */
  function NextSoc(p: Params, prev: real, h: Hour): real
    requires p.Nonsingular()
  {
    prev * p.selfDischarge + Charged(p, h) - Drawn(p, h)
  }

  /** Battery state of charge: empty at hour 1; afterwards the previous charge times the self-discharge
      factor, plus charge times the charge rate, minus discharge over the discharge rate, kept within
      10%..90% of capacity; discharge bounded by the previous charge, charge by the room left below 90%,
      and both by the power share of capacity at every hour. */
  predicate Battery(p: Params, s: Sizing, hours: seq<Hour>, i: nat)
    requires p.Nonsingular() && i < |hours|
  {
    var h := hours[i];
    var drawn := Drawn(p, h);
    var charged := Charged(p, h);
    h.soc <= s.battery * SocMax &&
    charged <= s.battery * p.chargeDischargePower &&
    drawn <= s.battery * p.chargeDischargePower &&
    if i == 0 then h.soc == 0.0
    else
      var prev := hours[i - 1].soc;
      h.soc == NextSoc(p, prev, h) &&
      h.soc >= s.battery * SocMin &&
      drawn <= prev &&
      charged <= s.battery * SocMax - prev
  }

  /** Exported electricity is what goes to the grid directly and from the battery. */
  predicate ExportBalance(h: Hour)
  {
    h.electricityExport == h.toGrid + h.batteryToGrid
  }

  /** Electricity for hydrogen goes to the electrolyser or to the compressors. */
  predicate HydrogenRouting(h: Hour)
  {
    h.toH2 == h.toElectrolyser + h.toCompressor
  }

  /** Electrolyser: load is direct plus battery supply, at most its capacity, with a bounded ramp from
      hour 2 on; the hydrogen it makes is load over efficiency and goes to storage or to the pipe. */
  predicate Electrolyser(p: Params, s: Sizing, hours: seq<Hour>, i: nat)
    requires p.Nonsingular() && i < |hours|
  {
    var h := hours[i];
    h.electrolyserLoad == h.toElectrolyser + h.batteryToElectrolyser &&
    h.h2Produced == h.electrolyserLoad / p.electrolyserEfficiency &&
    h.h2Produced == h.h2ToStorage + h.h2ToPipe &&
    h.electrolyserLoad <= s.electrolyser &&
    if i == 0 then h.variation == 0.0
    else
      h.variation == h.electrolyserLoad - hours[i - 1].electrolyserLoad &&
      h.variation <= RampLimit && h.variation >= -RampLimit
  }

  /** Hydrogen storage: empty at hour 1; afterwards the previous level plus inflow minus outflow, with
      outflow bounded by the previous level and inflow by the room left; never above the buffer size. */
  predicate HydrogenStorage(s: Sizing, hours: seq<Hour>, i: nat)
    requires i < |hours|
  {
    var h := hours[i];
    h.h2Level <= s.buffer &&
    if i == 0 then h.h2Level == 0.0
    else
      var prev := hours[i - 1].h2Level;
      h.h2Level == prev + h.h2ToStorage - h.h2StorageToPipe &&
      h.h2StorageToPipe <= prev &&
      h.h2ToStorage <= s.buffer - prev
  }

  /** Exported hydrogen comes from the electrolyser directly or from storage, within 85% of the pipe. */
  predicate HydrogenExport(p: Params, h: Hour)
  {
    h.h2Export == h.h2ToPipe + h.h2StorageToPipe && h.h2Export <= PipeUtilisation * p.pipeCapacity
  }

  /** The two compressor duties: each load is direct plus battery supply, equals the hydrogen sent
      through it times the duty's specific power, and stays within the duty's capacity. */
  predicate Compressors(p: Params, s: Sizing, h: Hour)
  {
    h.toCompressor == h.exportCompressorDirect + h.storageCompressorDirect &&
    h.exportCompressorLoad == h.exportCompressorDirect + h.batteryToExportCompressor &&
    h.storageCompressorLoad == h.storageCompressorDirect + h.batteryToStorageCompressor &&
    h.exportCompressorLoad == h.h2ToPipe * p.compressorPowerExport &&
    h.storageCompressorLoad == h.h2ToStorage * p.compressorPowerStorage &&
    h.exportCompressorLoad <= s.compressorExport &&
    h.storageCompressorLoad <= s.compressorStorage
  }

  /** Electricity for hydrogen in all: both compressors and the electrolyser. */
  predicate HydrogenElectricity(h: Hour)
  {
    h.h2Electricity == h.exportCompressorLoad + h.storageCompressorLoad + h.electrolyserLoad
  }

  /** The PV and wind footprint, km2. */
  function Footprint(p: Params, s: Sizing): real
  {
    (s.pvArea * p.pvKwpPerM2 * p.pvAreaPerKwp) / SquareMetresPerKm2 + s.turbines as real * p.turbineArea
  }

  /** PV and wind fit in 90% of the hub area (posted once per hour). */
  predicate Area(p: Params, s: Sizing)
  {
    Footprint(p, s) <= AreaUtilisation * p.hubArea
  }

  /** Every rule posted for hour i. */
  predicate HourOk(p: Params, s: Sizing, hours: seq<Hour>, i: nat)
    requires p.Nonsingular() && i < |hours| && i < |p.pvYield| && i < |p.windYield|
  {
    var h := hours[i];
    h.NonNegative() && Generation(p, s, h, i) && ElectricityBalance(h) && Battery(p, s, hours, i) &&
    ExportBalance(h) && HydrogenRouting(h) && Electrolyser(p, s, hours, i) &&
    HydrogenStorage(s, hours, i) && HydrogenExport(p, h) && Compressors(p, s, h) &&
    HydrogenElectricity(h) && Area(p, s)
  }

  /** The plan satisfies every rule of the model as written: the sizing bounds, one record per hour
      of the horizon, and every hourly rule. */
  predicate Feasible(p: Params, s: Sizing, hours: seq<Hour>)
    requires p.Nonsingular() && p.WindCovered()
  {
    SizingOk(s) && |hours| == |p.pvYield| &&
    forall i :: 0 <= i < |hours| ==> HourOk(p, s, hours, i)
  }

  /** The draw-down guards of hour 2 onward, applied at hour 1 to the empty stores: nothing leaves
      the battery or the hydrogen storage in the first hour. */
  predicate NothingDrawnAtStart(hours: seq<Hour>)
  {
    |hours| > 0 ==> hours[0].Discharge() <= 0.0 && hours[0].h2StorageToPipe <= 0.0
  }

  /** The rules as evidently intended: feasible, and nothing drawn from an empty store at hour 1. */
  predicate FeasibleFromEmpty(p: Params, s: Sizing, hours: seq<Hour>)
    requires p.Nonsingular() && p.WindCovered()
  {
    Feasible(p, s, hours) && NothingDrawnAtStart(hours)
  }

  // ---------------------------------------------------------------------------
  // The checker

  /** The outcome of checking a plan. Hours in Violated count from 1, as in the source. */
  datatype Verdict =
    | Accepted              // every rule holds and nothing leaves an empty store at hour 1
    | MissingWindRow        // the wind series is shorter than the horizon (a lookup error in the source)
    | WrongHorizon          // the plan does not hold one record per hour
    | BadSizing             // a decision variable is out of its bounds
    | Violated(hour: nat)   // the first hour whose rules fail
    | DrawsFromEmptyStore   // every rule as written holds, but hour 1 draws from an empty store

  /** Checks a plan hour by hour and reports the first failure. */
  method CheckPlan(p: Params, s: Sizing, hours: seq<Hour>) returns (v: Verdict)
    requires p.Nonsingular()
    ensures v == MissingWindRow <==> !p.WindCovered()
    ensures v == Accepted <==> p.WindCovered() && FeasibleFromEmpty(p, s, hours)
    ensures v == DrawsFromEmptyStore <==>
              p.WindCovered() && Feasible(p, s, hours) && !NothingDrawnAtStart(hours)
    ensures v == WrongHorizon <==> p.WindCovered() && |hours| != |p.pvYield|
    ensures v == BadSizing <==> p.WindCovered() && |hours| == |p.pvYield| && !SizingOk(s)
    ensures v.Violated? ==>
              p.WindCovered() && |hours| == |p.pvYield| && SizingOk(s) && 1 <= v.hour <= |hours| &&
              !HourOk(p, s, hours, v.hour - 1) &&
              forall j :: 0 <= j < v.hour - 1 ==> HourOk(p, s, hours, j)
  {
    if |p.windYield| < |p.pvYield| {
      return MissingWindRow;
    }
    if |hours| != |p.pvYield| {
      return WrongHorizon;
    }
    if !SizingOk(s) {
      return BadSizing;
    }
    var i := 0;
    while i < |hours|
      invariant 0 <= i <= |hours|
      invariant forall j :: 0 <= j < i ==> HourOk(p, s, hours, j)
    {
      if !HourOk(p, s, hours, i) {
        return Violated(i + 1);
      }
      i := i + 1;
    }
    if !NothingDrawnAtStart(hours) {
      return DrawsFromEmptyStore;
    }
    return Accepted;
  }
}
