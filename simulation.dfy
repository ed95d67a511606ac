/**
 * The simulation table that `minimize_peak_demand_charging` fills in
 * place: per-vehicle demand and charge-amount columns, the fleet and total
 * demand columns, and the time-of-day labels; and one simulation run that
 * builds a table per charging policy.
 */
module Simulation {
  import opened Wrappers
  import opened IntervalGrid
  import opened TimeOfDay
  import opened Baseline
  import opened ChargeSchedule
  import opened RouteEnergy

  class SimulationTable {
    /** Column order of the vehicles (the fleet's unique VehicleIDs). */
    const vehicleIds: seq<VehicleId>
    /** BaseLoad_kW, one entry per interval. */
    const baseLoad: seq<real>
    /** ChargingDemand and ChargeAmount columns of every vehicle. */
    var columns: Table
    /** Total_EV_Demand_kW, empty until the totals are added. */
    var totalEv: seq<real>
    /** Total_Demand_kW, empty until the totals are added. */
    var total: seq<real>
    /** TimeOfDay, empty until the labels are added. */
    var timeOfDay: seq<string>

    ghost predicate Valid()
      reads this
    {
      |baseLoad| == Intervals && TableWellFormed(columns) && columns.Keys == (set v | v in vehicleIds)
    }

    /** The table the endpoint builds: interval index, base load, all-zero vehicle columns. */
    constructor (ids: seq<VehicleId>, load: seq<real>)
      requires |load| == Intervals
      ensures Valid()
      ensures vehicleIds == ids && baseLoad == load
      ensures columns == ZeroTable(ids)
      ensures totalEv == [] && total == [] && timeOfDay == []
    {
      vehicleIds := ids;
      baseLoad := load;
      columns := ZeroTable(ids);
      totalEv, total, timeOfDay := [], [], [];
    }

    /**
     * One route: skip an empty window, pick the rate, then walk the window
     * writing demand and running charge amount until the requirement is met.
     */
    method ScheduleRoute(route: Route, managed: bool)
      requires Valid() && route.vehicle in columns && WithinHorizon(route)
      modifies this`columns
      ensures Valid()
      ensures columns == ScheduleInTable(old(columns), route, managed)
    {
      var v := route.vehicle;
      var n := route.end - route.start + 1;
      if n <= 0 {
        return;
      }
      var rate := ChargeRate(route.maxRate, route.energy, n, managed);
      assert rate == RouteRate(route, managed);
      ghost var target := Fill(columns[v], route.start, route.start, route.end, rate, route.energy, 0.0);
      assert target == ScheduleColumns(columns[v], route, managed);
      var cumulative := 0.0;
      for i := route.start to route.end + 1
        invariant v in columns && WellFormed(columns[v])
        invariant columns == old(columns)[v := columns[v]]
        invariant Fill(columns[v], route.start, i, route.end, rate, route.energy, cumulative) == target
      {
        if cumulative >= route.energy {
          break;
        }
        var remaining := route.energy - cumulative;
        var delivery := Min(rate * IntervalHours, remaining);
        var col := columns[v];
        var amount := if i == route.start then col.amount[i] + delivery else col.amount[i - 1] + delivery;
        var col' := VehicleColumns(col.demand[i := rate], col.amount[i := amount]);
        assert Fill(col, route.start, i, route.end, rate, route.energy, cumulative)
            == Fill(col', route.start, i + 1, route.end, rate, route.energy, cumulative + delivery) by {
          assert WellFormed(col);
        }
        columns := columns[v := col'];
        cumulative := cumulative + delivery;
      }
    }

    /** Total_EV_Demand_kW as the sum of the demand columns, then Total_Demand_kW. */
    method AddTotals()
      requires Valid()
      modifies this`totalEv, this`total
      ensures totalEv == TotalEvDemand(vehicleIds, columns)
      ensures total == TotalDemand(baseLoad, totalEv)
    {
      totalEv := TotalEvDemand(vehicleIds, columns);
      total := TotalDemand(baseLoad, totalEv);
    }

    /**
     * `minimize_peak_demand_charging`: zero every vehicle's columns, apply
     * the routes in input order, then add the totals.
     */
    method MinimizePeakDemandCharging(routes: seq<Route>, managed: bool)
      requires Valid() && Schedulable(ZeroTable(vehicleIds), routes)
      modifies this`columns, this`totalEv, this`total
      ensures Valid()
      ensures columns == RunRoutes(ZeroTable(vehicleIds), routes, managed)
      ensures totalEv == TotalEvDemand(vehicleIds, columns)
      ensures total == TotalDemand(baseLoad, totalEv)
    {
      columns := ZeroTable(vehicleIds);
      for j := 0 to |routes|
        invariant Valid() && columns.Keys == ZeroTable(vehicleIds).Keys
        invariant RunRoutes(columns, routes[j..], managed) == RunRoutes(ZeroTable(vehicleIds), routes, managed)
      {
        assert routes[j..][1..] == routes[j + 1..];
        ScheduleRoute(routes[j], managed);
      }
      AddTotals();
    }

    /** `add_time_column`: the HH:MM label of every interval. */
    method AddTimeColumn()
      modifies this`timeOfDay
      ensures timeOfDay == TimeOfDayColumn(Intervals)
    {
      timeOfDay := TimeOfDayColumn(Intervals);
    }
  }

  /** The routes after derivation all keep their non-empty windows on the grid. */
  predicate OnGrid(routes: seq<Route>)
  {
    forall route <- routes :: WithinHorizon(route)
  }

  /**
   * One simulation run without its file handling: resample the base load,
   * derive the routes, and fill one table with charge management and one
   * without, each labelled with the time of day.
   */
  method Simulate(vehicles: seq<Vehicle>, records: seq<RouteRecord>, load: seq<real>)
    returns (r: Result<(SimulationTable, SimulationTable), Error>)
    ensures r.Failure? <==>
      |load| == 0 || DeriveRoutes(vehicles, records).Failure? || !OnGrid(DeriveRoutes(vehicles, records).value)
    ensures r.Success? ==>
      var (managed, unmanaged) := r.value;
      var routes := DeriveRoutes(vehicles, records).value;
      && fresh(managed) && fresh(unmanaged) && managed != unmanaged
      && managed.Valid() && unmanaged.Valid()
      && managed.vehicleIds == UniqueIds(vehicles) && unmanaged.vehicleIds == UniqueIds(vehicles)
      && managed.baseLoad == Resample(load).value && unmanaged.baseLoad == Resample(load).value
      && (BaseLoadAsWritten(load).Success? ==>
            managed.baseLoad == BaseLoadAsWritten(load).value && unmanaged.baseLoad == BaseLoadAsWritten(load).value)
      && managed.columns == RunRoutes(ZeroTable(UniqueIds(vehicles)), routes, true)
      && unmanaged.columns == RunRoutes(ZeroTable(UniqueIds(vehicles)), routes, false)
      && managed.totalEv == TotalEvDemand(UniqueIds(vehicles), managed.columns)
      && unmanaged.totalEv == TotalEvDemand(UniqueIds(vehicles), unmanaged.columns)
      && managed.total == TotalDemand(managed.baseLoad, managed.totalEv)
      && unmanaged.total == TotalDemand(unmanaged.baseLoad, unmanaged.totalEv)
      && managed.timeOfDay == TimeOfDayColumn(Intervals) && unmanaged.timeOfDay == TimeOfDayColumn(Intervals)
  {
    var baseLoad := Resample(load);
    AsWrittenBuildsTable(load);
    if baseLoad.Failure? {
      return Failure(baseLoad.error);
    }
    var derived := DeriveRoutes(vehicles, records);
    if derived.Failure? {
      return Failure(derived.error);
    }
    var routes := derived.value;
    if !OnGrid(routes) {
      return Failure(IntervalOutsideHorizon);
    }
    var ids := UniqueIds(vehicles);
    DerivedSchedulable(vehicles, records);
    var managed := new SimulationTable(ids, baseLoad.value);
    managed.MinimizePeakDemandCharging(routes, true);
    managed.AddTimeColumn();
    var unmanaged := new SimulationTable(ids, baseLoad.value);
    unmanaged.MinimizePeakDemandCharging(routes, false);
    unmanaged.AddTimeColumn();
    r := Success((managed, unmanaged));
  }

  /**
   * In either table of a run, fleet EV demand at every interval lies
   * between zero and the sum of the fleet's rate caps, and total demand
   * exceeds base load by at most that sum.
   */
  lemma RunDemandBounded(vehicles: seq<Vehicle>, records: seq<RouteRecord>, baseLoad: seq<real>, managed: bool, k: int)
    requires DeriveRoutes(vehicles, records).Success? && OnGrid(DeriveRoutes(vehicles, records).value)
    requires forall v <- vehicles :: 0.0 <= v.maxChargeSpeed
    requires |baseLoad| == Intervals && 0 <= k < Intervals
    ensures var ids := UniqueIds(vehicles);
      var t := RunRoutes(ZeroTable(ids), DeriveRoutes(vehicles, records).value, managed);
      0.0 <= TotalEvDemand(ids, t)[k] <= SumCaps(ids, Caps(vehicles)) &&
      TotalDemand(baseLoad, TotalEvDemand(ids, t))[k] <= baseLoad[k] + SumCaps(ids, Caps(vehicles))
  {
    var ids := UniqueIds(vehicles);
    var caps := Caps(vehicles);
    DerivedSchedulable(vehicles, records);
    DerivedRatesMatch(vehicles, records);
    forall v <- ids ensures v in caps && 0.0 <= caps[v] {
      assert FindVehicle(vehicles, v).value in vehicles;
    }
    FleetDemandBounded(ids, baseLoad, DeriveRoutes(vehicles, records).value, managed, caps, k);
  }
}
