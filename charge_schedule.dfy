/**
 * The charge scheduler of `minimize_peak_demand_charging`, as functions on
 * values: the rate chosen for a route, the greedy filling of its window,
 * the fold over all routes in input order, and the demand totals.
 * Every vehicle owns its two columns (demand in kW, cumulative charge
 * amount in kWh), one entry per interval of the horizon.
 */
module ChargeSchedule {
  import opened IntervalGrid

  type VehicleId = string

  /**
   * A route after the join with its vehicle: the charging window from the
   * return interval to the departure interval (both included), the energy
   * the route needs and the vehicle's maximum charging rate.
   */
  datatype Route = Route(vehicle: VehicleId, start: int, end: int, energy: real, maxRate: real)

  /** One vehicle's ChargingDemand_kW and ChargeAmount_kWh columns. */
  datatype VehicleColumns = VehicleColumns(demand: seq<real>, amount: seq<real>)

  /** All vehicles' columns, keyed by vehicle id. */
  type Table = map<VehicleId, VehicleColumns>

  function Min(a: real, b: real): real { if a <= b then a else b }

  /** Hours in one interval. */
  const IntervalHours: real := 0.5

  function WindowLength(route: Route): int { route.end - route.start + 1 }

  /** A non-empty window lies on the grid (the table has rows 0..95 only). */
  predicate WithinHorizon(route: Route)
  {
    WindowLength(route) <= 0 || (0 <= route.start && route.end < Intervals)
  }

  predicate WellFormed(c: VehicleColumns)
  {
    |c.demand| == Intervals && |c.amount| == Intervals
  }

  predicate TableWellFormed(t: Table)
  {
    forall v :: v in t ==> WellFormed(t[v])
  }

  /**
   * The energy a constant `rate` delivers over `j` half-hour intervals when
   * nothing stops it early (j * rate / 2 kWh), accumulated one interval at
   * a time.
   */
  function FullRateEnergy(rate: real, j: nat): (e: real)
    ensures 0.0 <= rate ==> 0.0 <= e
  {
    if j == 0 then 0.0 else FullRateEnergy(rate, j - 1) + rate * IntervalHours
  }

  lemma {:induction false} FullRateEnergyProduct(rate: real, j: nat)
    ensures FullRateEnergy(rate, j) == j as real * rate * IntervalHours
  {
    if j > 0 {
      FullRateEnergyProduct(rate, j - 1);
      assert j as real * rate * IntervalHours == (j - 1) as real * rate * IntervalHours + rate * IntervalHours;
    }
  }

  /** More intervals at a non-negative rate deliver at least as much. */
  lemma {:induction false} FullRateEnergyMono(rate: real, i: nat, j: nat)
    requires 0.0 <= rate && i <= j
    ensures FullRateEnergy(rate, i) <= FullRateEnergy(rate, j)
    decreases j
  {
    if i < j {
      FullRateEnergyMono(rate, i, j - 1);
    }
  }

  /** Over a non-empty stretch a higher rate delivers strictly more. */
  lemma {:induction false} FullRateEnergyRateMono(lower: real, higher: real, j: nat)
    requires lower < higher && j > 0
    ensures FullRateEnergy(lower, j) < FullRateEnergy(higher, j)
  {
    if j > 1 {
      FullRateEnergyRateMono(lower, higher, j - 1);
    }
  }

  /** At most the spread rate never over-delivers over the window; exactly it delivers the requirement. */
  lemma SpreadEnergy(rate: real, energy: real, n: int)
    requires n > 0 && rate <= energy / (n as real * IntervalHours)
    ensures FullRateEnergy(rate, n) <= energy
    ensures rate == energy / (n as real * IntervalHours) ==> FullRateEnergy(rate, n) == energy
  {
    var hours := n as real * IntervalHours;
    FullRateEnergyProduct(rate, n);
    assert n as real * rate * IntervalHours == rate * hours;
    assert (energy / hours) * hours == energy;
    assert (energy / hours - rate) * hours >= 0.0;
  }

  /**
   * The constant rate of a route with an `n`-interval window. With charge
   * management the energy is spread evenly over the window; without it the
   * rate is numerically the energy itself. Either way it is capped.
   */
  function ChargeRate(maxRate: real, energy: real, n: int, managed: bool): (rate: real)
    requires n > 0
    ensures rate <= maxRate
    ensures managed ==> FullRateEnergy(rate, n) <= energy
    ensures !managed ==> rate <= energy
    ensures rate == maxRate || (managed && FullRateEnergy(rate, n) == energy) || (!managed && rate == energy)
    ensures 0.0 <= maxRate && 0.0 <= energy ==> 0.0 <= rate
  {
    if managed then
      var spread := energy / (n as real * IntervalHours);
      SpreadEnergy(Min(maxRate, spread), energy, n);
      Min(maxRate, spread)
    else Min(maxRate, energy)
  }

  function RouteRate(route: Route, managed: bool): real
    requires WindowLength(route) > 0
  {
    ChargeRate(route.maxRate, route.energy, WindowLength(route), managed)
  }

  /**
   * The greedy fill from interval `i` on, with `cumulative` kWh delivered so
   * far: stop once the requirement is met or past `end`; otherwise deliver
   * min(rate/2, remaining), write the rate as demand, and write the running
   * total as charge amount (added onto the existing cell at `start`, built
   * on the previous interval's cell after it).
   */
  function Fill(c: VehicleColumns, start: int, i: int, end: int, rate: real, energy: real, cumulative: real): (r: VehicleColumns)
    requires 0 <= start <= i <= end + 1
    requires end < |c.demand| && end < |c.amount|
    ensures |r.demand| == |c.demand| && |r.amount| == |c.amount|
    decreases end + 1 - i
  {
    if i > end || cumulative >= energy then c
    else
      var delivery := Min(rate * IntervalHours, energy - cumulative);
      var amount := if i == start then c.amount[i] + delivery else c.amount[i - 1] + delivery;
      Fill(VehicleColumns(c.demand[i := rate], c.amount[i := amount]), start, i + 1, end, rate, energy, cumulative + delivery)
  }

  /** The effect of one route on its vehicle's columns; an empty window is skipped. */
  function ScheduleColumns(c: VehicleColumns, route: Route, managed: bool): (r: VehicleColumns)
    requires WellFormed(c) && WithinHorizon(route)
    ensures WellFormed(r)
    ensures WindowLength(route) <= 0 || route.energy <= 0.0 ==> r == c
  {
    var n := WindowLength(route);
    if n <= 0 then c
    else Fill(c, route.start, route.start, route.end, RouteRate(route, managed), route.energy, 0.0)
  }

  // ----- closed form of the greedy fill -----

  /** Reference definition: energy delivered by the first `j` visited intervals. */
  function Delivered(rate: real, energy: real, j: nat): real
  {
    Min(FullRateEnergy(rate, j), energy)
  }

  /** Reference definition: the fill visits interval `k`. */
  predicate Visited(start: int, end: int, rate: real, energy: real, k: int)
  {
    start <= k <= end && FullRateEnergy(rate, k - start) < energy
  }

  /** One more interval delivers min(rate/2, what is still missing). */
  lemma DeliveredStep(rate: real, energy: real, j: nat)
    requires 0.0 <= rate
    ensures Delivered(rate, energy, j + 1)
         == Delivered(rate, energy, j) + Min(rate * IntervalHours, energy - Delivered(rate, energy, j))
  {
    assert FullRateEnergy(rate, j + 1) == FullRateEnergy(rate, j) + rate * IntervalHours;
  }

  lemma {:induction false} FillClosedForm(c: VehicleColumns, start: int, i: int, end: int, rate: real, energy: real, base: real)
    requires 0 <= start <= i <= end + 1 && start <= end
    requires end < |c.demand| && end < |c.amount|
    requires 0.0 <= rate
    requires i == start ==> c.amount[start] == base
    requires i > start && Delivered(rate, energy, i - start) < energy ==>
      c.amount[i - 1] == base + Delivered(rate, energy, i - start)
    ensures var r := Fill(c, start, i, end, rate, energy, Delivered(rate, energy, i - start));
      forall k :: 0 <= k < |c.demand| ==>
        r.demand[k] == if i <= k && Visited(start, end, rate, energy, k) then rate else c.demand[k]
    ensures var r := Fill(c, start, i, end, rate, energy, Delivered(rate, energy, i - start));
      forall k :: 0 <= k < |c.amount| ==>
        r.amount[k] == if i <= k && Visited(start, end, rate, energy, k)
                       then base + Delivered(rate, energy, k - start + 1) else c.amount[k]
    decreases end + 1 - i
  {
    var cumulative := Delivered(rate, energy, i - start);
    if i > end {
    } else if cumulative >= energy {
      forall k | i <= k <= end
        ensures !Visited(start, end, rate, energy, k)
      {
        FullRateEnergyMono(rate, i - start, k - start);
      }
    } else {
      assert Visited(start, end, rate, energy, i);
      var delivery := Min(rate * IntervalHours, energy - cumulative);
      DeliveredStep(rate, energy, i - start);
      var amount := if i == start then c.amount[i] + delivery else c.amount[i - 1] + delivery;
      assert amount == base + Delivered(rate, energy, i + 1 - start);
      var c' := VehicleColumns(c.demand[i := rate], c.amount[i := amount]);
      assert cumulative + delivery == Delivered(rate, energy, i + 1 - start);
      assert Fill(c, start, i, end, rate, energy, cumulative)
          == Fill(c', start, i + 1, end, rate, energy, Delivered(rate, energy, i + 1 - start));
      FillClosedForm(c', start, i + 1, end, rate, energy, base);
    }
  }

  /** The intervals a route charges in: visited by the fill of a non-empty window. */
  predicate Charges(route: Route, managed: bool, k: int)
  {
    WindowLength(route) > 0 && 0.0 < route.energy && Visited(route.start, route.end, RouteRate(route, managed), route.energy, k)
  }

  /**
   * What one route does to its vehicle's columns: every interval it
   * charges in gets the route's rate as demand and, as charge amount, the
   * amount that stood at the start interval plus the energy delivered so
   * far; every other cell keeps its value.
   */
  lemma ScheduleColumnsSpec(c: VehicleColumns, route: Route, managed: bool, k: int)
    requires WellFormed(c) && WithinHorizon(route) && 0.0 <= route.maxRate
    requires 0 <= k < Intervals
    ensures var r := ScheduleColumns(c, route, managed);
      if Charges(route, managed, k) then
        r.demand[k] == RouteRate(route, managed) &&
        r.amount[k] == c.amount[route.start] + Delivered(RouteRate(route, managed), route.energy, k - route.start + 1)
      else
        r.demand[k] == c.demand[k] && r.amount[k] == c.amount[k]
  {
    if WindowLength(route) > 0 && route.energy > 0.0 {
      var rate := RouteRate(route, managed);
      assert Delivered(rate, route.energy, 0) == 0.0;
      FillClosedForm(c, route.start, route.start, route.end, rate, route.energy, c.amount[route.start]);
    }
  }

  /** Delivered energy never decreases and stays between zero and the requirement. */
  lemma DeliveredMono(rate: real, energy: real, i: nat, j: nat)
    requires 0.0 <= rate && 0.0 < energy && i <= j
    ensures 0.0 <= Delivered(rate, energy, i) <= Delivered(rate, energy, j) <= energy
  {
    FullRateEnergyMono(rate, i, j);
  }

  /**
   * Within one route the charge amount of a charged interval never falls
   * below what stood at the start interval and never exceeds it by more
   * than the route's requirement.
   */
  lemma ChargeAmountWithinRequirement(c: VehicleColumns, route: Route, managed: bool, k: int)
    requires WellFormed(c) && WithinHorizon(route) && 0.0 <= route.maxRate
    requires 0 <= k < Intervals && Charges(route, managed, k)
    ensures var r := ScheduleColumns(c, route, managed);
      c.amount[route.start] <= r.amount[k] <= c.amount[route.start] + route.energy
  {
    var j := k - route.start + 1;
    ScheduleColumnsSpec(c, route, managed, k);
    DeliveredMono(RouteRate(route, managed), route.energy, j, j);
  }

  /** From one charged interval to the next the charge amount grows. */
  lemma ChargeAmountGrows(c: VehicleColumns, route: Route, managed: bool, k: int)
    requires WellFormed(c) && WithinHorizon(route) && 0.0 <= route.maxRate
    requires 0 <= k && k + 1 < Intervals && Charges(route, managed, k) && Charges(route, managed, k + 1)
    ensures var r := ScheduleColumns(c, route, managed);
      r.amount[k] <= r.amount[k + 1]
  {
    var j := k - route.start + 1;
    ScheduleColumnsSpec(c, route, managed, k);
    ScheduleColumnsSpec(c, route, managed, k + 1);
    DeliveredMono(RouteRate(route, managed), route.energy, j, j + 1);
  }

  /** A route stops charging before its departure interval only once its requirement is met. */
  lemma EarlyStopMeetsRequirement(c: VehicleColumns, route: Route, managed: bool, k: int)
    requires WellFormed(c) && WithinHorizon(route) && 0.0 <= route.maxRate
    requires 0 <= k < route.end && Charges(route, managed, k) && !Charges(route, managed, k + 1)
    ensures ScheduleColumns(c, route, managed).amount[k] == c.amount[route.start] + route.energy
  {
    ScheduleColumnsSpec(c, route, managed, k);
    assert !Visited(route.start, route.end, RouteRate(route, managed), route.energy, k + 1);
  }

  /** The spread rate keeps every interval of the window short of the requirement. */
  lemma SpreadVisitsWindow(maxRate: real, energy: real, n: int, j: int)
    requires n > 0 && 0.0 <= maxRate && 0.0 < energy && 0 <= j < n
    ensures FullRateEnergy(ChargeRate(maxRate, energy, n, true), j) < energy
  {
    var rate := ChargeRate(maxRate, energy, n, true);
    if rate == 0.0 {
      FullRateEnergyProduct(rate, j);
    } else {
      FullRateEnergyMono(rate, j, n - 1);
      assert FullRateEnergy(rate, n) == FullRateEnergy(rate, n - 1) + rate * IntervalHours;
    }
  }

  /** Over the whole window the spread rate delivers min(what the cap allows, requirement). */
  lemma SpreadDelivers(maxRate: real, energy: real, n: int)
    requires n > 0 && 0.0 <= maxRate && 0.0 < energy
    ensures Delivered(ChargeRate(maxRate, energy, n, true), energy, n)
         == Min(FullRateEnergy(maxRate, n), energy)
  {
    var rate := ChargeRate(maxRate, energy, n, true);
    if rate != maxRate {
      FullRateEnergyRateMono(rate, maxRate, n);
    }
  }

  /** With charge management a route with energy to deliver charges in every interval of its window. */
  lemma ManagedChargesWindow(route: Route, k: int)
    requires WithinHorizon(route) && 0.0 <= route.maxRate
    requires WindowLength(route) > 0 && 0.0 < route.energy
    requires route.start <= k <= route.end
    ensures Charges(route, true, k)
  {
    SpreadVisitsWindow(route.maxRate, route.energy, WindowLength(route), k - route.start);
  }

  /**
   * With charge management, by departure a route has delivered its whole
   * requirement, or as much as its rate cap allows over the window.
   */
  lemma ManagedDeliversAtDeparture(c: VehicleColumns, route: Route)
    requires WellFormed(c) && WithinHorizon(route) && 0.0 <= route.maxRate
    requires WindowLength(route) > 0 && 0.0 < route.energy
    ensures ScheduleColumns(c, route, true).amount[route.end]
         == c.amount[route.start] + Min(FullRateEnergy(route.maxRate, WindowLength(route)), route.energy)
  {
    ManagedChargesWindow(route, route.end);
    ScheduleColumnsSpec(c, route, true, route.end);
    SpreadDelivers(route.maxRate, route.energy, WindowLength(route));
  }

  /**
   * A vehicle with a 50 kW cap, back at 18:00 (interval 36), leaving at
   * 06:00 the next day (interval 60), needing 100 kWh. With charge
   * management it charges at 8 kW in all 25 intervals and reaches
   * 100 kWh at departure.
   */
  lemma ManagedScenario(c: VehicleColumns, v: VehicleId)
    requires WellFormed(c)
    ensures var r := ScheduleColumns(c, Route(v, 36, 60, 100.0, 50.0), true);
      (forall k :: 36 <= k <= 60 ==> r.demand[k] == 8.0) &&
      r.amount[60] == c.amount[36] + 100.0
  {
    var route := Route(v, 36, 60, 100.0, 50.0);
    assert RouteRate(route, true) == 8.0;
    forall k | 36 <= k <= 60 ensures ScheduleColumns(c, route, true).demand[k] == 8.0 {
      ManagedChargesWindow(route, k);
      ScheduleColumnsSpec(c, route, true, k);
    }
    ManagedDeliversAtDeparture(c, route);
    FullRateEnergyProduct(50.0, 25);
  }

  /**
   * The same vehicle without charge management charges at 50 kW, meets
   * the 100 kWh after four intervals (36..39) and leaves every later
   * interval of its window as it was.
   */
  lemma UnmanagedScenario(c: VehicleColumns, v: VehicleId)
    requires WellFormed(c)
    ensures var r := ScheduleColumns(c, Route(v, 36, 60, 100.0, 50.0), false);
      (forall k :: 36 <= k <= 39 ==> r.demand[k] == 50.0) &&
      r.amount[39] == c.amount[36] + 100.0 &&
      (forall k :: 40 <= k < Intervals ==> r.demand[k] == c.demand[k] && r.amount[k] == c.amount[k])
  {
    var route := Route(v, 36, 60, 100.0, 50.0);
    assert RouteRate(route, false) == 50.0;
    forall k | 36 <= k < Intervals
      ensures var r := ScheduleColumns(c, route, false);
        (k <= 39 ==> r.demand[k] == 50.0) &&
        (k >= 40 ==> r.demand[k] == c.demand[k] && r.amount[k] == c.amount[k])
    {
      ScheduleColumnsSpec(c, route, false, k);
      FullRateEnergyProduct(50.0, k - 36);
    }
    ScheduleColumnsSpec(c, route, false, 39);
    FullRateEnergyProduct(50.0, 4);
  }

  // ----- all routes, in input order -----

  /** One route applied to the table: only its own vehicle's columns change. */
  function ScheduleInTable(t: Table, route: Route, managed: bool): (r: Table)
    requires TableWellFormed(t) && route.vehicle in t && WithinHorizon(route)
    ensures TableWellFormed(r) && r.Keys == t.Keys
    ensures forall v :: v in t && v != route.vehicle ==> r[v] == t[v]
  {
    t[route.vehicle := ScheduleColumns(t[route.vehicle], route, managed)]
  }

  predicate Schedulable(t: Table, routes: seq<Route>)
  {
    forall route <- routes :: route.vehicle in t && WithinHorizon(route)
  }

  /** The routes processed one after another, in input order. */
  function RunRoutes(t: Table, routes: seq<Route>, managed: bool): (r: Table)
    requires TableWellFormed(t) && Schedulable(t, routes)
    ensures TableWellFormed(r) && r.Keys == t.Keys
    decreases |routes|
  {
    if routes == [] then t
    else RunRoutes(ScheduleInTable(t, routes[0], managed), routes[1..], managed)
  }

  /** The routes of vehicle `v`, in input order. */
  function RoutesOf(routes: seq<Route>, v: VehicleId): (r: seq<Route>)
    ensures forall route <- r :: route in routes && route.vehicle == v
    ensures forall route <- routes :: route.vehicle == v ==> route in r
  {
    if routes == [] then []
    else (if routes[0].vehicle == v then [routes[0]] else []) + RoutesOf(routes[1..], v)
  }

  /** One vehicle's routes applied to that vehicle's columns alone. */
  function RunColumns(c: VehicleColumns, routes: seq<Route>, managed: bool): (r: VehicleColumns)
    requires WellFormed(c) && forall route <- routes :: WithinHorizon(route)
    ensures WellFormed(r)
    decreases |routes|
  {
    if routes == [] then c
    else RunColumns(ScheduleColumns(c, routes[0], managed), routes[1..], managed)
  }

  /**
   * Vehicles do not interact: each vehicle's final columns are those its
   * own routes produce, in their input order, from its initial columns.
   */
  lemma {:induction false} RunRoutesPerVehicle(t: Table, routes: seq<Route>, managed: bool, v: VehicleId)
    requires TableWellFormed(t) && Schedulable(t, routes) && v in t
    ensures RunRoutes(t, routes, managed)[v] == RunColumns(t[v], RoutesOf(routes, v), managed)
    decreases |routes|
  {
    if routes != [] {
      var t' := ScheduleInTable(t, routes[0], managed);
      RunRoutesPerVehicle(t', routes[1..], managed, v);
      var own := RoutesOf(routes[1..], v);
      if routes[0].vehicle == v {
        assert RoutesOf(routes, v) == [routes[0]] + own;
        assert ([routes[0]] + own)[1..] == own;
      } else {
        assert RoutesOf(routes, v) == own;
      }
    }
  }

  /** Every demand cell lies between zero and its vehicle's rate cap. */
  predicate Capped(t: Table, caps: map<VehicleId, real>)
    requires TableWellFormed(t)
  {
    forall v :: v in t ==>
      v in caps && 0.0 <= caps[v] &&
      forall k :: 0 <= k < Intervals ==> 0.0 <= t[v].demand[k] <= caps[v]
  }

  /** Each route carries its vehicle's rate cap. */
  predicate RatesMatch(routes: seq<Route>, caps: map<VehicleId, real>)
  {
    forall route <- routes :: route.vehicle in caps && route.maxRate == caps[route.vehicle]
  }

  lemma ScheduleInTableCapped(t: Table, route: Route, managed: bool, caps: map<VehicleId, real>)
    requires TableWellFormed(t) && route.vehicle in t && WithinHorizon(route)
    requires Capped(t, caps) && route.vehicle in caps && route.maxRate == caps[route.vehicle]
    ensures Capped(ScheduleInTable(t, route, managed), caps)
  {
    var v := route.vehicle;
    forall k | 0 <= k < Intervals
      ensures 0.0 <= ScheduleInTable(t, route, managed)[v].demand[k] <= caps[v]
    {
      ScheduleColumnsSpec(t[v], route, managed, k);
    }
  }

  /** No run of routes ever schedules a rate above a vehicle's cap, or below zero. */
  lemma {:induction false} RunRoutesCapped(t: Table, routes: seq<Route>, managed: bool, caps: map<VehicleId, real>)
    requires TableWellFormed(t) && Schedulable(t, routes)
    requires Capped(t, caps) && RatesMatch(routes, caps)
    ensures Capped(RunRoutes(t, routes, managed), caps)
    decreases |routes|
  {
    if routes != [] {
      ScheduleInTableCapped(t, routes[0], managed, caps);
      RunRoutesCapped(ScheduleInTable(t, routes[0], managed), routes[1..], managed, caps);
    }
  }

  // ----- initial columns and totals -----

  function Zeros(): (z: seq<real>)
    ensures |z| == Intervals && forall k :: 0 <= k < Intervals ==> z[k] == 0.0
  {
    seq(Intervals, _ => 0.0)
  }

  /** Every vehicle starts with all-zero demand and charge-amount columns. */
  function ZeroTable(ids: seq<VehicleId>): (t: Table)
    ensures t.Keys == set v | v in ids
    ensures forall v :: v in t ==> t[v] == VehicleColumns(Zeros(), Zeros())
    ensures TableWellFormed(t)
  {
    map v | v in ids :: VehicleColumns(Zeros(), Zeros())
  }

  predicate Covers(ids: seq<VehicleId>, t: Table)
  {
    forall v <- ids :: v in t
  }

  /** Fleet EV demand at interval `k`: the sum of the vehicles' demand cells. */
  function SumDemand(ids: seq<VehicleId>, t: Table, k: int): real
    requires TableWellFormed(t) && Covers(ids, t) && 0 <= k < Intervals
  {
    if ids == [] then 0.0 else t[ids[0]].demand[k] + SumDemand(ids[1..], t, k)
  }

  /** Total_EV_Demand_kW: per interval, the sum over the vehicle columns. */
  function TotalEvDemand(ids: seq<VehicleId>, t: Table): (r: seq<real>)
    requires TableWellFormed(t) && Covers(ids, t)
    ensures |r| == Intervals
    ensures forall k :: 0 <= k < Intervals ==> r[k] == SumDemand(ids, t, k)
  {
    seq(Intervals, k requires 0 <= k < Intervals => SumDemand(ids, t, k))
  }

  /** Total_Demand_kW: base load plus fleet EV demand, interval by interval. */
  function TotalDemand(baseLoad: seq<real>, ev: seq<real>): (r: seq<real>)
    requires |baseLoad| == Intervals && |ev| == Intervals
    ensures |r| == Intervals
    ensures forall k :: 0 <= k < Intervals ==> r[k] == baseLoad[k] + ev[k]
  {
    seq(Intervals, k requires 0 <= k < Intervals => baseLoad[k] + ev[k])
  }

  /** The sum of the rate caps of the listed vehicles. */
  function SumCaps(ids: seq<VehicleId>, caps: map<VehicleId, real>): real
    requires forall v <- ids :: v in caps
  {
    if ids == [] then 0.0 else caps[ids[0]] + SumCaps(ids[1..], caps)
  }

  lemma {:induction false} SumDemandBounded(ids: seq<VehicleId>, t: Table, k: int, caps: map<VehicleId, real>)
    requires TableWellFormed(t) && Covers(ids, t) && 0 <= k < Intervals && Capped(t, caps)
    ensures forall v <- ids :: v in caps
    ensures 0.0 <= SumDemand(ids, t, k) <= SumCaps(ids, caps)
  {
    if ids != [] {
      SumDemandBounded(ids[1..], t, k, caps);
    }
  }

  /**
   * After all routes of a run, fleet EV demand at every interval lies
   * between zero and the sum of the vehicles' rate caps, so total demand
   * never exceeds base load by more than that sum.
   */
  lemma FleetDemandBounded(ids: seq<VehicleId>, baseLoad: seq<real>, routes: seq<Route>, managed: bool,
                           caps: map<VehicleId, real>, k: int)
    requires |baseLoad| == Intervals && 0 <= k < Intervals
    requires Schedulable(ZeroTable(ids), routes) && RatesMatch(routes, caps)
    requires forall v <- ids :: v in caps && 0.0 <= caps[v]
    ensures var t := RunRoutes(ZeroTable(ids), routes, managed);
      0.0 <= TotalEvDemand(ids, t)[k] <= SumCaps(ids, caps) &&
      TotalDemand(baseLoad, TotalEvDemand(ids, t))[k] <= baseLoad[k] + SumCaps(ids, caps)
  {
    var t0 := ZeroTable(ids);
    RunRoutesCapped(t0, routes, managed, caps);
    SumDemandBounded(ids, RunRoutes(t0, routes, managed), k, caps);
  }
}
