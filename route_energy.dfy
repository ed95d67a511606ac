/**
 * Derivation of the schedulable routes from the route records: return and
 * departure intervals (departure on the next day), the inner join with the
 * fleet, and each route's energy requirement.
 */
module RouteEnergy {
  import opened Wrappers
  import opened IntervalGrid
  import opened ChargeSchedule

  datatype Vehicle = Vehicle(id: VehicleId, maxChargeSpeed: real, efficiency: real)

  /** A route as read from the routes table; times are "HH:MM" strings. */
  datatype RouteRecord = RouteRecord(vehicle: VehicleId, length: real, returnTime: string, departureTime: string)

  /** A route record with its ReturnInterval and DepartureInterval. */
  datatype TimedRoute = TimedRoute(record: RouteRecord, returnInterval: int, departureInterval: int)

  predicate TimesParse(rec: RouteRecord)
  {
    TimeToInterval(rec.returnTime).Success? && TimeToInterval(rec.departureTime).Success?
  }

  /** One record's ReturnInterval and DepartureInterval, when both of its times parse. */
  function TimeRoute(rec: RouteRecord): (r: Option<TimedRoute>)
    ensures r.Some? <==> TimesParse(rec)
    ensures r.Some? ==>
      && r.value.record == rec
      && r.value.returnInterval == TimeToInterval(rec.returnTime).value
      && r.value.departureInterval == DepartureInterval(rec.departureTime).value
  {
    if TimesParse(rec) then
      Some(TimedRoute(rec, TimeToInterval(rec.returnTime).value, DepartureInterval(rec.departureTime).value))
    else None
  }

  /** Both interval columns of the routes table; one bad time fails them all. */
  function TimeRoutes(records: seq<RouteRecord>): (r: Result<seq<TimedRoute>, Error>)
    ensures r.Success? <==> forall rec <- records :: TimeRoute(rec).Some?
    ensures r.Failure? ==> r.error == InvalidTimeFormat
    ensures r.Success? ==>
      && |r.value| == |records|
      && forall i :: 0 <= i < |records| ==> TimeRoute(records[i]) == Some(r.value[i])
  {
    if records == [] then Success([])
    else
      var rest := TimeRoutes(records[1..]);
      assert forall x <- records :: x == records[0] || x in records[1..];
      match TimeRoute(records[0])
      case Some(timed) =>
        if rest.Success? then Success([timed] + rest.value) else Failure(InvalidTimeFormat)
      case None => Failure(InvalidTimeFormat)
  }

  /** Entry `j` is the first fleet entry with the given id. */
  predicate FirstWithId(vehicles: seq<Vehicle>, id: VehicleId, j: int)
  {
    0 <= j < |vehicles| && vehicles[j].id == id && forall k :: 0 <= k < j ==> vehicles[k].id != id
  }

  /** The first fleet entry with the given id (`.iloc[0]` of the matching rows). */
  function FindVehicle(vehicles: seq<Vehicle>, id: VehicleId): (r: Option<Vehicle>)
    ensures r.Some? ==> r.value in vehicles && r.value.id == id
    ensures r.None? <==> forall v <- vehicles :: v.id != id
    ensures forall j :: FirstWithId(vehicles, id, j) ==> r == Some(vehicles[j])
  {
    if vehicles == [] then None
    else if vehicles[0].id == id then Some(vehicles[0])
    else
      var r := FindVehicle(vehicles[1..], id);
      assert forall j :: FirstWithId(vehicles, id, j) ==> FirstWithId(vehicles[1..], id, j - 1) by {
        forall j | FirstWithId(vehicles, id, j) ensures FirstWithId(vehicles[1..], id, j - 1) {
          assert forall k :: 0 <= k < j - 1 ==> vehicles[1..][k] == vehicles[k + 1];
        }
      }
      r
  }

  /** A timed route joined with its vehicle: EnergyRequired_kWh = length * efficiency. */
  function JoinRoute(vehicle: Vehicle, t: TimedRoute): (r: Route)
    ensures r.vehicle == t.record.vehicle && r.start == t.returnInterval && r.end == t.departureInterval
    ensures r.maxRate == vehicle.maxChargeSpeed
    ensures r.energy == t.record.length * vehicle.efficiency
    ensures 0.0 <= t.record.length && 0.0 <= vehicle.efficiency ==> 0.0 <= r.energy
  {
    Route(t.record.vehicle, t.returnInterval, t.departureInterval,
          t.record.length * vehicle.efficiency, vehicle.maxChargeSpeed)
  }

  /** The inner join with the fleet: routes of unknown vehicles are dropped. */
  function Join(vehicles: seq<Vehicle>, timed: seq<TimedRoute>): (r: seq<Route>)
    ensures |r| <= |timed|
    ensures forall route <- r ::
      FindVehicle(vehicles, route.vehicle).Some? &&
      route.maxRate == FindVehicle(vehicles, route.vehicle).value.maxChargeSpeed
  {
    if timed == [] then []
    else
      var rest := Join(vehicles, timed[1..]);
      match FindVehicle(vehicles, timed[0].record.vehicle)
      case Some(v) => [JoinRoute(v, timed[0])] + rest
      case None => rest
  }

  /** Lines 95-98 of the endpoint: intervals, join, energy. */
  function DeriveRoutes(vehicles: seq<Vehicle>, records: seq<RouteRecord>): (r: Result<seq<Route>, Error>)
    ensures r.Success? <==> forall rec <- records :: TimesParse(rec)
  {
    match TimeRoutes(records)
    case Success(timed) => Success(Join(vehicles, timed))
    case Failure(e) => Failure(e)
  }

  /** The timed routes of vehicle `id`, in input order. */
  function TimedOf(timed: seq<TimedRoute>, id: VehicleId): (r: seq<TimedRoute>)
    ensures |r| <= |timed|
    ensures forall t <- r :: t in timed && t.record.vehicle == id
    ensures forall t <- timed :: t.record.vehicle == id ==> t in r
  {
    if timed == [] then []
    else (if timed[0].record.vehicle == id then [timed[0]] else []) + TimedOf(timed[1..], id)
  }

  function JoinAll(vehicle: Vehicle, timed: seq<TimedRoute>): (r: seq<Route>)
    ensures |r| == |timed|
    ensures forall i :: 0 <= i < |timed| ==> r[i] == JoinRoute(vehicle, timed[i])
  {
    if timed == [] then [] else [JoinRoute(vehicle, timed[0])] + JoinAll(vehicle, timed[1..])
  }

  /**
   * The join keeps each vehicle's routes in their input order: the routes
   * the scheduler sees for a fleet vehicle are exactly its own records,
   * joined with it; a vehicle outside the fleet has none.
   */
  lemma {:induction false} JoinPerVehicle(vehicles: seq<Vehicle>, timed: seq<TimedRoute>, id: VehicleId)
    ensures FindVehicle(vehicles, id).None? ==> RoutesOf(Join(vehicles, timed), id) == []
    ensures FindVehicle(vehicles, id).Some? ==>
      RoutesOf(Join(vehicles, timed), id) == JoinAll(FindVehicle(vehicles, id).value, TimedOf(timed, id))
  {
    if timed != [] {
      JoinPerVehicle(vehicles, timed[1..], id);
      var rest := Join(vehicles, timed[1..]);
      var t := timed[0];
      match FindVehicle(vehicles, t.record.vehicle)
      case Some(v) =>
        var route := JoinRoute(v, t);
        assert Join(vehicles, timed) == [route] + rest;
        assert ([route] + rest)[1..] == rest;
        if t.record.vehicle == id {
          assert TimedOf(timed, id) == [t] + TimedOf(timed[1..], id);
          assert ([t] + TimedOf(timed[1..], id))[1..] == TimedOf(timed[1..], id);
        } else {
          assert TimedOf(timed, id) == TimedOf(timed[1..], id);
        }
      case None =>
        if t.record.vehicle != id {
          assert TimedOf(timed, id) == TimedOf(timed[1..], id);
        }
    }
  }

  /** A time of day written "HH:MM" with 00 <= HH <= 23 and 00 <= MM <= 59. */
  ghost predicate ClockTime(s: string)
  {
    exists hour: nat, minute: nat :: hour < 24 && minute < 60 && s == Clock(hour, minute)
  }

  /**
   * With valid times of day every route parses, returns on the first day
   * and departs on the second, so its window is never empty and lies on
   * the grid: the empty-window branch of the scheduler is never taken.
   */
  lemma ClockTimesGiveWindows(vehicles: seq<Vehicle>, records: seq<RouteRecord>)
    requires forall rec <- records :: ClockTime(rec.returnTime) && ClockTime(rec.departureTime)
    ensures DeriveRoutes(vehicles, records).Success?
    ensures forall route <- DeriveRoutes(vehicles, records).value ::
      0 <= route.start < NextDay <= route.end < Intervals && WindowLength(route) > 0 && WithinHorizon(route)
  {
    forall rec <- records
      ensures TimesParse(rec)
      ensures 0 <= TimeToInterval(rec.returnTime).value < NextDay
      ensures NextDay <= DepartureInterval(rec.departureTime).value < Intervals
    {
      var rh: nat, rm: nat :| rh < 24 && rm < 60 && rec.returnTime == Clock(rh, rm);
      var dh: nat, dm: nat :| dh < 24 && dm < 60 && rec.departureTime == Clock(dh, dm);
      ClockToInterval(rh, rm);
      ClockToInterval(dh, dm);
    }
    var timed := TimeRoutes(records).value;
    JoinWindows(vehicles, timed);
  }

  lemma {:induction false} JoinWindows(vehicles: seq<Vehicle>, timed: seq<TimedRoute>)
    requires forall t <- timed :: 0 <= t.returnInterval < NextDay <= t.departureInterval < Intervals
    ensures forall route <- Join(vehicles, timed) :: 0 <= route.start < NextDay <= route.end < Intervals
  {
    if timed != [] {
      JoinWindows(vehicles, timed[1..]);
    }
  }

  /** VehicleID column of the fleet, in fleet order. */
  function Ids(vehicles: seq<Vehicle>): (ids: seq<VehicleId>)
    ensures |ids| == |vehicles|
    ensures forall i :: 0 <= i < |vehicles| ==> ids[i] == vehicles[i].id
  {
    seq(|vehicles|, i requires 0 <= i < |vehicles| => vehicles[i].id)
  }

  /**
   * The distinct ids of `ids` that are not in `seen`, each once, kept at
   * its first appearance (`unique()`).
   */
  function Unique(ids: seq<VehicleId>, seen: set<VehicleId>): (r: seq<VehicleId>)
    ensures forall v :: v in r <==> v in ids && v !in seen
    ensures forall i, j :: 0 <= i < j < |r| ==> r[i] != r[j]
  {
    if ids == [] then []
    else if ids[0] in seen then Unique(ids[1..], seen)
    else [ids[0]] + Unique(ids[1..], seen + {ids[0]})
  }

  /** The fleet's unique VehicleIDs: the vehicle columns of the table, one per id. */
  function UniqueIds(vehicles: seq<Vehicle>): (ids: seq<VehicleId>)
    ensures forall v :: v in ids <==> exists i :: 0 <= i < |vehicles| && vehicles[i].id == v
    ensures forall i, j :: 0 <= i < j < |ids| ==> ids[i] != ids[j]
  {
    Unique(Ids(vehicles), {})
  }

  /** Each fleet vehicle's rate cap, taken from its first fleet entry. */
  function Caps(vehicles: seq<Vehicle>): (caps: map<VehicleId, real>)
    ensures caps.Keys == set v | v in Ids(vehicles)
  {
    map id | id in Ids(vehicles) :: FindVehicle(vehicles, id).value.maxChargeSpeed
  }

  /** Every derived route carries its vehicle's rate cap, as the scheduler looks it up. */
  lemma DerivedRatesMatch(vehicles: seq<Vehicle>, records: seq<RouteRecord>)
    requires DeriveRoutes(vehicles, records).Success?
    ensures RatesMatch(DeriveRoutes(vehicles, records).value, Caps(vehicles))
  {
    forall route <- DeriveRoutes(vehicles, records).value
      ensures route.vehicle in Caps(vehicles)
    {
      var v := FindVehicle(vehicles, route.vehicle).value;
      var i :| 0 <= i < |vehicles| && vehicles[i] == v;
      assert Ids(vehicles)[i] == route.vehicle;
    }
  }

  /** Every derived route belongs to a vehicle that has columns in the table. */
  lemma DerivedSchedulable(vehicles: seq<Vehicle>, records: seq<RouteRecord>)
    requires DeriveRoutes(vehicles, records).Success?
    ensures forall route <- DeriveRoutes(vehicles, records).value :: route.vehicle in ZeroTable(UniqueIds(vehicles))
  {
    forall route <- DeriveRoutes(vehicles, records).value
      ensures route.vehicle in ZeroTable(UniqueIds(vehicles))
    {
      var v := FindVehicle(vehicles, route.vehicle).value;
      var i :| 0 <= i < |vehicles| && vehicles[i] == v;
      assert vehicles[i].id == route.vehicle;
    }
  }
}
