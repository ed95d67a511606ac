# Charge simulator: a Dafny model of the charge scheduler

The charge simulator takes a fleet of electric vehicles, their routes and a
base-load series. It computes how much charging power each vehicle draws
in each half-hour interval of a 48-hour horizon (96 intervals). It runs
twice: once with charge management and once without. This project models
the core of `api/index.py` and proves properties of it:

- **Interval grid** (`interval_grid.dfy`): `time_to_interval` turns "H:M"
  into `2*H + M // 30`. Splitting on `:` and Python's `int()` are written
  out, and every error path returns `InvalidTimeFormat`. A departure
  interval is the parsed value plus 48.
- **Time-of-day labels** (`time_of_day.dfy`): the `HH:MM` label that
  `add_time_column` gives interval `i`.
- **Base-load resampling** (`baseline.dfy`): the repeat-and-truncate step
  of the endpoint, both as written and corrected (see Findings).
- **Route derivation** (`route_energy.dfy`): return and departure
  intervals, the inner join with the fleet, and `EnergyRequired_kWh`.
- **Charge scheduler** (`charge_schedule.dfy`): the pure specification.
  It covers the rate choice, the greedy fill of one route's window, the
  fold over all routes in input order, and the demand totals. Each vehicle
  owns its two columns (`ChargingDemand_kW`, `ChargeAmount_kWh`), kept as a
  map from vehicle id to a pair of 96-entry sequences.
- **Simulation table** (`simulation.dfy`): the DataFrame that
  `minimize_peak_demand_charging` updates in place, as a class. Its
  methods are proved against the functions above. `Simulate` builds one
  table per policy.

kW and kWh are Dafny `real`, so all arithmetic is exact. Python's `//` by
30 is floor division. For a positive divisor it agrees with Dafny's
Euclidean `/`.

The central reference definition is `ChargeSchedule.Delivered`: after a
route has visited `j` intervals at rate `r`, it has delivered
`min(FullRateEnergy(r, j), required)`, where `FullRateEnergy(r, j)` is
`j * r / 2` kWh, accumulated one interval at a time (`FullRateEnergyProduct`
proves it equal to the product). `FillClosedForm` proves that the greedy loop
produces exactly this:

- Every interval the loop visits gets the route's rate as demand.
- Every visited interval gets, as charge amount, the amount that stood at
  the start interval plus the energy delivered so far.
- Every other cell keeps its value.

Three behaviours of the code that the model keeps as they are:

- The loop breaks once the requirement is met, so the rest of the window
  keeps its previous demand. Without charge management, a 50 kW cap and a
  100 kWh requirement write only four intervals (36..39).
- At the start interval, the charge amount is added onto the existing
  cell (`+=`), so a second route of the same vehicle starting there builds
  on what is already written.
- A time with seconds (`"HH:MM:SS"`) splits into three fields and fails
  with `InvalidTimeFormat`.

Apart from what "## Left out" lists, the main departure from the code is
the base-load resampling; see Findings.

## Model

| member | source | states |
|---|---|---|
| `IntervalGrid.Split` | api/index.py:24 | `str.split(":")`: at least one field, and no field contains ':' |
| `IntervalGrid.SplitCount` | api/index.py:24 | the number of fields is the number of ':' plus one |
| `IntervalGrid.SplitAtColon` | api/index.py:24 | a colon-free prefix followed by ':' is split off as the first field |
| `IntervalGrid.SplitNoColon` | api/index.py:24 | a string without ':' is one field |
| `IntervalGrid.ParseIntSpec` | api/index.py:24 | `int()` on a field: succeeds exactly for a non-empty run of ASCII digits, optionally after one sign; the value is the digits' decimal value, negated after '-' |
| `IntervalGrid.TimeToInterval` | api/index.py:23-25 | succeeds exactly when the string splits into two fields that both parse as integers; otherwise InvalidTimeFormat |
| `IntervalGrid.TimeToIntervalValue` | api/index.py:23-25 | any two integer fields H and M around one ':' (any padding, sign or size) give 2*H + M // 30 |
| `IntervalGrid.DepartureInterval` | api/index.py:96 | succeeds exactly when the time parses, and is then 48 more than its interval |
| `IntervalGrid.Pad2` | api/index.py:18 | a two-digit zero-padded field: two decimal digits, no ':' |
| `IntervalGrid.Pad2Value` | api/index.py:18 | reading a padded field back gives the number |
| `IntervalGrid.ClockToInterval` | api/index.py:23-25 | "HH:MM" gives 2*HH + MM // 30; a valid time of day lies in 0..47, and its departure interval in 48..95 |
| `IntervalGrid.TwoColonsRejected` | api/index.py:24 | a string with two or more ':' ("HH:MM:SS") is InvalidTimeFormat |
| `IntervalGrid.NoColonRejected` | api/index.py:24 | a string without ':' is InvalidTimeFormat |
| `TimeOfDay.Label` | api/index.py:15-18 | label i is the zero-padded "HH:MM" of its half hour within the day: hour (i mod 48) / 2, minute 30 * (i mod 2) |
| `TimeOfDay.TimeOfDayColumn` | api/index.py:15-19 | the column has one entry per interval, and entry i is the label of i |
| `TimeOfDay.LabelRoundTrip` | api/index.py:17-18 | parsing the label of interval i gives i mod 48 (the labels invert `time_to_interval` within a day) |
| `TimeOfDay.LabelNextDay` | api/index.py:17-18 | interval i + 48 has the same label as interval i |
| `Baseline.Repeat` | api/index.py:81 | k copies: length L*k, starting with the series, each entry equal to the one L places earlier |
| `Baseline.PeriodicAgree` | api/index.py:81 | two series with the same first period and the same period agree entry by entry |
| `Baseline.Take` | api/index.py:82 | `iloc[:n]`: the first min(n, length) entries |
| `Baseline.ResampleAsWritten` | api/index.py:80-82 | fails exactly for an empty series; a series shorter than 96 becomes L*(96 // L) long; a longer one is cut to its first 96 entries |
| `Baseline.BaseLoadAsWritten` | api/index.py:80-89 | on success the base-load column has exactly 96 entries |
| `Baseline.NonDivisorLengthRefused` | api/index.py:80-89 | a length below 96 that does not divide 96 gives fewer than 96 rows, and building the table fails |
| `Baseline.TwentyFiveEntriesYieldSeventyFive` | api/index.py:81 | a 25-entry series gives 75 rows, and building the table fails |
| `Baseline.Resample` | api/index.py:80-82 | fails exactly for an empty series; otherwise 96 entries that repeat the series cyclically from its start |
| `Baseline.AsWrittenBuildsTable` | api/index.py:80-89 | the code as written builds its table exactly when the series is non-empty and at least 96 long or of a length dividing 96, and then with the corrected resampling's column |
| `Baseline.ResampleAgreesAsWritten` | api/index.py:80-89 | when L >= 96 or L divides 96, the code as written and the corrected resampling give the same column |
| `ChargeSchedule.FullRateEnergy` | api/index.py:50-51 | the energy a constant rate delivers over j half-hour intervals is non-negative for a non-negative rate |
| `ChargeSchedule.FullRateEnergyProduct` | api/index.py:50 | that energy is j * rate * 0.5 kWh |
| `ChargeSchedule.FullRateEnergyMono` | api/index.py:46-51 | more intervals deliver at least as much |
| `ChargeSchedule.FullRateEnergyRateMono` | api/index.py:42-45 | over a non-empty stretch a higher rate delivers strictly more |
| `ChargeSchedule.SpreadEnergy` | api/index.py:43 | a rate at most energy / window hours never over-delivers over the window; exactly that rate delivers the requirement |
| `ChargeSchedule.ChargeRate` | api/index.py:42-45 | the rate never exceeds the cap; it is the cap or the exact spread rate (managed), or the cap or the energy (unmanaged); the managed rate never over-delivers over the window; it is non-negative for non-negative inputs |
| `ChargeSchedule.Fill` | api/index.py:47-62 | the greedy fill keeps both columns at their length (its meaning is FillClosedForm) |
| `ChargeSchedule.ScheduleColumns` | api/index.py:39-62 | an empty window, or no energy to deliver, leaves the vehicle's columns unchanged |
| `ChargeSchedule.DeliveredStep` | api/index.py:50-51 | one more interval adds min(rate/2, remaining) to the delivered energy |
| `ChargeSchedule.FillClosedForm` | api/index.py:46-62 | the loop writes the rate and the start amount plus min(j*rate/2, required) into exactly the visited intervals, and nothing else |
| `ChargeSchedule.ScheduleColumnsSpec` | api/index.py:39-62 | for one route: charged intervals get the rate and the running total on top of the start cell; every other cell is unchanged |
| `ChargeSchedule.DeliveredMono` | api/index.py:50-62 | delivered energy never decreases and stays between 0 and the requirement |
| `ChargeSchedule.ChargeAmountWithinRequirement` | api/index.py:46-62 | the charge amount in a charged interval is between the start amount and the start amount plus the requirement |
| `ChargeSchedule.ChargeAmountGrows` | api/index.py:52-58 | from one charged interval to the next the charge amount does not decrease |
| `ChargeSchedule.EarlyStopMeetsRequirement` | api/index.py:47-49 | a route that stops charging before its departure interval has delivered exactly its requirement |
| `ChargeSchedule.SpreadVisitsWindow` | api/index.py:43 | at the spread rate, every interval of the window is reached before the requirement is met |
| `ChargeSchedule.SpreadDelivers` | api/index.py:43 | over the whole window the spread rate delivers min(what the cap delivers over the window, requirement) |
| `ChargeSchedule.ManagedChargesWindow` | api/index.py:42-62 | with management, a route with energy to deliver charges in every interval of its window |
| `ChargeSchedule.ManagedDeliversAtDeparture` | api/index.py:42-62 | with management, the amount at departure is the start amount plus min(cap * window hours, requirement) |
| `ChargeSchedule.ManagedScenario` | api/index.py:42-62 | 50 kW cap, window 36..60, 100 kWh, managed: 8 kW in all 25 intervals, and +100 kWh at interval 60 |
| `ChargeSchedule.UnmanagedScenario` | api/index.py:44-62 | the same route unmanaged: 50 kW in 36..39, +100 kWh at 39, and intervals 40..95 untouched |
| `ChargeSchedule.ScheduleInTable` | api/index.py:33-62 | one route changes only its own vehicle's columns, and keeps the table's vehicles |
| `ChargeSchedule.RoutesOf` | api/index.py:33-34 | a vehicle's routes are exactly the input routes of that vehicle |
| `ChargeSchedule.RunRoutes` | api/index.py:33-62 | applying all routes in order keeps the table's vehicles and column lengths |
| `ChargeSchedule.RunColumns` | api/index.py:33-62 | one vehicle's routes applied to its columns keep them well formed |
| `ChargeSchedule.RunRoutesPerVehicle` | api/index.py:33-62 | each vehicle's final columns are what its own routes, in input order, make of its initial columns |
| `ChargeSchedule.ScheduleInTableCapped` | api/index.py:59-61 | one route keeps every demand cell between 0 and its vehicle's cap |
| `ChargeSchedule.RunRoutesCapped` | api/index.py:33-62 | after any sequence of routes, every demand cell is between 0 and its vehicle's cap |
| `ChargeSchedule.Zeros` | api/index.py:30-31 | 96 zero entries |
| `ChargeSchedule.ZeroTable` | api/index.py:29-31 | one zero-initialised pair of columns for each fleet vehicle |
| `ChargeSchedule.TotalEvDemand` | api/index.py:63-64 | Total_EV_Demand_kW at each interval is the sum of the vehicles' demand cells |
| `ChargeSchedule.TotalDemand` | api/index.py:65 | Total_Demand_kW at each interval is base load plus fleet EV demand |
| `ChargeSchedule.SumDemandBounded` | api/index.py:63-64 | fleet EV demand lies between 0 and the sum of the caps, given capped columns |
| `ChargeSchedule.FleetDemandBounded` | api/index.py:28-65 | after a whole run, fleet EV demand is between 0 and the sum of the caps, and total demand is at most base load plus that sum |
| `RouteEnergy.TimeRoute` | api/index.py:95-96 | a record gets intervals exactly when both its times parse: its return interval and its next-day departure interval |
| `RouteEnergy.TimeRoutes` | api/index.py:95-96 | fails exactly when some route time does not parse; otherwise each record gets its return interval and its next-day departure interval |
| `RouteEnergy.FindVehicle` | api/index.py:36 | returns the first fleet entry with the id (`.iloc[0]`), or reports that none has it |
| `RouteEnergy.JoinRoute` | api/index.py:97-98 | a joined route keeps the record's vehicle and intervals, carries its vehicle's cap, and has length × efficiency as its energy (non-negative for non-negative length and efficiency) |
| `RouteEnergy.Join` | api/index.py:97-98 | only routes of fleet vehicles survive, each carrying its vehicle's rate cap |
| `RouteEnergy.DeriveRoutes` | api/index.py:95-98 | succeeds exactly when every route time parses, including routes of vehicles outside the fleet |
| `RouteEnergy.TimedOf` | api/index.py:97 | a vehicle's timed routes are exactly the input's timed routes of that vehicle |
| `RouteEnergy.JoinAll` | api/index.py:97-98 | each of a vehicle's routes joined with that vehicle |
| `RouteEnergy.JoinPerVehicle` | api/index.py:97-98 | the join keeps a vehicle's routes in input order, joined with that vehicle; a vehicle outside the fleet gets none |
| `RouteEnergy.ClockTimesGiveWindows` | api/index.py:95-96 | with valid "HH:MM" times, every route parses and has a non-empty window from day one into day two, on the grid (so the skip branch is never taken) |
| `RouteEnergy.JoinWindows` | api/index.py:97 | the join keeps the intervals of each route |
| `RouteEnergy.Ids` | api/index.py:29 | the fleet's VehicleID column, entry by entry |
| `RouteEnergy.Unique` | api/index.py:29 | the ids not yet seen, each exactly once |
| `RouteEnergy.UniqueIds` | api/index.py:29-31 | `.unique()`: exactly the fleet's ids, none twice, so each vehicle gets one pair of columns and is summed once |
| `RouteEnergy.Caps` | api/index.py:36 | a cap for each fleet id |
| `RouteEnergy.DerivedRatesMatch` | api/index.py:36 | every derived route carries the cap the scheduler looks up for its vehicle |
| `RouteEnergy.DerivedSchedulable` | api/index.py:97 | every derived route's vehicle has columns in the table |
| `Simulation.SimulationTable.constructor` | api/index.py:84-93 | base load, the fleet's ids, and all-zero vehicle columns |
| `Simulation.SimulationTable.ScheduleRoute` | api/index.py:34-62 | the loop with its early break leaves the table exactly as ScheduleInTable specifies |
| `Simulation.SimulationTable.AddTotals` | api/index.py:63-65 | sets the fleet and total demand columns to their sums |
| `Simulation.SimulationTable.MinimizePeakDemandCharging` | api/index.py:28-65 | the columns are zeroed, every route is applied in input order (RunRoutes), and the totals are added |
| `Simulation.SimulationTable.AddTimeColumn` | api/index.py:15-20 | the TimeOfDay column holds the 96 labels |
| `Simulation.Simulate` | api/index.py:80-127 | fails exactly on an empty base load, an unparseable time, or a window off the grid; otherwise two fresh tables, managed and unmanaged, each equal to its specification, all of whose columns (base load, vehicle columns, fleet and total demand, labels) are stated; wherever the code as written builds its table, the base load is the one it builds |
| `Simulation.RunDemandBounded` | api/index.py:95-127 | for derived routes with non-negative caps, fleet EV demand lies between 0 and the sum of the fleet's caps at every interval |

## Left out

- The HTTP endpoint, file upload, CSV reading and writing, ZIP packaging
  and file removal (api/index.py:72-78, 100-102, 115-116, 126-141). These
  are I/O.
- Rounding of float columns to two decimals (api/index.py:66-68), and
  float rounding in general: the model uses exact reals.
- The column reordering (api/index.py:110-113): it is presentation only.
- `datetime.today()` in `add_time_column`: only the `HH:MM` label is
  modelled. The labels do not depend on the date.
- Python's `int()` also accepts surrounding whitespace, `_` between digits
  and non-ASCII digits. The model accepts only an optional sign followed by
  ASCII digits. Time values that are not strings (a missing CSV cell) are
  not modelled.
- Simulation.Simulate: the table has rows 0..95 only, and `Simulate`
  reports `IntervalOutsideHorizon` for every route whose non-empty window
  leaves that range. The source does one of three things there. A start
  outside 0..95 makes the `+=` at api/index.py:53 read a missing row and
  raise `KeyError`. A write at an interval after the start and beyond 95
  makes `.at` append a row (api/index.py:55-61); `add_time_column` then
  assigns 96 labels to the longer table and raises `ValueError`
  (api/index.py:19). In these two cases the source fails as `Simulate`
  does. A route with energy to deliver always reaches one of them: the
  managed pass runs first (api/index.py:105-108) and visits every interval
  of the window (`ChargeSchedule.SpreadVisitsWindow`). The outcomes differ
  only when every route whose window leaves the grid needs no energy
  (EnergyRequired_kWh <= 0): the source touches no missing row and
  succeeds, while `Simulate` fails. A "24:00" departure (interval 96) leads
  there only for a route whose length times efficiency is not positive. Valid times of
  day never leave the grid (`RouteEnergy.ClockTimesGiveWindows`).
- Simulation.Simulate: it uses the corrected resampling. A base load
  shorter than 96 whose length does not divide 96 makes the source fail at
  api/index.py:84-89 (see Findings), while `Simulate` builds the table. For
  every other base load the two agree (`Baseline.AsWrittenBuildsTable`).
- Duplicate vehicle ids: the vehicle columns are per unique id
  (`RouteEnergy.UniqueIds`), as in the source. The inner merge would
  duplicate a route once per duplicate fleet entry; the model joins every
  route once, with the first fleet entry of its id.
- RouteEnergy.Unique: states which ids it keeps and that each appears
  once, not that they stay in order of first appearance. That order only
  decides the column order.
- Older pandas versions order the rows of an inner merge by key. This
  reorders routes across vehicles but never within one vehicle.
  `ChargeSchedule.RunRoutesPerVehicle` shows that only the order within a
  vehicle matters.
- `Simulate` builds each policy's table fresh. The source copies one
  prepared table; the two are equal in content.
- ChargeSchedule.ScheduleColumnsSpec: stated for a non-negative rate cap
  only, as vehicle data has. With a negative cap the loop never meets the
  requirement and writes every interval of the window; this is not covered.
- ChargeSchedule.ChargeAmountWithinRequirement: non-negative rate cap only,
  for the same reason.
- ChargeSchedule.ChargeAmountGrows: non-negative rate cap only.
- ChargeSchedule.EarlyStopMeetsRequirement: non-negative rate cap only.
- ChargeSchedule.ManagedChargesWindow: non-negative rate cap only.
- ChargeSchedule.ManagedDeliversAtDeparture: non-negative rate cap only.
- ChargeSchedule.RunRoutesCapped: assumes non-negative caps, since the
  bound it states is 0 <= demand <= cap.

## Findings

| source | as written | input that shows it | evidently intended | confidence | as-written member | corrected member |
|---|---|---|---|---|---|---|
| api/index.py:81 | a series shorter than 96 is concatenated `96 // L` times, which gives only L*(96 // L) rows when L does not divide 96; the table built at lines 84-89 then has mismatched column lengths and construction fails | a 25-entry base load gives 75 rows | repeat the series cyclically until it covers the horizon, then cut it to 96 entries | medium, not executed | `Baseline.NonDivisorLengthRefused` | `Baseline.Resample` |
