# Hospital bed occupancy: a verified model of the ward simulation

This project models a hospital ward as a discrete-event simulation, together with the statistics computed from the simulation's logs.

Patients arrive at random and balk when every bed is taken. A patient who finds a free bed occupies it, waits for a staff member, is treated and is discharged. The repository has two variants of this process and a report script:

- `simulation.py`, the dashboard's engine:
  - The `Hospital` class keeps a bed counter, a patient log and an occupancy log.
  - One staff pool serves three service-time scenarios.
  - `patient_source` spawns patients `P1`, `P2`, … until the horizon.
  - The KPI block turns the two logs into a blocking percentage, averages over the served patients and a time-average bed occupancy.
- `assets/simulation.py`, the staffed-ward variant:
  - Each admitted patient races a request for a senior staff member against one for a junior.
  - The winner's ideal service rate is degraded by the ward load: `mu_actual = mu_ideal * min(1, ALPHA * s / n)`.
  - The patient's record keeps its waits for bed and staff and its treatment duration.
  - A summary of the log follows the run.
- `generate_report.py`:
  - `calculate_kpis` reduces one scenario's rows of a results table to seven indicators.
  - `main` applies it to each scenario of the table.

The Dafny modules follow those files:

| module | file | models |
|---|---|---|
| `Common` | common.dfy | `Option`, column sums and means as pandas computes them on exact reals, fractions |
| `Arrivals` | arrivals.dfy | the patient generator loop shared by both variants, `P{id}` identifiers |
| `Pools` | pools.dfy | a capacity-limited resource with a FIFO wait queue (`request`, `release`, cancelling a request) |
| `Ward` | ward.dfy | `Hospital` of `simulation.py`: `get_treatment_time`, `patient` as event steps, `patient_source` |
| `WardKpis` | ward_kpis.dfy | the KPI block of `simulation.py` |
| `StaffedWard` | staffed_ward.dfy | `patient` and `patient_generator` of `assets/simulation.py`, `mu_actual` |
| `StaffedResults` | staffed_results.dfy | the analysis printed at the end of `assets/simulation.py` |
| `Report` | report.dfy | `calculate_kpis` and the per-scenario loop of `generate_report.py` |

## How the processes are modelled

A simpy process is a coroutine. The model splits each patient process at its `yield`s into event steps and makes each step a method of the `Hospital` class:

- `simulation.py`: `Arrive`, `BeginTreatment` (the staff grant resumes the process) and `Discharge`.
- `assets/simulation.py`: `Arrive`, `AssignStaff` (the race resolves) and `Discharge`.

The caller chooses the order of events and passes the current time. Every step keeps a class invariant `Valid()`, which states:

- the bed counter stays between 0 and the capacity;
- a patient racing for staff has one request, granted or queued, on each staff pool; once in treatment it holds exactly one unit of the granted pool and nothing on the other (in the single-pool ward: exactly one unit held or awaited);
- the occupancy log is a path of ±1 steps from an empty ward, ending at the counter;
- the records logged plus the beds in use equal the arrivals;
- every log record is well formed: non-negative durations that add up.

A ghost map from staff tickets to each bedded patient's stage, and a ghost clock, carry this bookkeeping. The stage keeps the name and arrival time the patient arrived with, so a later step accepts only that patient's own name and its record is logged under it.

Random draws are parameters. `np.random.exponential(m)` is `m * e` for a standard exponential sample `e >= 0`, and `np.random.rand()` is a given `uniform`. Times and rates are exact reals.

Three behaviours of the code are worth naming:

- An unrecognised scenario name yields a treatment time of 0 (simulation.py:89). The dashboard only offers the three names (dashboard.py:19-26).
- A patient that wins the race in `assets/simulation.py` does not cancel its losing request. The comment at line 57 says it does. That case is under Findings.
- The workload-dependent scenario of `simulation.py` never degrades when `workload_factor_alpha` is at least 1, the dashboard's default being 1.5. Line 81 divides `len(staff.users)` by `num_staff`, and the granted requests never outnumber the staff, so the load is at most 1 (`Ward.WorkloadNeverDegradesForAlphaAtLeastOne`). With such an alpha the scenario draws exactly as the baseline does.

## Model

| member | source | states |
|---|---|---|
| Arrivals.Decimal | simulation.py:97 | the decimal spelling of a number is non-empty, made of digits, one digit exactly for numbers below 10, and has no leading zero |
| Arrivals.DecimalInjective | simulation.py:96-97 | different numbers are spelled differently |
| Arrivals.PatientNamesDistinct | assets/simulation.py:95-96 | patients with different sequence numbers get different identifiers `P{id}` |
| Arrivals.ClockMonotone | simulation.py:94-95 | with non-negative exponential draws the generator's clock never moves backward and never goes below 0 |
| Arrivals.Generate | simulation.py:92-97 | the k-th spawned patient is `P{k}`, it arrives after the first k delays, and every arrival is before the horizon; the generator stops only when its next arrival would be at or after the horizon, or when it runs out of draws |
| Arrivals.GeneratedInOrder | simulation.py:92-97 | generated identifiers are pairwise distinct and arrival times are non-decreasing |
| Pools.Remove | assets/simulation.py:77-78 | taking a ticket out of a list removes one element when it occurs, keeps every other element, adds none, and leaves a list without it unchanged |
| Pools.Pool.constructor | simulation.py:19 | a new pool has the given positive capacity, no unit in use and nobody waiting, and is valid |
| Pools.Pool.Request | simulation.py:43-44 | a request is granted exactly when a unit is free; otherwise it joins the tail of the queue; the pool stays valid |
| Pools.Pool.Release | assets/simulation.py:77-78 | releasing a granted request frees its unit, which passes to the head of the queue when somebody waits; the returned ticket is that head |
| Pools.Pool.Withdraw | assets/simulation.py:57 | cancelling a pending request removes it from the queue and grants nothing |
| Ward.ScenarioOf | simulation.py:63-78 | each of the three scenario names selects its own branch, and any other name selects none |
| Ward.WorkloadFactor | simulation.py:83-86 | the workload factor is at least 1, equals 1 exactly when the load is at most alpha, and is otherwise 1 plus the excess load |
| Ward.WorkloadMinutes | simulation.py:79-87 | the workload-dependent mean is never below the senior baseline mean, and equals it exactly when the load is at most alpha |
| Ward.LoadAtMostOne | simulation.py:81 | the load `len(staff.users) / num_staff` is at most 1 when busy staff do not outnumber the staff |
| Ward.ServiceMinutes | simulation.py:62-87 | the mean service time in minutes: the senior mean for the baseline, senior or junior by the uniform draw against the senior mix for the experience-based scenario, and for the workload scenario never below the senior mean, equal to it exactly when the load is at most alpha |
| Ward.TreatmentTime | simulation.py:62-89 | an unrecognised scenario gives 0; any other gives the scenario's mean times the exponential draw, which is non-negative for non-negative service days |
| Ward.WorkloadNeverDegradesForAlphaAtLeastOne | simulation.py:79-87 | with alpha at least 1 the workload scenario's mean always equals the baseline mean, because the load never exceeds 1 |
| Ward.CountsPartition | simulation.py:32-36 | every patient record is a balk or a discharge, so the two counts add up to the log |
| Ward.OccupancyStep | simulation.py:39-40 | appending a sample one bed up or down at a later time keeps the occupancy series a unit-step path within capacity |
| Ward.SeriesElements | simulation.py:53-54 | every sample of a well-formed series is within `[0, capacity]` and within the run, and the sample times are in order |
| Ward.DischargeRecord | simulation.py:45 | a discharge record has the patient's arrival and treatment time, arrival plus total time is the end of treatment, and the record is well formed when the start is after the arrival and the treatment is non-negative |
| Ward.BalkKeeps | simulation.py:31-37 | a balking patient adds one record and one arrival and leaves the ward invariant intact |
| Ward.AdmitKeeps | simulation.py:39-44 | an admitted patient raises the counter by one, is sampled, holds or awaits a staff member, and the invariant is kept |
| Ward.BeginKeeps | simulation.py:44-50 | a patient granted staff starts treatment, and the invariant is kept |
| Ward.DischargeKeeps | simulation.py:52-60 | a treated patient lowers the counter by one, is sampled and logged with a well-formed record, and the invariant is kept |
| Ward.Hospital.constructor | simulation.py:15-25 | a new ward has no bed in use, empty logs and an idle staff pool, and satisfies the invariant |
| Ward.Hospital.Arrive | simulation.py:27-44 | with every bed taken the patient is logged `Balked (No Beds)` and the counter, occupancy log and staff pool are unchanged; otherwise the counter rises by one, `(now, beds_in_use)` is appended to the occupancy log and the staff request is granted or queued |
| Ward.Hospital.Balk | simulation.py:31-37 | the balking branch appends exactly one balk record and changes nothing else |
| Ward.Hospital.Admit | simulation.py:39-44 | the admitting branch raises the counter by exactly one and appends `(now, new count)` |
| Ward.Hospital.BeginTreatment | simulation.py:44-50 | only a patient waiting for staff under its own name and arrival time resumes; on its staff grant the patient's wait is `now - arrival` (non-negative) and its treatment time is `get_treatment_time` under the load of that instant |
| Ward.Hospital.Discharge | simulation.py:52-60 | the counter falls by exactly one, the new count is sampled, a `Discharged` record under the name the patient arrived with, with `TotalTime = now - arrival` and `WaitTime = grant - arrival`, is logged, and the staff unit passes to the next waiting patient |
| Ward.SingleVisitLogged | simulation.py:27-58 | one patient arriving as `P1` at an empty ward is treated at once and logged as `P1`, with arrival time 0 and no wait |
| Ward.PatientSource | simulation.py:91-97 | `patient_source` spawns `P1`, `P2`, … at the sums of delays with mean `MINS_IN_DAY / arrival_rate`, all before `simulation_duration` days |
| WardKpis.BlockingPercent | simulation.py:117-121 | the blocking percentage lies in `[0, 100]`, is 0 exactly when nobody balked (so also for an empty log), and is 100 exactly when every arrival balked |
| WardKpis.WaitWithinStay | simulation.py:123-126 | over a well-formed log every served patient's wait is non-negative and at most its length of stay |
| WardKpis.AveragesInRange | simulation.py:123-126 | the average wait is non-negative and at most the average length of stay |
| WardKpis.PatientMinutesLoopAsWritten | simulation.py:134-139 | the occupancy loop as written computes the sum of each sample's count times the time since the previous sample |
| WardKpis.PatientMinutesLoop | simulation.py:134-139 | the corrected loop computes the integral of the bed-count step function over the run |
| WardKpis.AreaBounds | simulation.py:133-142 | with counts in `[0, capacity]` and ordered times, the bed-minutes lie between 0 and a full ward for the span |
| WardKpis.PatientMinutesBounds | simulation.py:133-142 | the bed-minutes of a well-formed occupancy series lie between 0 and `num_beds` times the run length |
| WardKpis.SingleStay | simulation.py:137-139 | one patient admitted at `a` and discharged at `b` occupies `b - a` bed-minutes, while the loop as written credits `a` |
| WardKpis.OccupancyAsWrittenUndercounts | simulation.py:137-139 | admission at minute 100 and discharge at 400 give 100 bed-minutes as written against 300 in fact |
| WardKpis.OccupancyPercent | simulation.py:140-142 | the occupancy percentage is 0 under either zero guard, and otherwise times the run length and the beds equals 100 times the bed-minutes |
| WardKpis.OccupancyPercentBounds | simulation.py:140-142 | bed-minutes between 0 and a full ward give an occupancy percentage in `[0, 100]` |
| WardKpis.OccupancyInRange | simulation.py:133-144 | the occupancy of a well-formed series sampled within the run is in `[0, 100]` |
| WardKpis.KpisOf | simulation.py:116-144 | the blocking percentage is in `[0, 100]`, the served count is the number of discharged patients, the wait and stay averages are 0 when nobody was discharged, and the occupancy is 0 with no sample |
| WardKpis.KpisAsWritten | simulation.py:107-144 | the KPI block as written fails on an empty patient log and uses the as-written occupancy sum |
| WardKpis.KpisAsWrittenFailsOnEmptyLog | simulation.py:116-131 | on an empty log the block as written raises, while its else-branches give zero blocking, zero averages and zero served |
| WardKpis.KpisInRange | simulation.py:116-144 | for a consistent ward within the run, every percentage is in `[0, 100]`, the average wait is between 0 and the average stay, the served count is the discharged count, and served plus balked plus beds in use equals the arrivals |
| WardKpis.CalculateKpis | simulation.py:116-144 | the KPI computation returns the five indicators, with the corrected occupancy integral and zeros on an empty log |
| StaffedWard.IdealRate | assets/simulation.py:52-62 | a senior's ideal rate is `1 / 3600` per minute and a junior's `1 / 5040`; both are positive |
| StaffedWard.ClampedCount | assets/simulation.py:67-69 | the clamped bed count is at least 1 and equals the count when the count is positive |
| StaffedWard.Efficiency | assets/simulation.py:71 | `min(1, ALPHA * s / n)` is at most 1, positive for positive staffing, and equals 1 exactly when `ALPHA * s >= n` |
| StaffedWard.EfficiencyAntitone | assets/simulation.py:71 | more patients in beds never raise the efficiency |
| StaffedWard.MuActualBounds | assets/simulation.py:66-71 | `0 < mu_actual <= mu_ideal` when `mu_ideal`, `ALPHA` and `s` are positive; `mu_actual == mu_ideal` when `ALPHA * s >= n`; strictly less otherwise |
| StaffedWard.MuActual | assets/simulation.py:66-71 | `mu_actual` equals `mu_ideal` whenever `ALPHA * s` covers the clamped bed count |
| StaffedWard.MuActualAntitone | assets/simulation.py:66-71 | more patients in beds never raise `mu_actual` |
| StaffedWard.TreatmentMinutes | assets/simulation.py:72 | an exponential draw with mean `1 / mu` is non-negative and equals the standard draw divided by `mu` |
| StaffedWard.DegradedMinutes | assets/simulation.py:66-72 | the treatment duration is non-negative and, while beds do not outnumber the 15 staff, undegraded |
| StaffedWard.DischargeRecord | assets/simulation.py:83-89 | arrival plus the three recorded durations is the end time; the record is well formed when bed assignment is at arrival and the times are in order |
| StaffedWard.BalkKeeps | assets/simulation.py:34-37 | a balking patient is logged, requests nothing and leaves the ward invariant intact |
| StaffedWard.AdmitKeeps | assets/simulation.py:39-47 | an admitted patient takes a bed and requests both staff types, and the invariant is kept |
| StaffedWard.AssignKeeps | assets/simulation.py:49-62 | resolving the race for exactly one type, with the loser cancelled, keeps the invariant |
| StaffedWard.DischargeKeeps | assets/simulation.py:75-89 | the patient's granted unit and bed are released, it is logged, and the invariant is kept |
| StaffedWard.Hospital.constructor | assets/simulation.py:102-107 | three empty pools with capacities 20, 7 and 8 and an empty log |
| StaffedWard.Hospital.Arrive | assets/simulation.py:29-47 | with `beds.count >= capacity` the patient is logged `Balked` and no pool changes; otherwise it gets a bed at once and both staff requests are granted or queued |
| StaffedWard.Hospital.AssignStaff | assets/simulation.py:47-72 | only a racing patient under its own name and arrival time is resolved; the race picks exactly one type, senior when both are granted; the treatment uses that type's ideal rate degraded by the bed count; the losing request is withdrawn or released |
| StaffedWard.Hospital.AssignStaffAsWritten | assets/simulation.py:47-62 | the same choice of type, with the losing request left in its pool |
| StaffedWard.Hospital.Discharge | assets/simulation.py:75-89 | only the granted type's pool and the bed pool are released, and the discharge record with its three durations is logged under the name the patient arrived with |
| StaffedWard.Hospital.ReleaseUnits | assets/simulation.py:77-78 | the release hands the granted type's unit to that pool's queue head and frees the bed |
| StaffedWard.PhantomStaffAsWritten | assets/simulation.py:57 | as written, one patient treated by a senior leaves a junior unit taken too |
| StaffedWard.NoPhantomStaff | assets/simulation.py:57 | with the loser cancelled, only the senior unit is taken |
| StaffedWard.SingleVisitLogged | assets/simulation.py:29-89 | one patient arriving as `P1` at an empty ward is treated by a senior and logged as `P1`, with no wait for a bed or for staff |
| StaffedWard.PatientGenerator | assets/simulation.py:91-96 | `patient_generator` spawns `P1`, `P2`, … with mean delay 240 minutes, all before `SIM_TIME_MINUTES` |
| StaffedResults.CountsPartition | assets/simulation.py:119-120 | discharged plus balked records make up the whole log |
| StaffedResults.GroupsPartition | assets/simulation.py:129 | the senior and junior groups together hold every discharged patient |
| StaffedResults.ColumnsInRange | assets/simulation.py:122-129 | in a well-formed log every wait for a bed is 0, and every wait for staff and treatment duration is non-negative |
| StaffedResults.ResultsOf | assets/simulation.py:119-141 | the total is the log length and splits into discharged and balked; the bed and staff waits are reported exactly when somebody was discharged, and the blocking probability exactly when somebody arrived |
| StaffedResults.ResultsAsWritten | assets/simulation.py:114-120 | the analysis as written fails exactly on an empty log |
| StaffedResults.ResultsAsWrittenFailsOnEmptyLog | assets/simulation.py:119-137 | an empty log stops the analysis as written, while its guards intend zero counts and no averages |
| StaffedResults.BlockingProbabilityInRange | assets/simulation.py:134-137 | the blocking probability is computed exactly when somebody arrived; it is in `[0, 1]`, 0 exactly when nobody balked and 1 exactly when nobody was discharged |
| StaffedResults.ResultsInRange | assets/simulation.py:119-141 | discharged plus balked is the total, and plus beds in use the arrivals; the averages are printed exactly when somebody was discharged, the bed wait averages 0 and the others are non-negative |
| Report.UnblockedMembers | generate_report.py:20 | the treated rows are exactly the rows whose `blocked` flag is 0 |
| Report.UnblockedAppend | generate_report.py:12 | appending a row adds its flag to the blocked sum and adds it to the treated rows exactly when its flag is 0 |
| Report.BlockedCounts | generate_report.py:11-13 | with 0/1 flags the flag sum counts the blocked rows, and blocked plus treated rows make up the scenario |
| Report.KpisOf | generate_report.py:11-24 | the total is the number of rows and splits into treated and blocked; with no treated row both averages and the utilisation are 0 |
| Report.AsDictionary | generate_report.py:26-34 | the dictionary has exactly the seven named keys, each holding its indicator |
| Report.CalculateKpis | generate_report.py:9-34 | an empty scenario gives the empty dictionary, and a non-empty one a dictionary with exactly the seven keys |
| Report.TreatedAreUnblocked | generate_report.py:11-13 | with 0/1 flags `Patients Treated = Total Arrivals - Patients Blocked` is the number of rows with flag 0, and the blocked count is within the total |
| Report.BlockingInRange | generate_report.py:18 | with 0/1 flags the blocking probability is in `[0, 100]`, 0 exactly when every row was treated and 100 exactly when none was |
| Report.AveragesOverTreated | generate_report.py:20-22 | the average wait and treatment time are 0 with no treated row, and otherwise each lies within any bounds of its own column's treated values |
| Report.BlockedRowIgnored | generate_report.py:20-24 | adding a blocked row changes neither average nor the utilisation |
| Report.UtilisationFromAverage | generate_report.py:22-24 | the utilisation `sum / 100800 * 100` equals the average treatment time times the treated count over 1008 |
| Report.UtilisationNonNegative | generate_report.py:24 | non-negative treatment times give a non-negative utilisation |
| Report.Scenarios | generate_report.py:51 | `unique()` lists each scenario label once |
| Report.ScenariosComplete | generate_report.py:51 | a label is listed exactly when some row carries it |
| Report.ScenariosInOrder | generate_report.py:51 | the labels come in order of first appearance: every row carrying a later-listed label is preceded by a row carrying an earlier-listed one |
| Report.RowsOf | generate_report.py:54 | every selected row carries the scenario's label, and the selection is empty exactly when no row of the table carries it |
| Report.RowsOfMembers | generate_report.py:54 | a scenario's rows are exactly the table's rows that carry its label |
| Report.Entry | generate_report.py:54-55 | a scenario's entry is labelled with it; its dictionary is empty exactly when no row carries the label, and otherwise holds the seven keys |
| Report.KpiTable | generate_report.py:51-56 | the table has one entry per listed scenario, and no two entries share a label |
| Report.KpiTableComplete | generate_report.py:51-56 | the KPI table lists every scenario of the results once, and each entry has all seven indicators, computed from its own scenario's rows |
| Report.BuildKpiTable | generate_report.py:51-56 | the loop of `main` builds one `(scenario, dictionary)` row per distinct scenario, in order of first appearance |

## Left out

- The simpy scheduler is left out. Each patient's steps are methods, and the caller chooses their interleaving and the current time.
- Concurrency is left out, because simpy's processes are coroutines on one thread.
- Random draws (`np.random.exponential`, `np.random.rand`) and the seed are parameters. The model does not say which values numpy would produce.
- `print` output, DataFrame construction, `to_csv`, `to_html` and every plot are left out as I/O and presentation (generate_report.py:36-50, 57-99).
- NaN placeholders are left out. A balked record has no wait, treatment or total time, where the source stores NaN.
- Floating-point rounding is left out. Times and rates are exact reals, and pandas `.mean()` is sum over count.
- hospital_bed_simulation.py and dashboard.py are not part of this model.
- simpy's `Resource` is not part of this model. `Pools.Pool` stands in for it: a capacity, the granted requests in grant order and a FIFO queue of pending ones.
- The scenario parameter is a `Scenario` value, which `Ward.ScenarioOf` computes from the name once, when parameters are built. The source compares the strings on every call of `get_treatment_time`.
- Ward.Hospital.constructor requires a staff pool of positive capacity and non-negative service days. The dashboard's controls only pass a staff count of at least 1 and service days of at least 0.1 (dashboard.py:31, 38-39).
- The staffed ward's bed request is always granted at once: the patient requests a bed only when `count < capacity`. So the bed queue is empty in the model.
- Arrivals.Generate runs against a finite list of draws. It also stops when the draws run out, where the source loops until the horizon.
- Report reads flags as integers. `Report.BlockedCounts`, `Report.TreatedAreUnblocked` and `Report.BlockingInRange` require the flags to be 0 or 1. The code that writes `simulation_results.csv` is not part of this model.
- Report.CalculateKpis stores the counts as reals in the dictionary. pandas stores them as integers.
- Report.KpiTable keeps the `Scenario` entry of each `kpi_row` as the first half of a pair rather than as an eighth key. The DataFrame index built from it is left out.
- StaffedResults.ResultsOf does not model the sorted order in which `groupby` prints its groups. It keeps one optional mean per staff type.

## Findings

| source | as written | input that shows it | evidently intended | confidence | as-written member | corrected member |
|---|---|---|---|---|---|---|
| simulation.py:137-139 | each sample's new count is multiplied by the interval before the sample, and the interval after the last sample is dropped | one patient admitted at minute 100 and discharged at 400 of a 1000-minute run: 100 bed-minutes instead of 300 | each count is weighted by the time it was in force, up to the end of the run | high, not executed | WardKpis.OccupancyAsWrittenUndercounts | WardKpis.PatientMinutesLoop |
| simulation.py:107-131 | a run in which nobody has left yet gives a patient log DataFrame with no columns, so `dropna(subset=['WaitTime'])` raises | an empty `patient_log` | the else-branches' zeros for the blocking, wait, stay and served indicators | high, not executed | WardKpis.KpisAsWrittenFailsOnEmptyLog | WardKpis.CalculateKpis |
| assets/simulation.py:114-120 | an empty log gives a DataFrame without a `status` column, so `log_df['status']` raises before the `empty` and `total_patients > 0` guards are reached | an empty `patient_log` | zero counts and no averages, as the guards provide | high, not executed | StaffedResults.ResultsAsWrittenFailsOnEmptyLog | StaffedResults.ResultsInRange |
| assets/simulation.py:45-62 | the losing request of the senior/junior race is neither cancelled nor released, contrary to the comment at line 57 | one patient arrives at an empty ward: both requests are granted, the senior treats, and a junior stays taken | the losing request is withdrawn when pending and released when granted | medium (the simpy source is not part of this model), not executed | StaffedWard.PhantomStaffAsWritten | StaffedWard.NoPhantomStaff |
