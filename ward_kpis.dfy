/** The key performance indicators the dashboard shows for one run of the ward: the blocking
    percentage, the average wait for staff and length of stay in days, the number of
    patients served and the time-average bed occupancy. They are computed from the two logs
    the `Hospital` keeps, with the wait, treatment and total times converted to days. */
module WardKpis {
  import opened Common
  import opened Ward

  datatype Kpis = Kpis(
    blockingPct: real,       // 'Blocking Probability (%)'
    avgWaitDays: real,       // 'Average Wait for Staff (days)'
    avgStayDays: real,       // 'Average Patient Length of Stay (days)'
    served: nat,             // 'Total Patients Served'
    avgOccupancyPct: real)   // 'Average Bed Occupancy (%)'

  /** `str.contains('Balked').sum() / total_arrivals * 100`, or 0 for an empty log. */
  function BlockingPercent(log: seq<WardRecord>): (b: real)
    ensures 0.0 <= b <= 100.0
    ensures b == 0.0 <==> CountBalked(log) == 0
    ensures b == 100.0 <==> log != [] && CountDischarged(log) == 0
  {
    CountsPartition(log);
    if log == [] then 0.0
    else
      var n := |log| as real;
      var k := CountBalked(log) as real;
      assert k <= n;
      assert k / n <= 1.0;
      assert k / n == 1.0 <==> k == n;
      (k / n) * 100.0
  }

  /** The wait times of the discharged patients in log order, in days (the `WaitTime`
      column of `treated_df` after the conversion). */
  function WaitDays(log: seq<WardRecord>): (ws: seq<real>)
    ensures |ws| == CountDischarged(log)
  {
    if log == [] then []
    else
      var last := log[|log| - 1];
      WaitDays(log[..|log| - 1]) + (if last.Discharged? then [last.waitTime / MinsInDay] else [])
  }

  /** The lengths of stay of the discharged patients in log order, in days (`TotalTime`). */
  function StayDays(log: seq<WardRecord>): (ss: seq<real>)
    ensures |ss| == CountDischarged(log)
  {
    if log == [] then []
    else
      var last := log[|log| - 1];
      StayDays(log[..|log| - 1]) + (if last.Discharged? then [last.totalTime / MinsInDay] else [])
  }

  /** In a well-formed log every discharged patient's wait is non-negative and at most its
      stay, since the stay is the wait plus a non-negative treatment. */
  lemma {:induction false} WaitWithinStay(log: seq<WardRecord>)
    requires RecordsWellFormed(log)
    ensures |WaitDays(log)| == |StayDays(log)|
    ensures forall i :: 0 <= i < |WaitDays(log)| ==> 0.0 <= WaitDays(log)[i] <= StayDays(log)[i]
  {
    if log != [] {
      var before := log[..|log| - 1];
      assert forall i :: 0 <= i < |before| ==> before[i] == log[i];
      WaitWithinStay(before);
      var r := log[|log| - 1];
      assert RecordWellFormed(r);
      if r.Discharged? {
        assert 0.0 <= r.waitTime / MinsInDay <= r.totalTime / MinsInDay;
      }
    }
  }

  // ---------------------------------------------------------------------------------------
  // Bed occupancy

  /** The occupancy sum as the loop of `simulation.py` accumulates it: every sample's count
      times the time elapsed since the previous sample (or since 0). */
  function PatientMinutesAsWritten(occ: seq<Sample>, lastTime: real): real {
    if occ == [] then 0.0
    else occ[0].patientsInSystem as real * (occ[0].time - lastTime) + PatientMinutesAsWritten(occ[1..], occ[0].time)
  }

  /** Bed-minutes in use over `[from, horizon]` when `level` beds are in use at `from` and
      `occ` lists the later changes: the integral of the step function the samples describe,
      each count weighted by the time until the next change or the horizon. */
  function Area(occ: seq<Sample>, level: int, from: real, horizon: real): real {
    if occ == [] then level as real * (horizon - from)
    else level as real * (occ[0].time - from) + Area(occ[1..], occ[0].patientsInSystem, occ[0].time, horizon)
  }

  /** Bed-minutes in use over the run `[0, horizon]`: the ward starts empty at time 0. */
  function PatientMinutes(occ: seq<Sample>, horizon: real): real {
    Area(occ, 0, 0.0, horizon)
  }

  /** The loop of `simulation.py` over `occupancy_df`, as written. */
  method PatientMinutesLoopAsWritten(occ: seq<Sample>) returns (total: real)
    ensures total == PatientMinutesAsWritten(occ, 0.0)
  {
    total := 0.0;
    var lastTime := 0.0;
    var i := 0;
    while i < |occ|
      invariant 0 <= i <= |occ|
      invariant lastTime == (if i == 0 then 0.0 else occ[i - 1].time)
      invariant total + PatientMinutesAsWritten(occ[i..], lastTime) == PatientMinutesAsWritten(occ, 0.0)
    {
      assert occ[i..][1..] == occ[i + 1..];
      total := total + occ[i].patientsInSystem as real * (occ[i].time - lastTime);
      lastTime := occ[i].time;
      i := i + 1;
    }
  }

  /** The same loop weighting each interval by the count in force during it, and closing
      the last interval at the horizon. */
  method PatientMinutesLoop(occ: seq<Sample>, horizon: real) returns (total: real)
    ensures total == PatientMinutes(occ, horizon)
  {
    total := 0.0;
    var lastTime := 0.0;
    var level := 0;
    var i := 0;
    while i < |occ|
      invariant 0 <= i <= |occ|
      invariant total + Area(occ[i..], level, lastTime, horizon) == PatientMinutes(occ, horizon)
    {
      assert occ[i..][1..] == occ[i + 1..];
      total := total + level as real * (occ[i].time - lastTime);
      lastTime := occ[i].time;
      level := occ[i].patientsInSystem;
      i := i + 1;
    }
    total := total + level as real * (horizon - lastTime);
  }

  /** A count within `[0, capacity]` held for a non-negative time. */
  lemma ScaleBounds(level: int, capacity: int, span: real)
    requires 0 <= level <= capacity && 0.0 <= span
    ensures 0.0 <= level as real * span <= capacity as real * span
  {
  }

  /** `level` beds from `from` to the horizon, with no later change. */
  lemma LastStepBounds(level: int, capacity: int, from: real, horizon: real)
    requires 0 <= level <= capacity && from <= horizon
    ensures 0.0 <= Area([], level, from, horizon) <= capacity as real * (horizon - from)
  {
    ScaleBounds(level, capacity, horizon - from);
  }

  /** `level` beds over `[from, t]` followed by at most a full ward over `[t, horizon]` is
      at most a full ward over `[from, horizon]`. */
  lemma StepBounds(level: int, capacity: int, from: real, t: real, horizon: real, later: real)
    requires 0 <= level <= capacity && from <= t
    requires 0.0 <= later <= capacity as real * (horizon - t)
    ensures 0.0 <= level as real * (t - from) + later <= capacity as real * (horizon - from)
  {
    ScaleBounds(level, capacity, t - from);
    var c := capacity as real;
    assert c * (t - from) + c * (horizon - t) == c * (horizon - from);
  }

  /** Change times in order within `[from, horizon]` and counts within `[0, capacity]`. */
  predicate Samples(occ: seq<Sample>, from: real, horizon: real, capacity: int) {
    && (forall i :: 0 <= i < |occ| ==> 0 <= occ[i].patientsInSystem <= capacity)
    && (forall i :: 0 <= i < |occ| ==> from <= occ[i].time <= horizon)
    && (forall i, j :: 0 <= i < j < |occ| ==> occ[i].time <= occ[j].time)
  }

  /** The samples after the first lie within the span that starts at the first change. */
  lemma SamplesTail(occ: seq<Sample>, from: real, horizon: real, capacity: int)
    requires occ != [] && Samples(occ, from, horizon, capacity)
    ensures 0 <= occ[0].patientsInSystem <= capacity && from <= occ[0].time <= horizon
    ensures Samples(occ[1..], occ[0].time, horizon, capacity)
  {
    var rest := occ[1..];
    assert forall i :: 0 <= i < |rest| ==> rest[i] == occ[i + 1];
  }

  /** With counts within `[0, capacity]` and ordered change times within `[from, horizon]`,
      the bed-minutes lie between 0 and a full ward for the whole span. */
  lemma {:induction false} AreaBounds(occ: seq<Sample>, level: int, from: real, horizon: real, capacity: int)
    requires 0 <= level <= capacity && from <= horizon
    requires Samples(occ, from, horizon, capacity)
    ensures 0.0 <= Area(occ, level, from, horizon) <= capacity as real * (horizon - from)
  {
    if occ == [] {
      LastStepBounds(level, capacity, from, horizon);
    } else {
      SamplesTail(occ, from, horizon, capacity);
      var t := occ[0].time;
      AreaBounds(occ[1..], occ[0].patientsInSystem, t, horizon, capacity);
      StepBounds(level, capacity, from, t, horizon, Area(occ[1..], occ[0].patientsInSystem, t, horizon));
    }
  }

  /** The bed-minutes of a well-formed series lie between 0 and a full ward for the run. */
  lemma PatientMinutesBounds(occ: seq<Sample>, capacity: int, horizon: real)
    requires 0 <= capacity && 0.0 <= horizon
    requires Series(occ, capacity, horizon)
    ensures 0.0 <= PatientMinutes(occ, horizon) <= capacity as real * horizon
  {
    SeriesElements(occ, capacity, horizon);
    AreaBounds(occ, 0, 0.0, horizon, capacity);
  }

  /** One patient in a bed from `a` to `b` occupies it for `b - a` minutes; the loop as
      written credits `a` instead, the minutes before the patient arrived. */
  lemma SingleStay(a: real, b: real, horizon: real)
    ensures PatientMinutes([Sample(a, 1), Sample(b, 0)], horizon) == b - a
    ensures PatientMinutesAsWritten([Sample(a, 1), Sample(b, 0)], 0.0) == a
  {
    var occ := [Sample(a, 1), Sample(b, 0)];
    assert occ[1..] == [Sample(b, 0)];
    assert occ[1..][1..] == [];
    assert Area([], 0, b, horizon) == 0.0;
    assert Area([Sample(b, 0)], 1, a, horizon) == b - a;
    assert PatientMinutesAsWritten([Sample(b, 0)], a) == 0.0;
  }

  /** The as-written sum and the bed-minutes disagree on the run of one patient admitted at
      minute 100 and discharged at 400 of a 1000-minute run: 100 against 300. */
  lemma OccupancyAsWrittenUndercounts()
    ensures PatientMinutesAsWritten([Sample(100.0, 1), Sample(400.0, 0)], 0.0) == 100.0
    ensures PatientMinutes([Sample(100.0, 1), Sample(400.0, 0)], 1000.0) == 300.0
  {
    SingleStay(100.0, 400.0, 1000.0);
  }

  /** `total_patient_minutes / total_minutes` over `num_beds`, as a percentage, with the two
      zero guards of the source. */
  function OccupancyPercent(patientMinutes: real, p: Params): (pct: real)
    ensures p.simulationDuration <= 0.0 || p.numBeds <= 0 ==> pct == 0.0
    ensures 0.0 < p.simulationDuration && 0 < p.numBeds ==>
              pct * (p.simulationDuration * MinsInDay) * (p.numBeds as real) == patientMinutes * 100.0
  {
    var totalMinutes := p.simulationDuration * MinsInDay;
    var avgPatients := if totalMinutes > 0.0 then patientMinutes / totalMinutes else 0.0;
    if p.numBeds > 0 then (avgPatients / p.numBeds as real) * 100.0 else 0.0
  }

  /** Between no bed-minutes and a full ward for the whole run the occupancy is a percentage. */
  lemma OccupancyPercentBounds(patientMinutes: real, p: Params)
    requires 0.0 <= patientMinutes <= p.numBeds as real * (p.simulationDuration * MinsInDay)
    ensures 0.0 <= OccupancyPercent(patientMinutes, p) <= 100.0
  {
    if 0.0 < p.simulationDuration && 0 < p.numBeds {
      var h := p.simulationDuration * MinsInDay;
      var n := p.numBeds as real;
      var avg := patientMinutes / h;
      assert avg <= n by {
        assert avg * h == patientMinutes;
      }
      assert avg / n <= 1.0;
    }
  }

  // ---------------------------------------------------------------------------------------
  // The KPI dictionary

  /** The KPIs of a run over `[0, simulation_duration]` days, with the occupancy weighted as
      intended; an empty patient log gives the zeros the source's else-branches provide. */
  function KpisOf(p: Params, log: seq<WardRecord>, occ: seq<Sample>): (k: Kpis)
    ensures 0.0 <= k.blockingPct <= 100.0
    ensures k.served == CountDischarged(log)
    ensures CountDischarged(log) == 0 ==> k.avgWaitDays == 0.0 && k.avgStayDays == 0.0
    ensures occ == [] ==> k.avgOccupancyPct == 0.0
  {
    var waits := WaitDays(log);
    Kpis(
      BlockingPercent(log),
      if waits == [] then 0.0 else Mean(waits),
      if waits == [] then 0.0 else Mean(StayDays(log)),
      |waits|,
      if occ == [] then 0.0 else OccupancyPercent(PatientMinutes(occ, p.simulationDuration * MinsInDay), p))
  }

  /** The KPI block as written: an empty patient log has no `WaitTime` column, so
      `dropna(subset=['WaitTime'])` raises (here `None`); otherwise the as-written occupancy
      sum is used. */
  function KpisAsWritten(p: Params, log: seq<WardRecord>, occ: seq<Sample>): (r: Option<Kpis>)
    ensures r.None? <==> log == []
  {
    if log == [] then None
    else
      var k := KpisOf(p, log, occ);
      Some(k.(avgOccupancyPct := if occ == [] then 0.0 else OccupancyPercent(PatientMinutesAsWritten(occ, 0.0), p)))
  }

  /** On a run where nobody has left yet the KPI block as written raises, while its
      else-branches show that zeros were intended. */
  lemma KpisAsWrittenFailsOnEmptyLog(p: Params, occ: seq<Sample>)
    ensures KpisAsWritten(p, [], occ) == None
    ensures KpisOf(p, [], occ).blockingPct == 0.0 && KpisOf(p, [], occ).avgWaitDays == 0.0
    ensures KpisOf(p, [], occ).avgStayDays == 0.0 && KpisOf(p, [], occ).served == 0
  {
  }

  /** The KPIs of the model for a ward in a consistent state at a clock within the run:
      every percentage lies in `[0, 100]`, the average wait is non-negative and at most the
      average stay, and the served patients are exactly the discharged ones. */
  lemma KpisInRange(h: Hospital)
    requires h.Valid()
    requires h.clock <= h.params.simulationDuration * MinsInDay
    ensures var k := KpisOf(h.params, h.patientLog, h.occupancyLog);
            && 0.0 <= k.blockingPct <= 100.0
            && 0.0 <= k.avgWaitDays <= k.avgStayDays
            && k.served == CountDischarged(h.patientLog)
            && k.served + CountBalked(h.patientLog) + h.bedsInUse == h.arrivals
            && 0.0 <= k.avgOccupancyPct <= 100.0
  {
    CountsPartition(h.patientLog);
    AveragesInRange(h.patientLog);
    OccupancyInRange(h.params, h.occupancyLog, h.clock);
  }

  /** Over well-formed records the average wait is non-negative and at most the average stay. */
  lemma AveragesInRange(log: seq<WardRecord>)
    requires RecordsWellFormed(log)
    ensures WaitDays(log) != [] ==> 0.0 <= Mean(WaitDays(log)) <= Mean(StayDays(log))
  {
    WaitWithinStay(log);
    if WaitDays(log) != [] {
      MeanMonotone(WaitDays(log), StayDays(log));
      MeanNonNegative(WaitDays(log));
    }
  }

  /** The occupancy of a well-formed series sampled within the run lies in `[0, 100]`. */
  lemma OccupancyInRange(p: Params, occ: seq<Sample>, clock: real)
    requires Series(occ, p.numBeds, clock) && 0.0 <= clock <= p.simulationDuration * MinsInDay
    ensures 0.0 <= KpisOf(p, [], occ).avgOccupancyPct <= 100.0
  {
    var horizon := p.simulationDuration * MinsInDay;
    if occ != [] {
      SeriesElements(occ, p.numBeds, clock);
      assert 0 <= occ[0].patientsInSystem <= p.numBeds;
      OccupancyLater(occ, p.numBeds, clock, LastCount(occ), horizon);
      PatientMinutesBounds(occ, p.numBeds, horizon);
      OccupancyPercentBounds(PatientMinutes(occ, horizon), p);
    }
  }

  /** The KPI computation of `simulation.py` with the intended integral. */
  method CalculateKpis(p: Params, log: seq<WardRecord>, occ: seq<Sample>) returns (k: Kpis)
    ensures k == KpisOf(p, log, occ)
  {
    var blocking := BlockingPercent(log);
    var waits := WaitDays(log);
    var avgWait, avgStay := 0.0, 0.0;
    if waits != [] {
      avgWait := Mean(waits);
      avgStay := Mean(StayDays(log));
    }
    var occupancy := 0.0;
    if occ != [] {
      var minutes := PatientMinutesLoop(occ, p.simulationDuration * MinsInDay);
      occupancy := OccupancyPercent(minutes, p);
    }
    k := Kpis(blocking, avgWait, avgStay, |waits|, occupancy);
  }
}
