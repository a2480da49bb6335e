/** The summary printed after a run of the staffed ward: the discharged and balked patients
    of `patient_log`, the average waits for a bed and for staff over the discharged ones, the
    average treatment duration of each staff type that served somebody, and the blocking
    probability when anybody arrived. */
module StaffedResults {
  import opened Common
  import opened StaffedWard

  /** `len(log_df[log_df['status'] == 'Discharged'])`. */
  function CountDischarged(log: seq<Record>): nat {
    if log == [] then 0 else (if log[0].Discharged? then 1 else 0) + CountDischarged(log[1..])
  }

  /** `len(log_df[log_df['status'] == 'Balked'])`. */
  function CountBalked(log: seq<Record>): nat {
    if log == [] then 0 else (if log[0].Balked? then 1 else 0) + CountBalked(log[1..])
  }

  /** Every record is either a balk or a discharge, so the two counts add up to the log. */
  lemma {:induction false} CountsPartition(log: seq<Record>)
    ensures CountDischarged(log) + CountBalked(log) == |log|
  {
    if log != [] {
      CountsPartition(log[1..]);
    }
  }

  /** The `waited_for_bed` column of the discharged patients. */
  function BedWaits(log: seq<Record>): (ws: seq<real>)
    ensures |ws| == CountDischarged(log)
  {
    if log == [] then []
    else (if log[0].Discharged? then [log[0].waitedForBed] else []) + BedWaits(log[1..])
  }

  /** The `waited_for_staff` column of the discharged patients. */
  function StaffWaits(log: seq<Record>): (ws: seq<real>)
    ensures |ws| == CountDischarged(log)
  {
    if log == [] then []
    else (if log[0].Discharged? then [log[0].waitedForStaff] else []) + StaffWaits(log[1..])
  }

  /** The `treatment_duration` column of the group `st` of `groupby('staff_type')`. */
  function Durations(log: seq<Record>, st: StaffType): (ds: seq<real>)
    ensures |ds| <= CountDischarged(log)
  {
    if log == [] then []
    else (if log[0].Discharged? && log[0].staffType == st then [log[0].treatmentDuration] else [])
         + Durations(log[1..], st)
  }

  /** Each discharged patient was served by exactly one staff type, so the two groups
      together hold every discharged patient. */
  lemma {:induction false} GroupsPartition(log: seq<Record>)
    ensures |Durations(log, Senior)| + |Durations(log, Junior)| == CountDischarged(log)
  {
    if log != [] {
      GroupsPartition(log[1..]);
    }
  }

  /** In a well-formed log every wait for a bed is 0 (beds are granted on arrival or not at
      all), and every wait for staff and every treatment duration is non-negative. */
  lemma {:induction false} ColumnsInRange(log: seq<Record>, st: StaffType)
    requires RecordsWellFormed(log)
    ensures forall i :: 0 <= i < |BedWaits(log)| ==> BedWaits(log)[i] == 0.0
    ensures forall i :: 0 <= i < |StaffWaits(log)| ==> 0.0 <= StaffWaits(log)[i]
    ensures forall i :: 0 <= i < |Durations(log, st)| ==> 0.0 <= Durations(log, st)[i]
  {
    if log != [] {
      assert RecordWellFormed(log[0]);
      assert forall i :: 0 <= i < |log[1..]| ==> log[1..][i] == log[i + 1];
      ColumnsInRange(log[1..], st);
    }
  }

  /** What the analysis prints; an absent average or probability is a line not printed. */
  datatype Results = Results(
    total: nat,
    discharged: nat,
    balked: nat,
    avgWaitForBed: Option<real>,
    avgWaitForStaff: Option<real>,
    avgDurationSenior: Option<real>,
    avgDurationJunior: Option<real>,
    blockingProbability: Option<real>)

  /** The mean of a column, or nothing for an empty one. */
  function MeanOf(xs: seq<real>): (m: Option<real>)
    ensures m.None? <==> xs == []
  {
    if xs == [] then None else Some(Mean(xs))
  }

  /** The analysis of a log, with the empty log handled as the later branches intend. */
  function ResultsOf(log: seq<Record>): (r: Results)
    ensures r.total == |log| && r.discharged + r.balked == r.total
    ensures r.avgWaitForBed.Some? <==> r.discharged > 0
    ensures r.avgWaitForStaff.Some? <==> r.discharged > 0
    ensures r.blockingProbability.Some? <==> log != []
  {
    CountsPartition(log);
    var discharged := CountDischarged(log);
    var balked := CountBalked(log);
    Results(
      |log|, discharged, balked,
      if discharged == 0 then None else MeanOf(BedWaits(log)),
      if discharged == 0 then None else MeanOf(StaffWaits(log)),
      if discharged == 0 then None else MeanOf(Durations(log, Senior)),
      if discharged == 0 then None else MeanOf(Durations(log, Junior)),
      if |log| > 0 then Some(balked as real / |log| as real) else None)
  }

  /** The analysis as written: `log_df['status']` on the frame of an empty log has no such
      column and raises (here `None`). */
  function ResultsAsWritten(log: seq<Record>): (r: Option<Results>)
    ensures r.Some? <==> log != []
  {
    if log == [] then None else Some(ResultsOf(log))
  }

  /** A run in which nobody arrived stops the analysis as written, while its guards show
      that a report of zero patients and no averages was intended. */
  lemma ResultsAsWrittenFailsOnEmptyLog()
    ensures ResultsAsWritten([]) == None
    ensures ResultsOf([]) == Results(0, 0, 0, None, None, None, None, None)
  {
  }

  /** The blocking probability is printed exactly when somebody arrived; it lies in
      `[0, 1]`, and is 0 exactly when nobody balked and 1 exactly when nobody was
      discharged. */
  lemma BlockingProbabilityInRange(log: seq<Record>)
    ensures ResultsOf(log).blockingProbability.Some? <==> log != []
    ensures log != [] ==>
              var p := ResultsOf(log).blockingProbability.value;
              && 0.0 <= p <= 1.0
              && (p == 0.0 <==> CountBalked(log) == 0)
              && (p == 1.0 <==> CountDischarged(log) == 0)
  {
    CountsPartition(log);
    if log != [] {
      FractionBounds(CountBalked(log), |log|);
    }
  }

  /** For a staffed ward between events: discharged and balked patients make up the log,
      and with the patients still in a bed every arrival; the average wait for a bed is 0,
      the other averages are non-negative, and each is printed exactly when somebody was
      discharged (the duration of a staff type exactly when it served somebody). */
  lemma ResultsInRange(h: Hospital)
    requires h.Valid()
    ensures var r := ResultsOf(h.patientLog);
            && r.discharged + r.balked == r.total
            && r.total + |h.beds.users| == h.arrivals
            && (r.avgWaitForBed.Some? <==> r.discharged > 0)
            && (r.avgWaitForBed.Some? ==> r.avgWaitForBed.value == 0.0)
            && (r.avgWaitForStaff.Some? <==> r.discharged > 0)
            && (r.avgWaitForStaff.Some? ==> 0.0 <= r.avgWaitForStaff.value)
            && (r.avgDurationSenior.Some? <==> Durations(h.patientLog, Senior) != [])
            && (r.avgDurationSenior.Some? ==> 0.0 <= r.avgDurationSenior.value)
            && (r.avgDurationJunior.Some? <==> Durations(h.patientLog, Junior) != [])
            && (r.avgDurationJunior.Some? ==> 0.0 <= r.avgDurationJunior.value)
  {
    var log := h.patientLog;
    CountsPartition(log);
    ColumnsInRange(log, Senior);
    ColumnsInRange(log, Junior);
    if BedWaits(log) != [] {
      MeanBetween(BedWaits(log), 0.0, 0.0);
    }
    MeanNonNegative(StaffWaits(log));
    MeanNonNegative(Durations(log, Senior));
    MeanNonNegative(Durations(log, Junior));
  }
}
