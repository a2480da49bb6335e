/** The static report: the results table of several simulation runs is split by scenario and
    each scenario's rows are reduced to a dictionary of seven key performance indicators.
    A row holds the run's scenario label, its `blocked` flag (1 for a patient turned away,
    0 for one that was treated), the wait time and the treatment time in minutes. */
module Report {
  import opened Common

  datatype Row = Row(scenario: string, blocked: int, waitTime: real, treatmentTime: real)

  /** The utilisation denominator: 10 beds over 7 days, in minutes. */
  const BedMinutes: real := (10 * 7 * 24 * 60) as real

  /** The seven entries of the indicator dictionary. */
  datatype Key =
    | TotalArrivals | PatientsTreated | PatientsBlocked | BlockingProbability
    | AverageWait | AverageTreatment | BedUtilisation

  /** The label each entry carries in the report. */
  function Label(k: Key): string {
    match k
    case TotalArrivals => "Total Arrivals"
    case PatientsTreated => "Patients Treated"
    case PatientsBlocked => "Patients Blocked (Turned Away)"
    case BlockingProbability => "Blocking Probability (%)"
    case AverageWait => "Average Wait Time (minutes)"
    case AverageTreatment => "Average Treatment Time (minutes)"
    case BedUtilisation => "Bed Utilization (%)"
  }

  /** Distinct entries carry distinct labels, so the dictionary has seven named columns. */
  lemma LabelsDistinct(k1: Key, k2: Key)
    requires Label(k1) == Label(k2)
    ensures k1 == k2
  {
    assert |Label(k1)| == |Label(k2)|;
  }

  const KpiNames: set<Key> :=
    {TotalArrivals, PatientsTreated, PatientsBlocked, BlockingProbability, AverageWait, AverageTreatment, BedUtilisation}

  /** Every entry is one of the seven and the seven are distinct. */
  lemma SevenNames(k: Key)
    ensures k in KpiNames
    ensures |KpiNames| == 7
  {
  }

  /** Every flag is 0 or 1, as the results table writes them. */
  predicate Flags(rows: seq<Row>) {
    forall i :: 0 <= i < |rows| ==> rows[i].blocked == 0 || rows[i].blocked == 1
  }

  /** `df['blocked'].sum()`. */
  function BlockedSum(rows: seq<Row>): int {
    if rows == [] then 0 else rows[0].blocked + BlockedSum(rows[1..])
  }

  /** `df[df['blocked'] == 0]`, in table order. */
  function Unblocked(rows: seq<Row>): (u: seq<Row>)
    ensures |u| <= |rows|
  {
    if rows == [] then []
    else (if rows[0].blocked == 0 then [rows[0]] else []) + Unblocked(rows[1..])
  }

  /** The treated rows are exactly the rows of the table whose flag is 0. */
  lemma {:induction false} UnblockedMembers(rows: seq<Row>, x: Row)
    ensures x in Unblocked(rows) <==> x in rows && x.blocked == 0
  {
    if rows != [] {
      UnblockedMembers(rows[1..], x);
      assert x in rows <==> x == rows[0] || x in rows[1..];
    }
  }

  /** A blocked row appended to the table leaves the treated rows as they were, and a treated
      row is appended to them. */
  lemma {:induction false} UnblockedAppend(rows: seq<Row>, r: Row)
    ensures Unblocked(rows + [r]) == Unblocked(rows) + (if r.blocked == 0 then [r] else [])
    ensures BlockedSum(rows + [r]) == BlockedSum(rows) + r.blocked
  {
    if rows == [] {
      assert [] + [r] == [r];
    } else {
      assert (rows + [r])[1..] == rows[1..] + [r];
      UnblockedAppend(rows[1..], r);
    }
  }

  /** With 0/1 flags the flag sum counts the blocked rows: blocked and treated rows add up to
      the whole table. */
  lemma {:induction false} BlockedCounts(rows: seq<Row>)
    requires Flags(rows)
    ensures 0 <= BlockedSum(rows)
    ensures BlockedSum(rows) + |Unblocked(rows)| == |rows|
  {
    if rows != [] {
      assert Flags(rows[1..]) by {
        forall i | 0 <= i < |rows[1..]| ensures rows[1..][i].blocked == 0 || rows[1..][i].blocked == 1 {
          assert rows[1..][i] == rows[i + 1];
        }
      }
      BlockedCounts(rows[1..]);
    }
  }

  /** The `wait_time` column of the treated rows. */
  function Waits(rows: seq<Row>): (ws: seq<real>)
    ensures |ws| == |Unblocked(rows)|
  {
    var u := Unblocked(rows);
    seq(|u|, i requires 0 <= i < |u| => u[i].waitTime)
  }

  /** The `treatment_time` column of the treated rows. */
  function Treatments(rows: seq<Row>): (ts: seq<real>)
    ensures |ts| == |Unblocked(rows)|
  {
    var u := Unblocked(rows);
    seq(|u|, i requires 0 <= i < |u| => u[i].treatmentTime)
  }

  /** The seven indicators of one scenario, before they are put in a dictionary. */
  datatype Kpis = Kpis(
    totalArrivals: nat,
    treated: int,
    blocked: int,
    blockingPct: real,
    avgWait: real,
    avgTreatment: real,
    utilisationPct: real)

  /** The indicators of a non-empty scenario. */
  function KpisOf(rows: seq<Row>): (k: Kpis)
    requires rows != []
    ensures k.totalArrivals == |rows| && k.treated + k.blocked == k.totalArrivals
    ensures Unblocked(rows) == [] ==> k.avgWait == 0.0 && k.avgTreatment == 0.0 && k.utilisationPct == 0.0
  {
    var total := |rows|;
    var blocked := BlockedSum(rows);
    var waits, treatments := Waits(rows), Treatments(rows);
    Kpis(
      total,
      total - blocked,
      blocked,
      (blocked as real / total as real) * 100.0,
      Average(waits),
      Average(treatments),
      Utilisation(treatments))
  }

  /** `.mean() if not df_treated.empty else 0`. */
  function Average(xs: seq<real>): real {
    if xs == [] then 0.0 else Mean(xs)
  }

  /** The treatment minutes as a percentage of the fixed bed-minutes. */
  function Utilisation(treatments: seq<real>): real {
    (Sum(treatments) / BedMinutes) * 100.0
  }

  /** The dictionary `calculate_kpis` returns for a non-empty scenario. */
  function AsDictionary(k: Kpis): (d: map<Key, real>)
    ensures d.Keys == KpiNames
    ensures d[TotalArrivals] == k.totalArrivals as real && d[PatientsTreated] == k.treated as real
    ensures d[PatientsBlocked] == k.blocked as real && d[BlockingProbability] == k.blockingPct
    ensures d[AverageWait] == k.avgWait && d[AverageTreatment] == k.avgTreatment
    ensures d[BedUtilisation] == k.utilisationPct
  {
    map[TotalArrivals := k.totalArrivals as real, PatientsTreated := k.treated as real,
        PatientsBlocked := k.blocked as real, BlockingProbability := k.blockingPct,
        AverageWait := k.avgWait, AverageTreatment := k.avgTreatment,
        BedUtilisation := k.utilisationPct]
  }

  /** `calculate_kpis`: the empty dictionary for a scenario without rows, otherwise exactly
      the seven named indicators. */
  function CalculateKpis(rows: seq<Row>): (d: map<Key, real>)
    ensures d == map[] <==> rows == []
    ensures rows != [] ==> d.Keys == KpiNames
  {
    if rows == [] then map[]
    else
      assert TotalArrivals in AsDictionary(KpisOf(rows));
      AsDictionary(KpisOf(rows))
  }

  /** With 0/1 flags the treated count is the number of rows whose flag is 0, which is the
      number of rows the averages are taken over, and the blocked count is the rest. */
  lemma TreatedAreUnblocked(rows: seq<Row>)
    requires rows != [] && Flags(rows)
    ensures KpisOf(rows).treated == |Unblocked(rows)|
    ensures 0 <= KpisOf(rows).blocked <= KpisOf(rows).totalArrivals
    ensures CalculateKpis(rows)[PatientsTreated] == CalculateKpis(rows)[TotalArrivals] - CalculateKpis(rows)[PatientsBlocked]
  {
    BlockedCounts(rows);
  }

  /** A fraction of a positive whole, scaled to a percentage, lies in `[0, 100]` and reaches
      its ends exactly at the ends of the fraction. */
  lemma PercentBounds(part: int, whole: int)
    requires 0 <= part <= whole && 0 < whole
    ensures 0.0 <= (part as real / whole as real) * 100.0 <= 100.0
    ensures (part as real / whole as real) * 100.0 == 0.0 <==> part == 0
    ensures (part as real / whole as real) * 100.0 == 100.0 <==> part == whole
  {
    FractionBounds(part, whole);
  }

  /** With 0/1 flags the blocking probability lies in `[0, 100]`; it is 0 exactly when every
      patient was treated and 100 exactly when nobody was. */
  lemma BlockingInRange(rows: seq<Row>)
    requires rows != [] && Flags(rows)
    ensures 0.0 <= KpisOf(rows).blockingPct <= 100.0
    ensures KpisOf(rows).blockingPct == 0.0 <==> |Unblocked(rows)| == |rows|
    ensures KpisOf(rows).blockingPct == 100.0 <==> Unblocked(rows) == []
  {
    BlockedCounts(rows);
    PercentBounds(BlockedSum(rows), |rows|);
  }

  /** The averages range over treated rows only: when every treated row's wait lies in
      `[waitLo, waitHi]` and every treatment time in `[treatLo, treatHi]`, so do the
      averages; with no treated row both are 0. */
  lemma AveragesOverTreated(rows: seq<Row>, waitLo: real, waitHi: real, treatLo: real, treatHi: real)
    requires rows != []
    requires forall i :: 0 <= i < |rows| && rows[i].blocked == 0 ==> waitLo <= rows[i].waitTime <= waitHi
    requires forall i :: 0 <= i < |rows| && rows[i].blocked == 0 ==> treatLo <= rows[i].treatmentTime <= treatHi
    ensures Unblocked(rows) == [] ==> KpisOf(rows).avgWait == 0.0 && KpisOf(rows).avgTreatment == 0.0
    ensures Unblocked(rows) != [] ==> waitLo <= KpisOf(rows).avgWait <= waitHi
    ensures Unblocked(rows) != [] ==> treatLo <= KpisOf(rows).avgTreatment <= treatHi
  {
    var u := Unblocked(rows);
    forall j | 0 <= j < |u|
      ensures waitLo <= u[j].waitTime <= waitHi && treatLo <= u[j].treatmentTime <= treatHi
    {
      UnblockedMembers(rows, u[j]);
    }
    if u != [] {
      var ws, ts := Waits(rows), Treatments(rows);
      assert forall j :: 0 <= j < |ws| ==> ws[j] == u[j].waitTime;
      assert forall j :: 0 <= j < |ts| ==> ts[j] == u[j].treatmentTime;
      MeanBetween(ws, waitLo, waitHi);
      MeanBetween(ts, treatLo, treatHi);
    }
  }

  /** A blocked row added to a scenario changes none of the averages nor the utilisation. */
  lemma BlockedRowIgnored(rows: seq<Row>, r: Row)
    requires rows != [] && r.blocked != 0
    ensures KpisOf(rows + [r]).avgWait == KpisOf(rows).avgWait
    ensures KpisOf(rows + [r]).avgTreatment == KpisOf(rows).avgTreatment
    ensures KpisOf(rows + [r]).utilisationPct == KpisOf(rows).utilisationPct
  {
    UnblockedAppend(rows, r);
    assert Unblocked(rows + [r]) == Unblocked(rows);
  }

  /** The utilisation is the total treatment time of the treated rows as a share of the
      fixed 100800 bed-minutes: the average treatment time times the number treated, over
      1008. */
  lemma UtilisationFromAverage(rows: seq<Row>)
    requires rows != []
    ensures KpisOf(rows).utilisationPct == KpisOf(rows).avgTreatment * (|Unblocked(rows)| as real) / 1008.0
  {
    ColumnShare(Treatments(rows));
  }

  /** The utilisation of a column of treatment times is its average times its length over
      1008. */
  lemma ColumnShare(ts: seq<real>)
    ensures Utilisation(ts) == Average(ts) * (|ts| as real) / 1008.0
  {
    assert Average(ts) * (|ts| as real) == Sum(ts) by {
      if ts != [] {
        MeanTimesCount(ts);
      }
    }
    ShareOfBedMinutes(Sum(ts), Average(ts), |ts| as real);
  }

  /** Non-negative treatment times of the treated rows give a non-negative utilisation. */
  lemma UtilisationNonNegative(rows: seq<Row>)
    requires rows != []
    requires forall i :: 0 <= i < |rows| && rows[i].blocked == 0 ==> 0.0 <= rows[i].treatmentTime
    ensures 0.0 <= KpisOf(rows).utilisationPct
  {
    var ts := Treatments(rows);
    var u := Unblocked(rows);
    forall j | 0 <= j < |ts| ensures 0.0 <= ts[j] {
      UnblockedMembers(rows, u[j]);
    }
    SumNonNegative(ts);
    ShareOfBedMinutes(Sum(ts), Sum(ts), 1.0);
  }

  /** A total of `avg * n` minutes is `avg * n / 1008` percent of the bed-minutes. */
  lemma ShareOfBedMinutes(total: real, avg: real, n: real)
    requires total == avg * n
    ensures (total / BedMinutes) * 100.0 == avg * n / 1008.0
    ensures 0.0 <= total ==> 0.0 <= (total / BedMinutes) * 100.0
  {
  }

  /** The mean of a non-empty column times its length is its sum. */
  lemma MeanTimesCount(xs: seq<real>)
    requires xs != []
    ensures Mean(xs) * (|xs| as real) == Sum(xs)
  {
  }

  // ---------------------------------------------------------------------------------------
  // One dictionary per scenario

  /** `df['scenario'].unique()`: the scenario labels in order of first appearance. */
  function Scenarios(df: seq<Row>): (u: seq<string>)
    ensures NoDuplicates(u)
  {
    if df == [] then []
    else
      var before := Scenarios(df[..|df| - 1]);
      var s := df[|df| - 1].scenario;
      if s in before then before
      else
        NoDuplicatesSnoc(before, s);
        before + [s]
  }

  /** `unique()` lists the labels in order of first appearance: every row carrying a
      later-listed label is preceded by a row carrying an earlier-listed one. */
  lemma {:induction false} ScenariosInOrder(df: seq<Row>, i: nat, j: nat, m: nat)
    requires i < j < |Scenarios(df)|
    requires m < |df| && df[m].scenario == Scenarios(df)[j]
    ensures exists k :: 0 <= k < m && df[k].scenario == Scenarios(df)[i]
  {
    var n := |df|;
    var before := df[..n - 1];
    var ub := Scenarios(before);
    var u := Scenarios(df);
    assert forall k :: 0 <= k < |before| ==> before[k] == df[k];
    if j < |ub| {
      assert u[i] == ub[i] && u[j] == ub[j];
      var m' := m;
      if m == n - 1 {
        ScenariosComplete(before, ub[j]);
        m' :| 0 <= m' < |before| && before[m'].scenario == ub[j];
      }
      ScenariosInOrder(before, i, j, m');
      var k :| 0 <= k < m' && before[k].scenario == ub[i];
      assert df[k].scenario == u[i];
    } else {
      assert u == ub + [df[n - 1].scenario] && u[i] == ub[i];
      ScenariosComplete(before, ub[i]);
      var k :| 0 <= k < |before| && before[k].scenario == ub[i];
      ScenariosComplete(before, u[j]);
      assert m == n - 1;
      assert df[k].scenario == u[i];
    }
  }

  /** The labels listed are exactly those some row carries. */
  lemma {:induction false} ScenariosComplete(df: seq<Row>, s: string)
    ensures s in Scenarios(df) <==> exists i :: 0 <= i < |df| && df[i].scenario == s
  {
    if df != [] {
      var before := df[..|df| - 1];
      ScenariosComplete(before, s);
      assert forall i :: 0 <= i < |before| ==> before[i] == df[i];
      if s in Scenarios(df) && s !in Scenarios(before) {
        assert df[|df| - 1].scenario == s;
      }
    }
  }

  /** `df[df['scenario'] == scenario]`, in table order. */
  function RowsOf(df: seq<Row>, scenario: string): (rows: seq<Row>)
    ensures |rows| <= |df|
    ensures forall i :: 0 <= i < |rows| ==> rows[i].scenario == scenario
    ensures rows == [] <==> forall k :: 0 <= k < |df| ==> df[k].scenario != scenario
  {
    if df == [] then []
    else (if df[0].scenario == scenario then [df[0]] else []) + RowsOf(df[1..], scenario)
  }

  /** A scenario's rows are exactly the table's rows carrying its label. */
  lemma {:induction false} RowsOfMembers(df: seq<Row>, scenario: string, x: Row)
    ensures x in RowsOf(df, scenario) <==> x in df && x.scenario == scenario
  {
    if df != [] {
      RowsOfMembers(df[1..], scenario, x);
      assert x in df <==> x == df[0] || x in df[1..];
    }
  }

  /** The KPI table of `main`: one (scenario, dictionary) row per distinct scenario. */
  function KpiTable(df: seq<Row>): (table: seq<(string, map<Key, real>)>)
    ensures |table| == |Scenarios(df)|
    ensures forall i, j :: 0 <= i < j < |table| ==> table[i].0 != table[j].0
  {
    var u := Scenarios(df);
    DistinctElements(u);
    seq(|u|, i requires 0 <= i < |u| => Entry(df, u[i]))
  }

  /** `kpi_row` of one scenario, labelled with it. */
  function Entry(df: seq<Row>, scenario: string): (e: (string, map<Key, real>))
    ensures e.0 == scenario
    ensures e.1 == map[] <==> forall k :: 0 <= k < |df| ==> df[k].scenario != scenario
    ensures e.1 != map[] ==> e.1.Keys == KpiNames
  {
    (scenario, CalculateKpis(RowsOf(df, scenario)))
  }

  /** Every row of the KPI table has all seven indicators, computed from the rows of its own
      scenario only; the table lists each scenario of the results once. */
  lemma KpiTableComplete(df: seq<Row>)
    ensures forall i, j :: 0 <= i < j < |KpiTable(df)| ==> KpiTable(df)[i].0 != KpiTable(df)[j].0
    ensures forall i :: 0 <= i < |KpiTable(df)| ==> KpiTable(df)[i].1.Keys == KpiNames
    ensures forall k :: 0 <= k < |df| ==> exists i :: 0 <= i < |KpiTable(df)| && KpiTable(df)[i].0 == df[k].scenario
  {
    var u := Scenarios(df);
    var table := KpiTable(df);
    DistinctElements(u);
    forall i | 0 <= i < |table| ensures table[i].1.Keys == KpiNames {
      ScenariosComplete(df, u[i]);
      var k :| 0 <= k < |df| && df[k].scenario == u[i];
      RowsOfMembers(df, u[i], df[k]);
    }
    forall k | 0 <= k < |df| ensures exists i :: 0 <= i < |table| && table[i].0 == df[k].scenario {
      ScenariosComplete(df, df[k].scenario);
      var i :| 0 <= i < |u| && u[i] == df[k].scenario;
      assert table[i].0 == df[k].scenario;
    }
  }

  /** A sequence without duplicates has distinct elements at distinct positions. */
  lemma {:induction false} DistinctElements<T>(s: seq<T>)
    requires NoDuplicates(s)
    ensures forall i, j :: 0 <= i < j < |s| ==> s[i] != s[j]
  {
    if s != [] {
      DistinctElements(s[1..]);
      forall i, j | 0 <= i < j < |s| ensures s[i] != s[j] {
        if i == 0 {
          assert s[j] == s[1..][j - 1];
        } else {
          assert s[i] == s[1..][i - 1] && s[j] == s[1..][j - 1];
        }
      }
    }
  }

  /** The loop of `main` that builds `kpi_data`, one scenario at a time. */
  method BuildKpiTable(df: seq<Row>) returns (kpiData: seq<(string, map<Key, real>)>)
    ensures kpiData == KpiTable(df)
  {
    var scenarios := Scenarios(df);
    ghost var table := KpiTable(df);
    kpiData := [];
    for i := 0 to |scenarios|
      invariant kpiData == table[..i]
    {
      assert table[i] == Entry(df, scenarios[i]);
      assert table[..i + 1] == table[..i] + [table[i]];
      kpiData := kpiData + [Entry(df, scenarios[i])];
    }
    assert table[..|scenarios|] == table;
  }
}
