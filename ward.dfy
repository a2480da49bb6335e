/** The dashboard's ward simulation: a ward of `num_beds` beds served by one pool of
    `num_staff` staff. A patient who finds every bed taken balks; otherwise it takes a bed,
    queues for a staff member, is treated for a time drawn from the scenario's service
    distribution, and is discharged. The `Hospital` class keeps the bed counter and the two
    logs the dashboard reads: one record per patient and one occupancy sample per change. */
module Ward {
  import opened Common
  import opened Pools
  import Arrivals

  /** `MINS_IN_DAY`: the simulation clock counts minutes. */
  const MinsInDay: real := 1440.0

  datatype Scenario = Baseline | ExperienceBased | WorkloadDependent | Unrecognised

  /** The three scenario names the dashboard offers; anything else is unrecognised. */
  function ScenarioOf(name: string): (s: Scenario)
    ensures s == Baseline <==> name == "Baseline Model (Homogeneous Staff)"
    ensures s == ExperienceBased <==> name == "Experience-Based Model (Heterogeneous Staff)"
    ensures s == WorkloadDependent <==> name == "Workload-Dependent Model (Dynamic Service Rates)"
  {
    if name == "Baseline Model (Homogeneous Staff)" then Baseline
    else if name == "Experience-Based Model (Heterogeneous Staff)" then ExperienceBased
    else if name == "Workload-Dependent Model (Dynamic Service Rates)" then WorkloadDependent
    else Unrecognised
  }

  /** The dashboard's parameter dictionary, with the scenario name already read by
      `ScenarioOf`. */
  datatype Params = Params(
    scenario: Scenario,
    arrivalRate: real,          // patients per day
    numBeds: int,
    numStaff: nat,
    simulationDuration: real,   // days
    seniorStaffMix: real,       // percent
    seniorServiceDays: real,
    juniorServiceDays: real,
    workloadFactorAlpha: real)

  /** The random numbers one treatment consumes: `np.random.rand()` (used only by the
      experience-based scenario) and a standard exponential sample, so that
      `np.random.exponential(m)` is `m * exponential`. */
  datatype Draw = Draw(uniform: real, exponential: real)

  /** Slow-down applied when the staff load exceeds `alpha`. */
  function WorkloadFactor(patientsPerStaff: real, alpha: real): (f: real)
    ensures 1.0 <= f
    ensures f == 1.0 <==> patientsPerStaff <= alpha
    ensures patientsPerStaff - alpha <= f - 1.0
    ensures alpha < patientsPerStaff ==> f - 1.0 == patientsPerStaff - alpha
  {
    if patientsPerStaff > alpha then 1.0 + (patientsPerStaff - alpha) else 1.0
  }

  /** Scaling a non-negative mean by a factor of at least 1 never shortens it, and leaves a
      positive mean unchanged exactly when the factor is 1. */
  lemma ScaleAtLeast(base: real, f: real)
    requires 1.0 <= f
    ensures 0.0 <= base ==> base <= base * f
    ensures 0.0 < base ==> (base * f == base <==> f == 1.0)
  {
    assert base * f == base + base * (f - 1.0);
    if 0.0 < base && f != 1.0 {
      assert 0.0 < base * (f - 1.0);
    }
  }

  /** The workload-dependent mean: the baseline mean `base` stretched by the workload factor
      of the staff load `ratio`. */
  function WorkloadMinutes(base: real, ratio: real, alpha: real): (m: real)
    ensures 0.0 <= base ==> base <= m
    ensures 0.0 < base ==> (m == base <==> ratio <= alpha)
  {
    var f := WorkloadFactor(ratio, alpha);
    ScaleAtLeast(base, f);
    base * f
  }

  /** The staff load `len(self.staff.users) / num_staff`. */
  function Load(busyStaff: nat, numStaff: nat): real
    requires 0 < numStaff
  {
    busyStaff as real / numStaff as real
  }

  /** Busy staff never outnumber the staff on duty, so the load is at most 1. */
  lemma LoadAtMostOne(busyStaff: nat, numStaff: nat)
    requires 0 < numStaff && busyStaff <= numStaff
    ensures Load(busyStaff, numStaff) <= 1.0
  {
    var r := Load(busyStaff, numStaff);
    assert r * (numStaff as real) == busyStaff as real;
  }

  /** Mean treatment time in minutes for a recognised scenario, with `busyStaff` staff
      members in use (`len(self.staff.users)`) at the moment treatment begins. */
  function ServiceMinutes(p: Params, busyStaff: nat, uniform: real): (m: real)
    requires p.scenario == WorkloadDependent ==> 0 < p.numStaff
    ensures p.scenario == Baseline ==> m == p.seniorServiceDays * MinsInDay
    ensures p.scenario == ExperienceBased ==>
              m == (if uniform < p.seniorStaffMix / 100.0 then p.seniorServiceDays else p.juniorServiceDays) * MinsInDay
    ensures p.scenario == WorkloadDependent && 0.0 <= p.seniorServiceDays ==>
              p.seniorServiceDays * MinsInDay <= m
    ensures p.scenario == WorkloadDependent && 0.0 < p.seniorServiceDays ==>
              (m == p.seniorServiceDays * MinsInDay <==> Load(busyStaff, p.numStaff) <= p.workloadFactorAlpha)
  {
    match p.scenario
    case Baseline => p.seniorServiceDays * MinsInDay
    case ExperienceBased =>
      if uniform < p.seniorStaffMix / 100.0 then p.seniorServiceDays * MinsInDay
      else p.juniorServiceDays * MinsInDay
    case WorkloadDependent =>
      WorkloadMinutes(p.seniorServiceDays * MinsInDay, Load(busyStaff, p.numStaff), p.workloadFactorAlpha)
    case Unrecognised => 0.0
  }

  /** A non-negative mean times a non-negative draw is non-negative. */
  lemma ProductNonNegative(m: real, e: real)
    ensures 0.0 <= m && 0.0 <= e ==> 0.0 <= m * e
  {
  }

  /** `get_treatment_time`: an exponential draw around the scenario's mean; an unrecognised
      scenario gives 0 without drawing. */
  function TreatmentTime(p: Params, busyStaff: nat, d: Draw): (t: real)
    requires p.scenario == WorkloadDependent ==> 0 < p.numStaff
    ensures p.scenario == Unrecognised ==> t == 0.0
    ensures p.scenario != Unrecognised ==> t == ServiceMinutes(p, busyStaff, d.uniform) * d.exponential
    ensures 0.0 <= p.seniorServiceDays && 0.0 <= p.juniorServiceDays && 0.0 <= d.exponential ==> 0.0 <= t
  {
    if p.scenario == Unrecognised then 0.0
    else
      var m := ServiceMinutes(p, busyStaff, d.uniform);
      ProductNonNegative(m, d.exponential);
      m * d.exponential
  }

  /** Busy staff never outnumber the staff on duty, so the load `len(staff.users) / num_staff`
      is at most 1: with `alpha >= 1` the workload-dependent mean is the baseline mean. */
  lemma WorkloadNeverDegradesForAlphaAtLeastOne(p: Params, busyStaff: nat, uniform: real)
    requires p.scenario == WorkloadDependent
    requires 0 < p.numStaff && busyStaff <= p.numStaff
    requires 1.0 <= p.workloadFactorAlpha
    ensures ServiceMinutes(p, busyStaff, uniform) == p.seniorServiceDays * MinsInDay
  {
    LoadAtMostOne(busyStaff, p.numStaff);
  }

  // ---------------------------------------------------------------------------------------
  // The two logs

  /** One row of `occupancy_log`: the time of a change and the beds in use after it. */
  datatype Sample = Sample(time: real, patientsInSystem: int)

  /** One row of `patient_log`. A balked patient's wait, treatment and total times are NaN in
      the source; here they are absent. */
  datatype WardRecord =
    | BalkedNoBeds(patientId: string, arrivalTime: real)
    | Discharged(patientId: string, arrivalTime: real, waitTime: real, treatmentTime: real, totalTime: real)

  function CountDischarged(log: seq<WardRecord>): nat {
    if log == [] then 0
    else CountDischarged(log[..|log| - 1]) + (if log[|log| - 1].Discharged? then 1 else 0)
  }

  function CountBalked(log: seq<WardRecord>): nat {
    if log == [] then 0
    else CountBalked(log[..|log| - 1]) + (if log[|log| - 1].BalkedNoBeds? then 1 else 0)
  }

  /** Every record is either a balk or a discharge. */
  lemma {:induction false} CountsPartition(log: seq<WardRecord>)
    ensures CountBalked(log) + CountDischarged(log) == |log|
  {
    if log != [] {
      CountsPartition(log[..|log| - 1]);
    }
  }

  lemma CountsAppend(log: seq<WardRecord>, r: WardRecord)
    ensures CountDischarged(log + [r]) == CountDischarged(log) + (if r.Discharged? then 1 else 0)
    ensures CountBalked(log + [r]) == CountBalked(log) + (if r.BalkedNoBeds? then 1 else 0)
  {
    assert (log + [r])[..|log|] == log;
  }

  /** A discharge record's durations are non-negative and the stay is wait plus treatment. */
  predicate RecordWellFormed(r: WardRecord) {
    r.Discharged? ==> 0.0 <= r.waitTime && 0.0 <= r.treatmentTime && r.totalTime == r.waitTime + r.treatmentTime
  }

  /** Beds in use after the last sample; the ward starts empty. */
  function LastCount(occ: seq<Sample>): int {
    if occ == [] then 0 else occ[|occ| - 1].patientsInSystem
  }

  /** A well-formed occupancy series up to time `until`: starting from an empty ward, each
      sample moves the count by exactly one bed and stays within `[0, capacity]`, and the
      sample times are in order within `[0, until]`. */
  predicate Series(occ: seq<Sample>, capacity: int, until: real)
    decreases |occ|
  {
    occ == [] ||
      (var before, last := occ[..|occ| - 1], occ[|occ| - 1];
       && Series(before, capacity, last.time)
       && 0.0 <= last.time <= until
       && 0 <= last.patientsInSystem <= capacity
       && (last.patientsInSystem == LastCount(before) + 1 || last.patientsInSystem == LastCount(before) - 1))
  }

  /** The occupancy series of a ward with `beds` beds in use at `clock`. */
  predicate OccupancyAgrees(occ: seq<Sample>, capacity: int, clock: real, beds: int) {
    Series(occ, capacity, clock) && LastCount(occ) == beds
  }

  /** Sampling a one-bed change at a later time keeps the series well formed. */
  lemma OccupancyStep(occ: seq<Sample>, capacity: int, clock: real, beds: int, now: real, beds': int)
    requires OccupancyAgrees(occ, capacity, clock, beds)
    requires clock <= now && 0.0 <= now
    requires beds' == beds + 1 || beds' == beds - 1
    requires 0 <= beds' <= capacity
    ensures OccupancyAgrees(occ + [Sample(now, beds')], capacity, now, beds')
  {
    var occ' := occ + [Sample(now, beds')];
    assert occ'[..|occ'| - 1] == occ;
    OccupancyLater(occ, capacity, clock, beds, now);
  }

  /** A series stays well formed as the clock moves on. */
  lemma OccupancyLater(occ: seq<Sample>, capacity: int, clock: real, beds: int, now: real)
    requires OccupancyAgrees(occ, capacity, clock, beds) && clock <= now
    ensures OccupancyAgrees(occ, capacity, now, beds)
  {
  }

  /** The element-wise reading of a well-formed series: every sample within capacity and
      within `[0, until]`, and the times in order. */
  lemma {:induction false} SeriesElements(occ: seq<Sample>, capacity: int, until: real)
    requires Series(occ, capacity, until)
    ensures forall i :: 0 <= i < |occ| ==> 0 <= occ[i].patientsInSystem <= capacity
    ensures forall i :: 0 <= i < |occ| ==> 0.0 <= occ[i].time <= until
    ensures forall i, j :: 0 <= i < j < |occ| ==> occ[i].time <= occ[j].time
  {
    if occ != [] {
      var before := occ[..|occ| - 1];
      SeriesElements(before, capacity, occ[|occ| - 1].time);
      assert forall i :: 0 <= i < |before| ==> occ[i] == before[i];
    }
  }

  /** Every record in the log is well formed. */
  predicate RecordsWellFormed(log: seq<WardRecord>) {
    forall i :: 0 <= i < |log| ==> RecordWellFormed(log[i])
  }

  lemma RecordsAppend(log: seq<WardRecord>, r: WardRecord)
    requires RecordsWellFormed(log) && RecordWellFormed(r)
    ensures RecordsWellFormed(log + [r])
  {
    assert forall i :: 0 <= i < |log| ==> (log + [r])[i] == log[i];
  }

  // ---------------------------------------------------------------------------------------
  // The patient process

  /** What a patient's process carries across its suspensions. */
  datatype Visit = Visit(name: string, ticket: Ticket, arrival: real)

  /** A patient whose staff request was granted at `start`, to be treated for `duration`. */
  datatype Treatment = Treatment(visit: Visit, start: real, duration: real)

  /** Outcome of an arrival: a balk, or a bed together with whether a staff member was
      free at once. */
  datatype ArrivalOutcome = Balked | Admitted(visit: Visit, staffGranted: bool)

  /** Where an admitted patient is in its life cycle; the name is the one it arrived with. */
  datatype Stage =
    | AwaitingStaff(name: string, arrival: real)
    | InTreatment(name: string, arrival: real, start: real, duration: real)

  /** What the ward knows of ticket `t`: it is a patient in a bed exactly when it holds or
      awaits a staff member, a patient in treatment holds one, and its times so far are in
      order and at most `clock`. */
  ghost predicate StageAt(stage: map<Ticket, Stage>, users: seq<Ticket>, queue: seq<Ticket>, clock: real, t: Ticket) {
    && (t in stage <==> t in users || t in queue)
    && (t in stage && stage[t].InTreatment? ==> t in users)
    && (t in stage ==> 0.0 <= stage[t].arrival <= clock)
    && (t in stage && stage[t].InTreatment? ==>
          stage[t].arrival <= stage[t].start <= clock && 0.0 <= stage[t].duration)
  }

  /** Every ticket agrees with the staff pool and the clock. */
  ghost predicate StagesAgree(stage: map<Ticket, Stage>, users: seq<Ticket>, queue: seq<Ticket>, clock: real) {
    forall t :: StageAt(stage, users, queue, clock, t)
  }

  lemma StagesLater(stage: map<Ticket, Stage>, users: seq<Ticket>, queue: seq<Ticket>, clock: real, now: real)
    requires StagesAgree(stage, users, queue, clock) && clock <= now
    ensures StagesAgree(stage, users, queue, now)
  {
    forall x ensures StageAt(stage, users, queue, now, x) {
      assert StageAt(stage, users, queue, clock, x);
    }
  }

  /** An admitted patient's request joins the granted list or the queue. */
  lemma StagesAdmit(stage: map<Ticket, Stage>, users: seq<Ticket>, queue: seq<Ticket>, clock: real,
                    t: Ticket, name: string, now: real, users': seq<Ticket>, queue': seq<Ticket>)
    requires StagesAgree(stage, users, queue, clock) && clock <= now && 0.0 <= now
    requires (users' == users + [t] && queue' == queue) || (users' == users && queue' == queue + [t])
    ensures StagesAgree(stage[t := AwaitingStaff(name, now)], users', queue', now)
  {
    var stage' := stage[t := AwaitingStaff(name, now)];
    forall x ensures StageAt(stage', users', queue', now, x) {
      assert StageAt(stage, users, queue, clock, x);
    }
  }

  /** A patient holding a staff member starts treatment. */
  lemma StagesBegin(stage: map<Ticket, Stage>, users: seq<Ticket>, queue: seq<Ticket>, clock: real,
                    t: Ticket, now: real, duration: real)
    requires StagesAgree(stage, users, queue, clock) && clock <= now
    requires t in stage && stage[t].AwaitingStaff? && t in users && 0.0 <= duration
    ensures StagesAgree(stage[t := InTreatment(stage[t].name, stage[t].arrival, now, duration)], users, queue, now)
  {
    var stage' := stage[t := InTreatment(stage[t].name, stage[t].arrival, now, duration)];
    forall x ensures StageAt(stage', users, queue, now, x) {
      assert StageAt(stage, users, queue, clock, x);
    }
  }

  /** A treated patient leaves and its staff member passes to the head of the queue. */
  lemma StagesDischarge(stage: map<Ticket, Stage>, users: seq<Ticket>, queue: seq<Ticket>, clock: real,
                        t: Ticket, now: real)
    requires StagesAgree(stage, users, queue, clock) && clock <= now
    requires t in users && NoDuplicates(users) && (forall x :: x in users ==> x !in queue)
    ensures StagesAgree(stage - {t},
                        Remove(users, t) + (if queue == [] then [] else [queue[0]]),
                        if queue == [] then [] else queue[1..], now)
  {
    RemoveNoDuplicates(users, t);
    var users' := Remove(users, t) + (if queue == [] then [] else [queue[0]]);
    var queue' := if queue == [] then [] else queue[1..];
    var stage' := stage - {t};
    forall x ensures StageAt(stage', users', queue', now, x) {
      assert StageAt(stage, users, queue, clock, x);
      if queue != [] {
        assert x in queue <==> x == queue[0] || x in queue';
      }
    }
  }

  /** The bookkeeping a ward keeps consistent between events, stated over plain values: the
      parameters, the bed capacity and counter, the staff pool's granted and pending tickets,
      the patients in beds, the two logs, the clock and the number of arrivals so far. */
  ghost predicate Consistent(p: Params, capacity: int, beds: int, users: seq<Ticket>, queue: seq<Ticket>,
                             stage: map<Ticket, Stage>, occ: seq<Sample>, log: seq<WardRecord>,
                             clock: real, arrivals: nat)
  {
    && capacity == p.numBeds
    && 0.0 <= p.seniorServiceDays && 0.0 <= p.juniorServiceDays
    && 0.0 <= clock
    // the bed counter stays within 0 and the capacity
    && 0 <= beds && (beds == 0 || beds <= capacity)
    // every patient in a bed holds or awaits exactly one staff member
    && beds == |users| + |queue|
    && StagesAgree(stage, users, queue, clock)
    // the occupancy series is a unit-step path within capacity ending at the counter
    && OccupancyAgrees(occ, capacity, clock, beds)
    && 2 * CountDischarged(log) + beds == |occ|
    // the records logged plus the beds in use equal the arrivals
    && |log| + beds == arrivals
    && RecordsWellFormed(log)
  }

  /** A patient that finds every bed taken is logged and leaves nothing else changed. */
  lemma BalkKeeps(p: Params, capacity: int, beds: int, users: seq<Ticket>, queue: seq<Ticket>,
                  stage: map<Ticket, Stage>, occ: seq<Sample>, log: seq<WardRecord>,
                  clock: real, arrivals: nat, name: string, now: real)
    requires Consistent(p, capacity, beds, users, queue, stage, occ, log, clock, arrivals)
    requires clock <= now
    ensures Consistent(p, capacity, beds, users, queue, stage, occ, log + [BalkedNoBeds(name, now)], now, arrivals + 1)
  {
    StagesLater(stage, users, queue, clock, now);
    OccupancyLater(occ, capacity, clock, beds, now);
    CountsAppend(log, BalkedNoBeds(name, now));
    RecordsAppend(log, BalkedNoBeds(name, now));
  }

  /** A patient that finds a free bed takes it and joins the staff pool. */
  lemma AdmitKeeps(p: Params, capacity: int, beds: int, users: seq<Ticket>, queue: seq<Ticket>,
                   stage: map<Ticket, Stage>, occ: seq<Sample>, log: seq<WardRecord>,
                   clock: real, arrivals: nat, t: Ticket, name: string, now: real,
                   users': seq<Ticket>, queue': seq<Ticket>)
    requires Consistent(p, capacity, beds, users, queue, stage, occ, log, clock, arrivals)
    requires clock <= now && beds < capacity
    requires (users' == users + [t] && queue' == queue) || (users' == users && queue' == queue + [t])
    ensures Consistent(p, capacity, beds + 1, users', queue', stage[t := AwaitingStaff(name, now)],
                       occ + [Sample(now, beds + 1)], log, now, arrivals + 1)
  {
    OccupancyStep(occ, capacity, clock, beds, now, beds + 1);
    StagesAdmit(stage, users, queue, clock, t, name, now, users', queue');
  }

  /** A patient holding a staff member starts its treatment. */
  lemma BeginKeeps(p: Params, capacity: int, beds: int, users: seq<Ticket>, queue: seq<Ticket>,
                   stage: map<Ticket, Stage>, occ: seq<Sample>, log: seq<WardRecord>,
                   clock: real, arrivals: nat, t: Ticket, now: real, duration: real)
    requires Consistent(p, capacity, beds, users, queue, stage, occ, log, clock, arrivals)
    requires clock <= now && t in stage && stage[t].AwaitingStaff? && t in users && 0.0 <= duration
    ensures Consistent(p, capacity, beds, users, queue, stage[t := InTreatment(stage[t].name, stage[t].arrival, now, duration)],
                       occ, log, now, arrivals)
  {
    StagesBegin(stage, users, queue, clock, t, now, duration);
    OccupancyLater(occ, capacity, clock, beds, now);
  }

  /** The discharge record of a patient that arrived at `arrival`, started treatment at
      `start` and was treated for `duration`. */
  function DischargeRecord(name: string, arrival: real, start: real, duration: real): (r: WardRecord)
    ensures r.Discharged?
    ensures arrival <= start && 0.0 <= duration ==> RecordWellFormed(r)
    ensures r.arrivalTime == arrival && r.treatmentTime == duration
    ensures r.arrivalTime + r.totalTime == start + duration
  {
    Discharged(name, arrival, start - arrival, duration, start + duration - arrival)
  }

  /** A treated patient frees its bed, is logged under the name it arrived with, and hands
      its staff member on. */
  lemma DischargeKeeps(p: Params, capacity: int, beds: int, users: seq<Ticket>, queue: seq<Ticket>,
                       stage: map<Ticket, Stage>, occ: seq<Sample>, log: seq<WardRecord>,
                       clock: real, arrivals: nat, t: Ticket)
    requires Consistent(p, capacity, beds, users, queue, stage, occ, log, clock, arrivals)
    requires NoDuplicates(users) && (forall x :: x in users ==> x !in queue)
    requires t in stage && stage[t].InTreatment? && clock <= stage[t].start + stage[t].duration
    ensures stage[t].arrival <= stage[t].start && 0.0 <= stage[t].duration
    ensures Consistent(p, capacity, beds - 1,
                       Remove(users, t) + (if queue == [] then [] else [queue[0]]),
                       if queue == [] then [] else queue[1..],
                       stage - {t},
                       occ + [Sample(stage[t].start + stage[t].duration, beds - 1)],
                       log + [DischargeRecord(stage[t].name, stage[t].arrival, stage[t].start, stage[t].duration)],
                       stage[t].start + stage[t].duration, arrivals)
  {
    var now := stage[t].start + stage[t].duration;
    assert StageAt(stage, users, queue, clock, t);
    var record := DischargeRecord(stage[t].name, stage[t].arrival, stage[t].start, stage[t].duration);
    OccupancyStep(occ, capacity, clock, beds, now, beds - 1);
    CountsAppend(log, record);
    RecordsAppend(log, record);
    StagesDischarge(stage, users, queue, clock, t, now);
  }

  class Hospital {
    const params: Params
    const bedCapacity: int
    const staff: Pool
    var bedsInUse: int
    var patientLog: seq<WardRecord>
    var occupancyLog: seq<Sample>

    /** Virtual time of the last event the ward took part in. */
    ghost var clock: real
    /** Number of patients that have arrived. */
    ghost var arrivals: nat
    /** The patients occupying a bed, by staff ticket. */
    ghost var stage: map<Ticket, Stage>

    ghost predicate Valid()
      reads this, staff
    {
      && staff.Valid()
      && staff.capacity == params.numStaff
      && Consistent(params, bedCapacity, bedsInUse, staff.users, staff.queue, stage,
                    occupancyLog, patientLog, clock, arrivals)
    }

    /** `Hospital(env, params)`; the dashboard's controls only offer at least one staff
        member and service days of at least 0.1. */
    constructor (params: Params)
      requires 0 < params.numStaff
      requires 0.0 <= params.seniorServiceDays && 0.0 <= params.juniorServiceDays
      ensures Valid() && fresh(staff)
      ensures this.params == params && bedCapacity == params.numBeds
      ensures bedsInUse == 0 && patientLog == [] && occupancyLog == []
      ensures staff.users == [] && staff.queue == [] && arrivals == 0 && clock == 0.0
      ensures stage == map[]
    {
      this.params := params;
      bedCapacity := params.numBeds;
      staff := new Pool(params.numStaff);
      bedsInUse := 0;
      patientLog := [];
      occupancyLog := [];
      clock := 0.0;
      arrivals := 0;
      stage := map[];
    }

    /** A patient arrives at `now`. With every bed taken it balks and is logged at once;
        otherwise it takes a bed, the change is sampled and it asks for a staff member. */
    method Arrive(name: string, ticket: Ticket, now: real) returns (outcome: ArrivalOutcome)
      requires Valid()
      requires clock <= now
      requires ticket !in stage
      modifies this, staff
      ensures Valid()
      ensures clock == now && arrivals == old(arrivals) + 1
      ensures old(bedsInUse) >= bedCapacity ==>
                && outcome == Balked
                && bedsInUse == old(bedsInUse)
                && occupancyLog == old(occupancyLog)
                && patientLog == old(patientLog) + [BalkedNoBeds(name, now)]
                && staff.users == old(staff.users) && staff.queue == old(staff.queue)
                && stage == old(stage)
      ensures old(bedsInUse) < bedCapacity ==>
                && outcome == Admitted(Visit(name, ticket, now), old(|staff.users|) < staff.capacity)
                && bedsInUse == old(bedsInUse) + 1
                && occupancyLog == old(occupancyLog) + [Sample(now, bedsInUse)]
                && patientLog == old(patientLog)
                && staff.users == (if outcome.staffGranted then old(staff.users) + [ticket] else old(staff.users))
                && staff.queue == (if outcome.staffGranted then old(staff.queue) else old(staff.queue) + [ticket])
                && stage == old(stage)[ticket := AwaitingStaff(name, now)]
    {
      if bedsInUse >= bedCapacity {
        Balk(name, now);
        outcome := Balked;
      } else {
        var granted := Admit(name, ticket, now);
        outcome := Admitted(Visit(name, ticket, now), granted);
      }
    }

    /** The balking branch of `patient`: the record is logged and nothing else changes. */
    method Balk(name: string, now: real)
      requires Valid() && clock <= now && bedsInUse >= bedCapacity
      modifies this
      ensures Valid()
      ensures clock == now && arrivals == old(arrivals) + 1
      ensures bedsInUse == old(bedsInUse) && occupancyLog == old(occupancyLog)
      ensures patientLog == old(patientLog) + [BalkedNoBeds(name, now)]
      ensures stage == old(stage)
    {
      BalkKeeps(params, bedCapacity, bedsInUse, staff.users, staff.queue, stage,
                occupancyLog, patientLog, clock, arrivals, name, now);
      clock := now;
      arrivals := arrivals + 1;
      patientLog := patientLog + [BalkedNoBeds(name, now)];
    }

    /** The admitting branch of `patient`: the bed counter goes up by one, the new count is
        sampled, and the staff request is granted at once or queued. */
    method Admit(name: string, ticket: Ticket, now: real) returns (granted: bool)
      requires Valid() && clock <= now && bedsInUse < bedCapacity && ticket !in stage
      modifies this, staff
      ensures Valid()
      ensures clock == now && arrivals == old(arrivals) + 1
      ensures granted <==> old(|staff.users|) < staff.capacity
      ensures bedsInUse == old(bedsInUse) + 1
      ensures occupancyLog == old(occupancyLog) + [Sample(now, bedsInUse)]
      ensures patientLog == old(patientLog)
      ensures staff.users == (if granted then old(staff.users) + [ticket] else old(staff.users))
      ensures staff.queue == (if granted then old(staff.queue) else old(staff.queue) + [ticket])
      ensures stage == old(stage)[ticket := AwaitingStaff(name, now)]
    {
      ghost var users0, queue0 := staff.users, staff.queue;
      assert StageAt(stage, users0, queue0, clock, ticket);
      granted := staff.Request(ticket);
      AdmitKeeps(params, bedCapacity, bedsInUse, users0, queue0, stage,
                 occupancyLog, patientLog, clock, arrivals, ticket, name, now, staff.users, staff.queue);
      clock := now;
      arrivals := arrivals + 1;
      bedsInUse := bedsInUse + 1;
      occupancyLog := occupancyLog + [Sample(now, bedsInUse)];
      stage := stage[ticket := AwaitingStaff(name, now)];
    }

    /** The patient's staff request has been granted and its process resumes at `now`: the
        treatment time is drawn with the staff load of that instant. */
    method BeginTreatment(v: Visit, now: real, d: Draw) returns (t: Treatment)
      requires Valid()
      requires v.ticket in stage && stage[v.ticket] == AwaitingStaff(v.name, v.arrival)
      requires v.ticket in staff.users
      requires clock <= now
      requires 0.0 <= d.exponential
      modifies this
      ensures Valid()
      ensures clock == now
      ensures t == Treatment(v, now, TreatmentTime(params, |staff.users|, d))
      ensures now - v.arrival >= 0.0 && t.duration >= 0.0
      ensures stage == old(stage)[v.ticket := InTreatment(v.name, v.arrival, now, t.duration)]
      ensures bedsInUse == old(bedsInUse) && patientLog == old(patientLog)
      ensures occupancyLog == old(occupancyLog) && arrivals == old(arrivals)
    {
      assert StageAt(stage, staff.users, staff.queue, clock, v.ticket);
      var duration := TreatmentTime(params, |staff.users|, d);
      BeginKeeps(params, bedCapacity, bedsInUse, staff.users, staff.queue, stage,
                 occupancyLog, patientLog, clock, arrivals, v.ticket, now, duration);
      clock := now;
      t := Treatment(v, now, duration);
      stage := stage[v.ticket := InTreatment(v.name, v.arrival, now, duration)];
    }

    /** The treatment ends: the bed is freed and sampled, the discharge is logged, and the
        staff member goes to the next patient in the queue, whose ticket is returned. */
    method Discharge(t: Treatment) returns (next: Option<Ticket>)
      requires Valid()
      requires t.visit.ticket in stage
      requires stage[t.visit.ticket] == InTreatment(t.visit.name, t.visit.arrival, t.start, t.duration)
      requires clock <= t.start + t.duration
      modifies this, staff
      ensures Valid()
      ensures clock == t.start + t.duration && arrivals == old(arrivals)
      ensures bedsInUse == old(bedsInUse) - 1
      ensures occupancyLog == old(occupancyLog) + [Sample(clock, bedsInUse)]
      ensures patientLog == old(patientLog) + [DischargeRecord(t.visit.name, t.visit.arrival, t.start, t.duration)]
      ensures next == (if old(staff.queue) == [] then None else Some(old(staff.queue)[0]))
      ensures staff.users == Remove(old(staff.users), t.visit.ticket) + (if old(staff.queue) == [] then [] else [old(staff.queue)[0]])
      ensures staff.queue == (if old(staff.queue) == [] then [] else old(staff.queue)[1..])
      ensures stage == old(stage) - {t.visit.ticket}
    {
      DischargeKeeps(params, bedCapacity, bedsInUse, staff.users, staff.queue, stage,
                     occupancyLog, patientLog, clock, arrivals, t.visit.ticket);
      var now := t.start + t.duration;
      clock := now;
      bedsInUse := bedsInUse - 1;
      occupancyLog := occupancyLog + [Sample(now, bedsInUse)];
      patientLog := patientLog + [DischargeRecord(t.visit.name, t.visit.arrival, t.start, t.duration)];
      stage := stage - {t.visit.ticket};
      // the staff member is released as the `with` block closes, after the bookkeeping
      next := staff.Release(t.visit.ticket);
    }
  }

  /** One patient through an empty ward: admitted as `P1` at time 0, granted a staff member
      at once, and logged under that same name with no wait. */
  method SingleVisitLogged(p: Params, d: Draw) returns (log: seq<WardRecord>)
    requires 0 < p.numStaff && 0 < p.numBeds
    requires 0.0 <= p.seniorServiceDays && 0.0 <= p.juniorServiceDays && 0.0 <= d.exponential
    ensures |log| == 1 && log[0].Discharged? && log[0].patientId == "P1"
    ensures log[0].arrivalTime == 0.0 && log[0].waitTime == 0.0
  {
    var h := new Hospital(p);
    var outcome := h.Arrive("P1", 1, 0.0);
    var t := h.BeginTreatment(Visit("P1", 1, 0.0), 0.0, d);
    var next := h.Discharge(t);
    log := h.patientLog;
  }

  /** `patient_source`: interarrival delays with mean `MINS_IN_DAY / arrival_rate`, patients
      `P1`, `P2`, ... until `simulation_duration` days have passed. */
  method PatientSource(p: Params, draws: seq<real>) returns (arrivals: seq<Arrivals.Arrival>)
    requires 0.0 < p.arrivalRate
    ensures |arrivals| <= |draws|
    ensures forall k :: 0 <= k < |arrivals| ==>
              && arrivals[k].name == Arrivals.PatientName(k + 1)
              && arrivals[k].time == Arrivals.Clock(MinsInDay / p.arrivalRate, draws, k + 1)
              && arrivals[k].time < p.simulationDuration * MinsInDay
    ensures |arrivals| < |draws| ==>
              p.simulationDuration * MinsInDay <= Arrivals.Clock(MinsInDay / p.arrivalRate, draws, |arrivals| + 1)
  {
    arrivals := Arrivals.Generate(MinsInDay / p.arrivalRate, draws, p.simulationDuration * MinsInDay);
  }
}
