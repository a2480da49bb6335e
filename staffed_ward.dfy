/** The two-pool staffing variant: a ward of `NUM_BEDS` beds, each patient taking a bed
    and then racing a request to the senior pool against one to the junior pool; the first
    pool to grant treats the patient at a rate that degrades when patients outnumber
    `ALPHA` times the staff on duty. The pools are explicit FIFO resources, so the race
    can cancel its losing request, as the comment at assets/simulation.py:57 says it does. */
module StaffedWard {
  import opened Common
  import opened Pools
  import Arrivals

  /** `SIM_TIME_MINUTES`: one week. */
  const SimTimeMinutes: real := 10080.0
  /** `PATIENT_ARRIVAL_RATE`: six patients per day, per minute. */
  const PatientArrivalRate: real := 6.0 / 1440.0
  /** `AVG_TREATMENT_TIME_SENIOR_MINUTES`: two and a half days. */
  const AvgTreatmentSeniorMinutes: real := 3600.0
  /** `AVG_TREATMENT_TIME_JUNIOR_MINUTES`: three and a half days. */
  const AvgTreatmentJuniorMinutes: real := 5040.0
  const NumSeniorStaff: nat := 7
  const NumJuniorStaff: nat := 8
  const NumBeds: nat := 20
  /** `ALPHA`: patients a staff member handles before performance degrades. */
  const Alpha: real := 1.0

  datatype StaffType = Senior | Junior

  /** `mu_ideal`: the ideal service rate of the staff type that won the race. */
  function IdealRate(st: StaffType): (mu: real)
    ensures 0.0 < mu
    ensures st == Senior ==> mu * AvgTreatmentSeniorMinutes == 1.0
    ensures st == Junior ==> mu * AvgTreatmentJuniorMinutes == 1.0
  {
    if st == Senior then 1.0 / AvgTreatmentSeniorMinutes else 1.0 / AvgTreatmentJuniorMinutes
  }

  /** A senior serves faster than a junior. */
  lemma SeniorFaster()
    ensures IdealRate(Junior) < IdealRate(Senior)
  {
  }

  /** The patient count used by the degradation formula: an empty ward counts as one. */
  function ClampedCount(n: nat): (m: nat)
    ensures 1 <= m
    ensures 0 < n ==> m == n
  {
    if n == 0 then 1 else n
  }

  /** A quotient by a positive number is below 1 exactly when the dividend is below the divisor. */
  lemma DivBelowOne(a: real, m: real)
    requires 0.0 < m
    ensures a / m < 1.0 <==> a < m
  {
    var r := a / m;
    assert r * m == a;
    if r < 1.0 {
      assert (1.0 - r) * m > 0.0;
    } else {
      assert (r - 1.0) * m >= 0.0;
    }
  }

  /** Dividing a non-negative number by a larger divisor gives a smaller quotient. */
  lemma DivAntitone(a: real, m1: real, m2: real)
    requires 0.0 <= a && 0.0 < m1 <= m2
    ensures a / m2 <= a / m1
  {
    var r1, r2 := a / m1, a / m2;
    assert r1 * m1 == a && r2 * m2 == a;
    assert 0.0 <= r2;
    assert r2 * m1 <= r2 * m2;
    if r1 < r2 {
      assert r1 * m1 < r2 * m1;
    }
  }

  /** `min(1, ALPHA * s / n)` with `n` clamped to 1: the share of the ideal rate reached
      when `staffing` (that is `ALPHA * s`) faces `n` patients in beds. */
  function Efficiency(staffing: real, n: nat): (f: real)
    ensures f <= 1.0
    ensures 0.0 < staffing ==> 0.0 < f
    ensures f == 1.0 <==> staffing >= ClampedCount(n) as real
  {
    var m := ClampedCount(n) as real;
    DivBelowOne(staffing, m);
    Min(1.0, staffing / m)
  }

  /** More patients in beds never raise the efficiency. */
  lemma EfficiencyAntitone(staffing: real, n1: nat, n2: nat)
    requires 0.0 <= staffing && n1 <= n2
    ensures Efficiency(staffing, n2) <= Efficiency(staffing, n1)
  {
    DivAntitone(staffing, ClampedCount(n1) as real, ClampedCount(n2) as real);
  }

  /** A positive product of a positive rate and a positive share; the share at most 1
      keeps it at most the rate, and below 1 strictly below it. */
  lemma ScaleByShare(mu: real, f: real)
    requires f <= 1.0
    ensures 0.0 < mu ==> mu * f <= mu
    ensures 0.0 < mu && f < 1.0 ==> mu * f < mu
    ensures 0.0 < mu && 0.0 < f ==> 0.0 < mu * f
  {
    assert mu - mu * f == mu * (1.0 - f);
  }

  /** A product of two positive factors is positive. */
  lemma PositiveProduct(x: real, y: real)
    ensures 0.0 < x && 0.0 < y ==> 0.0 < x * y
  {
  }

  /** `mu_actual = mu_ideal * min(1, ALPHA * s / n)` with `n` clamped to 1. */
  function MuActual(muIdeal: real, alpha: real, s: nat, n: nat): (mu: real)
    ensures alpha * (s as real) >= ClampedCount(n) as real ==> mu == muIdeal
  {
    muIdeal * Efficiency(alpha * (s as real), n)
  }

  /** The actual rate is positive and at most the ideal one; it equals the ideal rate
      exactly when the weighted staff cover the patients in beds. */
  lemma MuActualBounds(muIdeal: real, alpha: real, s: nat, n: nat)
    ensures 0.0 < muIdeal && 0.0 < alpha && 0 < s ==> 0.0 < MuActual(muIdeal, alpha, s, n) <= muIdeal
    ensures alpha * (s as real) >= ClampedCount(n) as real ==> MuActual(muIdeal, alpha, s, n) == muIdeal
    ensures 0.0 < muIdeal && alpha * (s as real) < ClampedCount(n) as real ==> MuActual(muIdeal, alpha, s, n) < muIdeal
  {
    var f := Efficiency(alpha * (s as real), n);
    ScaleByShare(muIdeal, f);
    PositiveProduct(alpha, s as real);
  }

  /** More patients in beds never speed the service up. */
  lemma MuActualAntitone(muIdeal: real, alpha: real, s: nat, n1: nat, n2: nat)
    requires 0.0 <= muIdeal && 0.0 <= alpha
    requires n1 <= n2
    ensures MuActual(muIdeal, alpha, s, n2) <= MuActual(muIdeal, alpha, s, n1)
  {
    var staffing := alpha * (s as real);
    StaffingNonNegative(alpha, s);
    RateAntitone(muIdeal, staffing, n1, n2);
    assert MuActual(muIdeal, alpha, s, n1) == muIdeal * Efficiency(staffing, n1);
    assert MuActual(muIdeal, alpha, s, n2) == muIdeal * Efficiency(staffing, n2);
  }

  /** Weighted staff numbers are never negative. */
  lemma StaffingNonNegative(alpha: real, s: nat)
    requires 0.0 <= alpha
    ensures 0.0 <= alpha * (s as real)
  {
  }

  /** The rate `muIdeal * Efficiency(staffing, n)` falls as `n` grows. */
  lemma RateAntitone(muIdeal: real, staffing: real, n1: nat, n2: nat)
    requires 0.0 <= muIdeal && 0.0 <= staffing
    requires n1 <= n2
    ensures muIdeal * Efficiency(staffing, n2) <= muIdeal * Efficiency(staffing, n1)
  {
    EfficiencyAntitone(staffing, n1, n2);
    ScaleMonotone(muIdeal, Efficiency(staffing, n2), Efficiency(staffing, n1));
  }

  /** Scaling by a non-negative factor keeps the order. */
  lemma ScaleMonotone(c: real, x: real, y: real)
    requires 0.0 <= c && x <= y
    ensures c * x <= c * y
  {
    assert c * y - c * x == c * (y - x);
  }

  /** `np.random.exponential(1.0 / mu_actual)` for a standard exponential draw `e`. */
  function TreatmentMinutes(mu: real, e: real): (d: real)
    requires 0.0 < mu
    ensures 0.0 <= e ==> 0.0 <= d
    ensures d * mu == e
  {
    (1.0 / mu) * e
  }

  /** The treatment time of a patient served by `st` while `n` beds are taken. */
  function DegradedMinutes(st: StaffType, n: nat, e: real): (d: real)
    ensures 0.0 <= e ==> 0.0 <= d
    ensures n <= NumSeniorStaff + NumJuniorStaff ==> d * IdealRate(st) == e
  {
    TreatmentMinutes(MuActual(IdealRate(st), Alpha, NumSeniorStaff + NumJuniorStaff, n), e)
  }

  // ---------------------------------------------------------------------------------------
  // The log

  /** One row of `patient_log`. */
  datatype Record =
    | Balked(name: string, arrivalTime: real)
    | Discharged(name: string, arrivalTime: real, waitedForBed: real, waitedForStaff: real,
                 treatmentDuration: real, staffType: StaffType)

  /** A patient's bed is granted at its arrival (a balk is the alternative), so its record
      shows no wait for a bed; the other two durations are non-negative. */
  predicate RecordWellFormed(r: Record) {
    r.Discharged? ==> r.waitedForBed == 0.0 && 0.0 <= r.waitedForStaff && 0.0 <= r.treatmentDuration
  }

  predicate RecordsWellFormed(log: seq<Record>) {
    forall i :: 0 <= i < |log| ==> RecordWellFormed(log[i])
  }

  lemma RecordsAppend(log: seq<Record>, r: Record)
    requires RecordsWellFormed(log) && RecordWellFormed(r)
    ensures RecordsWellFormed(log + [r])
  {
    assert forall i :: 0 <= i < |log| ==> (log + [r])[i] == log[i];
  }

  /** The record of a patient that arrived at `arrival`, got its bed at `bedAssign`, its
      staff member at `staffAssign` and finished at `end`. */
  function DischargeRecord(name: string, arrival: real, bedAssign: real, staffAssign: real, end: real,
                           st: StaffType): (r: Record)
    ensures r.Discharged? && r.staffType == st
    ensures r.arrivalTime + r.waitedForBed + r.waitedForStaff + r.treatmentDuration == end
    ensures arrival == bedAssign <= staffAssign <= end ==> RecordWellFormed(r)
  {
    Discharged(name, arrival, bedAssign - arrival, staffAssign - bedAssign, end - staffAssign, st)
  }

  // ---------------------------------------------------------------------------------------
  // The patient process

  datatype Visit = Visit(name: string, ticket: Ticket, arrival: real)

  /** A patient whose race was won by `staffType` at `start`, to be treated for `duration`. */
  datatype Treatment = Treatment(visit: Visit, staffType: StaffType, start: real, duration: real)

  /** Outcome of an arrival: a balk, or a bed with the two staff requests made, each
      possibly granted at once. */
  datatype Outcome = Balk | Bedded(visit: Visit, seniorGranted: bool, juniorGranted: bool)

  /** Where a bedded patient is: racing its two staff requests, or in treatment; the name
      is the one it arrived with. */
  datatype Stage =
    | Racing(name: string, arrival: real)
    | Treating(name: string, arrival: real, staffType: StaffType, start: real, duration: real)

  /** The granted and pending requests of the three pools. */
  datatype PoolState = PoolState(
    beds: seq<Ticket>, bedQueue: seq<Ticket>,
    senior: seq<Ticket>, seniorQueue: seq<Ticket>,
    junior: seq<Ticket>, juniorQueue: seq<Ticket>)

  /** Ticket `t` on the pool of `st`: a request there belongs to a racing patient or to one
      treated by `st`, a racing patient has a request there, and a patient treated by `st`
      holds a unit. So no unit is ever held for a patient treated by the other type. */
  ghost predicate StaffAgreesAt(stage: map<Ticket, Stage>, u: seq<Ticket>, q: seq<Ticket>, st: StaffType, t: Ticket) {
    && (t in u || t in q ==> t in stage && (stage[t].Racing? || stage[t].staffType == st))
    && (t in stage && stage[t].Racing? ==> t in u || t in q)
    && (t in stage && stage[t].Treating? && stage[t].staffType == st ==> t in u)
  }

  /** What the ward knows of ticket `t`: it holds a bed exactly when it is a patient in the
      ward, its two staff requests agree with its stage, and its times are in order. */
  ghost predicate TicketAgrees(ps: PoolState, stage: map<Ticket, Stage>, clock: real, t: Ticket) {
    && (t in stage <==> t in ps.beds)
    && StaffAgreesAt(stage, ps.senior, ps.seniorQueue, Senior, t)
    && StaffAgreesAt(stage, ps.junior, ps.juniorQueue, Junior, t)
    && (t in stage ==> 0.0 <= stage[t].arrival <= clock)
    && (t in stage && stage[t].Treating? ==>
          stage[t].arrival <= stage[t].start <= clock && 0.0 <= stage[t].duration)
  }

  /** The bookkeeping the ward keeps between events: nobody queues for a bed, every ticket
      agrees with the pools, the log is well formed, and the records logged plus the beds
      in use equal the arrivals. */
  ghost predicate Consistent(ps: PoolState, stage: map<Ticket, Stage>, log: seq<Record>, clock: real, arrivals: nat) {
    && ps.bedQueue == []
    && 0.0 <= clock
    && (forall t :: TicketAgrees(ps, stage, clock, t))
    && RecordsWellFormed(log)
    && |log| + |ps.beds| == arrivals
  }

  lemma BalkKeeps(ps: PoolState, stage: map<Ticket, Stage>, log: seq<Record>, clock: real, arrivals: nat,
                  name: string, now: real)
    requires Consistent(ps, stage, log, clock, arrivals) && clock <= now
    ensures Consistent(ps, stage, log + [Balked(name, now)], now, arrivals + 1)
  {
    RecordsAppend(log, Balked(name, now));
    forall x ensures TicketAgrees(ps, stage, now, x) {
      assert TicketAgrees(ps, stage, clock, x);
    }
  }

  /** The pools once `t`, just given a bed, has requested both staff types; each request
      is granted or queued as the pool's free units allow. */
  function Admitted(ps: PoolState, t: Ticket, seniorGranted: bool, juniorGranted: bool): PoolState {
    ps.(beds := ps.beds + [t],
        senior := if seniorGranted then ps.senior + [t] else ps.senior,
        seniorQueue := if seniorGranted then ps.seniorQueue else ps.seniorQueue + [t],
        junior := if juniorGranted then ps.junior + [t] else ps.junior,
        juniorQueue := if juniorGranted then ps.juniorQueue else ps.juniorQueue + [t])
  }

  lemma AdmitKeeps(ps: PoolState, stage: map<Ticket, Stage>, log: seq<Record>, clock: real, arrivals: nat,
                   t: Ticket, name: string, now: real, seniorGranted: bool, juniorGranted: bool)
    requires Consistent(ps, stage, log, clock, arrivals) && clock <= now && t !in stage
    ensures Consistent(Admitted(ps, t, seniorGranted, juniorGranted), stage[t := Racing(name, now)], log, now, arrivals + 1)
  {
    var ps', stage' := Admitted(ps, t, seniorGranted, juniorGranted), stage[t := Racing(name, now)];
    assert TicketAgrees(ps, stage, clock, t);
    forall x ensures TicketAgrees(ps', stage', now, x) {
      assert TicketAgrees(ps, stage, clock, x);
    }
  }

  /** The result of cancelling request `t` on a pool: a granted request is released, its
      unit passing to the head of the queue; a pending one leaves the queue. */
  function CancelUsers(u: seq<Ticket>, q: seq<Ticket>, t: Ticket): seq<Ticket> {
    if t in u then Remove(u, t) + (if q == [] then [] else [q[0]]) else u
  }

  function CancelQueue(u: seq<Ticket>, q: seq<Ticket>, t: Ticket): seq<Ticket> {
    if t in u then (if q == [] then [] else q[1..]) else Remove(q, t)
  }

  /** A ticket is in a pool after a cancellation of `t` exactly when it was in it before and
      is not `t`: the loser's request disappears and nothing else changes membership. */
  lemma CancelMembers(u: seq<Ticket>, q: seq<Ticket>, t: Ticket, x: Ticket)
    requires NoDuplicates(u) && NoDuplicates(q) && (forall y :: y in u ==> y !in q)
    ensures (x in CancelUsers(u, q, t) || x in CancelQueue(u, q, t)) <==> (x in u || x in q) && x != t
    ensures x in u && x != t ==> x in CancelUsers(u, q, t)
  {
    RemoveNoDuplicates(u, t);
    RemoveNoDuplicates(q, t);
    if t in u && q != [] {
      assert x in q <==> x == q[0] || x in q[1..];
    }
  }

  /** The pools once the race of `t` is resolved for `winner`: the winner's pool keeps its
      grant and the other request is cancelled. */
  function Resolved(ps: PoolState, t: Ticket, winner: StaffType): PoolState {
    if winner == Senior then
      ps.(junior := CancelUsers(ps.junior, ps.juniorQueue, t), juniorQueue := CancelQueue(ps.junior, ps.juniorQueue, t))
    else
      ps.(senior := CancelUsers(ps.senior, ps.seniorQueue, t), seniorQueue := CancelQueue(ps.senior, ps.seniorQueue, t))
  }

  /** Resolving the race for `winner` and cancelling the other request. */
  lemma AssignKeeps(ps: PoolState, stage: map<Ticket, Stage>, log: seq<Record>, clock: real, arrivals: nat,
                    t: Ticket, winner: StaffType, now: real, duration: real)
    requires Consistent(ps, stage, log, clock, arrivals) && clock <= now && 0.0 <= duration
    requires t in stage && stage[t].Racing?
    requires NoDuplicates(ps.senior) && NoDuplicates(ps.seniorQueue) && (forall x :: x in ps.senior ==> x !in ps.seniorQueue)
    requires NoDuplicates(ps.junior) && NoDuplicates(ps.juniorQueue) && (forall x :: x in ps.junior ==> x !in ps.juniorQueue)
    requires t in (if winner == Senior then ps.senior else ps.junior)
    ensures Consistent(Resolved(ps, t, winner), stage[t := Treating(stage[t].name, stage[t].arrival, winner, now, duration)],
                       log, now, arrivals)
  {
    var ps', stage' := Resolved(ps, t, winner), stage[t := Treating(stage[t].name, stage[t].arrival, winner, now, duration)];
    forall x ensures TicketAgrees(ps', stage', now, x) {
      assert TicketAgrees(ps, stage, clock, x);
      if winner == Senior {
        CancelMembers(ps.junior, ps.juniorQueue, t, x);
      } else {
        CancelMembers(ps.senior, ps.seniorQueue, t, x);
      }
    }
  }

  /** The pool state after `t`'s unit of a pool is released. */
  function ReleasedUsers(u: seq<Ticket>, q: seq<Ticket>, t: Ticket): seq<Ticket> {
    Remove(u, t) + (if q == [] then [] else [q[0]])
  }

  function ReleasedQueue(q: seq<Ticket>): seq<Ticket> {
    if q == [] then [] else q[1..]
  }

  /** After `t` releases its unit, a ticket holds or awaits one exactly when it did before
      and is not `t`; a holder other than `t` keeps its unit. */
  lemma ReleaseMembers(u: seq<Ticket>, q: seq<Ticket>, t: Ticket, x: Ticket)
    requires t in u && NoDuplicates(u) && (forall y :: y in u ==> y !in q)
    ensures (x in ReleasedUsers(u, q, t) || x in ReleasedQueue(q)) <==> (x in u || x in q) && x != t
    ensures x in u && x != t ==> x in ReleasedUsers(u, q, t)
  {
    RemoveNoDuplicates(u, t);
    if q != [] {
      assert x in q <==> x == q[0] || x in q[1..];
    }
  }

  /** The head of a queue: the ticket a released unit passes to. */
  function Head(q: seq<Ticket>): Option<Ticket> {
    if q == [] then None else Some(q[0])
  }

  /** The pools once `t`, treated by `st`, has released its staff unit and then its bed. */
  function AfterDischarge(ps: PoolState, t: Ticket, st: StaffType): PoolState {
    var staffed :=
      if st == Senior then ps.(senior := ReleasedUsers(ps.senior, ps.seniorQueue, t), seniorQueue := ReleasedQueue(ps.seniorQueue))
      else ps.(junior := ReleasedUsers(ps.junior, ps.juniorQueue, t), juniorQueue := ReleasedQueue(ps.juniorQueue));
    staffed.(beds := ReleasedUsers(ps.beds, ps.bedQueue, t), bedQueue := ReleasedQueue(ps.bedQueue))
  }

  lemma DischargeKeeps(ps: PoolState, stage: map<Ticket, Stage>, log: seq<Record>, clock: real, arrivals: nat,
                       t: Ticket)
    requires Consistent(ps, stage, log, clock, arrivals)
    requires t in stage && stage[t].Treating? && clock <= stage[t].start + stage[t].duration
    requires NoDuplicates(ps.beds)
    requires NoDuplicates(ps.senior) && (forall x :: x in ps.senior ==> x !in ps.seniorQueue)
    requires NoDuplicates(ps.junior) && (forall x :: x in ps.junior ==> x !in ps.juniorQueue)
    ensures var s := stage[t];
            Consistent(AfterDischarge(ps, t, s.staffType), stage - {t},
                       log + [DischargeRecord(s.name, s.arrival, s.arrival, s.start, s.start + s.duration, s.staffType)],
                       s.start + s.duration, arrivals)
  {
    var s := stage[t];
    var now := s.start + s.duration;
    var ps', stage' := AfterDischarge(ps, t, s.staffType), stage - {t};
    assert TicketAgrees(ps, stage, clock, t);
    RecordsAppend(log, DischargeRecord(s.name, s.arrival, s.arrival, s.start, now, s.staffType));
    RemoveNoDuplicates(ps.beds, t);
    forall x ensures TicketAgrees(ps', stage', now, x) {
      assert TicketAgrees(ps, stage, clock, x);
      ReleaseMembers(ps.beds, ps.bedQueue, t, x);
      if s.staffType == Senior {
        ReleaseMembers(ps.senior, ps.seniorQueue, t, x);
      } else {
        ReleaseMembers(ps.junior, ps.juniorQueue, t, x);
      }
    }
  }

  /** The ward: the `hospital` dictionary's three pools and the module-level `patient_log`. */
  class Hospital {
    const beds: Pool
    const senior: Pool
    const junior: Pool
    var patientLog: seq<Record>

    /** Virtual time of the last event the ward took part in. */
    ghost var clock: real
    /** Number of patients that have arrived. */
    ghost var arrivals: nat
    /** The patients holding a bed, by ticket. */
    ghost var stage: map<Ticket, Stage>

    ghost function Pools(): PoolState
      reads beds, senior, junior
    {
      PoolState(beds.users, beds.queue, senior.users, senior.queue, junior.users, junior.queue)
    }

    ghost predicate PoolsValid()
      reads beds, senior, junior
    {
      && beds.Valid() && senior.Valid() && junior.Valid()
      && beds != senior && beds != junior && senior != junior
      && beds.capacity == NumBeds && senior.capacity == NumSeniorStaff && junior.capacity == NumJuniorStaff
    }

    ghost predicate Valid()
      reads this, beds, senior, junior
    {
      PoolsValid() && Consistent(Pools(), stage, patientLog, clock, arrivals)
    }

    constructor ()
      ensures Valid() && fresh(beds) && fresh(senior) && fresh(junior)
      ensures patientLog == [] && clock == 0.0 && arrivals == 0 && stage == map[]
      ensures beds.users == [] && senior.users == [] && junior.users == []
      ensures senior.queue == [] && junior.queue == []
    {
      beds := new Pool(NumBeds);
      senior := new Pool(NumSeniorStaff);
      junior := new Pool(NumJuniorStaff);
      patientLog := [];
      clock := 0.0;
      arrivals := 0;
      stage := map[];
    }

    /** A patient arrives at `now`: with every bed taken it balks, is logged and requests
        nothing; otherwise its bed is granted at once and it requests both staff types. */
    method Arrive(name: string, ticket: Ticket, now: real) returns (outcome: Outcome)
      requires Valid() && clock <= now && ticket !in stage
      modifies this, beds, senior, junior
      ensures Valid() && clock == now && arrivals == old(arrivals) + 1
      ensures old(beds.Count()) >= beds.capacity ==>
                && outcome == Balk
                && patientLog == old(patientLog) + [Balked(name, now)]
                && Pools() == old(Pools()) && stage == old(stage)
      ensures old(beds.Count()) < beds.capacity ==>
                && outcome == Bedded(Visit(name, ticket, now), old(senior.Count()) < senior.capacity,
                                     old(junior.Count()) < junior.capacity)
                && patientLog == old(patientLog)
                && Pools() == Admitted(old(Pools()), ticket, outcome.seniorGranted, outcome.juniorGranted)
                && stage == old(stage)[ticket := Racing(name, now)]
    {
      if beds.Count() >= beds.capacity {
        BalkKeeps(Pools(), stage, patientLog, clock, arrivals, name, now);
        patientLog := patientLog + [Balked(name, now)];
        clock := now;
        arrivals := arrivals + 1;
        outcome := Balk;
      } else {
        assert TicketAgrees(Pools(), stage, clock, ticket);
        AdmitKeeps(Pools(), stage, patientLog, clock, arrivals, ticket, name, now,
                   senior.Count() < senior.capacity, junior.Count() < junior.capacity);
        var bed := beds.Request(ticket);
        var s := senior.Request(ticket);
        var j := junior.Request(ticket);
        clock := now;
        arrivals := arrivals + 1;
        stage := stage[ticket := Racing(name, now)];
        outcome := Bedded(Visit(name, ticket, now), s, j);
      }
    }

    /** The race resolves at `now`, when one of the two requests has been granted; a
        senior grant wins when both are. The treatment time is drawn from the winner's rate
        degraded by the current bed count, and the losing request is cancelled: withdrawn
        when pending, released when granted, its unit then passing to the returned ticket. */
    method AssignStaff(v: Visit, now: real, e: real) returns (t: Treatment, freed: Option<Ticket>)
      requires Valid() && clock <= now && 0.0 <= e
      requires v.ticket in stage && stage[v.ticket] == Racing(v.name, v.arrival)
      requires v.ticket in senior.users || v.ticket in junior.users
      modifies this, senior, junior
      ensures Valid() && clock == now && arrivals == old(arrivals) && patientLog == old(patientLog)
      ensures t.visit == v && t.start == now
      ensures t.staffType == (if old(v.ticket in senior.users) then Senior else Junior)
      ensures t.duration == DegradedMinutes(t.staffType, beds.Count(), e)
      ensures Pools() == Resolved(old(Pools()), v.ticket, t.staffType)
      ensures freed == (if t.staffType == Senior && v.ticket in old(junior.users) then Head(old(junior.queue)) else None)
      ensures stage == old(stage)[v.ticket := Treating(v.name, v.arrival, t.staffType, now, t.duration)]
    {
      var st := if v.ticket in senior.users then Senior else Junior;
      var duration := DegradedMinutes(st, beds.Count(), e);
      AssignKeeps(Pools(), stage, patientLog, clock, arrivals, v.ticket, st, now, duration);
      var loser := if st == Senior then junior else senior;
      if v.ticket in loser.users {
        freed := loser.Release(v.ticket);
      } else {
        loser.Withdraw(v.ticket);
        freed := None;
      }
      clock := now;
      stage := stage[v.ticket := Treating(v.name, v.arrival, st, now, duration)];
      t := Treatment(v, st, now, duration);
    }

    /** The race as written: the type is chosen the same way, and the other request is left
        on its pool. */
    method AssignStaffAsWritten(v: Visit, now: real, e: real) returns (t: Treatment)
      requires Valid() && clock <= now && 0.0 <= e
      requires v.ticket in stage && stage[v.ticket] == Racing(v.name, v.arrival)
      requires v.ticket in senior.users || v.ticket in junior.users
      modifies this
      ensures PoolsValid() && clock == now && patientLog == old(patientLog)
      ensures arrivals == old(arrivals)
      ensures t == Treatment(v, if v.ticket in senior.users then Senior else Junior, now,
                             DegradedMinutes(t.staffType, beds.Count(), e))
      ensures stage == old(stage)[v.ticket := Treating(v.name, v.arrival, t.staffType, now, t.duration)]
    {
      var st := if v.ticket in senior.users then Senior else Junior;
      var duration := DegradedMinutes(st, beds.Count(), e);
      clock := now;
      stage := stage[v.ticket := Treating(v.name, v.arrival, st, now, duration)];
      t := Treatment(v, st, now, duration);
    }

    /** The treatment ends: the unit of the granted pool is released (passing to the head of
        that pool's queue, whose ticket is returned), the discharge is logged, and the bed
        is released as the `with` block closes. */
    method Discharge(t: Treatment) returns (next: Option<Ticket>)
      requires Valid()
      requires t.visit.ticket in stage
      requires stage[t.visit.ticket] == Treating(t.visit.name, t.visit.arrival, t.staffType, t.start, t.duration)
      requires clock <= t.start + t.duration
      modifies this, beds, senior, junior
      ensures Valid() && clock == t.start + t.duration && arrivals == old(arrivals)
      ensures patientLog == old(patientLog) +
                [DischargeRecord(t.visit.name, t.visit.arrival, t.visit.arrival, t.start, clock, t.staffType)]
      ensures Pools() == AfterDischarge(old(Pools()), t.visit.ticket, t.staffType)
      ensures next == Head(if t.staffType == Senior then old(senior.queue) else old(junior.queue))
      ensures stage == old(stage) - {t.visit.ticket}
    {
      assert TicketAgrees(Pools(), stage, clock, t.visit.ticket);
      DischargeKeeps(Pools(), stage, patientLog, clock, arrivals, t.visit.ticket);
      var end := t.start + t.duration;
      patientLog := patientLog + [DischargeRecord(t.visit.name, t.visit.arrival, t.visit.arrival, t.start, end, t.staffType)];
      clock := end;
      stage := stage - {t.visit.ticket};
      next := ReleaseUnits(t.visit.ticket, t.staffType);
    }

    /** `staff_resource.release(staff_req_to_release)` on the pool of the granted type, then
        the release of the bed as the `with` block closes. */
    method ReleaseUnits(t: Ticket, st: StaffType) returns (next: Option<Ticket>)
      requires PoolsValid()
      requires t in beds.users && t in (if st == Senior then senior.users else junior.users)
      modifies beds, senior, junior
      ensures PoolsValid()
      ensures Pools() == AfterDischarge(old(Pools()), t, st)
      ensures next == Head(if st == Senior then old(senior.queue) else old(junior.queue))
    {
      if st == Senior {
        next := senior.Release(t);
      } else {
        next := junior.Release(t);
      }
      var _ := beds.Release(t);
    }
  }

  /** One patient arriving at an empty ward under the race as written: both pools have a
      free unit, the senior wins, and a junior stays taken by a patient the senior treats. */
  method PhantomStaffAsWritten() returns (seniorBusy: nat, juniorBusy: nat)
    ensures seniorBusy == 1 && juniorBusy == 1
  {
    var h := new Hospital();
    var outcome := h.Arrive("P1", 1, 0.0);
    var t := h.AssignStaffAsWritten(Visit("P1", 1, 0.0), 0.0, 1.0);
    seniorBusy, juniorBusy := h.senior.Count(), h.junior.Count();
  }

  /** The same arrival with the losing request cancelled: only the senior is taken. */
  method NoPhantomStaff() returns (seniorBusy: nat, juniorBusy: nat)
    ensures seniorBusy == 1 && juniorBusy == 0
  {
    var h := new Hospital();
    var outcome := h.Arrive("P1", 1, 0.0);
    var t, freed := h.AssignStaff(Visit("P1", 1, 0.0), 0.0, 1.0);
    seniorBusy, juniorBusy := h.senior.Count(), h.junior.Count();
  }

  /** One patient through an empty ward: bedded as `P1` at time 0, treated by a senior, and
      logged under that same name. */
  method SingleVisitLogged(e: real) returns (log: seq<Record>)
    requires 0.0 <= e
    ensures |log| == 1 && log[0].Discharged? && log[0].name == "P1"
    ensures log[0].staffType == Senior && log[0].waitedForBed == 0.0 && log[0].waitedForStaff == 0.0
  {
    var h := new Hospital();
    var outcome := h.Arrive("P1", 1, 0.0);
    var t, freed := h.AssignStaff(Visit("P1", 1, 0.0), 0.0, e);
    var next := h.Discharge(t);
    log := h.patientLog;
  }

  /** `patient_generator`: interarrival delays with mean `1 / PATIENT_ARRIVAL_RATE` (240
      minutes), patients `P1`, `P2`, ... until `SIM_TIME_MINUTES`. */
  method PatientGenerator(draws: seq<real>) returns (arrivals: seq<Arrivals.Arrival>)
    ensures |arrivals| <= |draws|
    ensures forall k :: 0 <= k < |arrivals| ==>
              && arrivals[k].name == Arrivals.PatientName(k + 1)
              && arrivals[k].time == Arrivals.Clock(240.0, draws, k + 1)
              && arrivals[k].time < SimTimeMinutes
    ensures |arrivals| < |draws| ==> SimTimeMinutes <= Arrivals.Clock(240.0, draws, |arrivals| + 1)
  {
    assert 1.0 / PatientArrivalRate == 240.0;
    arrivals := Arrivals.Generate(1.0 / PatientArrivalRate, draws, SimTimeMinutes);
  }
}
