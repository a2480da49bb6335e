/** The patient generator shared by both ward variants: a long-lived loop that waits an
    exponentially distributed interarrival time, then spawns the next patient `P1`, `P2`, ...
    The random delays are inputs: `draws[k]` is the k-th standard exponential sample, so the
    k-th delay is `scale * draws[k]` (what `np.random.exponential(scale)` returns). */
module Arrivals {

  function DigitChar(d: nat): char
    requires d < 10
  {
    "0123456789"[d]
  }

  /** Decimal spelling of a natural number, as Python's f-string `{n}` writes it. */
  function Decimal(n: nat): (s: string)
    ensures 1 <= |s|
    ensures n < 10 <==> |s| == 1
    ensures forall i :: 0 <= i < |s| ==> '0' <= s[i] <= '9'
    ensures 0 < n ==> s[0] != '0'
  {
    if n < 10 then [DigitChar(n)] else Decimal(n / 10) + [DigitChar(n % 10)]
  }

  /** The identifier of the `id`-th generated patient: `f'P{patient_id}'`. */
  function PatientName(id: nat): string {
    "P" + Decimal(id)
  }

  lemma DigitCharInjective(a: nat, b: nat)
    requires a < 10 && b < 10 && DigitChar(a) == DigitChar(b)
    ensures a == b
  {
  }

  /** Two numbers with the same spelling are equal. */
  lemma {:induction false} DecimalInjective(a: nat, b: nat)
    requires Decimal(a) == Decimal(b)
    ensures a == b
  {
    if a < 10 {
      DigitCharInjective(a, b);
    } else {
      var sa, sb := Decimal(a), Decimal(b);
      assert sa[|sa| - 1] == DigitChar(a % 10) && sb[|sb| - 1] == DigitChar(b % 10);
      DigitCharInjective(a % 10, b % 10);
      assert sa[..|sa| - 1] == Decimal(a / 10);
      assert sb[..|sb| - 1] == Decimal(b / 10);
      DecimalInjective(a / 10, b / 10);
    }
  }

  /** Distinct sequence numbers give distinct patient identifiers. */
  lemma PatientNamesDistinct(i: nat, j: nat)
    requires i != j
    ensures PatientName(i) != PatientName(j)
  {
    if PatientName(i) == PatientName(j) {
      assert Decimal(i) == PatientName(i)[1..];
      assert Decimal(j) == PatientName(j)[1..];
      DecimalInjective(i, j);
    }
  }

  /** A spawned patient: its identifier, its sequence number and its arrival time. */
  datatype Arrival = Arrival(name: string, id: nat, time: real)

  /** Virtual time after the generator's first `k` delays. */
  function Clock(scale: real, draws: seq<real>, k: nat): real
    requires k <= |draws|
  {
    if k == 0 then 0.0 else Clock(scale, draws, k - 1) + scale * draws[k - 1]
  }

  /** With non-negative delays the generator's clock never moves backward. */
  lemma {:induction false} ClockMonotone(scale: real, draws: seq<real>, j: nat, k: nat)
    requires 0.0 <= scale
    requires forall i :: 0 <= i < |draws| ==> 0.0 <= draws[i]
    requires j <= k <= |draws|
    ensures 0.0 <= Clock(scale, draws, j) <= Clock(scale, draws, k)
  {
    if j < k {
      ClockMonotone(scale, draws, j, k - 1);
      assert 0.0 <= scale * draws[k - 1];
    } else if 0 < j {
      ClockMonotone(scale, draws, j - 1, j);
    }
  }

  /** The generator loop run against a finite stream of draws and a horizon: the patient
      spawned after the k-th delay is `P{k}` at the clock reached then; the first delay that
      reaches the horizon ends the run (an event due at the horizon itself is not processed). */
  method Generate(scale: real, draws: seq<real>, horizon: real) returns (arrivals: seq<Arrival>)
    ensures |arrivals| <= |draws|
    ensures forall k :: 0 <= k < |arrivals| ==>
              arrivals[k] == Arrival(PatientName(k + 1), k + 1, Clock(scale, draws, k + 1))
    ensures forall k :: 0 <= k < |arrivals| ==> arrivals[k].time < horizon
    ensures |arrivals| < |draws| ==> horizon <= Clock(scale, draws, |arrivals| + 1)
  {
    var patientId := 0;
    var now := 0.0;
    arrivals := [];
    while patientId < |draws|
      invariant patientId <= |draws| && |arrivals| == patientId
      invariant now == Clock(scale, draws, patientId)
      invariant forall k :: 0 <= k < |arrivals| ==>
                  arrivals[k] == Arrival(PatientName(k + 1), k + 1, Clock(scale, draws, k + 1))
      invariant forall k :: 0 <= k < |arrivals| ==> arrivals[k].time < horizon
    {
      var next := now + scale * draws[patientId];
      if horizon <= next {
        assert next == Clock(scale, draws, patientId + 1);
        return;
      }
      now := next;
      patientId := patientId + 1;
      arrivals := arrivals + [Arrival(PatientName(patientId), patientId, now)];
    }
  }

  /** The generated identifiers are pairwise distinct and the arrival times are in order. */
  lemma GeneratedInOrder(scale: real, draws: seq<real>, arrivals: seq<Arrival>, i: nat, j: nat)
    requires 0.0 <= scale
    requires forall k :: 0 <= k < |draws| ==> 0.0 <= draws[k]
    requires |arrivals| <= |draws|
    requires forall k :: 0 <= k < |arrivals| ==>
               arrivals[k] == Arrival(PatientName(k + 1), k + 1, Clock(scale, draws, k + 1))
    requires i < j < |arrivals|
    ensures arrivals[i].name != arrivals[j].name
    ensures 0.0 <= arrivals[i].time <= arrivals[j].time
  {
    PatientNamesDistinct(i + 1, j + 1);
    ClockMonotone(scale, draws, i + 1, j + 1);
  }
}
