/**
 * The global constraints of solvers/constraints.py: H5 (mandatory patients
 * unscheduled), H6 (admission window), S7 (admission delay) and S8
 * (optional patients unscheduled).
 */
module GlobalConstraints {
  import opened Wrappers
  import opened Collections
  import opened Hospital
  import opened Scoring

  /** `admitted_ids`: the ids of the solution's placements. */
  function AdmittedIds(sol: Solution): set<Id> {
    set i | 0 <= i < |sol.patients| :: sol.patients[i].id
  }

  /** The known patients of the given kind that no placement admits. */
  function Unscheduled(inst: Instance, sol: Solution, mandatory: bool): set<Id> {
    set id | id in PatientDict(inst) && PatientDict(inst)[id].mandatory == mandatory && id !in AdmittedIds(sol)
  }

  /** The counting loop over `patient_dict` shared by H5 and S8. */
  method CountUnscheduled(inst: Instance, sol: Solution, mandatory: bool) returns (n: nat)
    ensures n == |Unscheduled(inst, sol, mandatory)|
  {
    var admitted := set i | 0 <= i < |sol.patients| :: sol.patients[i].id;
    var dict := PatientDict(inst);
    var p := id => id in dict && dict[id].mandatory == mandatory && id !in admitted;
    n := CountWhere(dict.Keys, p);
    assert Filter(dict.Keys, p) == Unscheduled(inst, sol, mandatory);
  }

  // ---------------------------------------------------------------------------
  // H5: mandatory patients unscheduled
  // ---------------------------------------------------------------------------

  function H5(inst: Instance, sol: Solution): int {
    Penalty * |Unscheduled(inst, sol, true)|
  }

  /** `h5_mandatory_unscheduled` */
  method H5MandatoryUnscheduled(inst: Instance, sol: Solution) returns (r: int)
    ensures r == H5(inst, sol)
    ensures Quantised(r)
  {
    var n := CountUnscheduled(inst, sol, true);
    r := Penalty * n;
    PenaltyMultiple(n);
  }

  /** The known patients of one kind. */
  function OfKind(inst: Instance, mandatory: bool): set<Id> {
    set id | id in PatientDict(inst) && PatientDict(inst)[id].mandatory == mandatory
  }

  /** Every patient of a kind is either admitted or unscheduled, never both. */
  lemma UnscheduledPartition(inst: Instance, sol: Solution, mandatory: bool)
    ensures Unscheduled(inst, sol, mandatory) !! (OfKind(inst, mandatory) * AdmittedIds(sol))
    ensures Unscheduled(inst, sol, mandatory) + (OfKind(inst, mandatory) * AdmittedIds(sol)) == OfKind(inst, mandatory)
    ensures |Unscheduled(inst, sol, mandatory)| == |OfKind(inst, mandatory)| - |OfKind(inst, mandatory) * AdmittedIds(sol)|
  {
    var u := Unscheduled(inst, sol, mandatory);
    var a := OfKind(inst, mandatory) * AdmittedIds(sol);
    assert u + a == OfKind(inst, mandatory);
    assert |u + a| == |u| + |a|;
  }

  /** H5 is zero exactly when every known mandatory patient has a placement,
      and otherwise one penalty per mandatory patient left out. */
  lemma H5Meaning(inst: Instance, sol: Solution)
    ensures H5(inst, sol) == 0 <==> OfKind(inst, true) <= AdmittedIds(sol)
    ensures H5(inst, sol) == Penalty * (|OfKind(inst, true)| - |OfKind(inst, true) * AdmittedIds(sol)|)
  {
    UnscheduledPartition(inst, sol, true);
    if OfKind(inst, true) <= AdmittedIds(sol) {
      assert Unscheduled(inst, sol, true) == {};
    } else {
      var id :| id in OfKind(inst, true) && id !in AdmittedIds(sol);
      assert id in Unscheduled(inst, sol, true);
    }
  }

  // ---------------------------------------------------------------------------
  // S8: optional patients unscheduled
  // ---------------------------------------------------------------------------

  function S8(inst: Instance, sol: Solution, w: nat): int {
    |Unscheduled(inst, sol, false)| * w
  }

  /** `s8_unscheduled_optional` */
  method S8UnscheduledOptional(inst: Instance, sol: Solution, w: nat) returns (r: int)
    ensures r == S8(inst, sol, w)
  {
    var n := CountUnscheduled(inst, sol, false);
    r := n * w;
  }

  /** S8 is never negative and, for a positive weight, zero exactly when every
      optional patient is admitted; H5 and S8 together count every known
      patient that no placement admits. */
  lemma S8Meaning(inst: Instance, sol: Solution, w: nat)
    ensures S8(inst, sol, w) >= 0
    ensures w > 0 ==> (S8(inst, sol, w) == 0 <==> OfKind(inst, false) <= AdmittedIds(sol))
    ensures |Unscheduled(inst, sol, true)| + |Unscheduled(inst, sol, false)| ==
              |PatientDict(inst).Keys - AdmittedIds(sol)|
  {
    Weighted(|Unscheduled(inst, sol, false)|, w);
    if !(OfKind(inst, false) <= AdmittedIds(sol)) {
      var id :| id in OfKind(inst, false) && id !in AdmittedIds(sol);
      assert id in Unscheduled(inst, sol, false);
    }
    var m := Unscheduled(inst, sol, true);
    var o := Unscheduled(inst, sol, false);
    assert m + o == PatientDict(inst).Keys - AdmittedIds(sol);
    assert m !! o;
    assert |m + o| == |m| + |o|;
  }

  // ---------------------------------------------------------------------------
  // H6: admission window
  // ---------------------------------------------------------------------------

  /** The violations one placement adds: one for an admission before the
      release day, one for a mandatory admission after the due day. */
  function WindowViolations(inst: Instance, p: Placement): int {
    match PlacedPatient(inst, p)
    case Some(q) =>
      (if p.admissionDay < q.releaseDay then 1 else 0)
      + (if q.mandatory && q.dueDay.Some? && p.admissionDay > q.dueDay.value then 1 else 0)
    case None => 0
  }

  function WindowCount(inst: Instance, ps: seq<Placement>): int
    decreases |ps|
  {
    if ps == [] then 0 else WindowCount(inst, ps[..|ps| - 1]) + WindowViolations(inst, ps[|ps| - 1])
  }

  /** Comparing with `surgery_due_day` raises for a mandatory patient without one. */
  predicate DueDaysKnown(inst: Instance, sol: Solution) {
    forall i :: 0 <= i < |sol.patients| && PlacedPatient(inst, sol.patients[i]).Some?
                && PlacedPatient(inst, sol.patients[i]).value.mandatory
                ==> PlacedPatient(inst, sol.patients[i]).value.dueDay.Some?
  }

  function H6(inst: Instance, sol: Solution): int {
    Penalty * WindowCount(inst, sol.patients)
  }

  /** `h6_admission_day` */
  method H6AdmissionDay(inst: Instance, sol: Solution) returns (r: int)
    requires PlacedArePatients(inst, sol) && DueDaysKnown(inst, sol)
    ensures r == H6(inst, sol)
  {
    var violations := 0;
    for i := 0 to |sol.patients|
      invariant violations == WindowCount(inst, sol.patients[..i])
    {
      assert sol.patients[..i + 1][..i] == sol.patients[..i];
      PlacedPatientAt(inst, sol, i);
      var pSol := sol.patients[i];
      var patient := PatientById(inst, pSol.id);
      if patient.Some? {
        var q := patient.value.patient;
        if pSol.admissionDay < q.releaseDay {
          violations := violations + 1;
        }
        if q.mandatory && pSol.admissionDay > q.dueDay.value {
          violations := violations + 1;
        }
      }
    }
    assert sol.patients[..|sol.patients|] == sol.patients;
    r := Penalty * violations;
  }

  /** A placed patient is admitted inside its window. */
  predicate InWindow(inst: Instance, p: Placement) {
    PlacedPatient(inst, p).Some? ==>
      var q := PlacedPatient(inst, p).value;
      q.releaseDay <= p.admissionDay && (q.mandatory && q.dueDay.Some? ==> p.admissionDay <= q.dueDay.value)
  }

  lemma {:induction false} WindowCountSpec(inst: Instance, ps: seq<Placement>)
    ensures 0 <= WindowCount(inst, ps) <= 2 * |ps|
    ensures WindowCount(inst, ps) == 0 <==> forall i :: 0 <= i < |ps| ==> InWindow(inst, ps[i])
    decreases |ps|
  {
    if ps != [] {
      var init := ps[..|ps| - 1];
      WindowCountSpec(inst, init);
      assert forall i :: 0 <= i < |init| ==> init[i] == ps[i];
      assert WindowViolations(inst, ps[|ps| - 1]) == 0 <==> InWindow(inst, ps[|ps| - 1]);
    }
  }

  /** H6 is a whole number of penalties, at most two per placement, and zero
      exactly when every placed patient is admitted inside its window. */
  lemma H6Meaning(inst: Instance, sol: Solution)
    ensures Quantised(H6(inst, sol))
    ensures H6(inst, sol) <= 2 * Penalty * |sol.patients|
    ensures H6(inst, sol) == 0 <==> forall i :: 0 <= i < |sol.patients| ==> InWindow(inst, sol.patients[i])
  {
    WindowCountSpec(inst, sol.patients);
    PenaltyMultiple(WindowCount(inst, sol.patients));
  }

  // ---------------------------------------------------------------------------
  // S7: admission delay
  // ---------------------------------------------------------------------------

  /** The days a placed patient waits past its release day. */
  function Delay(inst: Instance, p: Placement): int {
    match PlacedPatient(inst, p)
    case Some(q) => if p.admissionDay - q.releaseDay > 0 then p.admissionDay - q.releaseDay else 0
    case None => 0
  }

  function Delays(inst: Instance, ps: seq<Placement>): int
    decreases |ps|
  {
    if ps == [] then 0 else Delays(inst, ps[..|ps| - 1]) + Delay(inst, ps[|ps| - 1])
  }

  function S7(inst: Instance, sol: Solution, w: nat): int {
    Delays(inst, sol.patients) * w
  }

  /** `s7_admission_delay` */
  method S7AdmissionDelay(inst: Instance, sol: Solution, w: nat) returns (r: int)
    requires PlacedArePatients(inst, sol)
    ensures r == S7(inst, sol, w)
  {
    var cost := 0;
    for i := 0 to |sol.patients|
      invariant cost == Delays(inst, sol.patients[..i])
    {
      assert sol.patients[..i + 1][..i] == sol.patients[..i];
      PlacedPatientAt(inst, sol, i);
      var pSol := sol.patients[i];
      var patient := PatientById(inst, pSol.id);
      if patient.Some? {
        var delay := pSol.admissionDay - patient.value.patient.releaseDay;
        if delay > 0 {
          cost := cost + delay;
        }
      }
    }
    assert sol.patients[..|sol.patients|] == sol.patients;
    r := cost * w;
  }

  /** A placed patient admitted no later than its release day. */
  predicate OnTime(inst: Instance, p: Placement) {
    PlacedPatient(inst, p).Some? ==> p.admissionDay <= PlacedPatient(inst, p).value.releaseDay
  }

  lemma {:induction false} DelaysSpec(inst: Instance, ps: seq<Placement>)
    ensures Delays(inst, ps) >= 0
    ensures Delays(inst, ps) == 0 <==> forall i :: 0 <= i < |ps| ==> OnTime(inst, ps[i])
    decreases |ps|
  {
    if ps != [] {
      var init := ps[..|ps| - 1];
      DelaysSpec(inst, init);
      assert forall i :: 0 <= i < |init| ==> init[i] == ps[i];
    }
  }

  /** S7 is never negative and, for a positive weight, zero exactly when no
      placed patient waits past its release day. */
  lemma S7Meaning(inst: Instance, sol: Solution, w: nat)
    ensures S7(inst, sol, w) >= 0
    ensures w > 0 ==> (S7(inst, sol, w) == 0 <==> forall i :: 0 <= i < |sol.patients| ==> OnTime(inst, sol.patients[i]))
  {
    DelaysSpec(inst, sol.patients);
    Weighted(Delays(inst, sol.patients), w);
  }
}
