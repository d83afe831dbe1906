/**
 * When the search can run without raising: what the instance must satisfy
 * (`WellFormed`), the invariant every solution the solver holds keeps
 * (`Valid`), and the proof that together they meet every precondition of
 * the fifteen scoring functions (`Evaluable`).
 */
module Validity {
  import opened Wrappers
  import opened Collections
  import opened Hospital
  import opened Scoring
  import opened PasConstraints
  import opened ScpConstraints
  import opened GlobalConstraints

  /** `patient.get('surgery_due_day', days - length_of_stay)`: the last day the
      solver tries for a patient. */
  function DueOrDefault(inst: Instance, p: Patient): int {
    p.dueDay.GetOr(inst.days - p.lengthOfStay)
  }

  /** A patient record the solver can place: a due day before the horizon
      exactly for the mandatory ones, a stay of at least a day, a known age group. */
  predicate PatientFits(inst: Instance, p: Patient) {
    p.releaseDay >= 0 && p.lengthOfStay >= 1 && p.ageGroup in inst.ageGroups
    && (p.dueDay.Some? <==> p.mandatory)
    && (p.dueDay.Some? ==> p.dueDay.value < inst.days)
  }

  /** An occupant with a known age group and, when it has one, a known room. */
  predicate OccupantFits(inst: Instance, o: Occupant) {
    o.ageGroup in inst.ageGroups && (HasRoom(o.roomId) ==> o.roomId.value in RoomDict(inst))
  }

  /** The instance assumptions: surgeon and theater vectors cover the horizon. */
  predicate WellFormed(inst: Instance) {
    (forall i :: 0 <= i < |inst.patients| ==> PatientFits(inst, inst.patients[i]))
    && (forall i :: 0 <= i < |inst.occupants| ==> OccupantFits(inst, inst.occupants[i]))
    && (forall i :: 0 <= i < |inst.surgeons| ==> |inst.surgeons[i].maxSurgeryTime| >= inst.days)
    && (forall i :: 0 <= i < |inst.theaters| ==> |inst.theaters[i].availability| >= inst.days)
  }

  /** A placement of a known patient, inside its admission window, in a known room. */
  predicate Admissible(inst: Instance, p: Placement) {
    p.id in PatientDict(inst)
    && PatientDict(inst)[p.id].releaseDay <= p.admissionDay <= DueOrDefault(inst, PatientDict(inst)[p.id])
    && p.room in RoomDict(inst)
  }

  /** No two placements share a patient id. */
  predicate DistinctIds(ps: seq<Placement>) {
    forall i, j :: 0 <= i < j < |ps| ==> ps[i].id != ps[j].id
  }

  /** The solver's invariant: admissible, distinct placements and nurse
      records that each hold a duty. */
  predicate Valid(inst: Instance, sol: Solution) {
    (forall i :: 0 <= i < |sol.patients| ==> Admissible(inst, sol.patients[i]))
    && DistinctIds(sol.patients)
    && (forall j :: 0 <= j < |sol.nurses| ==> |sol.nurses[j].assignments| >= 1)
  }

  /** Everything the scoring functions demand of a solution. */
  predicate Evaluable(inst: Instance, sol: Solution) {
    RoomsKnown(inst, sol) && AgesKnown(inst, sol) && PlacedArePatients(inst, sol)
    && SurgeonDaysInRange(inst, sol) && TheaterDaysInRange(inst, sol) && DueDaysKnown(inst, sol)
  }

  /** The record stored for a patient id fits. */
  lemma DictPatientFits(inst: Instance, id: Id)
    requires WellFormed(inst) && id in PatientDict(inst)
    ensures PatientFits(inst, PatientDict(inst)[id])
    ensures PatientDict(inst)[id].id == id
  {
    PatientDictLastWins(inst, id);
  }

  /** An admissible placement's day lies in `[0, days)`. */
  lemma AdmissibleDay(inst: Instance, p: Placement)
    requires WellFormed(inst) && Admissible(inst, p)
    ensures 0 <= p.admissionDay < inst.days
    ensures PlacedPatient(inst, p) == Some(PatientDict(inst)[p.id])
    ensures PatientFits(inst, PatientDict(inst)[p.id])
  {
    DictPatientFits(inst, p.id);
  }

  lemma ValidRoomsKnown(inst: Instance, sol: Solution)
    requires WellFormed(inst) && Valid(inst, sol)
    ensures RoomsKnown(inst, sol)
    ensures AgesKnown(inst, sol)
  {
    forall t | t in Expansion(inst, sol)
      ensures t.room in RoomDict(inst) && t.person.AgeGroup() in inst.ageGroups
    {
      ExpansionMember(inst, sol, t);
      if exists i :: 0 <= i < |sol.patients| && t in PlacementStays(inst, sol.patients[i]) {
        var i :| 0 <= i < |sol.patients| && t in PlacementStays(inst, sol.patients[i]);
        PlacementStaysMember(inst, sol.patients[i], t);
        DictPatientFits(inst, sol.patients[i].id);
      } else {
        var i :| 0 <= i < |inst.occupants| && t in OccupantStays(inst, inst.occupants[i]);
        OccupantStaysMember(inst, inst.occupants[i], t);
      }
    }
  }

  lemma ValidDaysInRange(inst: Instance, sol: Solution)
    requires WellFormed(inst) && Valid(inst, sol)
    ensures SurgeonDaysInRange(inst, sol) && TheaterDaysInRange(inst, sol)
  {
    var ps := sol.patients;
    forall i | 0 <= i < |ps| && PlacedPatient(inst, ps[i]).Some?
               && PlacedPatient(inst, ps[i]).value.surgeonId in SurgeonCaps(inst)
      ensures InPyRange(SurgeonCaps(inst)[PlacedPatient(inst, ps[i]).value.surgeonId], ps[i].admissionDay)
    {
      AdmissibleDay(inst, ps[i]);
      IdDictFrom(inst.surgeons, SurgeonKey, PlacedPatient(inst, ps[i]).value.surgeonId);
    }
    forall i | 0 <= i < |ps| && PlacedPatient(inst, ps[i]).Some? && ps[i].theater in TheaterCaps(inst)
      ensures InPyRange(TheaterCaps(inst)[ps[i].theater], ps[i].admissionDay)
    {
      AdmissibleDay(inst, ps[i]);
      IdDictFrom(inst.theaters, TheaterKey, ps[i].theater);
    }
  }

  /** A well-formed instance and a valid solution meet every precondition of
      the scoring functions. */
  lemma ValidEvaluable(inst: Instance, sol: Solution)
    requires WellFormed(inst) && Valid(inst, sol)
    ensures Evaluable(inst, sol)
  {
    ValidRoomsKnown(inst, sol);
    ValidDaysInRange(inst, sol);
    forall i | 0 <= i < |sol.patients| && PlacedPatient(inst, sol.patients[i]).Some?
      ensures PlacedPatient(inst, sol.patients[i]).value.mandatory ==> PlacedPatient(inst, sol.patients[i]).value.dueDay.Some?
    {
      AdmissibleDay(inst, sol.patients[i]);
    }
  }
}
