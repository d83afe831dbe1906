/**
 * The Nurse-to-Room Assignment constraints of solvers/constraints.py:
 * S2 (minimum skill level), S3 (continuity of care) and S4 (maximum workload).
 */
module NraConstraints {
  import opened Wrappers
  import opened Collections
  import opened Hospital
  import opened Scoring

  /** The position of a (day, shift) of a stay in its requirement and
      workload vectors: three entries per day, whatever the number of shift
      types. */
  function VectorIndex(t: Stay, shiftIdx: int): int {
    (t.day - t.admission) * 3 + shiftIdx
  }

  function SlotOf(inst: Instance, t: Stay, shiftIdx: nat): Slot
    requires shiftIdx < |inst.shiftTypes|
  {
    (t.day, inst.shiftTypes[shiftIdx], t.room)
  }

  // ---------------------------------------------------------------------------
  // S2: minimum skill level
  // ---------------------------------------------------------------------------

  /** What one (stay, shift) adds: the missing skill of the nurse staffing the
      slot when the requirement exists and the nurse's skill is lower. */
  function SkillGap(inst: Instance, cov: map<Slot, Staff>, t: Stay, shiftIdx: nat): int
    requires shiftIdx < |inst.shiftTypes|
  {
    var req := VectorIndex(t, shiftIdx);
    var sk := t.person.SkillRequired();
    var key := SlotOf(inst, t, shiftIdx);
    if 0 <= req < |sk| && key in cov && cov[key].StaffSkill? && cov[key].level < sk[req]
    then sk[req] - cov[key].level
    else 0
  }

  /** The gaps of the first `n` shifts of one stay. */
  function StayGaps(inst: Instance, cov: map<Slot, Staff>, t: Stay, n: nat): int
    requires n <= |inst.shiftTypes|
    decreases n
  {
    if n == 0 then 0 else StayGaps(inst, cov, t, n - 1) + SkillGap(inst, cov, t, n - 1)
  }

  function SkillGaps(inst: Instance, cov: map<Slot, Staff>, stays: seq<Stay>): int
    decreases |stays|
  {
    if stays == [] then 0
    else SkillGaps(inst, cov, stays[..|stays| - 1]) + StayGaps(inst, cov, stays[|stays| - 1], |inst.shiftTypes|)
  }

  function S2(inst: Instance, sol: Solution, w: nat): int {
    SkillGaps(inst, Coverage(inst, sol, false), Expansion(inst, sol)) * w
  }

  /** `s2_minimum_skill_level` */
  method S2MinimumSkillLevel(inst: Instance, sol: Solution, w: nat) returns (r: int)
    ensures r == S2(inst, sol, w)
  {
    var cov := GetNurseAssignments(inst, sol, false);
    var stays := AllPatientsInRooms(inst, sol);
    var cost := 0;
    for i := 0 to |stays|
      invariant cost == SkillGaps(inst, cov, stays[..i])
    {
      assert stays[..i + 1][..i] == stays[..i];
      var gaps := StaySkillGaps(inst, cov, stays[i]);
      cost := cost + gaps;
    }
    assert stays[..|stays|] == stays;
    r := cost * w;
  }

  /** The inner loop of `s2_minimum_skill_level` for one stay. */
  method StaySkillGaps(inst: Instance, cov: map<Slot, Staff>, t: Stay) returns (cost: int)
    ensures cost == StayGaps(inst, cov, t, |inst.shiftTypes|)
  {
    cost := 0;
    for shiftIdx := 0 to |inst.shiftTypes|
      invariant cost == StayGaps(inst, cov, t, shiftIdx)
    {
      var reqIdx := (t.day - t.admission) * 3 + shiftIdx;
      var sk := t.person.SkillRequired();
      if 0 <= reqIdx < |sk| {
        var required := sk[reqIdx];
        var key := (t.day, inst.shiftTypes[shiftIdx], t.room);
        if key in cov && cov[key].StaffSkill? && cov[key].level < required {
          cost := cost + (required - cov[key].level);
        }
      }
    }
  }

  /** A (stay, shift) is served when its requirement is absent, its slot is
      unstaffed, or the staffing nurse is skilled enough. */
  predicate Served(inst: Instance, cov: map<Slot, Staff>, t: Stay, shiftIdx: nat)
    requires shiftIdx < |inst.shiftTypes|
  {
    var req := VectorIndex(t, shiftIdx);
    var sk := t.person.SkillRequired();
    var key := SlotOf(inst, t, shiftIdx);
    0 <= req < |sk| && key in cov && cov[key].StaffSkill? ==> cov[key].level >= sk[req]
  }

  lemma {:induction false} StayGapsSpec(inst: Instance, cov: map<Slot, Staff>, t: Stay, n: nat)
    requires n <= |inst.shiftTypes|
    ensures StayGaps(inst, cov, t, n) >= 0
    ensures StayGaps(inst, cov, t, n) == 0 <==> forall j :: 0 <= j < n ==> Served(inst, cov, t, j)
    decreases n
  {
    if n > 0 {
      StayGapsSpec(inst, cov, t, n - 1);
      var g := SkillGap(inst, cov, t, n - 1);
      assert g >= 0;
      assert g == 0 <==> Served(inst, cov, t, n - 1);
      if StayGaps(inst, cov, t, n) == 0 {
        forall j | 0 <= j < n ensures Served(inst, cov, t, j) {
          if j < n - 1 { assert Served(inst, cov, t, j); }
        }
      }
    }
  }

  lemma {:induction false} SkillGapsSpec(inst: Instance, cov: map<Slot, Staff>, stays: seq<Stay>)
    ensures SkillGaps(inst, cov, stays) >= 0
    ensures SkillGaps(inst, cov, stays) == 0 <==>
              forall i, j :: 0 <= i < |stays| && 0 <= j < |inst.shiftTypes| ==> Served(inst, cov, stays[i], j)
    decreases |stays|
  {
    if stays != [] {
      var init := stays[..|stays| - 1];
      var last := stays[|stays| - 1];
      SkillGapsSpec(inst, cov, init);
      StayGapsSpec(inst, cov, last, |inst.shiftTypes|);
      assert forall i :: 0 <= i < |init| ==> init[i] == stays[i];
    }
  }

  /** S2 is never negative and, for a positive weight, zero exactly when every
      staffed slot of every stay has a nurse with at least the required skill;
      unstaffed slots never cost anything. */
  lemma S2Meaning(inst: Instance, sol: Solution, w: nat)
    ensures S2(inst, sol, w) >= 0
    ensures w > 0 ==> (S2(inst, sol, w) == 0 <==>
              forall i, j :: 0 <= i < |Expansion(inst, sol)| && 0 <= j < |inst.shiftTypes|
                             ==> Served(inst, Coverage(inst, sol, false), Expansion(inst, sol)[i], j))
  {
    SkillGapsSpec(inst, Coverage(inst, sol, false), Expansion(inst, sol));
    Weighted(SkillGaps(inst, Coverage(inst, sol, false), Expansion(inst, sol)), w);
  }

  /** Without nurse records no slot is staffed, so S2 is zero. */
  lemma S2Unstaffed(inst: Instance, sol: Solution, w: nat)
    requires sol.nurses == []
    ensures S2(inst, sol, w) == 0
  {
    var stays := Expansion(inst, sol);
    assert Coverage(inst, sol, false) == map[];
    SkillGapsSpec(inst, map[], stays);
    Weighted(SkillGaps(inst, map[], stays), w);
  }

  // ---------------------------------------------------------------------------
  // S3: continuity of care
  // ---------------------------------------------------------------------------

  /** `set(admitted_patient_ids + occupant_ids)` */
  function CareIds(inst: Instance, sol: Solution): set<Id> {
    (set i | 0 <= i < |sol.patients| :: sol.patients[i].id) + (set j | 0 <= j < |inst.occupants| :: inst.occupants[j].id)
  }

  /** Where the care of an id is looked up: the first placement's day and
      room, or day 0 and the record's own room when there is no placement. */
  function CareDay(sol: Solution, id: Id): int {
    match FirstPlacement(sol.patients, id)
    case Some(p) => p.admissionDay
    case None => 0
  }

  function CareRoom(sol: Solution, person: Person, id: Id): Option<Id> {
    match FirstPlacement(sol.patients, id)
    case Some(p) => Some(p.room)
    case None => person.RoomId()
  }

  /** The values the staffing map holds for the shifts `0 .. m-1` of one day in one room. */
  function SeenShifts(inst: Instance, cov: map<Slot, Staff>, day: int, room: Id, m: nat): set<Staff>
    requires m <= |inst.shiftTypes|
    decreases m
  {
    if m == 0 then {}
    else
      var key := (day, inst.shiftTypes[m - 1], room);
      SeenShifts(inst, cov, day, room, m - 1) + (if key in cov then {cov[key]} else {})
  }

  /** The values the staffing map holds for the days `start .. start+n-1` in one room. */
  function SeenDays(inst: Instance, cov: map<Slot, Staff>, start: int, room: Id, n: nat): set<Staff>
    decreases n
  {
    if n == 0 then {}
    else SeenDays(inst, cov, start, room, n - 1) + SeenShifts(inst, cov, start + n - 1, room, |inst.shiftTypes|)
  }

  /** `distinct_nurses` of one id, empty when the id is unknown or has no room. */
  function DistinctNurses(inst: Instance, sol: Solution, cov: map<Slot, Staff>, id: Id): set<Staff> {
    match PatientById(inst, id)
    case None => {}
    case Some(person) =>
      var room := CareRoom(sol, person, id);
      if HasRoom(room) then SeenDays(inst, cov, CareDay(sol, id), room.value, person.LengthOfStay()) else {}
  }

  function NurseCount(inst: Instance, sol: Solution, cov: map<Slot, Staff>): Id -> int {
    id => |DistinctNurses(inst, sol, cov, id)|
  }

  ghost function S3(inst: Instance, sol: Solution, w: nat): int {
    SumOver(CareIds(inst, sol), NurseCount(inst, sol, Coverage(inst, sol, true))) * w
  }

  /** The inner loops of `s3_continuity_of_care` for one id. */
  method CollectNurses(inst: Instance, cov: map<Slot, Staff>, start: int, room: Id, n: nat) returns (seen: set<Staff>)
    ensures seen == SeenDays(inst, cov, start, room, n)
  {
    seen := {};
    for d := 0 to n
      invariant seen == SeenDays(inst, cov, start, room, d)
    {
      ghost var before := seen;
      for j := 0 to |inst.shiftTypes|
        invariant seen == before + SeenShifts(inst, cov, start + d, room, j)
      {
        var key := (start + d, inst.shiftTypes[j], room);
        if key in cov {
          seen := seen + {cov[key]};
        }
      }
    }
  }

  /** `s3_continuity_of_care` */
  method S3ContinuityOfCare(inst: Instance, sol: Solution, w: nat) returns (r: int)
    ensures r == S3(inst, sol, w)
  {
    var cov := GetNurseAssignments(inst, sol, true);
    var ids := CareIds(inst, sol);
    ghost var f := NurseCount(inst, sol, cov);
    var cost := 0;
    var rest := ids;
    while rest != {}
      invariant rest <= ids
      invariant cost + SumOver(rest, f) == SumOver(ids, f)
      decreases |rest|
    {
      var id :| id in rest;
      SumOverRemove(rest, f, id);
      rest := rest - {id};
      var patient := PatientById(inst, id);
      if patient.None? {
        continue;
      }
      var pSol := GetSolutionPatientById(sol, id);
      var admissionDay := if pSol.Some? then pSol.value.admissionDay else 0;
      var roomId := if pSol.Some? then Some(pSol.value.room) else patient.value.RoomId();
      if !HasRoom(roomId) {
        continue;
      }
      var distinct := CollectNurses(inst, cov, admissionDay, roomId.value, patient.value.LengthOfStay());
      if distinct != {} {
        cost := cost + |distinct|;
      }
    }
    r := cost * w;
  }

  lemma {:induction false} SeenShiftsMember(inst: Instance, cov: map<Slot, Staff>, day: int, room: Id, m: nat, v: Staff)
    requires m <= |inst.shiftTypes|
    ensures v in SeenShifts(inst, cov, day, room, m) <==>
              exists j :: 0 <= j < m && (day, inst.shiftTypes[j], room) in cov && cov[(day, inst.shiftTypes[j], room)] == v
    decreases m
  {
    if m > 0 { SeenShiftsMember(inst, cov, day, room, m - 1, v); }
  }

  /** The map holds `v` for shift `j` of day `start + d` in `room`. */
  ghost predicate SeesAt(inst: Instance, cov: map<Slot, Staff>, start: int, room: Id, d: int, j: int, v: Staff) {
    0 <= j < |inst.shiftTypes| && (start + d, inst.shiftTypes[j], room) in cov && cov[(start + d, inst.shiftTypes[j], room)] == v
  }

  lemma {:induction false} SeenDaysMember(inst: Instance, cov: map<Slot, Staff>, start: int, room: Id, n: nat, v: Staff)
    ensures v in SeenDays(inst, cov, start, room, n) <==> exists d, j :: 0 <= d < n && SeesAt(inst, cov, start, room, d, j, v)
    decreases n
  {
    if n > 0 {
      SeenDaysMember(inst, cov, start, room, n - 1, v);
      SeenShiftsMember(inst, cov, start + n - 1, room, |inst.shiftTypes|, v);
      if exists j :: 0 <= j < |inst.shiftTypes| && (start + n - 1, inst.shiftTypes[j], room) in cov
                     && cov[(start + n - 1, inst.shiftTypes[j], room)] == v {
        var j :| 0 <= j < |inst.shiftTypes| && (start + n - 1, inst.shiftTypes[j], room) in cov
                 && cov[(start + n - 1, inst.shiftTypes[j], room)] == v;
        assert SeesAt(inst, cov, start, room, n - 1, j, v);
      }
      if exists d, j :: 0 <= d < n && SeesAt(inst, cov, start, room, d, j, v) {
        var d, j :| 0 <= d < n && SeesAt(inst, cov, start, room, d, j, v);
        if d == n - 1 {
          assert (start + n - 1, inst.shiftTypes[j], room) in cov && cov[(start + n - 1, inst.shiftTypes[j], room)] == v;
        }
      }
    }
  }

  /** A nurse counts for an id exactly when the map holds that nurse for some
      shift of some day of the id's stay in its room. */
  lemma NursesSeenSpec(inst: Instance, sol: Solution, cov: map<Slot, Staff>, id: Id, v: Staff)
    requires PatientById(inst, id).Some?
    requires HasRoom(CareRoom(sol, PatientById(inst, id).value, id))
    ensures var person := PatientById(inst, id).value;
            v in DistinctNurses(inst, sol, cov, id) <==>
              exists d, j :: 0 <= d < person.LengthOfStay()
                             && SeesAt(inst, cov, CareDay(sol, id), CareRoom(sol, person, id).value, d, j, v)
  {
    var person := PatientById(inst, id).value;
    SeenDaysMember(inst, cov, CareDay(sol, id), CareRoom(sol, person, id).value, person.LengthOfStay(), v);
  }

  /** S3 is never negative, and is zero when there are no nurse records. */
  lemma S3Meaning(inst: Instance, sol: Solution, w: nat)
    ensures S3(inst, sol, w) >= 0
    ensures sol.nurses == [] ==> S3(inst, sol, w) == 0
  {
    var cov := Coverage(inst, sol, true);
    var f := NurseCount(inst, sol, cov);
    SumOverNonNegative(CareIds(inst, sol), f);
    Weighted(SumOver(CareIds(inst, sol), f), w);
    if sol.nurses == [] {
      assert cov == map[];
      forall id | id in CareIds(inst, sol) ensures f(id) == 0 {
        if PatientById(inst, id).Some? && HasRoom(CareRoom(sol, PatientById(inst, id).value, id)) {
          var person := PatientById(inst, id).value;
          forall v ensures v !in DistinctNurses(inst, sol, cov, id) {
            NursesSeenSpec(inst, sol, cov, id, v);
          }
          assert DistinctNurses(inst, sol, cov, id) == {};
        }
      }
      SumOverZero(CareIds(inst, sol), f);
    }
  }

  // ---------------------------------------------------------------------------
  // S4: maximum workload
  // ---------------------------------------------------------------------------

  type LoadKey = (Id, int, string)

  /** The workload one (stay, shift) puts on the nurse staffing its slot. */
  function LoadEntry(inst: Instance, cov: map<Slot, Staff>, t: Stay, shiftIdx: nat): seq<(LoadKey, int)>
    requires shiftIdx < |inst.shiftTypes|
  {
    var key := SlotOf(inst, t, shiftIdx);
    var idx := VectorIndex(t, shiftIdx);
    var wl := t.person.Workload();
    if key in cov && cov[key].StaffId? && 0 <= idx < |wl|
    then [((cov[key].id, t.day, inst.shiftTypes[shiftIdx]), wl[idx])]
    else []
  }

  function StayLoads(inst: Instance, cov: map<Slot, Staff>, t: Stay, n: nat): seq<(LoadKey, int)>
    requires n <= |inst.shiftTypes|
    decreases n
  {
    if n == 0 then [] else StayLoads(inst, cov, t, n - 1) + LoadEntry(inst, cov, t, n - 1)
  }

  function LoadEntries(inst: Instance, cov: map<Slot, Staff>, stays: seq<Stay>): seq<(LoadKey, int)>
    decreases |stays|
  {
    if stays == [] then []
    else LoadEntries(inst, cov, stays[..|stays| - 1]) + StayLoads(inst, cov, stays[|stays| - 1], |inst.shiftTypes|)
  }

  /** The workloads a solution puts on nurses, in the order S4 meets them. */
  function NurseEntries(inst: Instance, sol: Solution): seq<(LoadKey, int)> {
    LoadEntries(inst, Coverage(inst, sol, true), Expansion(inst, sol))
  }

  /** `nurse_workload`: the total workload of each nurse on each (day, shift). */
  function NurseLoads(inst: Instance, sol: Solution): map<LoadKey, int> {
    GroupSums(NurseEntries(inst, sol))
  }

  /** What one (nurse, day, shift) adds: its load above the nurse's maximum. */
  function Excess(inst: Instance, loads: map<LoadKey, int>): LoadKey -> int {
    k => if k in loads && loads[k] > NurseMaxLoad(inst, k.0, k.1, k.2) then loads[k] - NurseMaxLoad(inst, k.0, k.1, k.2) else 0
  }

  ghost function S4(inst: Instance, sol: Solution, w: nat): int {
    var loads := NurseLoads(inst, sol);
    SumOver(loads.Keys, Excess(inst, loads)) * w
  }

  /** The inner loop of `s4_maximum_workload` for one stay. */
  method AddStayLoads(inst: Instance, cov: map<Slot, Staff>, t: Stay, loads0: map<LoadKey, int>, ghost es0: seq<(LoadKey, int)>)
    returns (loads: map<LoadKey, int>, ghost es: seq<(LoadKey, int)>)
    requires loads0 == GroupSums(es0)
    ensures es == es0 + StayLoads(inst, cov, t, |inst.shiftTypes|)
    ensures loads == GroupSums(es0 + StayLoads(inst, cov, t, |inst.shiftTypes|))
  {
    loads, es := loads0, es0;
    assert es0 + StayLoads(inst, cov, t, 0) == es0;
    for shiftIdx := 0 to |inst.shiftTypes|
      invariant es == es0 + StayLoads(inst, cov, t, shiftIdx)
      invariant loads == GroupSums(es)
    {
      assert es0 + StayLoads(inst, cov, t, shiftIdx + 1) == es + LoadEntry(inst, cov, t, shiftIdx);
      loads, es := AddShiftLoad(inst, cov, t, shiftIdx, loads, es);
    }
  }

  /** The body of the inner loop of `s4_maximum_workload`: the workload of one
      (stay, shift) is added to the nurse staffing its slot, if any. */
  method AddShiftLoad(inst: Instance, cov: map<Slot, Staff>, t: Stay, shiftIdx: nat, loads0: map<LoadKey, int>, ghost es0: seq<(LoadKey, int)>)
    returns (loads: map<LoadKey, int>, ghost es: seq<(LoadKey, int)>)
    requires shiftIdx < |inst.shiftTypes| && loads0 == GroupSums(es0)
    ensures es == es0 + LoadEntry(inst, cov, t, shiftIdx)
    ensures loads == GroupSums(es0 + LoadEntry(inst, cov, t, shiftIdx))
  {
    loads, es := loads0, es0;
    var key := (t.day, inst.shiftTypes[shiftIdx], t.room);
    if key in cov && cov[key].StaffId? {
      var nurseId := cov[key].id;
      var workloadIdx := (t.day - t.admission) * 3 + shiftIdx;
      var wl := t.person.Workload();
      if 0 <= workloadIdx < |wl| {
        var nKey := (nurseId, t.day, inst.shiftTypes[shiftIdx]);
        loads := AddTo(loads, nKey, wl[workloadIdx], es);
        es := es + [(nKey, wl[workloadIdx])];
      }
    }
    assert es == es0 + LoadEntry(inst, cov, t, shiftIdx);
  }

  /** The first loop of `s4_maximum_workload`, filling `nurse_workload` in place. */
  method AccumulateLoads(inst: Instance, cov: map<Slot, Staff>, stays: seq<Stay>) returns (loads: map<LoadKey, int>)
    ensures loads == GroupSums(LoadEntries(inst, cov, stays))
  {
    loads := map[];
    ghost var es: seq<(LoadKey, int)> := [];
    for i := 0 to |stays|
      invariant es == LoadEntries(inst, cov, stays[..i])
      invariant loads == GroupSums(es)
    {
      assert stays[..i + 1][..i] == stays[..i];
      loads, es := AddStayLoads(inst, cov, stays[i], loads, es);
    }
    assert stays[..|stays|] == stays;
  }

  /** `s4_maximum_workload` */
  method S4MaximumWorkload(inst: Instance, sol: Solution, w: nat) returns (r: int)
    ensures r == S4(inst, sol, w)
  {
    var cov := GetNurseAssignments(inst, sol, true);
    var stays := AllPatientsInRooms(inst, sol);
    var loads := AccumulateLoads(inst, cov, stays);
    ghost var f := Excess(inst, loads);
    var cost := 0;
    var rest := loads.Keys;
    while rest != {}
      invariant rest <= loads.Keys
      invariant cost + SumOver(rest, f) == SumOver(loads.Keys, f)
      decreases |rest|
    {
      var k :| k in rest;
      SumOverRemove(rest, f, k);
      rest := rest - {k};
      var (nId, day, shift) := k;
      var maxLoad := GetNurseMaxLoad(inst, nId, day, shift);
      if loads[k] > maxLoad {
        cost := cost + (loads[k] - maxLoad);
      }
    }
    r := cost * w;
  }

  /** A nurse's load on a (day, shift) is the sum of the workloads the
      entries put on it. */
  lemma NurseLoadsSpec(inst: Instance, sol: Solution, k: LoadKey)
    ensures k in NurseLoads(inst, sol) <==> exists i :: 0 <= i < |NurseEntries(inst, sol)| && NurseEntries(inst, sol)[i].0 == k
    ensures k in NurseLoads(inst, sol) ==> NurseLoads(inst, sol)[k] == SumFor(NurseEntries(inst, sol), k)
  {
    GroupSumsAt(NurseEntries(inst, sol), k);
  }

  /** S4 is never negative and, for a positive weight, zero exactly when no
      nurse's load on any (day, shift) exceeds the nurse's maximum load. */
  lemma S4Meaning(inst: Instance, sol: Solution, w: nat)
    ensures S4(inst, sol, w) >= 0
    ensures w > 0 ==> (S4(inst, sol, w) == 0 <==>
              forall k :: k in NurseLoads(inst, sol) ==> NurseLoads(inst, sol)[k] <= NurseMaxLoad(inst, k.0, k.1, k.2))
  {
    var loads := NurseLoads(inst, sol);
    var f := Excess(inst, loads);
    forall k | k in loads.Keys
      ensures f(k) >= 0
      ensures f(k) == 0 <==> loads[k] <= NurseMaxLoad(inst, k.0, k.1, k.2)
    {
    }
    SumOverNonNegative(loads.Keys, f);
    SumOverZero(loads.Keys, f);
    Weighted(SumOver(loads.Keys, f), w);
  }
}
