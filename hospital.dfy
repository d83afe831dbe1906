/**
 * The instance access layer (instances/Hospital.py): the already-loaded
 * problem instance, the solution the search works on, the id dictionaries,
 * the id lookups and the two derived queries that the constraint evaluator
 * reads, the occupancy expansion and the nurse staffing map.
 */
module Hospital {
  import opened Wrappers
  import opened Collections

  type Id = string

  // ---------------------------------------------------------------------------
  // The instance (read-only reference data)
  // ---------------------------------------------------------------------------

  /** A patient to be admitted; `dueDay` is present for mandatory patients. */
  datatype Patient = Patient(
    id: Id,
    mandatory: bool,
    gender: string,
    ageGroup: string,
    lengthOfStay: nat,
    releaseDay: int,
    dueDay: Option<int>,
    surgeryDuration: int,
    surgeonId: Id,
    incompatibleRooms: seq<Id>,
    workload: seq<int>,
    skillRequired: seq<int>)

  /** A patient already in the hospital on day 0, possibly in a fixed room. */
  datatype Occupant = Occupant(
    id: Id,
    gender: string,
    ageGroup: string,
    lengthOfStay: nat,
    workload: seq<int>,
    skillRequired: seq<int>,
    roomId: Option<Id>)

  /** What `get_patient_by_id` returns: a patient record or an occupant record. */
  datatype Person = AsPatient(patient: Patient) | AsOccupant(occupant: Occupant) {
    function Gender(): string {
      match this
      case AsPatient(p) => p.gender
      case AsOccupant(o) => o.gender
    }
    function AgeGroup(): string {
      match this
      case AsPatient(p) => p.ageGroup
      case AsOccupant(o) => o.ageGroup
    }
    function LengthOfStay(): nat {
      match this
      case AsPatient(p) => p.lengthOfStay
      case AsOccupant(o) => o.lengthOfStay
    }
    function Workload(): seq<int> {
      match this
      case AsPatient(p) => p.workload
      case AsOccupant(o) => o.workload
    }
    function SkillRequired(): seq<int> {
      match this
      case AsPatient(p) => p.skillRequired
      case AsOccupant(o) => o.skillRequired
    }
    /** `patient.get('room_id')`: only occupant records carry a room. */
    function RoomId(): Option<Id> {
      match this
      case AsPatient(_) => None
      case AsOccupant(o) => o.roomId
    }
  }

  datatype Surgeon = Surgeon(id: Id, maxSurgeryTime: seq<int>)
  datatype Theater = Theater(id: Id, availability: seq<int>)
  datatype Room = Room(id: Id, capacity: int)
  /** One rostered (day, shift) of a nurse; `max_load` may be missing. */
  datatype WorkingShift = WorkingShift(day: int, shift: string, maxLoad: Option<int>)
  datatype Nurse = Nurse(id: Id, skillLevel: int, workingShifts: seq<WorkingShift>)

  datatype Instance = Instance(
    days: int,
    shiftTypes: seq<string>,
    ageGroups: seq<string>,
    occupants: seq<Occupant>,
    patients: seq<Patient>,
    surgeons: seq<Surgeon>,
    theaters: seq<Theater>,
    rooms: seq<Room>,
    nurses: seq<Nurse>)

  // ---------------------------------------------------------------------------
  // The solution
  // ---------------------------------------------------------------------------

  /** `{id, admission_day, room, operating_theater}` */
  datatype Placement = Placement(id: Id, admissionDay: int, room: Id, theater: Id)
  /** `{day, shift, rooms}` */
  datatype Duty = Duty(day: int, shift: string, rooms: seq<Id>)
  /** `{id, assignments}` */
  datatype NurseSchedule = NurseSchedule(id: Id, assignments: seq<Duty>)
  datatype Solution = Solution(patients: seq<Placement>, nurses: seq<NurseSchedule>)

  /** One yielded `(day, room_id, patient)` triple; `admission` is the
      `patient.get('admission_day', 0)` that the triple's record answers. */
  datatype Stay = Stay(day: int, room: Id, person: Person, admission: int)

  /** A (day, shift, room) duty slot. */
  type Slot = (int, string, Id)

  // ---------------------------------------------------------------------------
  // Id dictionaries (instances/Hospital.py:27-32)
  // ---------------------------------------------------------------------------

  function PatientKey(p: Patient): Id { p.id }
  function OccupantKey(o: Occupant): Id { o.id }
  function RoomKey(r: Room): Id { r.id }
  function NurseKey(n: Nurse): Id { n.id }
  function SurgeonKey(s: Surgeon): Id { s.id }
  function TheaterKey(t: Theater): Id { t.id }

  function PatientDict(inst: Instance): map<Id, Patient> { IdDict(inst.patients, PatientKey) }
  function OccupantDict(inst: Instance): map<Id, Occupant> { IdDict(inst.occupants, OccupantKey) }
  function RoomDict(inst: Instance): map<Id, Room> { IdDict(inst.rooms, RoomKey) }
  function NurseDict(inst: Instance): map<Id, Nurse> { IdDict(inst.nurses, NurseKey) }
  function SurgeonDict(inst: Instance): map<Id, Surgeon> { IdDict(inst.surgeons, SurgeonKey) }
  function TheaterDict(inst: Instance): map<Id, Theater> { IdDict(inst.theaters, TheaterKey) }

  /** A duplicate patient id keeps the last record of the list. */
  lemma PatientDictLastWins(inst: Instance, id: Id)
    ensures id in PatientDict(inst) <==> exists i :: 0 <= i < |inst.patients| && inst.patients[i].id == id
    ensures id in PatientDict(inst) ==>
              exists i :: 0 <= i < |inst.patients| && inst.patients[i] == PatientDict(inst)[id]
                          && inst.patients[i].id == id
                          && forall j :: i < j < |inst.patients| ==> inst.patients[j].id != id
  {
    IdDictKey(inst.patients, PatientKey, id);
    if id in PatientDict(inst) {
      IdDictFrom(inst.patients, PatientKey, id);
    }
  }

  // ---------------------------------------------------------------------------
  // Lookups
  // ---------------------------------------------------------------------------

  /** `get_patient_by_id`: the patient first, then the occupant, then None. */
  function PatientById(inst: Instance, id: Id): Option<Person>
  {
    if id in PatientDict(inst) then Some(AsPatient(PatientDict(inst)[id]))
    else if id in OccupantDict(inst) then Some(AsOccupant(OccupantDict(inst)[id]))
    else None
  }

  /** A patient shadows an occupant with the same id; the record found is the
      last one of its list with that id; an id of neither kind gives None. */
  lemma PatientByIdSpec(inst: Instance, id: Id)
    ensures (exists i :: 0 <= i < |inst.patients| && inst.patients[i].id == id) ==>
              PatientById(inst, id).Some? && PatientById(inst, id).value.AsPatient?
              && var p := PatientById(inst, id).value.patient;
                 exists i :: 0 <= i < |inst.patients| && inst.patients[i] == p && p.id == id
                             && forall j :: i < j < |inst.patients| ==> inst.patients[j].id != id
    ensures (forall i :: 0 <= i < |inst.patients| ==> inst.patients[i].id != id) ==>
              if exists i :: 0 <= i < |inst.occupants| && inst.occupants[i].id == id then
                PatientById(inst, id).Some? && PatientById(inst, id).value.AsOccupant?
                && var o := PatientById(inst, id).value.occupant;
                   exists i :: 0 <= i < |inst.occupants| && inst.occupants[i] == o && o.id == id
                               && forall j :: i < j < |inst.occupants| ==> inst.occupants[j].id != id
              else PatientById(inst, id) == None
  {
    PatientDictLastWins(inst, id);
    IdDictKey(inst.occupants, OccupantKey, id);
    if id in OccupantDict(inst) {
      IdDictFrom(inst.occupants, OccupantKey, id);
    }
  }

  /** The patient record a placement resolves to: None for an unknown id and
      for an id that resolves to an occupant record. */
  function PlacedPatient(inst: Instance, p: Placement): Option<Patient> {
    match PatientById(inst, p.id)
    case Some(AsPatient(q)) => Some(q)
    case _ => None
  }

  /** Reading a surgery field of a placement's record raises when its id
      resolves to an occupant record. */
  predicate PlacedArePatients(inst: Instance, sol: Solution) {
    forall i :: 0 <= i < |sol.patients| ==> sol.patients[i].id in PatientDict(inst) || sol.patients[i].id !in OccupantDict(inst)
  }

  /** Under `PlacedArePatients`, a lookup of a placement's id finds either a
      patient record or nothing. */
  lemma PlacedPatientAt(inst: Instance, sol: Solution, i: int)
    requires PlacedArePatients(inst, sol) && 0 <= i < |sol.patients|
    ensures PatientById(inst, sol.patients[i].id).Some? ==>
              PatientById(inst, sol.patients[i].id).value.AsPatient?
              && PlacedPatient(inst, sol.patients[i]) == Some(PatientById(inst, sol.patients[i].id).value.patient)
    ensures PatientById(inst, sol.patients[i].id).None? ==> PlacedPatient(inst, sol.patients[i]).None?
  {
  }

  /** `get_nurse_by_id`: `nurses_dict.get(nurse_id, None)`. */
  function NurseById(inst: Instance, id: Id): (r: Option<Nurse>)
    ensures r.Some? <==> exists i :: 0 <= i < |inst.nurses| && inst.nurses[i].id == id
    ensures r.Some? ==> exists i :: 0 <= i < |inst.nurses| && inst.nurses[i] == r.value && r.value.id == id
                                    && forall j :: i < j < |inst.nurses| ==> inst.nurses[j].id != id
  {
    IdDictKey(inst.nurses, NurseKey, id);
    if id in NurseDict(inst) then
      IdDictFrom(inst.nurses, NurseKey, id);
      Some(NurseDict(inst)[id])
    else None
  }

  /** `get_patient`: the first patient of the list with the id. */
  method GetPatient(inst: Instance, id: Id) returns (r: Option<Patient>)
    ensures r.None? <==> forall j :: 0 <= j < |inst.patients| ==> inst.patients[j].id != id
    ensures r.Some? ==> exists i :: 0 <= i < |inst.patients| && inst.patients[i] == r.value && r.value.id == id
                                    && forall j :: 0 <= j < i ==> inst.patients[j].id != id
  {
    for i := 0 to |inst.patients|
      invariant forall j :: 0 <= j < i ==> inst.patients[j].id != id
    {
      if inst.patients[i].id == id {
        return Some(inst.patients[i]);
      }
    }
    return None;
  }

  /** `get_room`: the first room of the list with the id. */
  method GetRoom(inst: Instance, id: Id) returns (r: Option<Room>)
    ensures r.None? <==> forall j :: 0 <= j < |inst.rooms| ==> inst.rooms[j].id != id
    ensures r.Some? ==> exists i :: 0 <= i < |inst.rooms| && inst.rooms[i] == r.value && r.value.id == id
                                    && forall j :: 0 <= j < i ==> inst.rooms[j].id != id
  {
    for i := 0 to |inst.rooms|
      invariant forall j :: 0 <= j < i ==> inst.rooms[j].id != id
    {
      if inst.rooms[i].id == id {
        return Some(inst.rooms[i]);
      }
    }
    return None;
  }

  /** `get_occupant`: the first occupant of the list with the id. */
  method GetOccupant(inst: Instance, id: Id) returns (r: Option<Occupant>)
    ensures r.None? <==> forall j :: 0 <= j < |inst.occupants| ==> inst.occupants[j].id != id
    ensures r.Some? ==> exists i :: 0 <= i < |inst.occupants| && inst.occupants[i] == r.value && r.value.id == id
                                    && forall j :: 0 <= j < i ==> inst.occupants[j].id != id
  {
    for i := 0 to |inst.occupants|
      invariant forall j :: 0 <= j < i ==> inst.occupants[j].id != id
    {
      if inst.occupants[i].id == id {
        return Some(inst.occupants[i]);
      }
    }
    return None;
  }

  /** The first placement with the id, if any. */
  function FirstPlacement(ps: seq<Placement>, id: Id): (r: Option<Placement>)
    ensures r.None? <==> forall j :: 0 <= j < |ps| ==> ps[j].id != id
    ensures r.Some? ==> exists i :: 0 <= i < |ps| && ps[i] == r.value && r.value.id == id
                                    && forall j :: 0 <= j < i ==> ps[j].id != id
  {
    if ps == [] then None
    else if ps[0].id == id then Some(ps[0])
    else
      var r := FirstPlacement(ps[1..], id);
      assert forall j :: 1 <= j < |ps| ==> ps[j] == ps[1..][j - 1];
      if r.Some? then
        var i :| 0 <= i < |ps[1..]| && ps[1..][i] == r.value && r.value.id == id
                 && forall j :: 0 <= j < i ==> ps[1..][j].id != id;
        assert ps[i + 1] == r.value;
        r
      else r
  }

  /** `get_solution_patient_by_id`: linear search of the placements. */
  method GetSolutionPatientById(sol: Solution, id: Id) returns (r: Option<Placement>)
    ensures r == FirstPlacement(sol.patients, id)
  {
    for i := 0 to |sol.patients|
      invariant forall j :: 0 <= j < i ==> sol.patients[j].id != id
    {
      if sol.patients[i].id == id {
        var f := FirstPlacement(sol.patients, id);
        assert f.Some?;
        var k :| 0 <= k < |sol.patients| && sol.patients[k] == f.value && f.value.id == id
                 && forall j :: 0 <= j < k ==> sol.patients[j].id != id;
        assert k == i;
        return Some(sol.patients[i]);
      }
    }
    return None;
  }

  // ---------------------------------------------------------------------------
  // Occupancy expansion (get_all_patients_in_rooms)
  // ---------------------------------------------------------------------------

  /** The triples of days `day0 + d`, `d < n`, that fall before the horizon. */
  function StayDays(day0: int, n: nat, days: int, room: Id, person: Person, admission: int): seq<Stay>
    decreases n
  {
    if n == 0 then []
    else StayDays(day0, n - 1, days, room, person, admission)
         + (if day0 + n - 1 < days then [Stay(day0 + n - 1, room, person, admission)] else [])
  }

  /** A triple is yielded exactly for the days of the stay before the horizon. */
  lemma {:induction false} StayDaysMember(day0: int, n: nat, days: int, room: Id, person: Person, admission: int, t: Stay)
    ensures t in StayDays(day0, n, days, room, person, admission) <==>
              t.room == room && t.person == person && t.admission == admission
              && day0 <= t.day < day0 + n && t.day < days
    decreases n
  {
    if n > 0 { StayDaysMember(day0, n - 1, days, room, person, admission, t); }
  }

  /** One triple per planned day, clipped to the horizon. */
  lemma {:induction false} StayDaysLength(day0: int, n: nat, days: int, room: Id, person: Person, admission: int)
    ensures |StayDays(day0, n, days, room, person, admission)|
            == if days - day0 <= 0 then 0 else if days - day0 < n then days - day0 else n
    decreases n
  {
    if n > 0 { StayDaysLength(day0, n - 1, days, room, person, admission); }
  }

  /** The triples of one placement: none when its id is unknown. */
  function PlacementStays(inst: Instance, p: Placement): seq<Stay>
  {
    match PatientById(inst, p.id)
    case None => []
    case Some(person) =>
      StayDays(p.admissionDay, person.LengthOfStay(), inst.days, p.room, person, p.admissionDay)
  }

  function PlacedStays(inst: Instance, ps: seq<Placement>): seq<Stay>
    decreases |ps|
  {
    if ps == [] then [] else PlacedStays(inst, ps[..|ps| - 1]) + PlacementStays(inst, ps[|ps| - 1])
  }

  /** Python's truthiness test `if room_id:` on an optional room id. */
  predicate HasRoom(r: Option<Id>) { r.Some? && r.value != "" }

  /** The triples of one occupant: days `0 .. length_of_stay-1` in its fixed room. */
  function OccupantStays(inst: Instance, o: Occupant): seq<Stay>
  {
    if HasRoom(o.roomId) then StayDays(0, o.lengthOfStay, inst.days, o.roomId.value, AsOccupant(o), 0) else []
  }

  function OccupiedStays(inst: Instance, os: seq<Occupant>): seq<Stay>
    decreases |os|
  {
    if os == [] then [] else OccupiedStays(inst, os[..|os| - 1]) + OccupantStays(inst, os[|os| - 1])
  }

  /** Everything the generator yields, in order: placements first, then occupants. */
  function Expansion(inst: Instance, sol: Solution): seq<Stay>
  {
    PlacedStays(inst, sol.patients) + OccupiedStays(inst, inst.occupants)
  }

  /** The inner `for day_offset in range(n)` loop of the generator. */
  method YieldStayDays(day0: int, n: nat, days: int, room: Id, person: Person, admission: int)
    returns (out: seq<Stay>)
    ensures out == StayDays(day0, n, days, room, person, admission)
  {
    out := [];
    for d := 0 to n
      invariant out == StayDays(day0, d, days, room, person, admission)
    {
      if day0 + d < days {
        out := out + [Stay(day0 + d, room, person, admission)];
      }
    }
  }

  /** `get_all_patients_in_rooms`, with the generator collected into a list. */
  method AllPatientsInRooms(inst: Instance, sol: Solution) returns (out: seq<Stay>)
    ensures out == Expansion(inst, sol)
  {
    var placed := YieldPlaced(inst, sol.patients);
    var occupied := YieldOccupied(inst);
    out := placed + occupied;
  }

  /** The generator's first loop, over the solution's placements. */
  method YieldPlaced(inst: Instance, ps: seq<Placement>) returns (placed: seq<Stay>)
    ensures placed == PlacedStays(inst, ps)
  {
    placed := [];
    for i := 0 to |ps|
      invariant placed == PlacedStays(inst, ps[..i])
    {
      assert ps[..i + 1][..i] == ps[..i];
      var p := ps[i];
      var found := PatientById(inst, p.id);
      if found.None? {
        continue;
      }
      var person := found.value;
      var days := YieldStayDays(p.admissionDay, person.LengthOfStay(), inst.days, p.room, person, p.admissionDay);
      placed := placed + days;
    }
    assert ps[..|ps|] == ps;
  }

  /** The generator's second loop, over the occupants. */
  method YieldOccupied(inst: Instance) returns (occupied: seq<Stay>)
    ensures occupied == OccupiedStays(inst, inst.occupants)
  {
    occupied := [];
    for i := 0 to |inst.occupants|
      invariant occupied == OccupiedStays(inst, inst.occupants[..i])
    {
      assert inst.occupants[..i + 1][..i] == inst.occupants[..i];
      var o := inst.occupants[i];
      if HasRoom(o.roomId) {
        var days := YieldStayDays(0, o.lengthOfStay, inst.days, o.roomId.value, AsOccupant(o), 0);
        occupied := occupied + days;
      }
    }
    assert inst.occupants[..|inst.occupants|] == inst.occupants;
  }

  /** A placement yields the days of its stay in its room with a copy of the
      record found for its id, admission day set to the placement's; a
      placement whose id is unknown yields nothing. */
  lemma PlacementStaysMember(inst: Instance, p: Placement, t: Stay)
    ensures t in PlacementStays(inst, p) <==>
              PatientById(inst, p.id).Some?
              && t.person == PatientById(inst, p.id).value
              && t.room == p.room && t.admission == p.admissionDay
              && p.admissionDay <= t.day < p.admissionDay + t.person.LengthOfStay() && t.day < inst.days
  {
    if PatientById(inst, p.id).Some? {
      var person := PatientById(inst, p.id).value;
      StayDaysMember(p.admissionDay, person.LengthOfStay(), inst.days, p.room, person, p.admissionDay, t);
    }
  }

  /** An occupant with a room yields days `0 .. length_of_stay-1` in that
      room; one without a room yields nothing. */
  lemma OccupantStaysMember(inst: Instance, o: Occupant, t: Stay)
    ensures t in OccupantStays(inst, o) <==>
              HasRoom(o.roomId) && t.room == o.roomId.value && t.person == AsOccupant(o)
              && t.admission == 0 && 0 <= t.day < o.lengthOfStay && t.day < inst.days
  {
    if HasRoom(o.roomId) {
      StayDaysMember(0, o.lengthOfStay, inst.days, o.roomId.value, AsOccupant(o), 0, t);
    }
  }

  lemma {:induction false} PlacedStaysMember(inst: Instance, ps: seq<Placement>, t: Stay)
    ensures t in PlacedStays(inst, ps) <==> exists i :: 0 <= i < |ps| && t in PlacementStays(inst, ps[i])
    decreases |ps|
  {
    if ps != [] {
      var init := ps[..|ps| - 1];
      PlacedStaysMember(inst, init, t);
      assert forall i :: 0 <= i < |init| ==> init[i] == ps[i];
      if exists i :: 0 <= i < |ps| && t in PlacementStays(inst, ps[i]) {
        var i :| 0 <= i < |ps| && t in PlacementStays(inst, ps[i]);
        if i < |init| { assert t in PlacementStays(inst, init[i]); }
      }
    }
  }

  lemma {:induction false} OccupiedStaysMember(inst: Instance, os: seq<Occupant>, t: Stay)
    ensures t in OccupiedStays(inst, os) <==> exists i :: 0 <= i < |os| && t in OccupantStays(inst, os[i])
    decreases |os|
  {
    if os != [] {
      var init := os[..|os| - 1];
      OccupiedStaysMember(inst, init, t);
      assert forall i :: 0 <= i < |init| ==> init[i] == os[i];
      if exists i :: 0 <= i < |os| && t in OccupantStays(inst, os[i]) {
        var i :| 0 <= i < |os| && t in OccupantStays(inst, os[i]);
        if i < |init| { assert t in OccupantStays(inst, init[i]); }
      }
    }
  }

  /** Every expanded triple lies before the horizon; an occupant's from day 0,
      a placement's from its admission day. */
  lemma ExpansionMember(inst: Instance, sol: Solution, t: Stay)
    requires t in Expansion(inst, sol)
    ensures t.day < inst.days
    ensures (exists i :: 0 <= i < |sol.patients| && t in PlacementStays(inst, sol.patients[i]))
            || (exists i :: 0 <= i < |inst.occupants| && t in OccupantStays(inst, inst.occupants[i]))
    ensures t.admission <= t.day < t.admission + t.person.LengthOfStay()
  {
    PlacedStaysMember(inst, sol.patients, t);
    OccupiedStaysMember(inst, inst.occupants, t);
    if t in PlacedStays(inst, sol.patients) {
      var i :| 0 <= i < |sol.patients| && t in PlacementStays(inst, sol.patients[i]);
      PlacementStaysMember(inst, sol.patients[i], t);
    } else {
      var i :| 0 <= i < |inst.occupants| && t in OccupantStays(inst, inst.occupants[i]);
      OccupantStaysMember(inst, inst.occupants[i], t);
    }
  }

  /** With no placements and no occupants nothing is yielded. */
  lemma ExpansionEmpty(inst: Instance, sol: Solution)
    requires sol.patients == [] && inst.occupants == []
    ensures Expansion(inst, sol) == []
  {
  }

  // ---------------------------------------------------------------------------
  // Staffing map (get_nurse_assignments)
  // ---------------------------------------------------------------------------

  /** What the map stores for a slot: the nurse's id (`id_only=True`) or skill. */
  datatype Staff = StaffId(id: Id) | StaffSkill(level: int)

  function StaffOf(n: Nurse, idOnly: bool): Staff {
    if idOnly then StaffId(n.id) else StaffSkill(n.skillLevel)
  }

  /** The writes of one duty record, room by room. */
  function DutyEntries(v: Staff, d: Duty, k: nat): seq<(Slot, Staff)>
    requires k <= |d.rooms|
    decreases k
  {
    if k == 0 then [] else DutyEntries(v, d, k - 1) + [((d.day, d.shift, d.rooms[k - 1]), v)]
  }

  /** The writes of one nurse's records, record by record. */
  function ScheduleEntries(v: Staff, ds: seq<Duty>): seq<(Slot, Staff)>
    decreases |ds|
  {
    if ds == [] then [] else ScheduleEntries(v, ds[..|ds| - 1]) + DutyEntries(v, ds[|ds| - 1], |ds[|ds| - 1].rooms|)
  }

  /** The writes of all nurse schedules, in solution order; unknown nurse ids write nothing. */
  function CoverageEntries(inst: Instance, ns: seq<NurseSchedule>, idOnly: bool): seq<(Slot, Staff)>
    decreases |ns|
  {
    if ns == [] then []
    else
      var n := ns[|ns| - 1];
      CoverageEntries(inst, ns[..|ns| - 1], idOnly)
      + (if n.id in NurseDict(inst) then ScheduleEntries(StaffOf(NurseDict(inst)[n.id], idOnly), n.assignments) else [])
  }

  /** The staffing map: each slot gets the value of the last write. */
  function Coverage(inst: Instance, sol: Solution, idOnly: bool): map<Slot, Staff>
  {
    LastWins(CoverageEntries(inst, sol.nurses, idOnly))
  }

  /** Writes the slots of one duty record into the staffing map. */
  method WriteDuty(m0: map<Slot, Staff>, ghost es0: seq<(Slot, Staff)>, v: Staff, d: Duty)
    returns (m: map<Slot, Staff>, ghost es: seq<(Slot, Staff)>)
    requires m0 == LastWins(es0)
    ensures es == es0 + DutyEntries(v, d, |d.rooms|)
    ensures m == LastWins(es0 + DutyEntries(v, d, |d.rooms|))
  {
    m, es := m0, es0;
    for r := 0 to |d.rooms|
      invariant es == es0 + DutyEntries(v, d, r)
      invariant m == LastWins(es)
    {
      var key := (d.day, d.shift, d.rooms[r]);
      assert (es + [(key, v)])[..|es|] == es;
      es := es + [(key, v)];
      m := m[key := v];
    }
  }

  /** The writes of the first `j + 1` records extend those of the first `j`. */
  lemma ScheduleStep(es0: seq<(Slot, Staff)>, v: Staff, ds: seq<Duty>, j: int)
    requires 0 <= j < |ds|
    ensures es0 + ScheduleEntries(v, ds[..j + 1]) == es0 + ScheduleEntries(v, ds[..j]) + DutyEntries(v, ds[j], |ds[j].rooms|)
  {
    var pre := ds[..j + 1];
    assert pre[..j] == ds[..j] && pre[j] == ds[j];
  }

  /** Writes the slots of all duty records of one nurse. */
  method WriteSchedule(m0: map<Slot, Staff>, ghost es0: seq<(Slot, Staff)>, v: Staff, ds: seq<Duty>)
    returns (m: map<Slot, Staff>, ghost es: seq<(Slot, Staff)>)
    requires m0 == LastWins(es0)
    ensures es == es0 + ScheduleEntries(v, ds)
    ensures m == LastWins(es0 + ScheduleEntries(v, ds))
  {
    m, es := m0, es0;
    for j := 0 to |ds|
      invariant es == es0 + ScheduleEntries(v, ds[..j])
      invariant m == LastWins(es)
    {
      ScheduleStep(es0, v, ds, j);
      m, es := WriteDuty(m, es, v, ds[j]);
    }
    assert ds[..|ds|] == ds;
  }

  /** `get_nurse_assignments`: fills the dictionary in place, later records overwriting earlier ones. */
  method GetNurseAssignments(inst: Instance, sol: Solution, idOnly: bool) returns (m: map<Slot, Staff>)
    ensures m == Coverage(inst, sol, idOnly)
  {
    m := map[];
    ghost var es: seq<(Slot, Staff)> := [];
    for i := 0 to |sol.nurses|
      invariant es == CoverageEntries(inst, sol.nurses[..i], idOnly)
      invariant m == LastWins(es)
    {
      assert sol.nurses[..i + 1][..i] == sol.nurses[..i];
      var n := sol.nurses[i];
      var nurse := NurseById(inst, n.id);
      if nurse.Some? {
        m, es := WriteSchedule(m, es, StaffOf(nurse.value, idOnly), n.assignments);
      }
    }
    assert sol.nurses[..|sol.nurses|] == sol.nurses;
  }

  lemma {:induction false} DutyEntriesMember(v: Staff, d: Duty, k: nat, e: (Slot, Staff))
    requires k <= |d.rooms|
    ensures e in DutyEntries(v, d, k) <==> e.1 == v && e.0.0 == d.day && e.0.1 == d.shift && e.0.2 in d.rooms[..k]
    decreases k
  {
    if k > 0 {
      DutyEntriesMember(v, d, k - 1, e);
      assert d.rooms[..k] == d.rooms[..k - 1] + [d.rooms[k - 1]];
    }
  }

  /** A duty record covers the slot's day, shift and room. */
  predicate Covers(d: Duty, k: Slot) {
    d.day == k.0 && d.shift == k.1 && k.2 in d.rooms
  }

  /** A write of a nurse's schedule comes from a record that covers its slot. */
  lemma {:induction false} EntryCovered(v: Staff, ds: seq<Duty>, e: (Slot, Staff)) returns (j: nat)
    requires e in ScheduleEntries(v, ds)
    ensures e.1 == v && j < |ds| && Covers(ds[j], e.0)
    decreases |ds|
  {
    var init, last := ds[..|ds| - 1], ds[|ds| - 1];
    if e in ScheduleEntries(v, init) {
      j := EntryCovered(v, init, e);
      assert init[j] == ds[j];
    } else {
      DutyEntriesMember(v, last, |last.rooms|, e);
      assert last.rooms[..|last.rooms|] == last.rooms;
      j := |ds| - 1;
    }
  }

  /** A record that covers a slot writes it. */
  lemma {:induction false} CoveredEntry(v: Staff, ds: seq<Duty>, j: nat, e: (Slot, Staff))
    requires e.1 == v && j < |ds| && Covers(ds[j], e.0)
    ensures e in ScheduleEntries(v, ds)
    decreases |ds|
  {
    var init, last := ds[..|ds| - 1], ds[|ds| - 1];
    if j < |init| {
      assert init[j] == ds[j];
      CoveredEntry(v, init, j, e);
    } else {
      DutyEntriesMember(v, last, |last.rooms|, e);
      assert last.rooms[..|last.rooms|] == last.rooms;
    }
  }

  lemma ScheduleEntriesMember(v: Staff, ds: seq<Duty>, e: (Slot, Staff))
    ensures e in ScheduleEntries(v, ds) <==>
              e.1 == v && exists j :: 0 <= j < |ds| && ds[j].day == e.0.0 && ds[j].shift == e.0.1 && e.0.2 in ds[j].rooms
  {
    if e in ScheduleEntries(v, ds) {
      var j := EntryCovered(v, ds, e);
    }
    if e.1 == v && exists j :: 0 <= j < |ds| && ds[j].day == e.0.0 && ds[j].shift == e.0.1 && e.0.2 in ds[j].rooms {
      var j :| 0 <= j < |ds| && ds[j].day == e.0.0 && ds[j].shift == e.0.1 && e.0.2 in ds[j].rooms;
      CoveredEntry(v, ds, j, e);
    }
  }

  /** A duty record of a known nurse lists the room of the slot. */
  ghost predicate Lists(inst: Instance, ns: seq<NurseSchedule>, i: int, j: int, k: Slot)
  {
    0 <= i < |ns| && ns[i].id in NurseDict(inst) && 0 <= j < |ns[i].assignments|
    && ns[i].assignments[j].day == k.0 && ns[i].assignments[j].shift == k.1 && k.2 in ns[i].assignments[j].rooms
  }

  lemma {:induction false} CoverageEntriesMember(inst: Instance, ns: seq<NurseSchedule>, idOnly: bool, e: (Slot, Staff))
    ensures e in CoverageEntries(inst, ns, idOnly) <==>
              exists i, j :: Lists(inst, ns, i, j, e.0) && e.1 == StaffOf(NurseDict(inst)[ns[i].id], idOnly)
    decreases |ns|
  {
    if ns != [] {
      var init := ns[..|ns| - 1];
      var n := ns[|ns| - 1];
      CoverageEntriesMember(inst, init, idOnly, e);
      forall i, j | 0 <= i < |init| ensures Lists(inst, init, i, j, e.0) <==> Lists(inst, ns, i, j, e.0) {
        assert init[i] == ns[i];
      }
      if n.id in NurseDict(inst) {
        ScheduleEntriesMember(StaffOf(NurseDict(inst)[n.id], idOnly), n.assignments, e);
      }
      if exists i, j :: Lists(inst, ns, i, j, e.0) && e.1 == StaffOf(NurseDict(inst)[ns[i].id], idOnly) {
        var i, j :| Lists(inst, ns, i, j, e.0) && e.1 == StaffOf(NurseDict(inst)[ns[i].id], idOnly);
        if i < |init| {
          assert Lists(inst, init, i, j, e.0);
        } else {
          assert e in ScheduleEntries(StaffOf(NurseDict(inst)[n.id], idOnly), n.assignments);
        }
      }
      if e in CoverageEntries(inst, init, idOnly) {
        var i, j :| Lists(inst, init, i, j, e.0) && e.1 == StaffOf(NurseDict(inst)[init[i].id], idOnly);
        assert Lists(inst, ns, i, j, e.0);
      }
      if n.id in NurseDict(inst) && e in ScheduleEntries(StaffOf(NurseDict(inst)[n.id], idOnly), n.assignments) {
        var j :| 0 <= j < |n.assignments| && n.assignments[j].day == e.0.0 && n.assignments[j].shift == e.0.1
                 && e.0.2 in n.assignments[j].rooms;
        assert Lists(inst, ns, |ns| - 1, j, e.0);
      }
    }
  }

  /** The value a slot ends up with is the staff of the last record, in
      solution order, that lists the slot. */
  lemma {:induction false} CoverageLast(inst: Instance, ns: seq<NurseSchedule>, idOnly: bool, k: Slot)
    requires k in LastWins(CoverageEntries(inst, ns, idOnly))
    ensures exists i, j :: Lists(inst, ns, i, j, k)
              && LastWins(CoverageEntries(inst, ns, idOnly))[k] == StaffOf(NurseDict(inst)[ns[i].id], idOnly)
              && forall i2, j2 :: Lists(inst, ns, i2, j2, k) ==> i2 <= i
    decreases |ns|
  {
    assert ns != [];
    var init := ns[..|ns| - 1];
    var n := ns[|ns| - 1];
    var a := CoverageEntries(inst, init, idOnly);
    var b := if n.id in NurseDict(inst) then ScheduleEntries(StaffOf(NurseDict(inst)[n.id], idOnly), n.assignments) else [];
    assert CoverageEntries(inst, ns, idOnly) == a + b;
    LastWinsAppend(a, b, k);
    forall i2, j2 | 0 <= i2 < |init| ensures Lists(inst, init, i2, j2, k) <==> Lists(inst, ns, i2, j2, k) {
      assert init[i2] == ns[i2];
    }
    var last := |ns| - 1;
    forall j2 | Lists(inst, ns, last, j2, k) ensures k in LastWins(b) {
      var e := (k, StaffOf(NurseDict(inst)[n.id], idOnly));
      ScheduleEntriesMember(StaffOf(NurseDict(inst)[n.id], idOnly), n.assignments, e);
      var x :| 0 <= x < |b| && b[x] == e;
      LastWinsKey(b, k);
    }
    if k in LastWins(b) {
      assert n.id in NurseDict(inst);
      var v := StaffOf(NurseDict(inst)[n.id], idOnly);
      LastWinsFrom(b, k);
      var x :| 0 <= x < |b| && b[x] == (k, LastWins(b)[k]) && forall y :: x < y < |b| ==> b[y].0 != k;
      ScheduleEntriesMember(v, n.assignments, b[x]);
      var j :| 0 <= j < |n.assignments| && n.assignments[j].day == k.0 && n.assignments[j].shift == k.1
               && k.2 in n.assignments[j].rooms;
      assert Lists(inst, ns, last, j, k);
    } else {
      CoverageLast(inst, init, idOnly, k);
      var i, j :| Lists(inst, init, i, j, k)
                  && LastWins(a)[k] == StaffOf(NurseDict(inst)[init[i].id], idOnly)
                  && forall i2, j2 :: Lists(inst, init, i2, j2, k) ==> i2 <= i;
      assert Lists(inst, ns, i, j, k);
      forall i2, j2 | Lists(inst, ns, i2, j2, k) ensures i2 <= i {
        if i2 < |init| {
          assert Lists(inst, init, i2, j2, k);
        }
      }
    }
  }

  /** A slot is staffed exactly when a record of a known nurse lists its room
      on its day and shift, and then it holds the id or skill of the last
      such record in solution order; records of unknown nurses are ignored. */
  lemma CoverageSpec(inst: Instance, sol: Solution, idOnly: bool, k: Slot)
    ensures k in Coverage(inst, sol, idOnly) <==> exists i, j :: Lists(inst, sol.nurses, i, j, k)
    ensures k in Coverage(inst, sol, idOnly) ==>
              exists i, j :: Lists(inst, sol.nurses, i, j, k)
                             && Coverage(inst, sol, idOnly)[k] == StaffOf(NurseDict(inst)[sol.nurses[i].id], idOnly)
                             && forall i2, j2 :: Lists(inst, sol.nurses, i2, j2, k) ==> i2 <= i
  {
    var es := CoverageEntries(inst, sol.nurses, idOnly);
    LastWinsKey(es, k);
    if k in Coverage(inst, sol, idOnly) {
      CoverageLast(inst, sol.nurses, idOnly, k);
    }
    if exists i, j :: Lists(inst, sol.nurses, i, j, k) {
      var i, j :| Lists(inst, sol.nurses, i, j, k);
      var e := (k, StaffOf(NurseDict(inst)[sol.nurses[i].id], idOnly));
      CoverageEntriesMember(inst, sol.nurses, idOnly, e);
      var x :| 0 <= x < |es| && es[x] == e;
    }
  }

  /** Without `id_only` every stored value is a skill level. */
  lemma CoverageSkills(inst: Instance, sol: Solution, k: Slot)
    requires k in Coverage(inst, sol, false)
    ensures Coverage(inst, sol, false)[k].StaffSkill?
  {
    CoverageSpec(inst, sol, false, k);
  }

  // ---------------------------------------------------------------------------
  // Maximum load (get_nurse_max_load)
  // ---------------------------------------------------------------------------

  predicate ShiftMatches(w: WorkingShift, day: int, shift: string) {
    w.day == day && w.shift == shift
  }

  /** The `max_load` of the first matching working shift, 0 when it is missing
      or no shift matches. */
  function FirstShiftLoad(ws: seq<WorkingShift>, day: int, shift: string): (r: int)
    ensures (exists i :: 0 <= i < |ws| && ShiftMatches(ws[i], day, shift)
                         && (forall j :: 0 <= j < i ==> !ShiftMatches(ws[j], day, shift))
                         && r == ws[i].maxLoad.GetOr(0))
            || ((forall j :: 0 <= j < |ws| ==> !ShiftMatches(ws[j], day, shift)) && r == 0)
  {
    if ws == [] then 0
    else if ShiftMatches(ws[0], day, shift) then ws[0].maxLoad.GetOr(0)
    else
      var r := FirstShiftLoad(ws[1..], day, shift);
      assert forall j :: 1 <= j < |ws| ==> ws[j] == ws[1..][j - 1];
      if exists i :: 0 <= i < |ws[1..]| && ShiftMatches(ws[1..][i], day, shift)
                     && (forall j :: 0 <= j < i ==> !ShiftMatches(ws[1..][j], day, shift))
                     && r == ws[1..][i].maxLoad.GetOr(0) then
        var i :| 0 <= i < |ws[1..]| && ShiftMatches(ws[1..][i], day, shift)
                 && (forall j :: 0 <= j < i ==> !ShiftMatches(ws[1..][j], day, shift))
                 && r == ws[1..][i].maxLoad.GetOr(0);
        assert ws[i + 1] == ws[1..][i];
        r
      else r
  }

  /** The maximum load of a nurse on a (day, shift); 0 for an unknown nurse. */
  function NurseMaxLoad(inst: Instance, nurseId: Id, day: int, shift: string): int
  {
    match NurseById(inst, nurseId)
    case None => 0
    case Some(n) => FirstShiftLoad(n.workingShifts, day, shift)
  }

  /** `get_nurse_max_load`: an early-return search of the nurse's working shifts. */
  method GetNurseMaxLoad(inst: Instance, nurseId: Id, day: int, shift: string) returns (r: int)
    ensures r == NurseMaxLoad(inst, nurseId, day, shift)
    ensures NurseById(inst, nurseId).None? ==> r == 0
    ensures NurseById(inst, nurseId).Some? ==>
              var ws := NurseById(inst, nurseId).value.workingShifts;
              (exists i :: 0 <= i < |ws| && ShiftMatches(ws[i], day, shift)
                           && (forall j :: 0 <= j < i ==> !ShiftMatches(ws[j], day, shift))
                           && r == ws[i].maxLoad.GetOr(0))
              || ((forall j :: 0 <= j < |ws| ==> !ShiftMatches(ws[j], day, shift)) && r == 0)
  {
    var nurse := NurseById(inst, nurseId);
    if nurse.None? {
      return 0;
    }
    var ws := nurse.value.workingShifts;
    for i := 0 to |ws|
      invariant forall j :: 0 <= j < i ==> !ShiftMatches(ws[j], day, shift)
      invariant FirstShiftLoad(ws, day, shift) == FirstShiftLoad(ws[i..], day, shift)
    {
      assert ws[i..][1..] == ws[i + 1..];
      if ws[i].day == day && ws[i].shift == shift {
        return ws[i].maxLoad.GetOr(0);
      }
    }
    return 0;
  }
}
