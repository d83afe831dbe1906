/**
 * The greedy start of solvers/RVNS_solver.py (`_generate_initial_solution`):
 * patients are placed one by one in the first day, room and theater that
 * pass the six hard checks (mandatory ones first, by due day, then the
 * optional ones by release day), and then every (day, shift, room) that a
 * placed or occupying patient needs is handed to a randomly chosen nurse who
 * works that shift with enough skill.
 */
module Builder {
  import opened Wrappers
  import opened Collections
  import opened Hospital
  import opened GlobalConstraints
  import opened Validity
  import opened Oracle
  import opened PasConstraints
  import opened ScpConstraints
  import opened Moves
  import opened Roster

  // ---------------------------------------------------------------------------
  // Sort keys and Python's stable `sorted`
  // ---------------------------------------------------------------------------

  /** A sort key that may be `float('inf')`. */
  datatype Ext = Finite(n: int) | Infinity

  predicate ExtLe(a: Ext, b: Ext) {
    match (a, b)
    case (_, Infinity) => true
    case (Infinity, Finite(_)) => false
    case (Finite(x), Finite(y)) => x <= y
  }

  /** `p.get('surgery_due_day', float('inf'))` */
  function DueKey(p: Patient): Ext {
    if p.dueDay.Some? then Finite(p.dueDay.value) else Infinity
  }

  /** `p['surgery_release_day']` */
  function ReleaseKey(p: Patient): Ext {
    Finite(p.releaseDay)
  }

  predicate SortedBy(xs: seq<Patient>, key: Patient -> Ext) {
    forall i, j :: 0 <= i < j < |xs| ==> ExtLe(key(xs[i]), key(xs[j]))
  }

  /** Puts `x` after every element whose key is at most its own. */
  function Insert(x: Patient, ys: seq<Patient>, key: Patient -> Ext): (r: seq<Patient>)
    ensures multiset(r) == multiset(ys) + multiset{x} && |r| == |ys| + 1
    decreases |ys|
  {
    if ys == [] then [x]
    else if !ExtLe(key(ys[0]), key(x)) then [x] + ys
    else
      assert ys == [ys[0]] + ys[1..];
      [ys[0]] + Insert(x, ys[1..], key)
  }

  /** `sorted(xs, key=key)`, as an insertion sort that keeps equal keys in
      their input order. */
  function SortBy(xs: seq<Patient>, key: Patient -> Ext): (r: seq<Patient>)
    ensures multiset(r) == multiset(xs) && |r| == |xs|
    decreases |xs|
  {
    if xs == [] then []
    else
      assert xs == xs[..|xs| - 1] + [xs[|xs| - 1]];
      Insert(xs[|xs| - 1], SortBy(xs[..|xs| - 1], key), key)
  }

  lemma {:induction false} InsertSorted(x: Patient, ys: seq<Patient>, key: Patient -> Ext)
    requires SortedBy(ys, key)
    ensures SortedBy(Insert(x, ys, key), key)
    decreases |ys|
  {
    if ys != [] && ExtLe(key(ys[0]), key(x)) {
      var rest := Insert(x, ys[1..], key);
      InsertSorted(x, ys[1..], key);
      forall z | z in rest ensures ExtLe(key(ys[0]), key(z)) {
        assert z in multiset(rest);
        if z != x {
          assert z in ys[1..];
        }
      }
      assert Insert(x, ys, key) == [ys[0]] + rest;
    }
  }

  /** The result of `sorted` is ordered by the key. */
  lemma {:induction false} SortBySorted(xs: seq<Patient>, key: Patient -> Ext)
    ensures SortedBy(SortBy(xs, key), key)
    decreases |xs|
  {
    if xs != [] {
      SortBySorted(xs[..|xs| - 1], key);
      InsertSorted(xs[|xs| - 1], SortBy(xs[..|xs| - 1], key), key);
    }
  }

  // ---------------------------------------------------------------------------
  // The order in which patients are placed
  // ---------------------------------------------------------------------------

  /** `[p for p in patient_dict.values() if p.get('mandatory') == mandatory]` */
  function Select(vs: seq<Patient>, mandatory: bool): (r: seq<Patient>)
    ensures forall p :: p in r <==> p in vs && p.mandatory == mandatory
    decreases |vs|
  {
    if vs == [] then []
    else
      var init := vs[..|vs| - 1];
      var last := vs[|vs| - 1];
      assert forall p :: p in vs <==> p in init || p == last;
      Select(init, mandatory) + (if last.mandatory == mandatory then [last] else [])
  }

  /** `mandatory_patients + optional_patients`, from the dictionary's values `vs`. */
  function Arrange(vs: seq<Patient>): seq<Patient> {
    SortBy(Select(vs, true), DueKey) + SortBy(Select(vs, false), ReleaseKey)
  }

  /** The order of the greedy start. */
  function Schedule(inst: Instance): seq<Patient> {
    Arrange(DictValues(inst.patients, PatientKey))
  }

  /** Splitting by `mandatory` loses and adds nothing. */
  lemma {:induction false} SelectSplit(vs: seq<Patient>)
    ensures multiset(Select(vs, true)) + multiset(Select(vs, false)) == multiset(vs)
    decreases |vs|
  {
    if vs != [] {
      var init, last := vs[..|vs| - 1], vs[|vs| - 1];
      SelectSplit(init);
      assert vs == init + [last];
      assert multiset(vs) == multiset(init) + multiset{last};
      if last.mandatory {
        assert Select(vs, true) == Select(init, true) + [last];
        assert Select(vs, false) == Select(init, false);
      } else {
        assert Select(vs, true) == Select(init, true);
        assert Select(vs, false) == Select(init, false) + [last];
      }
    }
  }

  /** The mandatory patients come first, ordered by due day, then the optional
      ones, ordered by release day; nothing is lost or repeated. */
  lemma ArrangeOrder(vs: seq<Patient>)
    ensures var ts := Arrange(vs);
            var m := |Select(vs, true)|;
            multiset(ts) == multiset(vs)
            && (forall i :: 0 <= i < |ts| ==> (ts[i].mandatory <==> i < m))
            && SortedBy(ts[..m], DueKey) && SortedBy(ts[m..], ReleaseKey)
  {
    var ms := SortBy(Select(vs, true), DueKey);
    var os := SortBy(Select(vs, false), ReleaseKey);
    var ts := Arrange(vs);
    SelectSplit(vs);
    SortBySorted(Select(vs, true), DueKey);
    SortBySorted(Select(vs, false), ReleaseKey);
    assert ts[..|ms|] == ms && ts[|ms|..] == os;
    forall i | 0 <= i < |ts| ensures ts[i].mandatory <==> i < |ms| {
      if i < |ms| {
        assert ts[i] == ms[i];
        assert ts[i] in multiset(Select(vs, true));
      } else {
        assert ts[i] == os[i - |ms|];
        assert ts[i] in multiset(Select(vs, false));
      }
    }
  }

  /** Arranging records with distinct ids keeps the ids distinct. */
  lemma ArrangeDistinct(vs: seq<Patient>)
    requires forall i, j :: 0 <= i < j < |vs| ==> vs[i].id != vs[j].id
    ensures forall i, j :: 0 <= i < j < |Arrange(vs)| ==> Arrange(vs)[i].id != Arrange(vs)[j].id
  {
    var ts := Arrange(vs);
    ArrangeOrder(vs);
    forall i, j | 0 <= i < j < |ts| ensures ts[i].id != ts[j].id {
      if ts[i].id == ts[j].id {
        assert ts[i] in multiset(vs) && ts[j] in multiset(vs);
        var a :| 0 <= a < |vs| && vs[a] == ts[i];
        var b :| 0 <= b < |vs| && vs[b] == ts[j];
        assert a == b;
        DistinctOnce(ts, i, j);
        OnceDistinct(vs, a);
        assert false;
      }
    }
  }

  /** Every patient record of the dictionary is scheduled exactly once. */
  lemma ScheduleCovers(inst: Instance)
    ensures forall p: Patient :: p in Schedule(inst) <==> p.id in PatientDict(inst) && PatientDict(inst)[p.id] == p
    ensures forall i, j :: 0 <= i < j < |Schedule(inst)| ==> Schedule(inst)[i].id != Schedule(inst)[j].id
  {
    var vs := DictValues(inst.patients, PatientKey);
    DictValuesSpec(inst.patients, PatientKey);
    ArrangeOrder(vs);
    ArrangeDistinct(vs);
    var ts := Schedule(inst);
    forall p: Patient ensures p in ts <==> p.id in PatientDict(inst) && PatientDict(inst)[p.id] == p {
      assert p in ts <==> p in multiset(vs);
      if p.id in PatientDict(inst) && PatientDict(inst)[p.id] == p {
        var i :| 0 <= i < |vs| && PatientKey(vs[i]) == p.id;
      }
    }
  }

  /** Two positions holding equal records make the record occur twice. */
  lemma DistinctOnce(ts: seq<Patient>, i: int, j: int)
    requires 0 <= i < j < |ts| && ts[i] == ts[j]
    ensures multiset(ts)[ts[i]] >= 2
  {
    assert ts == ts[..j] + [ts[j]] + ts[j + 1..];
    assert ts[i] in ts[..j];
  }

  /** A record at one position of a list of distinct ids occurs once. */
  lemma OnceDistinct(vs: seq<Patient>, a: int)
    requires 0 <= a < |vs|
    requires forall i, j :: 0 <= i < j < |vs| ==> vs[i].id != vs[j].id
    ensures multiset(vs)[vs[a]] == 1
  {
    assert vs == vs[..a] + [vs[a]] + vs[a + 1..];
    assert vs[a] !in vs[..a];
    assert vs[a] !in vs[a + 1..];
  }

  // ---------------------------------------------------------------------------
  // The patient phase
  // ---------------------------------------------------------------------------

  /** `[r['id'] for r in rooms if r['id'] not in banned]` */
  function RoomIdsExcept(rooms: seq<Room>, banned: seq<Id>): (r: seq<Id>)
    ensures forall x :: x in r <==> x !in banned && exists i :: 0 <= i < |rooms| && rooms[i].id == x
    decreases |rooms|
  {
    if rooms == [] then []
    else
      var init := rooms[..|rooms| - 1];
      var last := rooms[|rooms| - 1];
      assert forall i :: 0 <= i < |init| ==> init[i] == rooms[i];
      RoomIdsExcept(init, banned) + (if last.id !in banned then [last.id] else [])
  }

  /** `[ot['id'] for ot in operating_theaters]` */
  function TheaterIds(ts: seq<Theater>): (r: seq<Id>)
    ensures forall x :: x in r <==> exists i :: 0 <= i < |ts| && ts[i].id == x
  {
    var r := seq(|ts|, i requires 0 <= i < |ts| => ts[i].id);
    assert forall i :: 0 <= i < |ts| ==> r[i] == ts[i].id;
    r
  }

  /** A placement the greedy start makes: a room the patient is not barred
      from and a listed theater. */
  predicate WellPlaced(inst: Instance, p: Placement) {
    p.id in PatientDict(inst)
    && p.room !in PatientDict(inst)[p.id].incompatibleRooms
    && p.theater in TheaterDict(inst)
  }

  /** `s` is `sol` with one placement of `patient` appended, inside its
      window, in an allowed room, passing the six hard checks. */
  ghost predicate Placed(inst: Instance, sol: Solution, s: Solution, patient: Patient) {
    |s.patients| == |sol.patients| + 1
    && s == sol.(patients := sol.patients + [s.patients[|sol.patients|]])
    && var p := s.patients[|sol.patients|];
       p.id == patient.id && patient.releaseDay <= p.admissionDay <= DueOrDefault(inst, patient)
       && WellPlaced(inst, p) && AppendPasses(inst, sol, p)
  }

  /** The shuffled room and theater lists hold exactly the rooms the patient
      may use and exactly the known theaters. */
  lemma CandidatesKnown(inst: Instance, patient: Patient, roomOrder: seq<Id>, otOrder: seq<Id>)
    requires multiset(roomOrder) == multiset(RoomIdsExcept(inst.rooms, patient.incompatibleRooms))
    requires multiset(otOrder) == multiset(TheaterIds(inst.theaters))
    ensures forall r :: r in roomOrder <==> r in RoomDict(inst) && r !in patient.incompatibleRooms
    ensures forall t :: t in otOrder <==> t in TheaterDict(inst)
  {
    forall r ensures r in roomOrder <==> r in RoomDict(inst) && r !in patient.incompatibleRooms {
      assert r in multiset(roomOrder) <==> r in multiset(RoomIdsExcept(inst.rooms, patient.incompatibleRooms));
      IdDictKey(inst.rooms, RoomKey, r);
      if r in RoomDict(inst) {
        var i :| 0 <= i < |inst.rooms| && RoomKey(inst.rooms[i]) == r;
        assert inst.rooms[i].id == r;
      }
      if r in RoomIdsExcept(inst.rooms, patient.incompatibleRooms) {
        var i :| 0 <= i < |inst.rooms| && inst.rooms[i].id == r;
        assert RoomKey(inst.rooms[i]) == r;
      }
    }
    forall t ensures t in otOrder <==> t in TheaterDict(inst) {
      assert t in multiset(otOrder) <==> t in multiset(TheaterIds(inst.theaters));
      IdDictKey(inst.theaters, TheaterKey, t);
      if t in TheaterDict(inst) {
        var i :| 0 <= i < |inst.theaters| && TheaterKey(inst.theaters[i]) == t;
        assert inst.theaters[i].id == t;
      }
      if t in TheaterIds(inst.theaters) {
        var i :| 0 <= i < |inst.theaters| && inst.theaters[i].id == t;
        assert TheaterKey(inst.theaters[i]) == t;
      }
    }
  }

  /** What one pass of the patient loop leaves: `sol` itself only when the
      patient's window is empty or no day of it, allowed room and theater
      passes; otherwise a `Placed` step on a day before which nothing in the
      window would have passed. */
  ghost predicate PlaceResult(inst: Instance, sol: Solution, patient: Patient, s: Solution) {
    (s == sol ==>
       patient.releaseDay > DueOrDefault(inst, patient)
       || NoPlacement(inst, sol, patient.id, patient.releaseDay, DueOrDefault(inst, patient) + 1,
                      patient.incompatibleRooms))
    && (s == sol
        || (Placed(inst, sol, s, patient)
            && NoPlacement(inst, sol, patient.id, patient.releaseDay, s.patients[|sol.patients|].admissionDay,
                           patient.incompatibleRooms)))
  }

  /** A patient whose window is empty is left out. */
  lemma EmptyWindow(inst: Instance, sol: Solution, patient: Patient)
    requires patient.releaseDay > DueOrDefault(inst, patient)
    ensures PlaceResult(inst, sol, patient, sol)
  {
  }

  /** The two shuffled lists of the patient loop. */
  method ShuffledCandidates(inst: Instance, patient: Patient, rng: Random) returns (roomOrder: seq<Id>, otOrder: seq<Id>)
    modifies rng
    ensures forall r :: r in roomOrder <==> r in RoomDict(inst) && r !in patient.incompatibleRooms
    ensures forall t :: t in otOrder <==> t in TheaterDict(inst)
  {
    var rooms := RoomIdsExcept(inst.rooms, patient.incompatibleRooms);
    var ots := TheaterIds(inst.theaters);
    roomOrder := rng.Shuffle(rooms);
    otOrder := rng.Shuffle(ots);
    CandidatesKnown(inst, patient, roomOrder, otOrder);
  }

  /** One pass of the patient loop: the first day of the window, in order,
      and the first shuffled room and theater that pass the six hard checks.
      The patient stays out only when its window is empty or no day, allowed
      room and theater passes; when placed, no earlier day of the window
      would have passed with any allowed room and theater. */
  method PlacePatient(inst: Instance, sol: Solution, patient: Patient, rng: Random) returns (s: Solution)
    requires WellFormed(inst) && Valid(inst, sol)
    requires patient.id in PatientDict(inst) && PatientDict(inst)[patient.id] == patient
    requires patient.id !in AdmittedIds(sol)
    modifies rng
    ensures Valid(inst, s) && PlaceResult(inst, sol, patient, s)
  {
    if patient.releaseDay > DueOrDefault(inst, patient) {
      EmptyWindow(inst, sol, patient);
      return sol;
    }
    s := PlaceInWindow(inst, sol, patient, rng);
  }

  /** The nested loops of one pass, for a patient whose window is not empty. */
  method PlaceInWindow(inst: Instance, sol: Solution, patient: Patient, rng: Random) returns (s: Solution)
    requires WellFormed(inst) && Valid(inst, sol)
    requires patient.id in PatientDict(inst) && PatientDict(inst)[patient.id] == patient
    requires patient.id !in AdmittedIds(sol)
    requires patient.releaseDay <= DueOrDefault(inst, patient)
    modifies rng
    ensures Valid(inst, s) && PlaceResult(inst, sol, patient, s)
  {
    var roomOrder, otOrder := ShuffledCandidates(inst, patient, rng);
    var days := DayRange(patient.releaseDay, DueOrDefault(inst, patient) + 1);
    s := FirstFeasible(inst, sol, patient.id, days, roomOrder, otOrder);
    PlaceOutcome(inst, sol, patient, roomOrder, otOrder, s);
  }

  /** What the first passing triple of the day range and the shuffled lists
      means for one pass of the patient loop. */
  lemma PlaceOutcome(inst: Instance, sol: Solution, patient: Patient, roomOrder: seq<Id>, otOrder: seq<Id>, s: Solution)
    requires patient.id in PatientDict(inst) && PatientDict(inst)[patient.id] == patient
    requires patient.releaseDay <= DueOrDefault(inst, patient)
    requires forall r :: r in roomOrder <==> r in RoomDict(inst) && r !in patient.incompatibleRooms
    requires forall t :: t in otOrder <==> t in TheaterDict(inst)
    requires var days := DayRange(patient.releaseDay, DueOrDefault(inst, patient) + 1);
             var k := FirstTriple(days, roomOrder, otOrder, InsertTest(inst, sol, patient.id));
             s == if k.None? then sol
                  else sol.(patients := sol.patients + [Placement(patient.id, days[k.value.0], roomOrder[k.value.1], otOrder[k.value.2])])
    ensures PlaceResult(inst, sol, patient, s)
  {
    var days := DayRange(patient.releaseDay, DueOrDefault(inst, patient) + 1);
    var test := InsertTest(inst, sol, patient.id);
    if FirstTriple(days, roomOrder, otOrder, test).Some? {
      PlaceFound(inst, sol, patient, roomOrder, otOrder, s);
    } else {
      FirstTripleNone(days, roomOrder, otOrder, test);
      NoneFits(inst, sol, patient.id, days, roomOrder, otOrder, patient.releaseDay,
               DueOrDefault(inst, patient) + 1, patient.incompatibleRooms);
    }
  }

  /** When some triple passes, the pass places the patient on the first day
      of the window with a passing room and theater. */
  lemma PlaceFound(inst: Instance, sol: Solution, patient: Patient, roomOrder: seq<Id>, otOrder: seq<Id>, s: Solution)
    requires patient.id in PatientDict(inst) && PatientDict(inst)[patient.id] == patient
    requires forall r :: r in roomOrder <==> r in RoomDict(inst) && r !in patient.incompatibleRooms
    requires forall t :: t in otOrder <==> t in TheaterDict(inst)
    requires var days := DayRange(patient.releaseDay, DueOrDefault(inst, patient) + 1);
             var k := FirstTriple(days, roomOrder, otOrder, InsertTest(inst, sol, patient.id));
             k.Some?
             && s == sol.(patients := sol.patients + [Placement(patient.id, days[k.value.0], roomOrder[k.value.1], otOrder[k.value.2])])
    ensures Placed(inst, sol, s, patient)
    ensures NoPlacement(inst, sol, patient.id, patient.releaseDay, s.patients[|sol.patients|].admissionDay,
                        patient.incompatibleRooms)
  {
    var release, hi := patient.releaseDay, DueOrDefault(inst, patient) + 1;
    var days := DayRange(release, hi);
    var test := InsertTest(inst, sol, patient.id);
    var (a, b, c) := FirstTriple(days, roomOrder, otOrder, test).value;
    DayRangeAt(release, hi);
    FirstTripleFirst(days, roomOrder, otOrder, test);
    var p := Placement(patient.id, days[a], roomOrder[b], otOrder[c]);
    assert s.patients[|sol.patients|] == p;
    EarlierDaysFail(inst, sol, patient, days, roomOrder, otOrder, a);
  }

  /** No day of the window before the `a`-th, with any allowed room and known
      theater, passes when the triples of the first `a` days all fail. */
  lemma EarlierDaysFail(inst: Instance, sol: Solution, patient: Patient, days: seq<int>,
                        roomOrder: seq<Id>, otOrder: seq<Id>, a: int)
    requires days == DayRange(patient.releaseDay, DueOrDefault(inst, patient) + 1) && 0 <= a < |days|
    requires forall r :: r in RoomDict(inst) && r !in patient.incompatibleRooms ==> r in roomOrder
    requires forall t :: t in TheaterDict(inst) ==> t in otOrder
    requires FirstTriple(days, roomOrder, otOrder, InsertTest(inst, sol, patient.id)).Some?
    requires FirstTriple(days, roomOrder, otOrder, InsertTest(inst, sol, patient.id)).value.0 == a
    ensures NoPlacement(inst, sol, patient.id, patient.releaseDay, days[a], patient.incompatibleRooms)
  {
    var release := patient.releaseDay;
    DayRangeAt(release, DueOrDefault(inst, patient) + 1);
    FirstTripleEarlier(days, roomOrder, otOrder, InsertTest(inst, sol, patient.id));
    var earlier := days[..a];
    forall d | release <= d < days[a] ensures d in earlier {
      assert earlier[d - release] == d;
    }
    NoneFits(inst, sol, patient.id, earlier, roomOrder, otOrder, release, days[a], patient.incompatibleRooms);
  }

  /** The ids of a list of records. */
  function IdsOf(ts: seq<Patient>): set<Id> {
    set p | p in ts :: p.id
  }

  /** The next patient of a schedule with distinct ids has not been placed
      by the earlier passes. */
  lemma FreshAt(ts: seq<Patient>, i: int, sol: Solution)
    requires 0 <= i < |ts| && AdmittedIds(sol) <= IdsOf(ts[..i])
    requires forall a, b :: 0 <= a < b < |ts| ==> ts[a].id != ts[b].id
    ensures ts[i].id !in AdmittedIds(sol)
  {
  }

  /** A pass places at most the patient it was given. */
  lemma AdmittedStep(ts: seq<Patient>, i: int, sol: Solution, next: Solution)
    requires 0 <= i < |ts| && AdmittedIds(sol) <= IdsOf(ts[..i])
    requires next == sol
             || (|next.patients| == |sol.patients| + 1
                 && next.patients == sol.patients + [next.patients[|sol.patients|]]
                 && next.patients[|sol.patients|].id == ts[i].id)
    ensures AdmittedIds(next) <= IdsOf(ts[..i + 1])
  {
    assert ts[..i + 1] == ts[..i] + [ts[i]];
    assert IdsOf(ts[..i + 1]) == IdsOf(ts[..i]) + {ts[i].id};
    if next != sol {
      forall x | x in AdmittedIds(next) ensures x in AdmittedIds(sol) || x == ts[i].id {
        var j :| 0 <= j < |next.patients| && next.patients[j].id == x;
        if j < |sol.patients| {
          assert next.patients[j] == sol.patients[j];
        }
      }
    }
  }

  /** The patient phase of `_generate_initial_solution`: every patient of the
      schedule is tried once, in order; the result is valid, has no nurse
      records yet, and when it places anyone passes the six hard checks. */
  method PlacePatients(inst: Instance, rng: Random) returns (sol: Solution)
    requires WellFormed(inst)
    modifies rng
    ensures Valid(inst, sol) && sol.nurses == []
    ensures sol.patients != [] ==> Evaluable(inst, sol) && PassesHardChecks(inst, sol)
    ensures forall i :: 0 <= i < |sol.patients| ==> WellPlaced(inst, sol.patients[i])
    ensures AdmittedIds(sol) <= IdsOf(Schedule(inst))
  {
    ScheduleCovers(inst);
    sol := PlaceInOrder(inst, Schedule(inst), rng);
  }

  /** What the patient loop keeps: a valid solution without nurse records,
      in allowed rooms, passing the six hard checks once anyone is placed. */
  ghost predicate PhaseOk(inst: Instance, sol: Solution) {
    && Valid(inst, sol) && sol.nurses == []
    && (sol.patients != [] ==> Evaluable(inst, sol) && PassesHardChecks(inst, sol))
    && (forall j :: 0 <= j < |sol.patients| ==> WellPlaced(inst, sol.patients[j]))
  }

  /** One iteration of the loop over `patients_to_schedule`. */
  method PlaceNext(inst: Instance, ts: seq<Patient>, i: int, sol: Solution, rng: Random) returns (next: Solution)
    requires WellFormed(inst) && 0 <= i < |ts|
    requires ts[i].id in PatientDict(inst) && PatientDict(inst)[ts[i].id] == ts[i]
    requires forall a, b :: 0 <= a < b < |ts| ==> ts[a].id != ts[b].id
    requires PhaseOk(inst, sol) && AdmittedIds(sol) <= IdsOf(ts[..i])
    modifies rng
    ensures PhaseOk(inst, next) && AdmittedIds(next) <= IdsOf(ts[..i + 1])
  {
    FreshAt(ts, i, sol);
    next := PlacePatient(inst, sol, ts[i], rng);
    if next != sol {
      PhaseStep(inst, sol, next, ts[i]);
    }
    AdmittedStep(ts, i, sol, next);
  }

  /** A `Placed` step keeps what the patient loop keeps. */
  lemma PhaseStep(inst: Instance, sol: Solution, next: Solution, patient: Patient)
    requires WellFormed(inst) && PhaseOk(inst, sol) && Placed(inst, sol, next, patient)
    ensures PhaseOk(inst, next)
  {
    var p := next.patients[|sol.patients|];
    AppendCandidate(inst, sol, p);
    assert next == sol.(patients := sol.patients + [p]);
  }

  /** The loop over `patients_to_schedule`, for any list of dictionary
      records with distinct ids. */
  method PlaceInOrder(inst: Instance, ts: seq<Patient>, rng: Random) returns (sol: Solution)
    requires WellFormed(inst)
    requires forall p :: p in ts ==> p.id in PatientDict(inst) && PatientDict(inst)[p.id] == p
    requires forall a, b :: 0 <= a < b < |ts| ==> ts[a].id != ts[b].id
    modifies rng
    ensures Valid(inst, sol) && sol.nurses == []
    ensures sol.patients != [] ==> Evaluable(inst, sol) && PassesHardChecks(inst, sol)
    ensures forall i :: 0 <= i < |sol.patients| ==> WellPlaced(inst, sol.patients[i])
    ensures AdmittedIds(sol) <= IdsOf(ts)
  {
    sol := Solution([], []);
    for i := 0 to |ts|
      invariant PhaseOk(inst, sol)
      invariant AdmittedIds(sol) <= IdsOf(ts[..i])
    {
      assert ts[i] in ts;
      sol := PlaceNext(inst, ts, i, sol, rng);
    }
    assert ts[..|ts|] == ts;
  }

  // ---------------------------------------------------------------------------
  // The whole greedy start
  // ---------------------------------------------------------------------------

  /** The six hard checks read no nurse record. */
  lemma NursesKeepChecks(inst: Instance, sol: Solution, ns: seq<NurseSchedule>)
    requires Evaluable(inst, sol) && Evaluable(inst, sol.(nurses := ns))
    ensures PassesHardChecks(inst, sol.(nurses := ns)) <==> PassesHardChecks(inst, sol)
  {
    var s := sol.(nurses := ns);
    IgnoresNurses(inst, sol, ns);
    assert SurgeonLoads(inst, s) == SurgeonLoads(inst, sol);
    assert TheaterLoads(inst, s) == TheaterLoads(inst, sol);
  }

  /** What the greedy start guarantees: a valid, scorable solution whose
      placements pass the six hard checks, in rooms the patients may use,
      with nurse records that cover the required slots as the nurse phase
      promises. */
  ghost predicate GreedyStart(inst: Instance, sol: Solution) {
    Valid(inst, sol) && Evaluable(inst, sol)
    && (sol.patients != [] ==> PassesHardChecks(inst, sol))
    && (forall i :: 0 <= i < |sol.patients| ==> WellPlaced(inst, sol.patients[i]))
    && RosterFits(inst, Demand(inst, sol), sol.nurses)
  }

  /** `_generate_initial_solution` */
  method InitialSolution(inst: Instance, rng: Random) returns (sol: Solution)
    requires WellFormed(inst)
    modifies rng
    ensures GreedyStart(inst, sol)
  {
    var placed := PlacePatients(inst, rng);
    var ns := AssignNurses(inst, placed, rng);
    sol := placed.(nurses := ns);
    IgnoresNurses(inst, placed, ns);
    assert Demand(inst, sol) == Demand(inst, placed);
    assert Valid(inst, sol);
    ValidEvaluable(inst, placed);
    ValidEvaluable(inst, sol);
    NursesKeepChecks(inst, placed, ns);
  }
}
