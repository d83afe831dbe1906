/**
 * The five neighbourhood moves of solvers/RVNS_solver.py. Each works on a
 * copy of the solution (Dafny values are copies already), tries candidates
 * in a shuffled order, keeps the first one whose checked hard scores are
 * all zero and otherwise returns the solution unchanged.
 */
module Moves {
  import opened Wrappers
  import opened Collections
  import opened Hospital
  import opened Scoring
  import opened PasConstraints
  import opened ScpConstraints
  import opened GlobalConstraints
  import opened Validity
  import opened Oracle

  // ---------------------------------------------------------------------------
  // Candidate lists
  // ---------------------------------------------------------------------------

  /** `[k for k in ks if k not in banned and k != cur]` */
  function Excluding(ks: seq<Id>, banned: seq<Id>, cur: Id): (r: seq<Id>)
    ensures forall x :: x in r <==> x in ks && x !in banned && x != cur
    decreases |ks|
  {
    if ks == [] then []
    else
      var init := ks[..|ks| - 1];
      var last := ks[|ks| - 1];
      assert forall x :: x in ks <==> x in init || x == last;
      Excluding(init, banned, cur) + (if last !in banned && last != cur then [last] else [])
  }

  /** `list(range(lo, hi))` */
  function DayRange(lo: int, hi: int): (r: seq<int>)
    ensures forall d :: d in r <==> lo <= d < hi
    decreases hi - lo
  {
    if lo >= hi then [] else [lo] + DayRange(lo + 1, hi)
  }

  /** The `j`-th day of `range(lo, hi)` is `lo + j`. */
  lemma {:induction false} DayRangeAt(lo: int, hi: int)
    ensures |DayRange(lo, hi)| == if lo <= hi then hi - lo else 0
    ensures forall j :: 0 <= j < |DayRange(lo, hi)| ==> DayRange(lo, hi)[j] == lo + j
    decreases hi - lo
  {
    if lo < hi {
      DayRangeAt(lo + 1, hi);
    }
  }

  /** `list.remove(x)`: drops the first occurrence; raises when `x` is absent. */
  function RemoveFirst(s: seq<int>, x: int): (r: seq<int>)
    requires x in s
    ensures multiset(r) == multiset(s) - multiset{x}
  {
    if s[0] == x then
      assert s == [s[0]] + s[1..];
      s[1..]
    else
      assert s == [s[0]] + s[1..];
      [s[0]] + RemoveFirst(s[1..], x)
  }

  /** The days of a range without one of them are the other days of the range. */
  lemma {:induction false} RangeWithout(lo: int, hi: int, x: int, d: int)
    requires lo <= x < hi
    ensures d in RemoveFirst(DayRange(lo, hi), x) <==> lo <= d < hi && d != x
    decreases hi - lo
  {
    var s := DayRange(lo, hi);
    var rest := DayRange(lo + 1, hi);
    assert s == [lo] + rest;
    if lo != x {
      RangeWithout(lo + 1, hi, x, d);
      var r := RemoveFirst(rest, x);
      assert RemoveFirst(s, x) == [lo] + r;
      assert d in [lo] + r <==> d == lo || d in r;
    } else {
      assert RemoveFirst(s, x) == rest;
    }
  }

  /** `RangeWithout` for every day at once. */
  lemma RangeWithoutAll(lo: int, hi: int, x: int)
    requires lo <= x < hi
    ensures forall d :: d in RemoveFirst(DayRange(lo, hi), x) <==> lo <= d < hi && d != x
  {
    forall d ensures d in RemoveFirst(DayRange(lo, hi), x) <==> lo <= d < hi && d != x {
      RangeWithout(lo, hi, x, d);
    }
  }

  /** Every key of `room_dict.keys()` is a known room, and so for theaters. */
  lemma DictKeysKnown(inst: Instance, x: Id)
    ensures x in FirstKeys(inst.rooms, RoomKey) <==> x in RoomDict(inst)
    ensures x in FirstKeys(inst.theaters, TheaterKey) <==> x in TheaterDict(inst)
  {
    FirstKeysHas(inst.rooms, RoomKey, x);
    IdDictKey(inst.rooms, RoomKey, x);
    FirstKeysHas(inst.theaters, TheaterKey, x);
    IdDictKey(inst.theaters, TheaterKey, x);
  }

  /** Replacing a placement by an admissible one of the same patient keeps the solution valid. */
  lemma ReplaceValid(inst: Instance, sol: Solution, i: int, p: Placement)
    requires Valid(inst, sol) && 0 <= i < |sol.patients|
    requires Admissible(inst, p) && p.id == sol.patients[i].id
    ensures Valid(inst, sol.(patients := sol.patients[i := p]))
  {
  }

  /** The record a valid placement's id resolves to. */
  lemma PlacedRecord(inst: Instance, sol: Solution, i: int)
    requires Valid(inst, sol) && 0 <= i < |sol.patients|
    ensures PatientById(inst, sol.patients[i].id) == Some(AsPatient(PatientDict(inst)[sol.patients[i].id]))
  {
  }

  /** `sol` with placement `i` replaced by `p`. */
  function Replace(sol: Solution, i: int, p: Placement): Solution
    requires 0 <= i < |sol.patients|
  {
    sol.(patients := sol.patients[i := p])
  }

  // ---------------------------------------------------------------------------
  // Change a patient's room
  // ---------------------------------------------------------------------------

  /** Placement `i` moved to another compatible known room, with H1, H2 and H7 at zero. */
  ghost predicate RoomMoved(inst: Instance, sol: Solution, s: Solution, i: int) {
    0 <= i < |sol.patients| && |s.patients| == |sol.patients|
    && s == Replace(sol, i, sol.patients[i].(room := s.patients[i].room))
    && OtherRoom(inst, sol, i, s.patients[i].room)
    && RoomPasses(inst, sol, i, s.patients[i].room)
  }

  /** Placement `i` of a valid solution moved to another room it may use
      passes H1, H2 and H7. */
  ghost predicate RoomPasses(inst: Instance, sol: Solution, i: int, r: Id) {
    WellFormed(inst) && Valid(inst, sol) && OtherRoom(inst, sol, i, r)
    && var c := Replace(sol, i, sol.patients[i].(room := r));
       RoomCandidate(inst, sol, i, r);
       H1(inst, c) == 0 && H2(inst, c) == 0 && H7(inst, c) == 0
  }

  /** A room move to another room the patient may use keeps the solution
      valid, and so every room it names is known. */
  lemma RoomCandidate(inst: Instance, sol: Solution, i: int, r: Id)
    requires WellFormed(inst) && Valid(inst, sol) && OtherRoom(inst, sol, i, r)
    ensures Valid(inst, Replace(sol, i, sol.patients[i].(room := r)))
    ensures RoomsKnown(inst, Replace(sol, i, sol.patients[i].(room := r)))
  {
    ReplaceValid(inst, sol, i, sol.patients[i].(room := r));
    ValidEvaluable(inst, Replace(sol, i, sol.patients[i].(room := r)));
  }

  /** No other room that placement `i` may use passes H1, H2 and H7. */
  ghost predicate RoomStuck(inst: Instance, sol: Solution, i: int) {
    forall r :: OtherRoom(inst, sol, i, r) ==> !RoomPasses(inst, sol, i, r)
  }

  /** `_neighborhood_change_patient_room` */
  method ChangePatientRoom(inst: Instance, sol: Solution, rng: Random) returns (s: Solution)
    requires WellFormed(inst) && Valid(inst, sol)
    modifies rng
    ensures Valid(inst, s)
    ensures s == sol || exists i :: RoomMoved(inst, sol, s, i)
    ensures s == sol ==> |sol.patients| == 0 || exists i :: 0 <= i < |sol.patients| && RoomStuck(inst, sol, i)
  {
    s := sol;
    if |sol.patients| == 0 {
      return;
    }
    var i := rng.Below(|sol.patients|);
    s := MoveRoom(inst, sol, i, rng);
  }

  /** The body of `_neighborhood_change_patient_room` once placement `i` is
      drawn: the other compatible rooms in random order, the first that
      passes H1, H2 and H7. */
  method MoveRoom(inst: Instance, sol: Solution, i: int, rng: Random) returns (s: Solution)
    requires WellFormed(inst) && Valid(inst, sol) && 0 <= i < |sol.patients|
    modifies rng
    ensures Valid(inst, s)
    ensures s == sol || RoomMoved(inst, sol, s, i)
    ensures s == sol ==> RoomStuck(inst, sol, i)
  {
    s := sol;
    var pSol := sol.patients[i];
    PlacedRecord(inst, sol, i);
    var patient := PatientById(inst, pSol.id).value.patient;
    var available := Excluding(FirstKeys(inst.rooms, RoomKey), patient.incompatibleRooms, pSol.room);
    forall r | OtherRoom(inst, sol, i, r) ensures r in available {
      DictKeysKnown(inst, r);
    }
    if |available| > 0 {
      var order := rng.Shuffle(available);
      forall r | r in order ensures OtherRoom(inst, sol, i, r) {
        assert r in multiset(available);
        DictKeysKnown(inst, r);
      }
      s := FirstRoom(inst, sol, i, order);
      ghost var test := RoomTest(inst, sol, i);
      ghost var k := FirstIndex(order, test);
      if k.Some? {
        FirstIndexFirst(order, test);
        assert RoomPasses(inst, sol, i, order[k.value]);
        assert s.patients[i].room == order[k.value];
      } else {
        FirstIndexNone(order, test);
        forall r | OtherRoom(inst, sol, i, r) ensures !RoomPasses(inst, sol, i, r) {
          assert r in multiset(order);
          var c :| 0 <= c < |order| && order[c] == r;
          assert !test(order[c]);
        }
      }
    }
  }

  /** Room `r` is a known room, other than the current one, that the
      patient of placement `i` is not barred from. */
  ghost predicate OtherRoom(inst: Instance, sol: Solution, i: int, r: Id) {
    0 <= i < |sol.patients| && r in RoomDict(inst) && r != sol.patients[i].room
    && PlacedPatient(inst, sol.patients[i]).Some?
    && r !in PlacedPatient(inst, sol.patients[i]).value.incompatibleRooms
  }

  /** The loop of `_neighborhood_change_patient_room`: the first room of the
      order that passes H1, H2 and H7, or no change when none does. */
  method FirstRoom(inst: Instance, sol: Solution, i: int, order: seq<Id>) returns (s: Solution)
    requires WellFormed(inst) && Valid(inst, sol) && 0 <= i < |sol.patients|
    requires forall r :: r in order ==> OtherRoom(inst, sol, i, r)
    ensures Valid(inst, s)
    ensures var k := FirstIndex(order, RoomTest(inst, sol, i));
            s == if k.None? then sol else Replace(sol, i, sol.patients[i].(room := order[k.value]))
  {
    s := sol;
    ghost var test := RoomTest(inst, sol, i);
    for c := 0 to |order|
      invariant FirstIndex(order[..c], test).None?
    {
      assert order[c] in order;
      var ok, cand := TryRoom(inst, sol, i, order[c]);
      FirstIndexStep(order, test, c);
      if ok {
        FirstIndexPrefix(order, test, c + 1);
        return cand;
      }
    }
    assert order[..|order|] == order;
  }

  /** The acceptance test of `_neighborhood_change_patient_room`, as a
      function of the candidate room. */
  ghost function RoomTest(inst: Instance, sol: Solution, i: int): Id -> bool {
    r => RoomPasses(inst, sol, i, r)
  }

  /** One candidate room of `_neighborhood_change_patient_room`: placement
      `i` moved to room `r`, accepted when H1, H2 and H7 are all zero. */
  method TryRoom(inst: Instance, sol: Solution, i: int, r: Id) returns (ok: bool, cand: Solution)
    requires WellFormed(inst) && Valid(inst, sol) && 0 <= i < |sol.patients|
    requires OtherRoom(inst, sol, i, r)
    ensures Valid(inst, cand) && cand == Replace(sol, i, sol.patients[i].(room := r))
    ensures ok <==> RoomPasses(inst, sol, i, r)
  {
    var pSol := sol.patients[i];
    cand := Replace(sol, i, pSol.(room := r));
    RoomCandidate(inst, sol, i, r);
    var h1 := H1NoGenderMix(inst, cand);
    var h2 := H2CompatibleRooms(inst, cand);
    var h7 := H7RoomCapacity(inst, cand);
    ok := h1 == 0 && h2 == 0 && h7 == 0;
  }

  // ---------------------------------------------------------------------------
  // Change a patient's admission day
  // ---------------------------------------------------------------------------

  /** Placement `i` moved to another day of its window, with H6, H3 and H4 at zero. */
  ghost predicate DayMoved(inst: Instance, sol: Solution, s: Solution, i: int) {
    0 <= i < |sol.patients| && |s.patients| == |sol.patients|
    && s == Replace(sol, i, sol.patients[i].(admissionDay := s.patients[i].admissionDay))
    && OtherWindowDay(inst, sol, i, s.patients[i].admissionDay)
    && DayPasses(inst, sol, i, s.patients[i].admissionDay)
  }

  /** Placement `i` of a valid solution moved to another day of its window
      passes H6, H3 and H4. */
  ghost predicate DayPasses(inst: Instance, sol: Solution, i: int, d: int) {
    WellFormed(inst) && Valid(inst, sol) && OtherWindowDay(inst, sol, i, d)
    && var c := Replace(sol, i, sol.patients[i].(admissionDay := d));
       DayCandidate(inst, sol, i, d);
       H6(inst, c) == 0 && H3(inst, c) == 0 && H4(inst, c) == 0
  }

  /** No other day of its window passes H6, H3 and H4 for placement `i`. */
  ghost predicate DayStuck(inst: Instance, sol: Solution, i: int) {
    forall d :: OtherWindowDay(inst, sol, i, d) ==> !DayPasses(inst, sol, i, d)
  }

  /** Moving a valid placement to another day of its window keeps the solution valid. */
  lemma DayCandidate(inst: Instance, sol: Solution, i: int, d: int)
    requires WellFormed(inst) && Valid(inst, sol) && 0 <= i < |sol.patients|
    requires var q := PatientDict(inst)[sol.patients[i].id];
             q.releaseDay <= d <= DueOrDefault(inst, q)
    ensures Valid(inst, Replace(sol, i, sol.patients[i].(admissionDay := d)))
    ensures Evaluable(inst, Replace(sol, i, sol.patients[i].(admissionDay := d)))
  {
    ReplaceValid(inst, sol, i, sol.patients[i].(admissionDay := d));
    ValidEvaluable(inst, Replace(sol, i, sol.patients[i].(admissionDay := d)));
  }

  /** `_neighborhood_change_patient_day` */
  method ChangePatientDay(inst: Instance, sol: Solution, rng: Random) returns (s: Solution)
    requires WellFormed(inst) && Valid(inst, sol)
    modifies rng
    ensures Valid(inst, s)
    ensures s == sol || exists i :: DayMoved(inst, sol, s, i)
    ensures s == sol ==> |sol.patients| == 0 || exists i :: 0 <= i < |sol.patients| && DayStuck(inst, sol, i)
  {
    s := sol;
    if |sol.patients| == 0 {
      return;
    }
    var i := rng.Below(|sol.patients|);
    s := MoveDay(inst, sol, i, rng);
  }

  /** The body of `_neighborhood_change_patient_day` once placement `i` is
      drawn: the other days of its window in random order, the first that
      passes H6, H3 and H4. */
  method MoveDay(inst: Instance, sol: Solution, i: int, rng: Random) returns (s: Solution)
    requires WellFormed(inst) && Valid(inst, sol) && 0 <= i < |sol.patients|
    modifies rng
    ensures Valid(inst, s)
    ensures s == sol || DayMoved(inst, sol, s, i)
    ensures s == sol ==> DayStuck(inst, sol, i)
  {
    var daysToTry := DaysToTry(inst, sol, i);
    var order := rng.Shuffle(daysToTry);
    forall d | d in order ensures OtherWindowDay(inst, sol, i, d) {
      assert d in multiset(daysToTry);
    }
    s := FirstDay(inst, sol, i, order);
    ghost var test := DayTest(inst, sol, i);
    ghost var k := FirstIndex(order, test);
    if k.Some? {
      FirstIndexFirst(order, test);
      assert DayPasses(inst, sol, i, order[k.value]);
      assert s.patients[i].admissionDay == order[k.value];
    } else {
      FirstIndexNone(order, test);
      forall d | OtherWindowDay(inst, sol, i, d) ensures !DayPasses(inst, sol, i, d) {
        assert d in multiset(order);
        var c :| 0 <= c < |order| && order[c] == d;
        assert !test(order[c]);
      }
    }
  }

  /** `days_to_try` of `_neighborhood_change_patient_day`: the days from the
      release day to the due day (or its default) of the placement's
      patient, with the current day removed by `list.remove`. */
  function DaysToTry(inst: Instance, sol: Solution, i: int): (r: seq<int>)
    requires Valid(inst, sol) && 0 <= i < |sol.patients|
    ensures forall d :: d in r <==> OtherWindowDay(inst, sol, i, d)
  {
    var pSol := sol.patients[i];
    PlacedRecord(inst, sol, i);
    var patient := PatientById(inst, pSol.id).value.patient;
    var dueDay := patient.dueDay.GetOr(inst.days - patient.lengthOfStay);
    assert Admissible(inst, pSol);
    RangeWithoutAll(patient.releaseDay, dueDay + 1, pSol.admissionDay);
    RemoveFirst(DayRange(patient.releaseDay, dueDay + 1), pSol.admissionDay)
  }

  /** Day `d` is another day of the admission window of placement `i`. */
  ghost predicate OtherWindowDay(inst: Instance, sol: Solution, i: int, d: int) {
    0 <= i < |sol.patients| && sol.patients[i].id in PatientDict(inst)
    && var q := PatientDict(inst)[sol.patients[i].id];
       q.releaseDay <= d <= DueOrDefault(inst, q) && d != sol.patients[i].admissionDay
  }

  /** The loop of `_neighborhood_change_patient_day`: the first day of the
      order that passes H6, H3 and H4, or no change when none does. */
  method FirstDay(inst: Instance, sol: Solution, i: int, order: seq<int>) returns (s: Solution)
    requires WellFormed(inst) && Valid(inst, sol) && 0 <= i < |sol.patients|
    requires forall d :: d in order ==> OtherWindowDay(inst, sol, i, d)
    ensures Valid(inst, s)
    ensures var k := FirstIndex(order, DayTest(inst, sol, i));
            s == if k.None? then sol else Replace(sol, i, sol.patients[i].(admissionDay := order[k.value]))
  {
    s := sol;
    ghost var test := DayTest(inst, sol, i);
    for c := 0 to |order|
      invariant FirstIndex(order[..c], test).None?
    {
      assert order[c] in order;
      var ok, cand := TryDay(inst, sol, i, order[c]);
      FirstIndexStep(order, test, c);
      if ok {
        FirstIndexPrefix(order, test, c + 1);
        return cand;
      }
    }
    assert order[..|order|] == order;
  }

  /** The acceptance test of `_neighborhood_change_patient_day`, as a
      function of the candidate day. */
  ghost function DayTest(inst: Instance, sol: Solution, i: int): int -> bool {
    d => DayPasses(inst, sol, i, d)
  }

  /** One candidate day of `_neighborhood_change_patient_day`: placement `i`
      moved to day `d`, accepted when H6, H3 and H4 are all zero. */
  method TryDay(inst: Instance, sol: Solution, i: int, d: int) returns (ok: bool, cand: Solution)
    requires WellFormed(inst) && Valid(inst, sol) && 0 <= i < |sol.patients|
    requires OtherWindowDay(inst, sol, i, d)
    ensures Valid(inst, cand) && Evaluable(inst, cand) && cand == Replace(sol, i, sol.patients[i].(admissionDay := d))
    ensures ok <==> DayPasses(inst, sol, i, d)
  {
    cand := Replace(sol, i, sol.patients[i].(admissionDay := d));
    DayCandidate(inst, sol, i, d);
    var h6 := H6AdmissionDay(inst, cand);
    var h3 := H3SurgeonOvertime(inst, cand);
    var h4 := H4TheaterOvertime(inst, cand);
    ok := h6 == 0 && h3 == 0 && h4 == 0;
  }

  // ---------------------------------------------------------------------------
  // Change a patient's operating theater
  // ---------------------------------------------------------------------------

  /** Placement `i` moved to another known theater, with H3 and H4 at zero. */
  ghost predicate TheaterMoved(inst: Instance, sol: Solution, s: Solution, i: int) {
    0 <= i < |sol.patients| && |s.patients| == |sol.patients|
    && s == Replace(sol, i, sol.patients[i].(theater := s.patients[i].theater))
    && OtherTheater(inst, sol, i, s.patients[i].theater)
    && TheaterPasses(inst, sol, i, s.patients[i].theater)
  }

  /** Theater `t` is a known theater other than the current one of placement `i`. */
  ghost predicate OtherTheater(inst: Instance, sol: Solution, i: int, t: Id) {
    0 <= i < |sol.patients| && t in TheaterDict(inst) && t != sol.patients[i].theater
  }

  /** Placement `i` of a valid solution moved to another known theater
      passes H3 and H4. */
  ghost predicate TheaterPasses(inst: Instance, sol: Solution, i: int, t: Id) {
    WellFormed(inst) && Valid(inst, sol) && OtherTheater(inst, sol, i, t)
    && var c := Replace(sol, i, sol.patients[i].(theater := t));
       TheaterCandidate(inst, sol, i, t);
       H3(inst, c) == 0 && H4(inst, c) == 0
  }

  /** No other known theater passes H3 and H4 for placement `i`. */
  ghost predicate TheaterStuck(inst: Instance, sol: Solution, i: int) {
    forall t :: OtherTheater(inst, sol, i, t) ==> !TheaterPasses(inst, sol, i, t)
  }

  /** Moving a valid placement to another theater keeps the solution valid. */
  lemma TheaterCandidate(inst: Instance, sol: Solution, i: int, t: Id)
    requires WellFormed(inst) && Valid(inst, sol) && 0 <= i < |sol.patients|
    ensures Valid(inst, Replace(sol, i, sol.patients[i].(theater := t)))
    ensures Evaluable(inst, Replace(sol, i, sol.patients[i].(theater := t)))
  {
    ReplaceValid(inst, sol, i, sol.patients[i].(theater := t));
    ValidEvaluable(inst, Replace(sol, i, sol.patients[i].(theater := t)));
  }

  /** `_neighborhood_change_patient_ot` */
  method ChangePatientTheater(inst: Instance, sol: Solution, rng: Random) returns (s: Solution)
    requires WellFormed(inst) && Valid(inst, sol)
    modifies rng
    ensures Valid(inst, s)
    ensures s == sol || exists i :: TheaterMoved(inst, sol, s, i)
    ensures s == sol ==> |sol.patients| == 0 || exists i :: 0 <= i < |sol.patients| && TheaterStuck(inst, sol, i)
  {
    s := sol;
    if |sol.patients| == 0 {
      return;
    }
    var i := rng.Below(|sol.patients|);
    s := MoveTheater(inst, sol, i, rng);
  }

  /** The body of `_neighborhood_change_patient_ot` once placement `i` is
      drawn: the other theaters in random order, the first that passes H3
      and H4. */
  method MoveTheater(inst: Instance, sol: Solution, i: int, rng: Random) returns (s: Solution)
    requires WellFormed(inst) && Valid(inst, sol) && 0 <= i < |sol.patients|
    modifies rng
    ensures Valid(inst, s)
    ensures s == sol || TheaterMoved(inst, sol, s, i)
    ensures s == sol ==> TheaterStuck(inst, sol, i)
  {
    s := sol;
    var pSol := sol.patients[i];
    var available := Excluding(FirstKeys(inst.theaters, TheaterKey), [], pSol.theater);
    forall t | OtherTheater(inst, sol, i, t) ensures t in available {
      DictKeysKnown(inst, t);
    }
    if |available| > 0 {
      var order := rng.Shuffle(available);
      forall t | t in order ensures OtherTheater(inst, sol, i, t) {
        assert t in multiset(available);
        DictKeysKnown(inst, t);
      }
      s := FirstTheater(inst, sol, i, order);
      ghost var test := TheaterTest(inst, sol, i);
      ghost var k := FirstIndex(order, test);
      if k.Some? {
        FirstIndexFirst(order, test);
        assert TheaterPasses(inst, sol, i, order[k.value]);
        assert s.patients[i].theater == order[k.value];
      } else {
        FirstIndexNone(order, test);
        forall t | OtherTheater(inst, sol, i, t) ensures !TheaterPasses(inst, sol, i, t) {
          assert t in multiset(order);
          var c :| 0 <= c < |order| && order[c] == t;
          assert !test(order[c]);
        }
      }
    }
  }

  /** The loop of `_neighborhood_change_patient_ot`: the first theater of
      the order that passes H3 and H4, or no change when none does. */
  method FirstTheater(inst: Instance, sol: Solution, i: int, order: seq<Id>) returns (s: Solution)
    requires WellFormed(inst) && Valid(inst, sol) && 0 <= i < |sol.patients|
    requires forall t :: t in order ==> OtherTheater(inst, sol, i, t)
    ensures Valid(inst, s)
    ensures var k := FirstIndex(order, TheaterTest(inst, sol, i));
            s == if k.None? then sol else Replace(sol, i, sol.patients[i].(theater := order[k.value]))
  {
    s := sol;
    ghost var test := TheaterTest(inst, sol, i);
    for c := 0 to |order|
      invariant FirstIndex(order[..c], test).None?
    {
      assert order[c] in order;
      var ok, cand := TryTheater(inst, sol, i, order[c]);
      FirstIndexStep(order, test, c);
      if ok {
        FirstIndexPrefix(order, test, c + 1);
        return cand;
      }
    }
    assert order[..|order|] == order;
  }

  /** The acceptance test of `_neighborhood_change_patient_ot`, as a
      function of the candidate theater. */
  ghost function TheaterTest(inst: Instance, sol: Solution, i: int): Id -> bool {
    t => TheaterPasses(inst, sol, i, t)
  }

  /** One candidate theater of `_neighborhood_change_patient_ot`: placement
      `i` moved to theater `t`, accepted when H3 and H4 are both zero. */
  method TryTheater(inst: Instance, sol: Solution, i: int, t: Id) returns (ok: bool, cand: Solution)
    requires WellFormed(inst) && Valid(inst, sol) && 0 <= i < |sol.patients|
    requires OtherTheater(inst, sol, i, t)
    ensures Valid(inst, cand) && cand == Replace(sol, i, sol.patients[i].(theater := t))
    ensures ok <==> TheaterPasses(inst, sol, i, t)
  {
    cand := Replace(sol, i, sol.patients[i].(theater := t));
    TheaterCandidate(inst, sol, i, t);
    var h3 := H3SurgeonOvertime(inst, cand);
    var h4 := H4TheaterOvertime(inst, cand);
    ok := h3 == 0 && h4 == 0;
  }

  // ---------------------------------------------------------------------------
  // Schedule an unscheduled optional patient
  // ---------------------------------------------------------------------------

  /** `[p for p_id, p in patient_dict.items() if not p['mandatory'] and p_id not in admitted_ids]` */
  function UnplacedOptionals(vs: seq<Patient>, admitted: set<Id>): (r: seq<Patient>)
    ensures forall p :: p in r <==> p in vs && !p.mandatory && p.id !in admitted
    decreases |vs|
  {
    if vs == [] then []
    else
      var init := vs[..|vs| - 1];
      var last := vs[|vs| - 1];
      assert forall p :: p in vs <==> p in init || p == last;
      UnplacedOptionals(init, admitted) + (if !last.mandatory && last.id !in admitted then [last] else [])
  }

  /** The six hard scores every insertion of a placement checks: H1, H2, H7,
      H3, H4 and H6 all zero. */
  ghost predicate PassesHardChecks(inst: Instance, s: Solution)
    requires Evaluable(inst, s)
  {
    H1(inst, s) == 0 && H2(inst, s) == 0 && H7(inst, s) == 0
    && H3(inst, s) == 0 && H4(inst, s) == 0 && H6(inst, s) == 0
  }

  /** One new placement for an optional patient that had none, on a day of
      `[release, days - length_of_stay)`, in a known room and theater,
      passing the six hard checks. */
  ghost predicate Rescheduled(inst: Instance, sol: Solution, s: Solution) {
    |s.patients| == |sol.patients| + 1
    && s == sol.(patients := sol.patients + [s.patients[|sol.patients|]])
    && var p := s.patients[|sol.patients|];
       p.id in Unscheduled(inst, sol, false)
       && PatientDict(inst)[p.id].releaseDay <= p.admissionDay < inst.days - PatientDict(inst)[p.id].lengthOfStay
       && p.room in RoomDict(inst) && p.theater in TheaterDict(inst)
       && AppendPasses(inst, sol, p)
  }

  /** Appending an admissible placement of a patient that has none keeps the
      solution valid. */
  lemma AppendCandidate(inst: Instance, sol: Solution, p: Placement)
    requires WellFormed(inst) && Valid(inst, sol)
    requires Admissible(inst, p) && p.id !in AdmittedIds(sol)
    ensures Valid(inst, sol.(patients := sol.patients + [p]))
    ensures Evaluable(inst, sol.(patients := sol.patients + [p]))
  {
    var ps := sol.patients + [p];
    forall i | 0 <= i < |sol.patients| ensures ps[i].id != p.id {
      assert sol.patients[i].id in AdmittedIds(sol);
    }
    assert Valid(inst, sol.(patients := ps));
    ValidEvaluable(inst, sol.(patients := ps));
  }

  /** Appending placement `p` of a patient that has none to a valid
      solution passes the six hard checks. */
  ghost predicate AppendPasses(inst: Instance, sol: Solution, p: Placement) {
    WellFormed(inst) && Valid(inst, sol) && Admissible(inst, p) && p.id !in AdmittedIds(sol)
    && (AppendCandidate(inst, sol, p);
        PassesHardChecks(inst, sol.(patients := sol.patients + [p])))
  }

  /** The test of the nested day, room and theater loops, as a function of
      the candidate triple. */
  ghost function InsertTest(inst: Instance, sol: Solution, id: Id): (int, Id, Id) -> bool {
    (d, r, t) => AppendPasses(inst, sol, Placement(id, d, r, t))
  }

  /** No placement of `id` on a day of `[lo, hi)`, in a known room outside
      `banned` and a known theater, passes the six hard checks. */
  ghost predicate NoPlacement(inst: Instance, sol: Solution, id: Id, lo: int, hi: int, banned: seq<Id>) {
    forall d, r, t :: lo <= d < hi && r in RoomDict(inst) && r !in banned && t in TheaterDict(inst)
      ==> !AppendPasses(inst, sol, Placement(id, d, r, t))
  }

  /** One candidate insertion: the extended solution and whether it passes
      the six hard checks. */
  method TryAppend(inst: Instance, sol: Solution, p: Placement) returns (ok: bool, cand: Solution)
    requires WellFormed(inst) && Valid(inst, sol)
    requires Admissible(inst, p) && p.id !in AdmittedIds(sol)
    ensures cand == sol.(patients := sol.patients + [p])
    ensures Valid(inst, cand) && Evaluable(inst, cand)
    ensures ok <==> AppendPasses(inst, sol, p)
  {
    cand := sol.(patients := sol.patients + [p]);
    AppendCandidate(inst, sol, p);
    var h1 := H1NoGenderMix(inst, cand);
    var h2 := H2CompatibleRooms(inst, cand);
    var h7 := H7RoomCapacity(inst, cand);
    var h3 := H3SurgeonOvertime(inst, cand);
    var h4 := H4TheaterOvertime(inst, cand);
    var h6 := H6AdmissionDay(inst, cand);
    ok := h1 == 0 && h2 == 0 && h7 == 0 && h3 == 0 && h4 == 0 && h6 == 0;
  }

  /** A patient drawn from the unplaced optionals is the dictionary's record
      of an unscheduled optional id. */
  lemma PickUnplaced(inst: Instance, sol: Solution, patient: Patient)
    requires patient in UnplacedOptionals(DictValues(inst.patients, PatientKey), AdmittedIds(sol))
    ensures patient.id in PatientDict(inst) && PatientDict(inst)[patient.id] == patient
    ensures patient.id in Unscheduled(inst, sol, false)
  {
    var vs := DictValues(inst.patients, PatientKey);
    DictValuesSpec(inst.patients, PatientKey);
    var k :| 0 <= k < |vs| && vs[k] == patient;
  }

  /** Shuffled orders hold the same days, rooms and theaters as the lists they
      were drawn from. */
  lemma OrdersKnown(inst: Instance, lo: int, hi: int, dayOrder: seq<int>, roomOrder: seq<Id>, otOrder: seq<Id>)
    requires multiset(dayOrder) == multiset(DayRange(lo, hi))
    requires multiset(roomOrder) == multiset(FirstKeys(inst.rooms, RoomKey))
    requires multiset(otOrder) == multiset(FirstKeys(inst.theaters, TheaterKey))
    ensures forall d :: d in dayOrder <==> lo <= d < hi
    ensures forall r :: r in roomOrder <==> r in RoomDict(inst)
    ensures forall t :: t in otOrder <==> t in TheaterDict(inst)
  {
    forall d ensures d in dayOrder <==> lo <= d < hi {
      assert d in multiset(dayOrder) <==> d in multiset(DayRange(lo, hi));
      assert d in DayRange(lo, hi) <==> lo <= d < hi;
    }
    forall r ensures r in roomOrder <==> r in RoomDict(inst) {
      assert r in multiset(roomOrder) <==> r in multiset(FirstKeys(inst.rooms, RoomKey));
      DictKeysKnown(inst, r);
    }
    forall t ensures t in otOrder <==> t in TheaterDict(inst) {
      assert t in multiset(otOrder) <==> t in multiset(FirstKeys(inst.theaters, TheaterKey));
      DictKeysKnown(inst, t);
    }
  }

  /** The three shuffled lists the rescheduling move searches: the days of
      `[lo, hi)`, the known rooms and the known theaters. */
  method ShuffledOrders(inst: Instance, lo: int, hi: int, rng: Random)
    returns (dayOrder: seq<int>, roomOrder: seq<Id>, otOrder: seq<Id>)
    modifies rng
    ensures forall d :: d in dayOrder <==> lo <= d < hi
    ensures forall r :: r in roomOrder <==> r in RoomDict(inst)
    ensures forall t :: t in otOrder <==> t in TheaterDict(inst)
  {
    var daysToTry := DayRange(lo, hi);
    var roomsToTry := FirstKeys(inst.rooms, RoomKey);
    var otsToTry := FirstKeys(inst.theaters, TheaterKey);
    dayOrder := rng.Shuffle(daysToTry);
    roomOrder := rng.Shuffle(roomsToTry);
    otOrder := rng.Shuffle(otsToTry);
    OrdersKnown(inst, lo, hi, dayOrder, roomOrder, otOrder);
  }

  /** A passing placement of an optional unscheduled patient, inside the
      window the reschedule move draws days from, is a `Rescheduled` step. */
  lemma RescheduleFound(inst: Instance, sol: Solution, p: Placement, s: Solution)
    requires p.id in Unscheduled(inst, sol, false)
    requires PatientDict(inst)[p.id].releaseDay <= p.admissionDay < inst.days - PatientDict(inst)[p.id].lengthOfStay
    requires p.theater in TheaterDict(inst) && AppendPasses(inst, sol, p)
    requires s == sol.(patients := sol.patients + [p])
    ensures Rescheduled(inst, sol, s)
  {
  }

  /** `_neighborhood_reschedule_unscheduled` */
  method RescheduleUnscheduled(inst: Instance, sol: Solution, rng: Random) returns (s: Solution)
    requires WellFormed(inst) && Valid(inst, sol)
    modifies rng
    ensures Valid(inst, s)
    ensures s == sol || Rescheduled(inst, sol, s)
    ensures s == sol ==> Unscheduled(inst, sol, false) == {}
                         || exists id :: id in Unscheduled(inst, sol, false) && RescheduleStuck(inst, sol, id)
  {
    s := sol;
    var unscheduled := UnplacedOptionals(DictValues(inst.patients, PatientKey), AdmittedIds(sol));
    UnscheduledListed(inst, sol);
    if |unscheduled| > 0 {
      var pick := rng.Below(|unscheduled|);
      var patient := unscheduled[pick];
      PickUnplaced(inst, sol, patient);
      s := ReschedulePatient(inst, sol, patient, rng);
    }
  }

  /** The body of `_neighborhood_reschedule_unscheduled` once `patient` is
      drawn: its days, all known rooms and all known theaters, each list
      shuffled, and the first triple of the nested loops that passes. */
  method ReschedulePatient(inst: Instance, sol: Solution, patient: Patient, rng: Random) returns (s: Solution)
    requires WellFormed(inst) && Valid(inst, sol)
    requires patient.id in Unscheduled(inst, sol, false) && PatientDict(inst)[patient.id] == patient
    modifies rng
    ensures Valid(inst, s)
    ensures s == sol || Rescheduled(inst, sol, s)
    ensures s == sol ==> RescheduleStuck(inst, sol, patient.id)
  {
    var dayOrder, roomOrder, otOrder := ShuffledOrders(inst, patient.releaseDay, inst.days - patient.lengthOfStay, rng);
    DictPatientFits(inst, patient.id);
    s := FirstFeasible(inst, sol, patient.id, dayOrder, roomOrder, otOrder);
    RescheduleOutcome(inst, sol, patient, dayOrder, roomOrder, otOrder, s);
  }

  /** What the first passing triple of the shuffled orders means for the
      rescheduling move: a `Rescheduled` step when there is one, and a
      patient every triple rejects when there is none. */
  lemma RescheduleOutcome(inst: Instance, sol: Solution, patient: Patient,
                          dayOrder: seq<int>, roomOrder: seq<Id>, otOrder: seq<Id>, s: Solution)
    requires WellFormed(inst) && Valid(inst, sol)
    requires patient.id in Unscheduled(inst, sol, false) && PatientDict(inst)[patient.id] == patient
    requires forall d :: d in dayOrder <==> patient.releaseDay <= d < inst.days - patient.lengthOfStay
    requires forall r :: r in roomOrder <==> r in RoomDict(inst)
    requires forall t :: t in otOrder <==> t in TheaterDict(inst)
    requires var k := FirstTriple(dayOrder, roomOrder, otOrder, InsertTest(inst, sol, patient.id));
             s == if k.None? then sol
                  else sol.(patients := sol.patients + [Placement(patient.id, dayOrder[k.value.0], roomOrder[k.value.1], otOrder[k.value.2])])
    ensures s == sol || Rescheduled(inst, sol, s)
    ensures s == sol ==> RescheduleStuck(inst, sol, patient.id)
  {
    var test := InsertTest(inst, sol, patient.id);
    var k := FirstTriple(dayOrder, roomOrder, otOrder, test);
    if k.Some? {
      FirstTripleFirst(dayOrder, roomOrder, otOrder, test);
      var p := Placement(patient.id, dayOrder[k.value.0], roomOrder[k.value.1], otOrder[k.value.2]);
      assert p.admissionDay in dayOrder && p.theater in otOrder;
      RescheduleFound(inst, sol, p, s);
    } else {
      FirstTripleNone(dayOrder, roomOrder, otOrder, test);
      NoneFits(inst, sol, patient.id, dayOrder, roomOrder, otOrder,
               patient.releaseDay, inst.days - patient.lengthOfStay, []);
    }
  }

  /** Every optional patient the rescheduling move may pick stays unplaced:
      no day of `[release, days - length_of_stay)`, known room and known
      theater passes the six hard checks. */
  ghost predicate RescheduleStuck(inst: Instance, sol: Solution, id: Id)
    requires id in PatientDict(inst)
  {
    NoPlacement(inst, sol, id, PatientDict(inst)[id].releaseDay,
                inst.days - PatientDict(inst)[id].lengthOfStay, [])
  }

  /** The list of unplaced optionals holds the record of every unscheduled
      optional id. */
  lemma UnscheduledListed(inst: Instance, sol: Solution)
    ensures forall id :: id in Unscheduled(inst, sol, false) ==>
              PatientDict(inst)[id] in UnplacedOptionals(DictValues(inst.patients, PatientKey), AdmittedIds(sol))
  {
    var vs := DictValues(inst.patients, PatientKey);
    DictValuesSpec(inst.patients, PatientKey);
    forall id | id in Unscheduled(inst, sol, false)
      ensures PatientDict(inst)[id] in UnplacedOptionals(vs, AdmittedIds(sol))
    {
      var k :| 0 <= k < |vs| && PatientKey(vs[k]) == id;
      assert vs[k] == PatientDict(inst)[id];
    }
  }

  /** When the nested loops find no triple in orders that cover `[lo, hi)`,
      the allowed rooms and the known theaters, no placement passes. */
  lemma NoneFits(inst: Instance, sol: Solution, id: Id, ds: seq<int>, rs: seq<Id>, ts: seq<Id>,
                 lo: int, hi: int, banned: seq<Id>)
    requires forall a, b, c :: 0 <= a < |ds| && 0 <= b < |rs| && 0 <= c < |ts| ==>
               !InsertTest(inst, sol, id)(ds[a], rs[b], ts[c])
    requires forall d :: lo <= d < hi ==> d in ds
    requires forall r :: r in RoomDict(inst) && r !in banned ==> r in rs
    requires forall t :: t in TheaterDict(inst) ==> t in ts
    ensures NoPlacement(inst, sol, id, lo, hi, banned)
  {
    forall d, r, t | lo <= d < hi && r in RoomDict(inst) && r !in banned && t in TheaterDict(inst)
      ensures !AppendPasses(inst, sol, Placement(id, d, r, t))
    {
      assert d in ds && r in rs && t in ts;
      var a :| 0 <= a < |ds| && ds[a] == d;
      var b :| 0 <= b < |rs| && rs[b] == r;
      var c :| 0 <= c < |ts| && ts[c] == t;
      assert !InsertTest(inst, sol, id)(ds[a], rs[b], ts[c]);
    }
  }

  /** The nested day, room and theater loops shared by the greedy start and
      the rescheduling move: `sol` extended by the first triple, in the
      given orders, whose extended solution passes the six hard checks;
      `sol` when none does. */
  method FirstFeasible(inst: Instance, sol: Solution, id: Id, dayOrder: seq<int>, roomOrder: seq<Id>, otOrder: seq<Id>)
    returns (s: Solution)
    requires WellFormed(inst) && Valid(inst, sol) && id in PatientDict(inst) && id !in AdmittedIds(sol)
    requires forall d :: d in dayOrder ==>
               PatientDict(inst)[id].releaseDay <= d <= DueOrDefault(inst, PatientDict(inst)[id])
    requires forall r :: r in roomOrder ==> r in RoomDict(inst)
    ensures Valid(inst, s)
    ensures var k := FirstTriple(dayOrder, roomOrder, otOrder, InsertTest(inst, sol, id));
            s == if k.None? then sol
                 else sol.(patients := sol.patients + [Placement(id, dayOrder[k.value.0], roomOrder[k.value.1], otOrder[k.value.2])])
  {
    ghost var test := InsertTest(inst, sol, id);
    ghost var plane := PlaneHit(roomOrder, otOrder, test);
    for a := 0 to |dayOrder|
      invariant FirstIndex(dayOrder[..a], plane).None?
    {
      assert dayOrder[a] in dayOrder;
      var ok, cand := FirstRoomAt(inst, sol, id, dayOrder[a], roomOrder, otOrder);
      FirstIndexStep(dayOrder, plane, a);
      if ok {
        FirstIndexPrefix(dayOrder, plane, a + 1);
        return cand;
      }
    }
    assert dayOrder[..|dayOrder|] == dayOrder;
    return sol;
  }

  /** The room loop for day `d`: the first room, and in it the first
      theater, whose insertion passes the six hard checks. */
  method FirstRoomAt(inst: Instance, sol: Solution, id: Id, d: int, roomOrder: seq<Id>, otOrder: seq<Id>)
    returns (ok: bool, cand: Solution)
    requires WellFormed(inst) && Valid(inst, sol) && id in PatientDict(inst) && id !in AdmittedIds(sol)
    requires PatientDict(inst)[id].releaseDay <= d <= DueOrDefault(inst, PatientDict(inst)[id])
    requires forall r :: r in roomOrder ==> r in RoomDict(inst)
    ensures Valid(inst, cand)
    ensures var test := InsertTest(inst, sol, id);
            var kb := FirstIndex(roomOrder, RowHit(d, otOrder, test));
            ok == kb.Some?
            && (ok ==> var kc := FirstIndex(otOrder, Cell(d, roomOrder[kb.value], test));
                       kc.Some? && cand == sol.(patients := sol.patients + [Placement(id, d, roomOrder[kb.value], otOrder[kc.value])]))
  {
    ghost var test := InsertTest(inst, sol, id);
    ghost var row := RowHit(d, otOrder, test);
    for b := 0 to |roomOrder|
      invariant FirstIndex(roomOrder[..b], row).None?
    {
      assert roomOrder[b] in roomOrder;
      var found, ext := FirstTheaterAt(inst, sol, id, d, roomOrder[b], otOrder);
      FirstIndexStep(roomOrder, row, b);
      if found {
        FirstIndexPrefix(roomOrder, row, b + 1);
        return true, ext;
      }
    }
    assert roomOrder[..|roomOrder|] == roomOrder;
    return false, sol;
  }

  /** The theater loop for day `d` and room `r`: the first theater whose
      insertion passes the six hard checks. */
  method FirstTheaterAt(inst: Instance, sol: Solution, id: Id, d: int, r: Id, otOrder: seq<Id>)
    returns (ok: bool, cand: Solution)
    requires WellFormed(inst) && Valid(inst, sol) && id in PatientDict(inst) && id !in AdmittedIds(sol)
    requires PatientDict(inst)[id].releaseDay <= d <= DueOrDefault(inst, PatientDict(inst)[id])
    requires r in RoomDict(inst)
    ensures Valid(inst, cand)
    ensures var kc := FirstIndex(otOrder, Cell(d, r, InsertTest(inst, sol, id)));
            ok == kc.Some? && (ok ==> cand == sol.(patients := sol.patients + [Placement(id, d, r, otOrder[kc.value])]))
  {
    ghost var cell := Cell(d, r, InsertTest(inst, sol, id));
    for c := 0 to |otOrder|
      invariant FirstIndex(otOrder[..c], cell).None?
    {
      var p := Placement(id, d, r, otOrder[c]);
      var pass, ext := TryAppend(inst, sol, p);
      FirstIndexStep(otOrder, cell, c);
      if pass {
        FirstIndexPrefix(otOrder, cell, c + 1);
        return true, ext;
      }
    }
    assert otOrder[..|otOrder|] == otOrder;
    return false, sol;
  }

  // ---------------------------------------------------------------------------
  // Swap the rooms of two nurses' duties
  // ---------------------------------------------------------------------------

  /** `set(rooms)` */
  function RoomSet(rs: seq<Id>): set<Id> {
    set x | x in rs
  }

  /** Nurse `b`'s duty `db` can trade rooms with nurse `a`'s duty `da`: another
      nurse id, the same day and shift, no room in common. */
  predicate Partner(ns: seq<NurseSchedule>, a: int, da: int, b: int, db: int) {
    0 <= a < |ns| && 0 <= da < |ns[a].assignments| && 0 <= b < |ns| && 0 <= db < |ns[b].assignments|
    && ns[b].id != ns[a].id
    && ns[b].assignments[db].day == ns[a].assignments[da].day
    && ns[b].assignments[db].shift == ns[a].assignments[da].shift
    && RoomSet(ns[b].assignments[db].rooms) !! RoomSet(ns[a].assignments[da].rooms)
  }

  /** The two duties with their room lists exchanged. */
  function SwapRooms(ns: seq<NurseSchedule>, a: int, da: int, b: int, db: int): (r: seq<NurseSchedule>)
    requires Partner(ns, a, da, b, db)
    ensures |r| == |ns| && forall j :: 0 <= j < |r| ==> r[j].id == ns[j].id && |r[j].assignments| == |ns[j].assignments|
  {
    var dutyA := ns[a].assignments[da];
    var dutyB := ns[b].assignments[db];
    ns[a := ns[a].(assignments := ns[a].assignments[da := dutyA.(rooms := dutyB.rooms)])]
      [b := ns[b].(assignments := ns[b].assignments[db := dutyB.(rooms := dutyA.rooms)])]
  }

  /** `[n for n in nurses if n['assignments']]`, as positions. */
  function Staffed(ns: seq<NurseSchedule>, n: nat): (r: seq<nat>)
    requires n <= |ns|
    ensures forall j :: j in r <==> 0 <= j < n && |ns[j].assignments| > 0
  {
    if n == 0 then []
    else Staffed(ns, n - 1) + (if |ns[n - 1].assignments| > 0 then [n - 1] else [])
  }

  /** Two duties traded rooms, and H1 and H7 are zero afterwards. */
  ghost predicate NursesSwapped(inst: Instance, sol: Solution, s: Solution) {
    s.patients == sol.patients
    && (exists a, da, b, db :: Partner(sol.nurses, a, da, b, db) && s.nurses == SwapRooms(sol.nurses, a, da, b, db))
    && RoomsKnown(inst, s) && H1(inst, s) == 0 && H7(inst, s) == 0
  }

  /** The occupancy expansion, and so H1 and H7, read no nurse records. */
  lemma IgnoresNurses(inst: Instance, sol: Solution, ns: seq<NurseSchedule>)
    ensures Expansion(inst, sol.(nurses := ns)) == Expansion(inst, sol)
    ensures H1(inst, sol.(nurses := ns)) == H1(inst, sol)
    ensures RoomsKnown(inst, sol) ==> RoomsKnown(inst, sol.(nurses := ns)) && H7(inst, sol.(nurses := ns)) == H7(inst, sol)
  {
    var s := sol.(nurses := ns);
    assert Expansion(inst, s) == Expansion(inst, sol);
    assert GenderGroups(inst, s) == GenderGroups(inst, sol);
    assert Occupancy(inst, s) == Occupancy(inst, sol);
  }

  /** Duty `da` of nurse `a` has no partner to trade rooms with. */
  ghost predicate Partnerless(ns: seq<NurseSchedule>, a: int, da: int) {
    0 <= a < |ns| && 0 <= da < |ns[a].assignments|
    && forall b, db :: !Partner(ns, a, da, b, db)
  }

  /** Two partner duties that both list no room: swapping them changes nothing. */
  ghost predicate EmptyPartners(ns: seq<NurseSchedule>) {
    exists a, da, b, db :: Partner(ns, a, da, b, db)
      && ns[a].assignments[da].rooms == [] && ns[b].assignments[db].rooms == []
  }

  /** The nurse move may return its input: fewer than two records, a staffed
      duty without a partner that the draw may pick, two room-less partners
      whose swap is the identity, or H1 or H7 already nonzero, which no swap
      changes (`IgnoresNurses`). */
  ghost predicate NurseStuck(inst: Instance, sol: Solution) {
    |sol.nurses| < 2
    || (exists a, da :: Partnerless(sol.nurses, a, da))
    || EmptyPartners(sol.nurses)
    || !RoomsKnown(inst, sol) || H1(inst, sol) != 0 || H7(inst, sol) != 0
  }

  /** `set(rooms)` is empty exactly for the empty list. */
  lemma RoomSetEmpty(rs: seq<Id>)
    ensures RoomSet(rs) == {} <==> rs == []
  {
    if rs != [] {
      assert rs[0] in RoomSet(rs);
    }
  }

  /** A swap leaves the records as they were only when both room lists are
      empty, since they share no room. */
  lemma SwapUnchanged(ns: seq<NurseSchedule>, a: int, da: int, b: int, db: int)
    requires Partner(ns, a, da, b, db) && SwapRooms(ns, a, da, b, db) == ns
    ensures ns[a].assignments[da].rooms == [] && ns[b].assignments[db].rooms == []
  {
    var ra := ns[a].assignments[da].rooms;
    var rb := ns[b].assignments[db].rooms;
    assert a != b;
    assert SwapRooms(ns, a, da, b, db)[a].assignments[da].rooms == rb;
    assert ra == rb;
    assert RoomSet(ra) * RoomSet(rb) == {};
    RoomSetEmpty(ra);
  }

  /** What the swap check of the nurse move gives: the swapped records when
      H1 and H7 are zero afterwards, and otherwise the input, which is then
      stuck. */
  lemma SwapOutcome(inst: Instance, sol: Solution, a: int, da: int, b: int, db: int, s: Solution)
    requires WellFormed(inst) && Valid(inst, sol) && Partner(sol.nurses, a, da, b, db)
    requires var swapped := sol.(nurses := SwapRooms(sol.nurses, a, da, b, db));
             RoomsKnown(inst, swapped)
             && s == if H1(inst, swapped) == 0 && H7(inst, swapped) == 0 then swapped else sol
    ensures s == sol || NursesSwapped(inst, sol, s)
    ensures s != sol ==> RoomsKnown(inst, sol) && H1(inst, sol) == 0 && H7(inst, sol) == 0
    ensures s == sol ==> NurseStuck(inst, sol)
  {
    var swapped := sol.(nurses := SwapRooms(sol.nurses, a, da, b, db));
    ValidRoomsKnown(inst, sol);
    IgnoresNurses(inst, sol, swapped.nurses);
    if swapped == sol {
      SwapUnchanged(sol.nurses, a, da, b, db);
      assert EmptyPartners(sol.nurses);
    }
  }

  /** `_neighborhood_change_nurse_assignment` */
  method ChangeNurseAssignment(inst: Instance, sol: Solution, rng: Random) returns (s: Solution)
    requires WellFormed(inst) && Valid(inst, sol)
    modifies rng
    ensures Valid(inst, s)
    ensures s == sol || NursesSwapped(inst, sol, s)
    ensures s != sol ==> RoomsKnown(inst, sol) && H1(inst, sol) == 0 && H7(inst, sol) == 0
    ensures s == sol ==> NurseStuck(inst, sol)
  {
    s := sol;
    var ns := sol.nurses;
    if |ns| < 2 {
      return;
    }
    var withDuties := Staffed(ns, |ns|);
    assert 0 in withDuties;
    var pickA := rng.Below(|withDuties|);
    var a := withDuties[pickA];
    assert a in withDuties;
    var da := rng.Below(|ns[a].assignments|);
    var candidates := PartnersOf(ns, a, da);
    if |candidates| == 0 {
      assert Partnerless(ns, a, da);
      return;
    }
    var pickB := rng.Below(|candidates|);
    var pick := candidates[pickB];
    assert pick in candidates;
    var (b, db) := pick;
    var swapped := sol.(nurses := SwapRooms(ns, a, da, b, db));
    assert Valid(inst, swapped);
    ValidEvaluable(inst, swapped);
    var h1 := H1NoGenderMix(inst, swapped);
    var h7 := H7RoomCapacity(inst, swapped);
    s := if h1 == 0 && h7 == 0 then swapped else sol;
    SwapOutcome(inst, sol, a, da, b, db, s);
  }

  /** The loops collecting `candidates_b`: every duty of another nurse on the
      same day and shift with no room in common with duty `da` of nurse `a`. */
  method PartnersOf(ns: seq<NurseSchedule>, a: int, da: int) returns (candidates: seq<(int, int)>)
    requires 0 <= a < |ns| && 0 <= da < |ns[a].assignments|
    ensures forall b, db :: (b, db) in candidates <==> Partner(ns, a, da, b, db)
  {
    var dutyA := ns[a].assignments[da];
    candidates := [];
    for b := 0 to |ns|
      invariant forall c :: c in candidates ==> Partner(ns, a, da, c.0, c.1) && c.0 < b
      invariant forall b', db' :: 0 <= b' < b && Partner(ns, a, da, b', db') ==> (b', db') in candidates
    {
      if ns[b].id == ns[a].id {
        continue;
      }
      for db := 0 to |ns[b].assignments|
        invariant forall c :: c in candidates ==> Partner(ns, a, da, c.0, c.1) && c.0 <= b
        invariant forall b', db' :: 0 <= b' < b && Partner(ns, a, da, b', db') ==> (b', db') in candidates
        invariant forall db' :: 0 <= db' < db && Partner(ns, a, da, b, db') ==> (b, db') in candidates
      {
        var dutyB := ns[b].assignments[db];
        if dutyB.day == dutyA.day && dutyB.shift == dutyA.shift && RoomSet(dutyB.rooms) !! RoomSet(dutyA.rooms) {
          candidates := candidates + [(b, db)];
        }
      }
    }
  }

  /** What a duty adds to the rooms staffed at a (day, shift). */
  function DutyRooms(day: int, shift: string): Duty -> multiset<Id> {
    (d: Duty) => if d.day == day && d.shift == shift then multiset(d.rooms) else multiset{}
  }

  function SumRooms<T>(xs: seq<T>, f: T -> multiset<Id>): multiset<Id>
    decreases |xs|
  {
    if xs == [] then multiset{} else SumRooms(xs[..|xs| - 1], f) + f(xs[|xs| - 1])
  }

  /** What a nurse record adds to the rooms staffed at a (day, shift). */
  function ScheduleRooms(day: int, shift: string): NurseSchedule -> multiset<Id> {
    (n: NurseSchedule) => SumRooms(n.assignments, DutyRooms(day, shift))
  }

  /** The rooms staffed at a (day, shift), once per listing. */
  function RosterRooms(ns: seq<NurseSchedule>, day: int, shift: string): multiset<Id> {
    SumRooms(ns, ScheduleRooms(day, shift))
  }

  lemma {:induction false} SumRoomsUpdate<T>(xs: seq<T>, f: T -> multiset<Id>, i: nat, y: T)
    requires i < |xs|
    ensures SumRooms(xs[i := y], f) + f(xs[i]) == SumRooms(xs, f) + f(y)
    decreases |xs|
  {
    var n := |xs| - 1;
    if i == n {
      assert xs[i := y][..n] == xs[..n];
    } else {
      SumRoomsUpdate(xs[..n], f, i, y);
      assert xs[i := y][..n] == xs[..n][i := y];
      assert xs[i := y][n] == xs[n];
      calc {
        SumRooms(xs[i := y], f) + f(xs[i]);
        SumRooms(xs[..n][i := y], f) + f(xs[n]) + f(xs[..n][i]);
        SumRooms(xs[..n], f) + f(y) + f(xs[n]);
        SumRooms(xs, f) + f(y);
      }
    }
  }

  lemma Chain(r2: multiset<Id>, r1: multiset<Id>, r: multiset<Id>, x1: multiset<Id>, y1: multiset<Id>, x: multiset<Id>, y: multiset<Id>)
    requires r1 + x == r + x1 && r2 + y == r1 + y1 && x1 + y1 == x + y
    ensures r2 == r
  {
    forall e ensures r2[e] == r[e] {
      assert (r1 + x)[e] == (r + x1)[e];
      assert (r2 + y)[e] == (r1 + y1)[e];
      assert (x1 + y1)[e] == (x + y)[e];
    }
  }

  lemma Exchange(x1: multiset<Id>, y1: multiset<Id>, x: multiset<Id>, y: multiset<Id>, a: multiset<Id>, b: multiset<Id>)
    requires x1 + a == x + b && y1 + b == y + a
    ensures x1 + y1 == x + y
  {
    forall e ensures (x1 + y1)[e] == (x + y)[e] {
      assert (x1 + a)[e] == (x + b)[e];
      assert (y1 + b)[e] == (y + a)[e];
    }
  }

  /** Replacing one duty of a record changes its rooms by that duty's. */
  lemma ScheduleUpdate(n: NurseSchedule, d: nat, nd: Duty, day: int, shift: string)
    requires d < |n.assignments|
    ensures ScheduleRooms(day, shift)(n.(assignments := n.assignments[d := nd])) + DutyRooms(day, shift)(n.assignments[d])
            == ScheduleRooms(day, shift)(n) + DutyRooms(day, shift)(nd)
  {
    SumRoomsUpdate(n.assignments, DutyRooms(day, shift), d, nd);
  }

  /** The swap keeps the multiset of rooms staffed at every (day, shift). */
  lemma SwapKeepsRoster(ns: seq<NurseSchedule>, a: int, da: int, b: int, db: int, day: int, shift: string)
    requires Partner(ns, a, da, b, db)
    ensures RosterRooms(SwapRooms(ns, a, da, b, db), day, shift) == RosterRooms(ns, day, shift)
  {
    var f := DutyRooms(day, shift);
    var g := ScheduleRooms(day, shift);
    var dutyA := ns[a].assignments[da];
    var dutyB := ns[b].assignments[db];
    var newA := dutyA.(rooms := dutyB.rooms);
    var newB := dutyB.(rooms := dutyA.rooms);
    var na := ns[a].(assignments := ns[a].assignments[da := newA]);
    var nb := ns[b].(assignments := ns[b].assignments[db := newB]);
    ScheduleUpdate(ns[a], da, newA, day, shift);
    ScheduleUpdate(ns[b], db, newB, day, shift);
    assert f(newA) == f(dutyB) && f(newB) == f(dutyA);
    Exchange(g(na), g(nb), g(ns[a]), g(ns[b]), f(dutyA), f(dutyB));
    var ns1 := ns[a := na];
    SumRoomsUpdate(ns, g, a, na);
    SumRoomsUpdate(ns1, g, b, nb);
    assert ns1[b] == ns[b];
    assert SwapRooms(ns, a, da, b, db) == ns1[b := nb];
    Chain(SumRooms(ns1[b := nb], g), SumRooms(ns1, g), SumRooms(ns, g), g(na), g(nb), g(ns[a]), g(ns[b]));
  }

  // ---------------------------------------------------------------------------
  // The neighbourhood list
  // ---------------------------------------------------------------------------

  /** `len(self.neighborhoods)` */
  const KMax: nat := 5

  /** What neighbourhood `k` of `self.neighborhoods` (0-based) may do to a
      solution when it changes it. */
  ghost predicate Step(inst: Instance, k: nat, sol: Solution, s: Solution) {
    if k == 0 then exists i :: RoomMoved(inst, sol, s, i)
    else if k == 1 then exists i :: DayMoved(inst, sol, s, i)
    else if k == 2 then Rescheduled(inst, sol, s)
    else if k == 3 then NursesSwapped(inst, sol, s)
    else exists i :: TheaterMoved(inst, sol, s, i)
  }

  /** When neighbourhood `k` may hand back its input: the stuck condition of
      that move. */
  ghost predicate Stuck(inst: Instance, k: nat, sol: Solution) {
    if k == 0 then |sol.patients| == 0 || exists i :: 0 <= i < |sol.patients| && RoomStuck(inst, sol, i)
    else if k == 1 then |sol.patients| == 0 || exists i :: 0 <= i < |sol.patients| && DayStuck(inst, sol, i)
    else if k == 2 then Unscheduled(inst, sol, false) == {}
                        || exists id :: id in Unscheduled(inst, sol, false) && RescheduleStuck(inst, sol, id)
    else if k == 3 then NurseStuck(inst, sol)
    else |sol.patients| == 0 || exists i :: 0 <= i < |sol.patients| && TheaterStuck(inst, sol, i)
  }

  /** `self.neighborhoods[k](solution)` */
  method ApplyMove(inst: Instance, k: nat, sol: Solution, rng: Random) returns (s: Solution)
    requires k < KMax && WellFormed(inst) && Valid(inst, sol)
    modifies rng
    ensures Valid(inst, s)
    ensures s == sol || Step(inst, k, sol, s)
    ensures s == sol ==> Stuck(inst, k, sol)
  {
    if k == 0 {
      s := ChangePatientRoom(inst, sol, rng);
    } else if k == 1 {
      s := ChangePatientDay(inst, sol, rng);
    } else if k == 2 {
      s := RescheduleUnscheduled(inst, sol, rng);
    } else if k == 3 {
      s := ChangeNurseAssignment(inst, sol, rng);
    } else {
      s := ChangePatientTheater(inst, sol, rng);
    }
  }
}
