/**
 * The Patient Admission Scheduling constraints of solvers/constraints.py:
 * H1 (no gender mix), H2 (compatible rooms), H7 (room capacity) and
 * S1 (mixed age groups).
 */
module PasConstraints {
  import opened Wrappers
  import opened Collections
  import opened Hospital
  import opened Scoring

  /** The grouping key `(day, room_id)` of an expanded triple. */
  function DayRoom(t: Stay): (int, Id) {
    (t.day, t.room)
  }

  // ---------------------------------------------------------------------------
  // H1: no gender mix
  // ---------------------------------------------------------------------------

  function GenderEntries(stays: seq<Stay>): seq<((int, Id), string)> {
    seq(|stays|, i requires 0 <= i < |stays| => (DayRoom(stays[i]), stays[i].person.Gender()))
  }

  /** `room_daily_genders`: the genders present in each room on each day. */
  function GenderGroups(inst: Instance, sol: Solution): map<(int, Id), set<string>> {
    GroupSets(GenderEntries(Expansion(inst, sol)))
  }

  /** The room-days whose set of genders has two or more elements. */
  function MixedKeys(g: map<(int, Id), set<string>>): set<(int, Id)> {
    set k | k in g && |g[k]| > 1
  }

  function H1(inst: Instance, sol: Solution): int {
    Penalty * |MixedKeys(GenderGroups(inst, sol))|
  }

  /** `h1_no_gender_mix` */
  method H1NoGenderMix(inst: Instance, sol: Solution) returns (r: int)
    ensures r == H1(inst, sol)
    ensures Quantised(r)
  {
    var stays := AllPatientsInRooms(inst, sol);
    var g := BuildGroupSets(GenderEntries(stays));
    var p := k => k in g && |g[k]| > 1;
    var n := CountWhere(g.Keys, p);
    assert Filter(g.Keys, p) == MixedKeys(g);
    r := Penalty * n;
    PenaltyMultiple(n);
  }

  /** Two triples on the same day in the same room with different genders. */
  ghost predicate Mixed(stays: seq<Stay>, k: (int, Id)) {
    exists i, j :: 0 <= i < |stays| && 0 <= j < |stays| && DayRoom(stays[i]) == k && DayRoom(stays[j]) == k
                   && stays[i].person.Gender() != stays[j].person.Gender()
  }

  /** The (day, room) pairs of the expansion that hold two different genders. */
  ghost function MixedDayRooms(stays: seq<Stay>): set<(int, Id)> {
    set i | 0 <= i < |stays| && Mixed(stays, DayRoom(stays[i])) :: DayRoom(stays[i])
  }

  /** A (day, room) group holds two or more genders exactly when two stays
      there differ in gender. */
  lemma MixedKey(stays: seq<Stay>, k: (int, Id))
    ensures var g := GroupSets(GenderEntries(stays));
            (k in g && |g[k]| > 1) <==> k in MixedDayRooms(stays)
  {
    var g := GroupSets(GenderEntries(stays));
    if k in g && |g[k]| > 1 {
      GroupedMixed(stays, k);
    }
    if k in MixedDayRooms(stays) {
      MixedGrouped(stays, k);
    }
  }

  /** Two genders in a group come from two stays that differ in gender. */
  lemma GroupedMixed(stays: seq<Stay>, k: (int, Id))
    requires var g := GroupSets(GenderEntries(stays)); k in g && |g[k]| > 1
    ensures k in MixedDayRooms(stays)
  {
    var es := GenderEntries(stays);
    var g := GroupSets(es);
    TwoDistinct(g[k]);
    var x, y :| x in g[k] && y in g[k] && x != y;
    GroupSetsAt(es, k, x);
    GroupSetsAt(es, k, y);
    var i :| 0 <= i < |es| && es[i] == (k, x);
    var j :| 0 <= j < |es| && es[j] == (k, y);
    assert Mixed(stays, DayRoom(stays[i]));
  }

  /** Two stays that differ in gender put two genders in their group. */
  lemma MixedGrouped(stays: seq<Stay>, k: (int, Id))
    requires k in MixedDayRooms(stays)
    ensures var g := GroupSets(GenderEntries(stays)); k in g && |g[k]| > 1
  {
    var es := GenderEntries(stays);
    var g := GroupSets(es);
    var i0 :| 0 <= i0 < |stays| && Mixed(stays, DayRoom(stays[i0])) && DayRoom(stays[i0]) == k;
    var i, j :| 0 <= i < |stays| && 0 <= j < |stays| && DayRoom(stays[i]) == k && DayRoom(stays[j]) == k
                && stays[i].person.Gender() != stays[j].person.Gender();
    assert es[i] == (k, stays[i].person.Gender());
    assert es[j] == (k, stays[j].person.Gender());
    GroupSetsAt(es, k, stays[i].person.Gender());
    GroupSetsAt(es, k, stays[j].person.Gender());
    TwoDistinct(g[k]);
  }

  /** H1 is the penalty times the number of (day, room) pairs of the expansion
      that hold two people of different genders. */
  lemma H1Meaning(inst: Instance, sol: Solution)
    ensures H1(inst, sol) == Penalty * |MixedDayRooms(Expansion(inst, sol))|
  {
    var stays := Expansion(inst, sol);
    var g := GenderGroups(inst, sol);
    forall k ensures (k in g && |g[k]| > 1) <==> k in MixedDayRooms(stays) {
      MixedKey(stays, k);
    }
    assert MixedKeys(g) == MixedDayRooms(stays);
  }

  /** With no placements and no occupants there is nothing to mix. */
  lemma H1Empty(inst: Instance, sol: Solution)
    requires sol.patients == [] && inst.occupants == []
    ensures H1(inst, sol) == 0
  {
    ExpansionEmpty(inst, sol);
  }

  // ---------------------------------------------------------------------------
  // H2: compatible rooms
  // ---------------------------------------------------------------------------

  /** A placement of a patient record in one of its incompatible rooms; an
      occupant record has no incompatible rooms, an unknown id is ignored. */
  predicate Incompatible(inst: Instance, p: Placement) {
    match PatientById(inst, p.id)
    case Some(AsPatient(q)) => p.room in q.incompatibleRooms
    case _ => false
  }

  function IncompatibleCount(inst: Instance, ps: seq<Placement>): nat
    decreases |ps|
  {
    if ps == [] then 0
    else IncompatibleCount(inst, ps[..|ps| - 1]) + (if Incompatible(inst, ps[|ps| - 1]) then 1 else 0)
  }

  function H2(inst: Instance, sol: Solution): int {
    Penalty * IncompatibleCount(inst, sol.patients)
  }

  /** `h2_compatible_rooms` */
  method H2CompatibleRooms(inst: Instance, sol: Solution) returns (r: int)
    ensures r == H2(inst, sol)
    ensures Quantised(r)
  {
    var violations := 0;
    for i := 0 to |sol.patients|
      invariant violations == IncompatibleCount(inst, sol.patients[..i])
    {
      assert sol.patients[..i + 1][..i] == sol.patients[..i];
      var pSol := sol.patients[i];
      var patient := PatientById(inst, pSol.id);
      if patient.Some? && patient.value.AsPatient? && pSol.room in patient.value.patient.incompatibleRooms {
        violations := violations + 1;
      }
    }
    assert sol.patients[..|sol.patients|] == sol.patients;
    r := Penalty * violations;
    PenaltyMultiple(violations);
  }

  /** H2 counts at most one violation per placement, and is zero exactly
      when no placement puts a patient in an incompatible room. */
  lemma {:induction false} IncompatibleCountSpec(inst: Instance, ps: seq<Placement>)
    ensures IncompatibleCount(inst, ps) <= |ps|
    ensures IncompatibleCount(inst, ps) == 0 <==> forall i :: 0 <= i < |ps| ==> !Incompatible(inst, ps[i])
    decreases |ps|
  {
    if ps != [] {
      var init := ps[..|ps| - 1];
      IncompatibleCountSpec(inst, init);
      assert forall i :: 0 <= i < |init| ==> init[i] == ps[i];
    }
  }

  lemma H2Meaning(inst: Instance, sol: Solution)
    ensures H2(inst, sol) <= Penalty * |sol.patients|
    ensures H2(inst, sol) == 0 <==> forall i :: 0 <= i < |sol.patients| ==> !Incompatible(inst, sol.patients[i])
  {
    IncompatibleCountSpec(inst, sol.patients);
  }

  // ---------------------------------------------------------------------------
  // H7: room capacity
  // ---------------------------------------------------------------------------

  function DayRooms(stays: seq<Stay>): seq<(int, Id)> {
    seq(|stays|, i requires 0 <= i < |stays| => DayRoom(stays[i]))
  }

  /** `room_occupancy`: the number of people in each room on each day. */
  function Occupancy(inst: Instance, sol: Solution): map<(int, Id), int> {
    GroupCounts(DayRooms(Expansion(inst, sol)))
  }

  /** `room_dict[r_id]` raises for a room id that is not in the instance. */
  predicate RoomsKnown(inst: Instance, sol: Solution) {
    forall t :: t in Expansion(inst, sol) ==> t.room in RoomDict(inst)
  }

  lemma OccupancyKeys(inst: Instance, sol: Solution)
    requires RoomsKnown(inst, sol)
    ensures forall k :: k in Occupancy(inst, sol) ==> k.1 in RoomDict(inst)
  {
    var stays := Expansion(inst, sol);
    forall k | k in Occupancy(inst, sol) ensures k.1 in RoomDict(inst) {
      GroupCountsAt(DayRooms(stays), k);
      var i :| 0 <= i < |DayRooms(stays)| && DayRooms(stays)[i] == k;
      assert stays[i] in stays;
    }
  }

  /** The room-days holding more people than the room's capacity. */
  function OverfullKeys(rooms: map<Id, Room>, occ: map<(int, Id), int>): set<(int, Id)>
    requires forall k :: k in occ ==> k.1 in rooms
  {
    set k | k in occ && occ[k] > rooms[k.1].capacity
  }

  function H7(inst: Instance, sol: Solution): int
    requires RoomsKnown(inst, sol)
  {
    OccupancyKeys(inst, sol);
    Penalty * |OverfullKeys(RoomDict(inst), Occupancy(inst, sol))|
  }

  /** `h7_room_capacity` */
  method H7RoomCapacity(inst: Instance, sol: Solution) returns (r: int)
    requires RoomsKnown(inst, sol)
    ensures r == H7(inst, sol)
    ensures Quantised(r)
  {
    var stays := AllPatientsInRooms(inst, sol);
    var occ := BuildGroupCounts(DayRooms(stays));
    var rooms := RoomDict(inst);
    OccupancyKeys(inst, sol);
    var p := k => k in occ && k.1 in rooms && occ[k] > rooms[k.1].capacity;
    var n := CountWhere(occ.Keys, p);
    assert Filter(occ.Keys, p) == OverfullKeys(rooms, occ);
    r := Penalty * n;
    PenaltyMultiple(n);
  }

  /** H7 is the penalty times the number of (day, room) pairs of the
      expansion whose number of triples exceeds the room's capacity. */
  lemma H7Meaning(inst: Instance, sol: Solution)
    requires RoomsKnown(inst, sol)
    ensures var stays := Expansion(inst, sol);
            H7(inst, sol) == Penalty * |set i | 0 <= i < |stays|
                                          && multiset(DayRooms(stays))[DayRoom(stays[i])] > RoomDict(inst)[stays[i].room].capacity
                                        :: DayRoom(stays[i])|
  {
    var stays := Expansion(inst, sol);
    var ks := DayRooms(stays);
    var occ := Occupancy(inst, sol);
    OccupancyKeys(inst, sol);
    forall i | 0 <= i < |stays| ensures stays[i].room in RoomDict(inst) {
      assert stays[i] in stays;
    }
    var a := OverfullKeys(RoomDict(inst), occ);
    var b := set i | 0 <= i < |stays| && multiset(ks)[DayRoom(stays[i])] > RoomDict(inst)[stays[i].room].capacity
               :: DayRoom(stays[i]);
    forall k | k in a ensures k in b {
      GroupCountsAt(ks, k);
      var i :| 0 <= i < |ks| && ks[i] == k;
      assert DayRoom(stays[i]) == k;
    }
    forall k | k in b ensures k in a {
      var i :| 0 <= i < |stays| && multiset(ks)[DayRoom(stays[i])] > RoomDict(inst)[stays[i].room].capacity
               && DayRoom(stays[i]) == k;
      assert ks[i] == k;
      GroupCountsAt(ks, k);
    }
    assert a == b;
  }

  // ---------------------------------------------------------------------------
  // S1: mixed age groups
  // ---------------------------------------------------------------------------

  function AgeIndex(inst: Instance): seq<(string, int)> {
    seq(|inst.ageGroups|, i requires 0 <= i < |inst.ageGroups| => (inst.ageGroups[i], i))
  }

  /** `age_map`: each age group to its position in `age_groups` (the last
      position when a group is listed twice). */
  function AgeRanks(inst: Instance): map<string, int> {
    LastWins(AgeIndex(inst))
  }

  /** The age map knows exactly the listed groups, each at its last position. */
  lemma AgeRanksSpec(inst: Instance, a: string)
    ensures a in AgeRanks(inst) <==> a in inst.ageGroups
    ensures a in AgeRanks(inst) ==>
              var r := AgeRanks(inst)[a];
              0 <= r < |inst.ageGroups| && inst.ageGroups[r] == a
              && forall j :: r < j < |inst.ageGroups| ==> inst.ageGroups[j] != a
  {
    var es := AgeIndex(inst);
    LastWinsKey(es, a);
    if a in AgeRanks(inst) {
      LastWinsFrom(es, a);
      var i :| 0 <= i < |es| && es[i] == (a, AgeRanks(inst)[a]) && forall j :: i < j < |es| ==> es[j].0 != a;
      assert inst.ageGroups[i] == a;
      assert forall j :: 0 <= j < |es| ==> es[j].0 == inst.ageGroups[j];
    }
    if a in inst.ageGroups {
      var i :| 0 <= i < |inst.ageGroups| && inst.ageGroups[i] == a;
      assert es[i].0 == a;
    }
  }

  /** `age_map[...]` raises for an age group that is not listed. */
  predicate AgesKnown(inst: Instance, sol: Solution) {
    forall t :: t in Expansion(inst, sol) ==> t.person.AgeGroup() in inst.ageGroups
  }

  function Rank(inst: Instance, t: Stay): int
    requires t.person.AgeGroup() in AgeRanks(inst)
  {
    AgeRanks(inst)[t.person.AgeGroup()]
  }

  lemma AgesRanked(inst: Instance, sol: Solution)
    requires AgesKnown(inst, sol)
    ensures forall i :: 0 <= i < |Expansion(inst, sol)| ==> Expansion(inst, sol)[i].person.AgeGroup() in AgeRanks(inst)
  {
    var stays := Expansion(inst, sol);
    forall i | 0 <= i < |stays| ensures stays[i].person.AgeGroup() in AgeRanks(inst) {
      assert stays[i] in stays;
      AgeRanksSpec(inst, stays[i].person.AgeGroup());
    }
  }

  /** Two listed age groups have the same rank only when they are the same group. */
  lemma RankInjective(inst: Instance, t: Stay, u: Stay)
    requires t.person.AgeGroup() in AgeRanks(inst) && u.person.AgeGroup() in AgeRanks(inst)
    ensures Rank(inst, t) == Rank(inst, u) <==> t.person.AgeGroup() == u.person.AgeGroup()
  {
    AgeRanksSpec(inst, t.person.AgeGroup());
    AgeRanksSpec(inst, u.person.AgeGroup());
  }

  function AgeEntries(inst: Instance, stays: seq<Stay>): seq<((int, Id), int)>
    requires forall i :: 0 <= i < |stays| ==> stays[i].person.AgeGroup() in AgeRanks(inst)
  {
    seq(|stays|, i requires 0 <= i < |stays| => (DayRoom(stays[i]), Rank(inst, stays[i])))
  }

  /** `room_daily_ages`: the age ranks present in each room on each day. */
  function AgeLists(inst: Instance, sol: Solution): map<(int, Id), seq<int>>
    requires AgesKnown(inst, sol)
  {
    AgesRanked(inst, sol);
    GroupLists(AgeEntries(inst, Expansion(inst, sol)))
  }

  /** What one room-day adds: the spread of its age ranks when it holds two or more. */
  function Spread(g: map<(int, Id), seq<int>>): ((int, Id)) -> int {
    k => if k in g && |g[k]| > 1 then SeqMax(g[k]) - SeqMin(g[k]) else 0
  }

  ghost function S1(inst: Instance, sol: Solution, w: nat): int
    requires AgesKnown(inst, sol)
  {
    var g := AgeLists(inst, sol);
    SumOver(g.Keys, Spread(g)) * w
  }

  /** `s1_mixed_age_penalty` */
  method S1MixedAgePenalty(inst: Instance, sol: Solution, w: nat) returns (r: int)
    requires AgesKnown(inst, sol)
    ensures r == S1(inst, sol, w)
  {
    var stays := AllPatientsInRooms(inst, sol);
    AgesRanked(inst, sol);
    var g := BuildGroupLists(AgeEntries(inst, stays));
    var cost := SumAll(g.Keys, Spread(g));
    r := cost * w;
  }

  /** A list's spread is zero exactly when all its elements are equal. */
  lemma SpreadZero(xs: seq<int>)
    requires |xs| >= 1
    ensures (if |xs| > 1 then SeqMax(xs) - SeqMin(xs) else 0) >= 0
    ensures (if |xs| > 1 then SeqMax(xs) - SeqMin(xs) else 0) == 0 <==> forall x, y :: x in xs && y in xs ==> x == y
  {
    if |xs| > 1 {
      var hi, lo := SeqMax(xs), SeqMin(xs);
      assert lo in xs;
      if hi != lo {
        assert hi in xs && lo in xs;
      }
    } else {
      assert forall x :: x in xs ==> x == xs[0];
    }
  }

  /** All triples of a (day, room) pair share one age group. */
  ghost predicate OneAgeGroup(stays: seq<Stay>, k: (int, Id)) {
    forall i, j :: 0 <= i < |stays| && 0 <= j < |stays| && DayRoom(stays[i]) == k && DayRoom(stays[j]) == k
                   ==> stays[i].person.AgeGroup() == stays[j].person.AgeGroup()
  }

  /** A room-day adds nothing exactly when it holds one age group. */
  lemma SpreadKey(inst: Instance, sol: Solution, k: (int, Id))
    requires AgesKnown(inst, sol)
    requires k in AgeLists(inst, sol)
    ensures Spread(AgeLists(inst, sol))(k) >= 0
    ensures Spread(AgeLists(inst, sol))(k) == 0 <==> OneAgeGroup(Expansion(inst, sol), k)
  {
    AgesRanked(inst, sol);
    var g := AgeLists(inst, sol);
    GroupListsAt(AgeEntries(inst, Expansion(inst, sol)), k, 0);
    SpreadZero(g[k]);
    if Spread(g)(k) == 0 {
      ZeroSpreadOneGroup(inst, sol, k);
    }
    if OneAgeGroup(Expansion(inst, sol), k) {
      OneGroupZeroSpread(inst, sol, k);
    }
  }

  /** A room-day whose ranks are all equal holds one age group. */
  lemma ZeroSpreadOneGroup(inst: Instance, sol: Solution, k: (int, Id))
    requires AgesKnown(inst, sol)
    requires k in AgeLists(inst, sol)
    requires forall x, y :: x in AgeLists(inst, sol)[k] && y in AgeLists(inst, sol)[k] ==> x == y
    ensures OneAgeGroup(Expansion(inst, sol), k)
  {
    var stays := Expansion(inst, sol);
    AgesRanked(inst, sol);
    var es := AgeEntries(inst, stays);
    forall i, j | 0 <= i < |stays| && 0 <= j < |stays| && DayRoom(stays[i]) == k && DayRoom(stays[j]) == k
      ensures stays[i].person.AgeGroup() == stays[j].person.AgeGroup()
    {
      assert es[i] == (k, Rank(inst, stays[i]));
      assert es[j] == (k, Rank(inst, stays[j]));
      GroupListsAt(es, k, Rank(inst, stays[i]));
      GroupListsAt(es, k, Rank(inst, stays[j]));
      RankInjective(inst, stays[i], stays[j]);
    }
  }

  /** A room-day holding one age group has all its ranks equal. */
  lemma OneGroupZeroSpread(inst: Instance, sol: Solution, k: (int, Id))
    requires AgesKnown(inst, sol)
    requires k in AgeLists(inst, sol)
    requires OneAgeGroup(Expansion(inst, sol), k)
    ensures forall x, y :: x in AgeLists(inst, sol)[k] && y in AgeLists(inst, sol)[k] ==> x == y
  {
    var stays := Expansion(inst, sol);
    AgesRanked(inst, sol);
    var es := AgeEntries(inst, stays);
    var g := AgeLists(inst, sol);
    forall x, y | x in g[k] && y in g[k] ensures x == y {
      GroupListsAt(es, k, x);
      GroupListsAt(es, k, y);
      var i :| 0 <= i < |es| && es[i] == (k, x);
      var j :| 0 <= j < |es| && es[j] == (k, y);
      RankInjective(inst, stays[i], stays[j]);
    }
  }

  lemma S1Terms(inst: Instance, sol: Solution)
    requires AgesKnown(inst, sol)
    ensures var g := AgeLists(inst, sol);
            forall k :: k in g.Keys ==> Spread(g)(k) >= 0
  {
    var g := AgeLists(inst, sol);
    forall k | k in g.Keys ensures Spread(g)(k) >= 0 { SpreadKey(inst, sol, k); }
  }

  /** Each triple's room-day is a key of the age lists, and every key is some triple's room-day. */
  lemma AgeListsKeys(inst: Instance, sol: Solution)
    requires AgesKnown(inst, sol)
    ensures forall i :: 0 <= i < |Expansion(inst, sol)| ==> DayRoom(Expansion(inst, sol)[i]) in AgeLists(inst, sol)
    ensures forall k :: k in AgeLists(inst, sol) ==>
              exists i :: 0 <= i < |Expansion(inst, sol)| && DayRoom(Expansion(inst, sol)[i]) == k
  {
    var stays := Expansion(inst, sol);
    AgesRanked(inst, sol);
    var es := AgeEntries(inst, stays);
    forall i | 0 <= i < |stays| ensures DayRoom(stays[i]) in AgeLists(inst, sol) {
      assert es[i].0 == DayRoom(stays[i]);
      GroupListsAt(es, DayRoom(stays[i]), 0);
    }
    forall k | k in AgeLists(inst, sol) ensures exists i :: 0 <= i < |stays| && DayRoom(stays[i]) == k {
      GroupListsAt(es, k, 0);
      var i :| 0 <= i < |es| && es[i].0 == k;
      assert DayRoom(stays[i]) == k;
    }
  }

  /** Every room-day adds nothing exactly when every room-day holds one age group. */
  lemma S1KeysZero(inst: Instance, sol: Solution)
    requires AgesKnown(inst, sol)
    ensures var g := AgeLists(inst, sol);
            (forall k :: k in g.Keys ==> Spread(g)(k) == 0) <==>
            (forall i :: 0 <= i < |Expansion(inst, sol)| ==> OneAgeGroup(Expansion(inst, sol), DayRoom(Expansion(inst, sol)[i])))
  {
    var stays := Expansion(inst, sol);
    var g := AgeLists(inst, sol);
    var f := Spread(g);
    AgeListsKeys(inst, sol);
    forall k | k in g.Keys ensures f(k) == 0 <==> OneAgeGroup(stays, k) { SpreadKey(inst, sol, k); }
    if forall k :: k in g.Keys ==> f(k) == 0 {
      forall i | 0 <= i < |stays| ensures OneAgeGroup(stays, DayRoom(stays[i])) {
        assert DayRoom(stays[i]) in g.Keys;
      }
    }
    if forall i :: 0 <= i < |stays| ==> OneAgeGroup(stays, DayRoom(stays[i])) {
      forall k | k in g.Keys ensures f(k) == 0 {
        var i :| 0 <= i < |stays| && DayRoom(stays[i]) == k;
      }
    }
  }

  /** S1 is never negative, and (for a positive weight) is zero exactly when
      every room holds a single age group on every day. */
  lemma S1Meaning(inst: Instance, sol: Solution, w: nat)
    requires AgesKnown(inst, sol)
    ensures S1(inst, sol, w) >= 0
    ensures w > 0 ==> (S1(inst, sol, w) == 0 <==>
                       forall i :: 0 <= i < |Expansion(inst, sol)| ==> OneAgeGroup(Expansion(inst, sol), DayRoom(Expansion(inst, sol)[i])))
  {
    var g := AgeLists(inst, sol);
    S1Terms(inst, sol);
    SumOverNonNegative(g.Keys, Spread(g));
    SumOverZero(g.Keys, Spread(g));
    S1KeysZero(inst, sol);
    Weighted(SumOver(g.Keys, Spread(g)), w);
  }
}
