/**
 * The Surgical Case Planning constraints of solvers/constraints.py:
 * H3 (surgeon overtime), H4 (operating theater overtime), S5 (open
 * theaters) and S6 (surgeon transfer).
 */
module ScpConstraints {
  import opened Wrappers
  import opened Collections
  import opened Hospital
  import opened Scoring

  /** A (day, surgeon) or (day, theater) grouping key. */
  type DayKey = (int, Id)

  // ---------------------------------------------------------------------------
  // Daily capacities shared by H3 and H4
  // ---------------------------------------------------------------------------

  /** Each known surgeon's `max_surgery_time` vector. */
  function SurgeonCaps(inst: Instance): map<Id, seq<int>> {
    map s | s in SurgeonDict(inst) :: SurgeonDict(inst)[s].maxSurgeryTime
  }

  /** Each known theater's `availability` vector. */
  function TheaterCaps(inst: Instance): map<Id, seq<int>> {
    map t | t in TheaterDict(inst) :: TheaterDict(inst)[t].availability
  }

  /** Every load of a known resource can be looked up in its vector. */
  predicate Indexable(loads: map<DayKey, int>, caps: map<Id, seq<int>>) {
    forall k :: k in loads && k.1 in caps ==> InPyRange(caps[k.1], k.0)
  }

  /** The (day, resource) pairs of a known resource loaded beyond its capacity of that day. */
  function OverKeys(loads: map<DayKey, int>, caps: map<Id, seq<int>>): set<DayKey>
    requires Indexable(loads, caps)
  {
    set k | k in loads && k.1 in caps && loads[k] > PyIndex(caps[k.1], k.0)
  }

  /** The counting loop of `h3_surgeon_overtime` and `h4_ot_overtime`. */
  method CountOver(loads: map<DayKey, int>, caps: map<Id, seq<int>>) returns (n: nat)
    requires Indexable(loads, caps)
    ensures n == |OverKeys(loads, caps)|
  {
    var p := k => k in loads && k.1 in caps && InPyRange(caps[k.1], k.0) && loads[k] > PyIndex(caps[k.1], k.0);
    n := CountWhere(loads.Keys, p);
    assert Filter(loads.Keys, p) == OverKeys(loads, caps);
  }

  /** The overloaded pairs are the keys of the entries whose summed values
      exceed the capacity. */
  lemma OverKeysMeaning(es: seq<(DayKey, int)>, caps: map<Id, seq<int>>)
    requires Indexable(GroupSums(es), caps)
    ensures OverKeys(GroupSums(es), caps) ==
              set i | 0 <= i < |es| && es[i].0.1 in caps && InPyRange(caps[es[i].0.1], es[i].0.0)
                      && SumFor(es, es[i].0) > PyIndex(caps[es[i].0.1], es[i].0.0) :: es[i].0
  {
    var g := GroupSums(es);
    var b := set i | 0 <= i < |es| && es[i].0.1 in caps && InPyRange(caps[es[i].0.1], es[i].0.0)
                     && SumFor(es, es[i].0) > PyIndex(caps[es[i].0.1], es[i].0.0) :: es[i].0;
    forall k | k in OverKeys(g, caps) ensures k in b {
      GroupSumsAt(es, k);
      var i :| 0 <= i < |es| && es[i].0 == k;
    }
    forall k | k in b ensures k in OverKeys(g, caps) {
      var i :| 0 <= i < |es| && es[i].0.1 in caps && InPyRange(caps[es[i].0.1], es[i].0.0)
               && SumFor(es, es[i].0) > PyIndex(caps[es[i].0.1], es[i].0.0) && es[i].0 == k;
      GroupSumsAt(es, k);
    }
  }

  // ---------------------------------------------------------------------------
  // H3: surgeon overtime
  // ---------------------------------------------------------------------------

  /** The surgery minutes a placement adds to its surgeon's day. */
  function SurgeonEntry(inst: Instance, p: Placement): seq<(DayKey, int)> {
    match PlacedPatient(inst, p)
    case Some(q) => [((p.admissionDay, q.surgeonId), q.surgeryDuration)]
    case None => []
  }

  function SurgeonEntries(inst: Instance, ps: seq<Placement>): seq<(DayKey, int)>
    decreases |ps|
  {
    if ps == [] then [] else SurgeonEntries(inst, ps[..|ps| - 1]) + SurgeonEntry(inst, ps[|ps| - 1])
  }

  /** `surgeon_load`: the surgery minutes of each surgeon on each day. */
  function SurgeonLoads(inst: Instance, sol: Solution): map<DayKey, int> {
    GroupSums(SurgeonEntries(inst, sol.patients))
  }

  /** `max_surgery_time[day]` raises when the day is out of the vector's range. */
  predicate SurgeonDaysInRange(inst: Instance, sol: Solution) {
    forall i :: 0 <= i < |sol.patients| && PlacedPatient(inst, sol.patients[i]).Some?
                && PlacedPatient(inst, sol.patients[i]).value.surgeonId in SurgeonCaps(inst)
                ==> InPyRange(SurgeonCaps(inst)[PlacedPatient(inst, sol.patients[i]).value.surgeonId], sol.patients[i].admissionDay)
  }

  lemma SurgeonEntriesStep(inst: Instance, ps: seq<Placement>, i: int)
    requires 0 <= i < |ps|
    ensures SurgeonEntries(inst, ps[..i + 1]) == SurgeonEntries(inst, ps[..i]) + SurgeonEntry(inst, ps[i])
  {
    assert ps[..i + 1][..i] == ps[..i];
  }

  lemma {:induction false} SurgeonEntriesMember(inst: Instance, ps: seq<Placement>, e: (DayKey, int))
    ensures e in SurgeonEntries(inst, ps) <==>
              exists i :: 0 <= i < |ps| && SurgeonEntry(inst, ps[i]) == [e]
    decreases |ps|
  {
    if ps != [] {
      var init := ps[..|ps| - 1];
      SurgeonEntriesMember(inst, init, e);
      assert forall i :: 0 <= i < |init| ==> init[i] == ps[i];
      if exists i :: 0 <= i < |ps| && SurgeonEntry(inst, ps[i]) == [e] {
        var i :| 0 <= i < |ps| && SurgeonEntry(inst, ps[i]) == [e];
        if i < |init| { assert SurgeonEntry(inst, init[i]) == [e]; }
      }
    }
  }

  lemma SurgeonLoadsIndexable(inst: Instance, sol: Solution)
    requires SurgeonDaysInRange(inst, sol)
    ensures Indexable(SurgeonLoads(inst, sol), SurgeonCaps(inst))
  {
    var es := SurgeonEntries(inst, sol.patients);
    forall k | k in SurgeonLoads(inst, sol) && k.1 in SurgeonCaps(inst)
      ensures InPyRange(SurgeonCaps(inst)[k.1], k.0)
    {
      GroupSumsAt(es, k);
      var j :| 0 <= j < |es| && es[j].0 == k;
      SurgeonEntriesMember(inst, sol.patients, es[j]);
      var i :| 0 <= i < |sol.patients| && SurgeonEntry(inst, sol.patients[i]) == [es[j]];
    }
  }

  function H3(inst: Instance, sol: Solution): int
    requires SurgeonDaysInRange(inst, sol)
  {
    SurgeonLoadsIndexable(inst, sol);
    Penalty * |OverKeys(SurgeonLoads(inst, sol), SurgeonCaps(inst))|
  }

  /** The first loop of `h3_surgeon_overtime`: the minutes of surgery of each (day, surgeon). */
  method SurgeonMinutes(inst: Instance, sol: Solution) returns (loads: map<DayKey, int>)
    requires PlacedArePatients(inst, sol)
    ensures loads == SurgeonLoads(inst, sol)
  {
    loads := map[];
    for i := 0 to |sol.patients|
      invariant loads == GroupSums(SurgeonEntries(inst, sol.patients[..i]))
    {
      SurgeonEntriesStep(inst, sol.patients, i);
      PlacedPatientAt(inst, sol, i);
      var pSol := sol.patients[i];
      var patient := PatientById(inst, pSol.id);
      if patient.Some? {
        var q := patient.value.patient;
        var key := (pSol.admissionDay, q.surgeonId);
        assert SurgeonEntry(inst, pSol) == [(key, q.surgeryDuration)];
        loads := AddTo(loads, key, q.surgeryDuration, SurgeonEntries(inst, sol.patients[..i]));
      } else {
        assert SurgeonEntries(inst, sol.patients[..i + 1]) == SurgeonEntries(inst, sol.patients[..i]);
      }
    }
    assert sol.patients[..|sol.patients|] == sol.patients;
  }

  /** `h3_surgeon_overtime` */
  method H3SurgeonOvertime(inst: Instance, sol: Solution) returns (r: int)
    requires PlacedArePatients(inst, sol) && SurgeonDaysInRange(inst, sol)
    ensures r == H3(inst, sol)
    ensures Quantised(r)
  {
    var loads := SurgeonMinutes(inst, sol);
    SurgeonLoadsIndexable(inst, sol);
    var n := CountOver(loads, SurgeonCaps(inst));
    r := Penalty * n;
    PenaltyMultiple(n);
  }

  /** H3 is the penalty times the number of (day, surgeon) pairs of a known
      surgeon whose summed surgery minutes exceed that day's maximum. */
  lemma H3Meaning(inst: Instance, sol: Solution)
    requires SurgeonDaysInRange(inst, sol)
    ensures var es := SurgeonEntries(inst, sol.patients);
            var caps := SurgeonCaps(inst);
            H3(inst, sol) == Penalty * |set i | 0 <= i < |es| && es[i].0.1 in caps && InPyRange(caps[es[i].0.1], es[i].0.0)
                                                && SumFor(es, es[i].0) > PyIndex(caps[es[i].0.1], es[i].0.0) :: es[i].0|
  {
    SurgeonLoadsIndexable(inst, sol);
    OverKeysMeaning(SurgeonEntries(inst, sol.patients), SurgeonCaps(inst));
  }

  // ---------------------------------------------------------------------------
  // H4: operating theater overtime
  // ---------------------------------------------------------------------------

  /** The surgery minutes a placement adds to its theater's day. */
  function TheaterEntry(inst: Instance, p: Placement): seq<(DayKey, int)> {
    match PlacedPatient(inst, p)
    case Some(q) => [((p.admissionDay, p.theater), q.surgeryDuration)]
    case None => []
  }

  function TheaterEntries(inst: Instance, ps: seq<Placement>): seq<(DayKey, int)>
    decreases |ps|
  {
    if ps == [] then [] else TheaterEntries(inst, ps[..|ps| - 1]) + TheaterEntry(inst, ps[|ps| - 1])
  }

  /** `ot_load`: the surgery minutes of each theater on each day. */
  function TheaterLoads(inst: Instance, sol: Solution): map<DayKey, int> {
    GroupSums(TheaterEntries(inst, sol.patients))
  }

  /** `availability[day]` raises when the day is out of the vector's range. */
  predicate TheaterDaysInRange(inst: Instance, sol: Solution) {
    forall i :: 0 <= i < |sol.patients| && PlacedPatient(inst, sol.patients[i]).Some?
                && sol.patients[i].theater in TheaterCaps(inst)
                ==> InPyRange(TheaterCaps(inst)[sol.patients[i].theater], sol.patients[i].admissionDay)
  }

  lemma TheaterEntriesStep(inst: Instance, ps: seq<Placement>, i: int)
    requires 0 <= i < |ps|
    ensures TheaterEntries(inst, ps[..i + 1]) == TheaterEntries(inst, ps[..i]) + TheaterEntry(inst, ps[i])
  {
    assert ps[..i + 1][..i] == ps[..i];
  }

  lemma {:induction false} TheaterEntriesMember(inst: Instance, ps: seq<Placement>, e: (DayKey, int))
    ensures e in TheaterEntries(inst, ps) <==>
              exists i :: 0 <= i < |ps| && TheaterEntry(inst, ps[i]) == [e]
    decreases |ps|
  {
    if ps != [] {
      var init := ps[..|ps| - 1];
      TheaterEntriesMember(inst, init, e);
      assert forall i :: 0 <= i < |init| ==> init[i] == ps[i];
      if exists i :: 0 <= i < |ps| && TheaterEntry(inst, ps[i]) == [e] {
        var i :| 0 <= i < |ps| && TheaterEntry(inst, ps[i]) == [e];
        if i < |init| { assert TheaterEntry(inst, init[i]) == [e]; }
      }
    }
  }

  lemma TheaterLoadsIndexable(inst: Instance, sol: Solution)
    requires TheaterDaysInRange(inst, sol)
    ensures Indexable(TheaterLoads(inst, sol), TheaterCaps(inst))
  {
    var es := TheaterEntries(inst, sol.patients);
    forall k | k in TheaterLoads(inst, sol) && k.1 in TheaterCaps(inst)
      ensures InPyRange(TheaterCaps(inst)[k.1], k.0)
    {
      GroupSumsAt(es, k);
      var j :| 0 <= j < |es| && es[j].0 == k;
      TheaterEntriesMember(inst, sol.patients, es[j]);
      var i :| 0 <= i < |sol.patients| && TheaterEntry(inst, sol.patients[i]) == [es[j]];
    }
  }

  function H4(inst: Instance, sol: Solution): int
    requires TheaterDaysInRange(inst, sol)
  {
    TheaterLoadsIndexable(inst, sol);
    Penalty * |OverKeys(TheaterLoads(inst, sol), TheaterCaps(inst))|
  }

  /** The first loop of `h4_ot_overtime`: the minutes of surgery of each (day, theater). */
  method TheaterMinutes(inst: Instance, sol: Solution) returns (loads: map<DayKey, int>)
    requires PlacedArePatients(inst, sol)
    ensures loads == TheaterLoads(inst, sol)
  {
    loads := map[];
    for i := 0 to |sol.patients|
      invariant loads == GroupSums(TheaterEntries(inst, sol.patients[..i]))
    {
      TheaterEntriesStep(inst, sol.patients, i);
      PlacedPatientAt(inst, sol, i);
      var pSol := sol.patients[i];
      var patient := PatientById(inst, pSol.id);
      if patient.Some? {
        var q := patient.value.patient;
        var key := (pSol.admissionDay, pSol.theater);
        assert TheaterEntry(inst, pSol) == [(key, q.surgeryDuration)];
        loads := AddTo(loads, key, q.surgeryDuration, TheaterEntries(inst, sol.patients[..i]));
      } else {
        assert TheaterEntries(inst, sol.patients[..i + 1]) == TheaterEntries(inst, sol.patients[..i]);
      }
    }
    assert sol.patients[..|sol.patients|] == sol.patients;
  }

  /** `h4_ot_overtime` */
  method H4TheaterOvertime(inst: Instance, sol: Solution) returns (r: int)
    requires PlacedArePatients(inst, sol) && TheaterDaysInRange(inst, sol)
    ensures r == H4(inst, sol)
    ensures Quantised(r)
  {
    var loads := TheaterMinutes(inst, sol);
    TheaterLoadsIndexable(inst, sol);
    var n := CountOver(loads, TheaterCaps(inst));
    r := Penalty * n;
    PenaltyMultiple(n);
  }

  /** H4 is the penalty times the number of (day, theater) pairs of a known
      theater whose summed surgery minutes exceed that day's availability. */
  lemma H4Meaning(inst: Instance, sol: Solution)
    requires TheaterDaysInRange(inst, sol)
    ensures var es := TheaterEntries(inst, sol.patients);
            var caps := TheaterCaps(inst);
            H4(inst, sol) == Penalty * |set i | 0 <= i < |es| && es[i].0.1 in caps && InPyRange(caps[es[i].0.1], es[i].0.0)
                                                && SumFor(es, es[i].0) > PyIndex(caps[es[i].0.1], es[i].0.0) :: es[i].0|
  {
    TheaterLoadsIndexable(inst, sol);
    OverKeysMeaning(TheaterEntries(inst, sol.patients), TheaterCaps(inst));
  }

  // ---------------------------------------------------------------------------
  // S5: open theaters
  // ---------------------------------------------------------------------------

  /** `open_ots`: the (day, theater) pairs used by some placement. */
  function OpenTheaters(ps: seq<Placement>): set<DayKey> {
    set i | 0 <= i < |ps| :: (ps[i].admissionDay, ps[i].theater)
  }

  lemma {:induction false} OpenTheatersBound(ps: seq<Placement>)
    ensures |OpenTheaters(ps)| <= |ps|
    ensures |ps| > 0 ==> |OpenTheaters(ps)| >= 1
    decreases |ps|
  {
    if ps != [] {
      var init := ps[..|ps| - 1];
      var last := ps[|ps| - 1];
      OpenTheatersBound(init);
      assert forall i :: 0 <= i < |init| ==> init[i] == ps[i];
      assert OpenTheaters(ps) == OpenTheaters(init) + {(last.admissionDay, last.theater)};
    }
  }

  /** `s5_open_ots`: the number of distinct (day, theater) pairs, weighted;
      at least one pair and at most one per placement. */
  function S5(sol: Solution, w: nat): (r: int)
    ensures 0 <= r <= |sol.patients| * w
    ensures |sol.patients| > 0 ==> r >= w
  {
    OpenTheatersBound(sol.patients);
    Scaled(|OpenTheaters(sol.patients)|, |sol.patients|, w);
    |OpenTheaters(sol.patients)| * w
  }

  lemma Scaled(a: nat, b: nat, w: nat)
    requires a <= b
    ensures a * w <= b * w
    ensures a >= 1 ==> a * w >= w
  {
  }

  // ---------------------------------------------------------------------------
  // S6: surgeon transfer
  // ---------------------------------------------------------------------------

  /** The theater a placement's surgeon uses on its day. */
  function TransferEntry(inst: Instance, p: Placement): seq<(DayKey, Id)> {
    match PlacedPatient(inst, p)
    case Some(q) => [((p.admissionDay, q.surgeonId), p.theater)]
    case None => []
  }

  function TransferEntries(inst: Instance, ps: seq<Placement>): seq<(DayKey, Id)>
    decreases |ps|
  {
    if ps == [] then [] else TransferEntries(inst, ps[..|ps| - 1]) + TransferEntry(inst, ps[|ps| - 1])
  }

  /** `surgeon_ots`: the theaters each surgeon uses on each day. */
  function SurgeonTheaters(inst: Instance, sol: Solution): map<DayKey, set<Id>> {
    GroupSets(TransferEntries(inst, sol.patients))
  }

  /** What one (day, surgeon) adds: the theaters beyond the first. */
  function Transfers(g: map<DayKey, set<Id>>): DayKey -> int {
    k => if k in g && |g[k]| > 1 then |g[k]| - 1 else 0
  }

  ghost function S6(inst: Instance, sol: Solution, w: nat): int {
    var g := SurgeonTheaters(inst, sol);
    SumOver(g.Keys, Transfers(g)) * w
  }

  /** `s6_surgeon_transfer` */
  method S6SurgeonTransfer(inst: Instance, sol: Solution, w: nat) returns (r: int)
    requires PlacedArePatients(inst, sol)
    ensures r == S6(inst, sol, w)
  {
    var g: map<DayKey, set<Id>> := map[];
    for i := 0 to |sol.patients|
      invariant g == GroupSets(TransferEntries(inst, sol.patients[..i]))
    {
      TransferEntriesStep(inst, sol.patients, i);
      PlacedPatientAt(inst, sol, i);
      var pSol := sol.patients[i];
      var patient := PatientById(inst, pSol.id);
      if patient.Some? {
        var key := (pSol.admissionDay, patient.value.patient.surgeonId);
        assert TransferEntry(inst, pSol) == [(key, pSol.theater)];
        GroupSetsSnoc(TransferEntries(inst, sol.patients[..i]), (key, pSol.theater));
        if key !in g {
          g := g[key := {}];
        }
        g := g[key := g[key] + {pSol.theater}];
      } else {
        assert TransferEntries(inst, sol.patients[..i + 1]) == TransferEntries(inst, sol.patients[..i]);
      }
    }
    assert sol.patients[..|sol.patients|] == sol.patients;
    var cost := SumAll(g.Keys, Transfers(g));
    r := cost * w;
  }

  lemma TransferEntriesStep(inst: Instance, ps: seq<Placement>, i: int)
    requires 0 <= i < |ps|
    ensures TransferEntries(inst, ps[..i + 1]) == TransferEntries(inst, ps[..i]) + TransferEntry(inst, ps[i])
  {
    assert ps[..i + 1][..i] == ps[..i];
  }

  lemma {:induction false} TransferEntriesMember(inst: Instance, ps: seq<Placement>, e: (DayKey, Id))
    ensures e in TransferEntries(inst, ps) <==>
              exists i :: 0 <= i < |ps| && TransferEntry(inst, ps[i]) == [e]
    decreases |ps|
  {
    if ps != [] {
      var init := ps[..|ps| - 1];
      TransferEntriesMember(inst, init, e);
      assert forall i :: 0 <= i < |init| ==> init[i] == ps[i];
      if exists i :: 0 <= i < |ps| && TransferEntry(inst, ps[i]) == [e] {
        var i :| 0 <= i < |ps| && TransferEntry(inst, ps[i]) == [e];
        if i < |init| { assert TransferEntry(inst, init[i]) == [e]; }
      }
    }
  }

  /** Two placed patients of the same surgeon on the same day. */
  predicate SameSurgeonDay(inst: Instance, p: Placement, q: Placement) {
    PlacedPatient(inst, p).Some? && PlacedPatient(inst, q).Some?
    && p.admissionDay == q.admissionDay
    && PlacedPatient(inst, p).value.surgeonId == PlacedPatient(inst, q).value.surgeonId
  }

  /** Placement `i` is of a patient whose surgeon and day form `k`. */
  ghost predicate Operates(inst: Instance, ps: seq<Placement>, i: int, k: DayKey) {
    0 <= i < |ps| && PlacedPatient(inst, ps[i]).Some?
    && (ps[i].admissionDay, PlacedPatient(inst, ps[i]).value.surgeonId) == k
  }

  /** A (day, surgeon) is grouped when some placement operates there, and its
      set holds exactly the theaters of those placements. */
  lemma TheatersOf(inst: Instance, sol: Solution, k: DayKey, t: Id)
    ensures k in SurgeonTheaters(inst, sol) <==> exists i :: Operates(inst, sol.patients, i, k)
    ensures k in SurgeonTheaters(inst, sol) ==>
              (t in SurgeonTheaters(inst, sol)[k] <==> exists i :: Operates(inst, sol.patients, i, k) && sol.patients[i].theater == t)
  {
    GroupedKey(inst, sol, k, t);
    if k in SurgeonTheaters(inst, sol) {
      GroupedTheater(inst, sol, k, t);
    }
  }

  /** The key half of `TheatersOf`. */
  lemma GroupedKey(inst: Instance, sol: Solution, k: DayKey, t: Id)
    ensures k in SurgeonTheaters(inst, sol) <==> exists i :: Operates(inst, sol.patients, i, k)
  {
    var ps := sol.patients;
    var es := TransferEntries(inst, ps);
    GroupSetsAt(es, k, t);
    if exists i :: Operates(inst, ps, i, k) {
      var i :| Operates(inst, ps, i, k);
      TransferEntriesMember(inst, ps, TransferEntry(inst, ps[i])[0]);
    }
    if exists j :: 0 <= j < |es| && es[j].0 == k {
      var j :| 0 <= j < |es| && es[j].0 == k;
      TransferEntriesMember(inst, ps, es[j]);
      var i :| 0 <= i < |ps| && TransferEntry(inst, ps[i]) == [es[j]];
      assert Operates(inst, ps, i, k);
    }
  }

  /** The value half of `TheatersOf`. */
  lemma GroupedTheater(inst: Instance, sol: Solution, k: DayKey, t: Id)
    requires k in SurgeonTheaters(inst, sol)
    ensures t in SurgeonTheaters(inst, sol)[k] <==> exists i :: Operates(inst, sol.patients, i, k) && sol.patients[i].theater == t
  {
    var ps := sol.patients;
    var es := TransferEntries(inst, ps);
    GroupSetsAt(es, k, t);
    if exists i :: Operates(inst, ps, i, k) && ps[i].theater == t {
      var i :| Operates(inst, ps, i, k) && ps[i].theater == t;
      TransferEntriesMember(inst, ps, (k, t));
    }
    if t in SurgeonTheaters(inst, sol)[k] {
      var j :| 0 <= j < |es| && es[j] == (k, t);
      TransferEntriesMember(inst, ps, es[j]);
      var i :| 0 <= i < |ps| && TransferEntry(inst, ps[i]) == [es[j]];
      assert Operates(inst, ps, i, k);
    }
  }

  /** A (day, surgeon) adds nothing exactly when all its placements share a theater. */
  lemma TransfersKey(inst: Instance, sol: Solution, k: DayKey)
    requires k in SurgeonTheaters(inst, sol)
    ensures Transfers(SurgeonTheaters(inst, sol))(k) >= 0
    ensures Transfers(SurgeonTheaters(inst, sol))(k) == 0 <==>
              forall i, j :: Operates(inst, sol.patients, i, k) && Operates(inst, sol.patients, j, k)
                             ==> sol.patients[i].theater == sol.patients[j].theater
  {
    var ps := sol.patients;
    var g := SurgeonTheaters(inst, sol);
    TwoDistinct(g[k]);
    if |g[k]| > 1 {
      var x, y :| x in g[k] && y in g[k] && x != y;
      TheatersOf(inst, sol, k, x);
      TheatersOf(inst, sol, k, y);
      var i :| Operates(inst, ps, i, k) && ps[i].theater == x;
      var j :| Operates(inst, ps, j, k) && ps[j].theater == y;
    } else {
      forall i, j | Operates(inst, ps, i, k) && Operates(inst, ps, j, k)
        ensures ps[i].theater == ps[j].theater
      {
        TheatersOf(inst, sol, k, ps[i].theater);
        TheatersOf(inst, sol, k, ps[j].theater);
      }
    }
  }

  /** Every surgeon works in a single theater on each day. */
  ghost predicate SingleTheaters(inst: Instance, sol: Solution) {
    forall i, j :: 0 <= i < |sol.patients| && 0 <= j < |sol.patients| && SameSurgeonDay(inst, sol.patients[i], sol.patients[j])
                   ==> sol.patients[i].theater == sol.patients[j].theater
  }

  /** No (day, surgeon) with a transfer means a single theater for each. */
  lemma NoTransfersSingle(inst: Instance, sol: Solution)
    requires var g := SurgeonTheaters(inst, sol); forall k :: k in g.Keys ==> Transfers(g)(k) == 0
    ensures SingleTheaters(inst, sol)
  {
    var ps := sol.patients;
    forall i, j | 0 <= i < |ps| && 0 <= j < |ps| && SameSurgeonDay(inst, ps[i], ps[j])
      ensures ps[i].theater == ps[j].theater
    {
      var k := (ps[i].admissionDay, PlacedPatient(inst, ps[i]).value.surgeonId);
      assert Operates(inst, ps, i, k) && Operates(inst, ps, j, k);
      TheatersOf(inst, sol, k, ps[i].theater);
      TransfersKey(inst, sol, k);
    }
  }

  /** A single theater for each (day, surgeon) means no transfer anywhere. */
  lemma SingleNoTransfers(inst: Instance, sol: Solution)
    requires SingleTheaters(inst, sol)
    ensures var g := SurgeonTheaters(inst, sol); forall k :: k in g.Keys ==> Transfers(g)(k) == 0
  {
    var ps := sol.patients;
    var g := SurgeonTheaters(inst, sol);
    forall k | k in g.Keys ensures Transfers(g)(k) == 0 {
      TransfersKey(inst, sol, k);
      forall i, j | Operates(inst, ps, i, k) && Operates(inst, ps, j, k)
        ensures ps[i].theater == ps[j].theater
      {
        assert SameSurgeonDay(inst, ps[i], ps[j]);
      }
    }
  }

  /** S6 is never negative and, for a positive weight, zero exactly when every
      surgeon works in a single theater on each day. */
  lemma S6Meaning(inst: Instance, sol: Solution, w: nat)
    ensures S6(inst, sol, w) >= 0
    ensures w > 0 ==> (S6(inst, sol, w) == 0 <==>
              forall i, j :: 0 <= i < |sol.patients| && 0 <= j < |sol.patients| && SameSurgeonDay(inst, sol.patients[i], sol.patients[j])
                             ==> sol.patients[i].theater == sol.patients[j].theater)
  {
    var g := SurgeonTheaters(inst, sol);
    var f := Transfers(g);
    forall k | k in g.Keys ensures f(k) >= 0 { TransfersKey(inst, sol, k); }
    SumOverNonNegative(g.Keys, f);
    SumOverZero(g.Keys, f);
    Weighted(SumOver(g.Keys, f), w);
    if forall k :: k in g.Keys ==> f(k) == 0 {
      NoTransfersSingle(inst, sol);
    }
    if SingleTheaters(inst, sol) {
      SingleNoTransfers(inst, sol);
    }
  }
}
