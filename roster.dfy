/**
 * The nurse phase of the greedy start in solvers/RVNS_solver.py
 * (`_generate_initial_solution`, second half): the highest skill each
 * (day, shift, room) needs, and the hand-out of those slots to nurses.
 */
module Roster {
  import opened Wrappers
  import opened Collections
  import opened Hospital
  import opened Oracle

  // ---------------------------------------------------------------------------
  // What each (day, shift, room) requires
  // ---------------------------------------------------------------------------

  /** The requirement a stay contributes for shift `si`, when the index
      `(day - admission) * |shifts| + si` falls inside its skill vector. */
  function ShiftDemand(inst: Instance, t: Stay, si: nat): seq<(Slot, int)>
    requires si < |inst.shiftTypes|
  {
    var idx := (t.day - t.admission) * |inst.shiftTypes| + si;
    if 0 <= idx < |t.person.SkillRequired()|
    then [((t.day, inst.shiftTypes[si], t.room), t.person.SkillRequired()[idx])]
    else []
  }

  /** The requirements of a stay for its first `n` shifts. */
  function StayDemand(inst: Instance, t: Stay, n: nat): seq<(Slot, int)>
    requires n <= |inst.shiftTypes|
    decreases n
  {
    if n == 0 then [] else StayDemand(inst, t, n - 1) + ShiftDemand(inst, t, n - 1)
  }

  /** Every requirement of a list of stays, in the order the loops meet them. */
  function Demands(inst: Instance, ts: seq<Stay>): seq<(Slot, int)>
    decreases |ts|
  {
    if ts == [] then []
    else Demands(inst, ts[..|ts| - 1]) + StayDemand(inst, ts[|ts| - 1], |inst.shiftTypes|)
  }

  /** A stay needs `skill` on `slot` for one of its shifts. */
  ghost predicate Needs(inst: Instance, t: Stay, slot: Slot, skill: int) {
    exists si :: 0 <= si < |inst.shiftTypes|
                 && var idx := (t.day - t.admission) * |inst.shiftTypes| + si;
                    0 <= idx < |t.person.SkillRequired()|
                    && slot == (t.day, inst.shiftTypes[si], t.room)
                    && skill == t.person.SkillRequired()[idx]
  }

  lemma {:induction false} StayDemandMember(inst: Instance, t: Stay, n: nat, e: (Slot, int))
    requires n <= |inst.shiftTypes|
    ensures e in StayDemand(inst, t, n) <==>
              exists si :: 0 <= si < n && e in ShiftDemand(inst, t, si)
    decreases n
  {
    if n > 0 { StayDemandMember(inst, t, n - 1, e); }
  }

  /** A stay's requirements are exactly what it needs. */
  lemma StayNeeds(inst: Instance, t: Stay, e: (Slot, int))
    ensures e in StayDemand(inst, t, |inst.shiftTypes|) <==> Needs(inst, t, e.0, e.1)
  {
    StayDemandMember(inst, t, |inst.shiftTypes|, e);
    if e in StayDemand(inst, t, |inst.shiftTypes|) {
      var si :| 0 <= si < |inst.shiftTypes| && e in ShiftDemand(inst, t, si);
      assert Needs(inst, t, e.0, e.1);
    }
    if Needs(inst, t, e.0, e.1) {
      var si :| 0 <= si < |inst.shiftTypes|
                && var idx := (t.day - t.admission) * |inst.shiftTypes| + si;
                   0 <= idx < |t.person.SkillRequired()|
                   && e.0 == (t.day, inst.shiftTypes[si], t.room)
                   && e.1 == t.person.SkillRequired()[idx];
      assert e in ShiftDemand(inst, t, si);
    }
  }

  /** Every listed requirement is needed by some stay. */
  lemma {:induction false} ListedNeeded(inst: Instance, ts: seq<Stay>, e: (Slot, int))
    requires e in Demands(inst, ts)
    ensures exists t :: t in ts && Needs(inst, t, e.0, e.1)
    decreases |ts|
  {
    var init, last := ts[..|ts| - 1], ts[|ts| - 1];
    if e in Demands(inst, init) {
      ListedNeeded(inst, init, e);
      var t :| t in init && Needs(inst, t, e.0, e.1);
      assert t in ts;
    } else {
      StayNeeds(inst, last, e);
      assert last in ts;
    }
  }

  /** Every need of a stay is listed. */
  lemma {:induction false} NeededListed(inst: Instance, ts: seq<Stay>, t: Stay, e: (Slot, int))
    requires t in ts && Needs(inst, t, e.0, e.1)
    ensures e in Demands(inst, ts)
    decreases |ts|
  {
    var init, last := ts[..|ts| - 1], ts[|ts| - 1];
    assert ts == init + [last];
    if t == last {
      StayNeeds(inst, last, e);
    } else {
      assert t in init;
      NeededListed(inst, init, t, e);
    }
  }

  /** A requirement is listed exactly when some stay needs it. */
  lemma DemandsMember(inst: Instance, ts: seq<Stay>, e: (Slot, int))
    ensures e in Demands(inst, ts) <==> exists t :: t in ts && Needs(inst, t, e.0, e.1)
  {
    if e in Demands(inst, ts) {
      ListedNeeded(inst, ts, e);
    }
    if exists t :: t in ts && Needs(inst, t, e.0, e.1) {
      var t :| t in ts && Needs(inst, t, e.0, e.1);
      NeededListed(inst, ts, t, e);
    }
  }

  function Max(a: int, b: int): int { if a >= b then a else b }

  /** `g = {}; for (k, v) in es: g[k] = max(g.get(k, -1), v)` */
  function GroupMax<K>(es: seq<(K, int)>): map<K, int>
    decreases |es|
  {
    if es == [] then map[]
    else
      var g := GroupMax(es[..|es| - 1]);
      var e := es[|es| - 1];
      g[e.0 := Max(if e.0 in g then g[e.0] else -1, e.1)]
  }

  lemma {:induction false} GroupMaxSnoc<K>(es: seq<(K, int)>, e: (K, int))
    ensures GroupMax(es + [e]) == GroupMax(es)[e.0 := Max(if e.0 in GroupMax(es) then GroupMax(es)[e.0] else -1, e.1)]
  {
    var xs := es + [e];
    assert xs[..|xs| - 1] == es && xs[|xs| - 1] == e;
  }

  /** A key's value is -1 or larger, bounds every value paired with the key,
      and is -1 or one of those values; the keys are the ones that occur. */
  lemma {:induction false} GroupMaxAt<K>(es: seq<(K, int)>, k: K)
    ensures k in GroupMax(es) <==> exists i :: 0 <= i < |es| && es[i].0 == k
    ensures k in GroupMax(es) ==>
              GroupMax(es)[k] >= -1
              && (forall i :: 0 <= i < |es| && es[i].0 == k ==> es[i].1 <= GroupMax(es)[k])
              && (GroupMax(es)[k] == -1 || exists i :: 0 <= i < |es| && es[i].0 == k && es[i].1 == GroupMax(es)[k])
    decreases |es|
  {
    if es != [] {
      var init := es[..|es| - 1];
      GroupMaxAt(init, k);
      assert forall i :: 0 <= i < |init| ==> init[i] == es[i];
      if exists i :: 0 <= i < |es| && es[i].0 == k {
        var i :| 0 <= i < |es| && es[i].0 == k;
        if i < |init| { assert init[i].0 == k; }
      }
      if k in GroupMax(es) && k in GroupMax(init) && GroupMax(init)[k] != -1 && k != es[|es| - 1].0 {
        var i :| 0 <= i < |init| && init[i].0 == k && init[i].1 == GroupMax(init)[k];
        assert es[i].0 == k && es[i].1 == GroupMax(es)[k];
      }
    }
  }

  function SlotOf(e: (Slot, int)): Slot { e.0 }

  lemma FirstKeysSnoc<T, K>(xs: seq<T>, key: T -> K, x: T)
    ensures FirstKeys(xs + [x], key) ==
              if key(x) in FirstKeys(xs, key) then FirstKeys(xs, key) else FirstKeys(xs, key) + [key(x)]
  {
    assert (xs + [x])[..|xs|] == xs;
  }

  /** The map's keys, in first-insertion order, are the keys of the map. */
  lemma OrderKeys(es: seq<(Slot, int)>, k: Slot)
    ensures k in FirstKeys(es, SlotOf) <==> k in GroupMax(es)
  {
    FirstKeysHas(es, SlotOf, k);
    GroupMaxAt(es, k);
  }

  /** The map of the highest skill each slot requires and its insertion order
      (`room_shift_requirements` and its `.items()` order). */
  method RoomShiftRequirements(inst: Instance, stays: seq<Stay>) returns (reqs: map<Slot, int>, order: seq<Slot>)
    ensures reqs == GroupMax(Demands(inst, stays))
    ensures order == FirstKeys(Demands(inst, stays), SlotOf)
  {
    reqs := map[];
    order := [];
    for i := 0 to |stays|
      invariant reqs == GroupMax(Demands(inst, stays[..i]))
      invariant order == FirstKeys(Demands(inst, stays[..i]), SlotOf)
    {
      assert stays[..i + 1][..i] == stays[..i];
      reqs, order := AddStay(inst, stays[i], reqs, order, Demands(inst, stays[..i]));
    }
    assert stays[..|stays|] == stays;
  }

  /** The inner loops of `room_shift_requirements` for one stay. */
  method AddStay(inst: Instance, t: Stay, reqs0: map<Slot, int>, order0: seq<Slot>, ghost base: seq<(Slot, int)>)
    returns (reqs: map<Slot, int>, order: seq<Slot>)
    requires reqs0 == GroupMax(base) && order0 == FirstKeys(base, SlotOf)
    ensures reqs == GroupMax(base + StayDemand(inst, t, |inst.shiftTypes|))
    ensures order == FirstKeys(base + StayDemand(inst, t, |inst.shiftTypes|), SlotOf)
  {
    reqs, order := reqs0, order0;
    ghost var cur := base;
    assert base + StayDemand(inst, t, 0) == base;
    for si := 0 to |inst.shiftTypes|
      invariant cur == base + StayDemand(inst, t, si)
      invariant reqs == GroupMax(cur) && order == FirstKeys(cur, SlotOf)
    {
      ghost var next := cur + ShiftDemand(inst, t, si);
      assert base + StayDemand(inst, t, si + 1) == next;
      var dayOffset := t.day - t.admission;
      var reqIdx := dayOffset * |inst.shiftTypes| + si;
      if 0 <= reqIdx < |t.person.SkillRequired()| {
        var key := (t.day, inst.shiftTypes[si], t.room);
        var skill := t.person.SkillRequired()[reqIdx];
        assert next == cur + [(key, skill)];
        reqs, order := Require(reqs, order, key, skill, cur);
      } else {
        assert next == cur;
      }
      cur := next;
    }
  }

  /** `room_shift_requirements[key] = max(room_shift_requirements.get(key, -1), skill)` */
  method Require(reqs0: map<Slot, int>, order0: seq<Slot>, key: Slot, skill: int, ghost es: seq<(Slot, int)>)
    returns (reqs: map<Slot, int>, order: seq<Slot>)
    requires reqs0 == GroupMax(es) && order0 == FirstKeys(es, SlotOf)
    ensures reqs == GroupMax(es + [(key, skill)]) && order == FirstKeys(es + [(key, skill)], SlotOf)
  {
    OrderKeys(es, key);
    var current := if key in reqs0 then reqs0[key] else -1;
    order := order0;
    if key !in reqs0 {
      order := order + [key];
    }
    reqs := reqs0[key := Max(current, skill)];
    GroupMaxSnoc(es, (key, skill));
    FirstKeysSnoc(es, SlotOf, (key, skill));
  }

  /** A slot has a requirement exactly when some stay needs it. */
  lemma DemandKeys(inst: Instance, stays: seq<Stay>, slot: Slot)
    ensures slot in GroupMax(Demands(inst, stays)) <==> exists t, v :: t in stays && Needs(inst, t, slot, v)
  {
    var es := Demands(inst, stays);
    GroupMaxAt(es, slot);
    if exists t, v :: t in stays && Needs(inst, t, slot, v) {
      var t, v :| t in stays && Needs(inst, t, slot, v);
      DemandsMember(inst, stays, (slot, v));
      var i :| 0 <= i < |es| && es[i] == (slot, v);
      assert es[i].0 == slot;
    }
    if slot in GroupMax(es) {
      var i :| 0 <= i < |es| && es[i].0 == slot;
      DemandsMember(inst, stays, es[i]);
    }
  }

  /** The requirement of a slot is at least every skill a stay needs there. */
  lemma DemandBound(inst: Instance, stays: seq<Stay>, slot: Slot, t: Stay, v: int)
    requires slot in GroupMax(Demands(inst, stays)) && t in stays && Needs(inst, t, slot, v)
    ensures v <= GroupMax(Demands(inst, stays))[slot]
  {
    var es := Demands(inst, stays);
    GroupMaxAt(es, slot);
    DemandsMember(inst, stays, (slot, v));
    var i :| 0 <= i < |es| && es[i] == (slot, v);
    assert es[i].0 == slot;
  }

  /** The requirement of a slot is -1 or a skill some stay needs there. */
  lemma DemandAttained(inst: Instance, stays: seq<Stay>, slot: Slot)
    requires slot in GroupMax(Demands(inst, stays))
    ensures var m := GroupMax(Demands(inst, stays))[slot];
            m >= -1 && (m == -1 || exists t :: t in stays && Needs(inst, t, slot, m))
  {
    var es := Demands(inst, stays);
    GroupMaxAt(es, slot);
    var m := GroupMax(es)[slot];
    if m != -1 {
      var j :| 0 <= j < |es| && es[j].0 == slot && es[j].1 == m;
      DemandsMember(inst, stays, es[j]);
    }
  }

  /** What the requirement map means: a slot is present exactly when some
      stay needs it, and its value is the largest skill needed there, or -1
      when every need is below -1. */
  lemma DemandSpec(inst: Instance, stays: seq<Stay>, slot: Slot)
    ensures slot in GroupMax(Demands(inst, stays)) <==> exists t, v :: t in stays && Needs(inst, t, slot, v)
    ensures slot in GroupMax(Demands(inst, stays)) ==>
              var m := GroupMax(Demands(inst, stays))[slot];
              m >= -1
              && (forall t, v :: t in stays && Needs(inst, t, slot, v) ==> v <= m)
              && (m == -1 || exists t :: t in stays && Needs(inst, t, slot, m))
  {
    DemandKeys(inst, stays, slot);
    if slot in GroupMax(Demands(inst, stays)) {
      DemandAttained(inst, stays, slot);
      forall t, v | t in stays && Needs(inst, t, slot, v)
        ensures v <= GroupMax(Demands(inst, stays))[slot]
      {
        DemandBound(inst, stays, slot, t, v);
      }
    }
  }

  // ---------------------------------------------------------------------------
  // Who may take a slot
  // ---------------------------------------------------------------------------

  /** `any(ws['day'] == day and ws['shift'] == shift for ws in n['working_shifts'])` */
  predicate Works(n: Nurse, day: int, shift: string) {
    exists j :: 0 <= j < |n.workingShifts| && ShiftMatches(n.workingShifts[j], day, shift)
  }

  predicate Qualified(n: Nurse, day: int, shift: string, skill: int) {
    Works(n, day, shift) && n.skillLevel >= skill
  }

  /** `available_nurses` */
  function Available(ns: seq<Nurse>, day: int, shift: string, skill: int): (r: seq<Nurse>)
    ensures forall n :: n in r <==> n in ns && Qualified(n, day, shift, skill)
    decreases |ns|
  {
    if ns == [] then []
    else
      var init := ns[..|ns| - 1];
      var last := ns[|ns| - 1];
      assert forall n :: n in ns <==> n in init || n == last;
      Available(init, day, shift, skill) + (if Qualified(last, day, shift, skill) then [last] else [])
  }

  /** Some nurse record with this id works the slot's shift with the skill. */
  ghost predicate Eligible(inst: Instance, id: Id, slot: Slot, skill: int) {
    exists k :: 0 <= k < |inst.nurses| && inst.nurses[k].id == id && Qualified(inst.nurses[k], slot.0, slot.1, skill)
  }

  /** Some nurse works the slot's shift with the skill. */
  ghost predicate Staffable(inst: Instance, slot: Slot, skill: int) {
    exists k :: 0 <= k < |inst.nurses| && Qualified(inst.nurses[k], slot.0, slot.1, skill)
  }

  // ---------------------------------------------------------------------------
  // A nurse's duties
  // ---------------------------------------------------------------------------

  predicate SameShift(d: Duty, day: int, shift: string) {
    d.day == day && d.shift == shift
  }

  /** The duty list covers the slot: a duty on its day and shift lists its room. */
  ghost predicate ListsSlot(ds: seq<Duty>, slot: Slot) {
    exists x :: 0 <= x < |ds| && SameShift(ds[x], slot.0, slot.1) && slot.2 in ds[x].rooms
  }

  /** No two duties share a (day, shift) and no duty lists a room twice. */
  predicate DutiesDistinct(ds: seq<Duty>) {
    (forall a, b :: 0 <= a < b < |ds| ==> !SameShift(ds[b], ds[a].day, ds[a].shift))
    && (forall a :: 0 <= a < |ds| ==>
          forall p, q :: 0 <= p < q < |ds[a].rooms| ==> ds[a].rooms[p] != ds[a].rooms[q])
  }

  /** The first duty on the given day and shift. */
  function FirstDuty(ds: seq<Duty>, day: int, shift: string): (r: Option<nat>)
    ensures r.Some? ==> r.value < |ds| && SameShift(ds[r.value], day, shift)
                        && forall k :: 0 <= k < r.value ==> !SameShift(ds[k], day, shift)
    ensures r.None? ==> forall k :: 0 <= k < |ds| ==> !SameShift(ds[k], day, shift)
    decreases |ds|
  {
    if ds == [] then None
    else if SameShift(ds[0], day, shift) then Some(0)
    else
      assert forall k :: 1 <= k < |ds| ==> ds[k] == ds[1..][k - 1];
      match FirstDuty(ds[1..], day, shift)
      case Some(j) => Some(j + 1)
      case None => None
  }

  /** `if room_id not in assignment['rooms']: assignment['rooms'].append(room_id)` */
  function WithRoom(d: Duty, room: Id): Duty {
    if room in d.rooms then d else d.(rooms := d.rooms + [room])
  }

  /** The nurse's duties once the room is added: into the first duty on the
      same day and shift, or as a new duty at the end. */
  function MergeDuty(ds: seq<Duty>, day: int, shift: string, room: Id): seq<Duty> {
    match FirstDuty(ds, day, shift)
    case Some(j) => ds[j := WithRoom(ds[j], room)]
    case None => ds + [Duty(day, shift, [room])]
  }

  /** The search over the nurse's assignments with its early `break`. */
  method AddRoom(ds: seq<Duty>, day: int, shift: string, room: Id) returns (r: seq<Duty>)
    ensures r == MergeDuty(ds, day, shift, room)
  {
    for i := 0 to |ds|
      invariant forall k :: 0 <= k < i ==> !SameShift(ds[k], day, shift)
    {
      if ds[i].day == day && ds[i].shift == shift {
        var d := ds[i];
        if room !in d.rooms {
          d := d.(rooms := d.rooms + [room]);
        }
        return ds[i := d];
      }
    }
    return ds + [Duty(day, shift, [room])];
  }

  /** Merging covers exactly one more slot, keeps at least one duty and
      keeps duties and rooms distinct. */
  lemma MergeDutySpec(ds: seq<Duty>, day: int, shift: string, room: Id)
    ensures |MergeDuty(ds, day, shift, room)| >= 1
    ensures forall s :: ListsSlot(MergeDuty(ds, day, shift, room), s) <==> ListsSlot(ds, s) || s == (day, shift, room)
    ensures DutiesDistinct(ds) ==> DutiesDistinct(MergeDuty(ds, day, shift, room))
  {
    var r := MergeDuty(ds, day, shift, room);
    forall s ensures ListsSlot(r, s) <==> ListsSlot(ds, s) || s == (day, shift, room) {
      if ListsSlot(r, s) {
        var x :| 0 <= x < |r| && SameShift(r[x], s.0, s.1) && s.2 in r[x].rooms;
        if x < |ds| && s.2 in ds[x].rooms {
          assert SameShift(ds[x], s.0, s.1);
        }
      }
      if ListsSlot(ds, s) {
        var x :| 0 <= x < |ds| && SameShift(ds[x], s.0, s.1) && s.2 in ds[x].rooms;
        assert SameShift(r[x], s.0, s.1) && s.2 in r[x].rooms;
      }
      if s == (day, shift, room) {
        match FirstDuty(ds, day, shift)
        case Some(j) => assert SameShift(r[j], s.0, s.1) && s.2 in r[j].rooms;
        case None => assert SameShift(r[|ds|], s.0, s.1) && s.2 in r[|ds|].rooms;
      }
    }
  }

  // ---------------------------------------------------------------------------
  // Handing out the slots
  // ---------------------------------------------------------------------------

  /** `ids` lists the keys of `byId` once each. */
  ghost predicate KeyOrder(byId: map<Id, seq<Duty>>, ids: seq<Id>) {
    (forall id :: id in byId <==> id in ids)
    && (forall a, b :: 0 <= a < b < |ids| ==> ids[a] != ids[b])
  }

  /** Every record holds a duty, with no repeated (day, shift) or room. */
  ghost predicate RecordsOk(byId: map<Id, seq<Duty>>) {
    forall id :: id in byId ==> |byId[id]| >= 1 && DutiesDistinct(byId[id])
  }

  /** A listed slot was handed out and its record's nurse is eligible for it. */
  ghost predicate Sound(inst: Instance, reqs: map<Slot, int>, done: seq<Slot>, byId: map<Id, seq<Duty>>) {
    forall id, s :: id in byId && ListsSlot(byId[id], s) ==>
      s in done && s in reqs && Eligible(inst, id, s, reqs[s])
  }

  /** No slot is listed by two records. */
  ghost predicate Unique(byId: map<Id, seq<Duty>>) {
    forall id1, id2, s :: id1 in byId && id2 in byId && ListsSlot(byId[id1], s) && ListsSlot(byId[id2], s) ==>
      id1 == id2
  }

  /** Every handed-out slot that some nurse could take is listed. */
  ghost predicate Complete(inst: Instance, reqs: map<Slot, int>, done: seq<Slot>, byId: map<Id, seq<Duty>>) {
    forall s :: s in done && s in reqs && Staffable(inst, s, reqs[s]) ==>
      exists id :: id in byId && ListsSlot(byId[id], s)
  }

  /** The state of the hand-out after the slots of `done`. */
  ghost predicate HandOut(inst: Instance, reqs: map<Slot, int>, done: seq<Slot>,
                          byId: map<Id, seq<Duty>>, ids: seq<Id>) {
    KeyOrder(byId, ids) && RecordsOk(byId) && Sound(inst, reqs, done, byId)
    && Unique(byId) && Complete(inst, reqs, done, byId)
  }

  /** A slot that no nurse can take is skipped. */
  lemma SkipStep(inst: Instance, reqs: map<Slot, int>, done: seq<Slot>, byId: map<Id, seq<Duty>>, ids: seq<Id>, slot: Slot)
    requires HandOut(inst, reqs, done, byId, ids) && slot in reqs && !Staffable(inst, slot, reqs[slot])
    ensures HandOut(inst, reqs, done + [slot], byId, ids)
  {
    var done' := done + [slot];
    forall id, s | id in byId && ListsSlot(byId[id], s)
      ensures s in done' && s in reqs && Eligible(inst, id, s, reqs[s])
    {
      assert s in done;
    }
    forall s | s in done' && s in reqs && Staffable(inst, s, reqs[s])
      ensures exists id :: id in byId && ListsSlot(byId[id], s)
    {
      assert s != slot;
      assert s in done;
    }
  }

  /** The duties of `nid` after it takes `slot`. */
  function Given(byId: map<Id, seq<Duty>>, nid: Id, slot: Slot): map<Id, seq<Duty>> {
    byId[nid := MergeDuty(if nid in byId then byId[nid] else [], slot.0, slot.1, slot.2)]
  }

  /** Taking a slot changes what one record lists by that slot alone. */
  lemma GivenLists(byId: map<Id, seq<Duty>>, nid: Id, slot: Slot)
    ensures forall id, s :: id in Given(byId, nid, slot) ==>
              (ListsSlot(Given(byId, nid, slot)[id], s) <==>
                 (id in byId && ListsSlot(byId[id], s)) || (id == nid && s == slot))
    ensures RecordsOk(byId) ==> RecordsOk(Given(byId, nid, slot))
  {
    var ds0 := if nid in byId then byId[nid] else [];
    MergeDutySpec(ds0, slot.0, slot.1, slot.2);
    if nid !in byId {
      forall s ensures !ListsSlot(ds0, s) { }
    }
  }

  lemma GiveSound(inst: Instance, reqs: map<Slot, int>, done: seq<Slot>, byId: map<Id, seq<Duty>>, slot: Slot, nid: Id, k: int)
    requires Sound(inst, reqs, done, byId) && slot in reqs
    requires 0 <= k < |inst.nurses| && inst.nurses[k].id == nid && Qualified(inst.nurses[k], slot.0, slot.1, reqs[slot])
    ensures Sound(inst, reqs, done + [slot], Given(byId, nid, slot))
  {
    GivenLists(byId, nid, slot);
    var g := Given(byId, nid, slot);
    forall id, s | id in g && ListsSlot(g[id], s)
      ensures s in done + [slot] && s in reqs && Eligible(inst, id, s, reqs[s])
    {
      if id == nid && s == slot {
        assert 0 <= k < |inst.nurses| && inst.nurses[k].id == id && Qualified(inst.nurses[k], s.0, s.1, reqs[s]);
      } else {
        assert id in byId && ListsSlot(byId[id], s);
        assert s in done && s in reqs && Eligible(inst, id, s, reqs[s]);
      }
    }
  }

  lemma GiveUnique(inst: Instance, reqs: map<Slot, int>, done: seq<Slot>, byId: map<Id, seq<Duty>>, slot: Slot, nid: Id)
    requires Sound(inst, reqs, done, byId) && Unique(byId) && slot !in done
    ensures Unique(Given(byId, nid, slot))
  {
    GivenLists(byId, nid, slot);
    var g := Given(byId, nid, slot);
    forall id1, id2, s | id1 in g && id2 in g && ListsSlot(g[id1], s) && ListsSlot(g[id2], s)
      ensures id1 == id2
    {
      if s != slot {
        assert ListsSlot(byId[id1], s) && ListsSlot(byId[id2], s);
      }
    }
  }

  lemma GiveComplete(inst: Instance, reqs: map<Slot, int>, done: seq<Slot>, byId: map<Id, seq<Duty>>, slot: Slot, nid: Id)
    requires Complete(inst, reqs, done, byId)
    ensures Complete(inst, reqs, done + [slot], Given(byId, nid, slot))
  {
    GivenLists(byId, nid, slot);
    var g := Given(byId, nid, slot);
    forall s | s in done + [slot] && s in reqs && Staffable(inst, s, reqs[s])
      ensures exists id :: id in g && ListsSlot(g[id], s)
    {
      if s == slot {
        assert nid in g && ListsSlot(g[nid], s);
      } else {
        assert s in done;
        var id :| id in byId && ListsSlot(byId[id], s);
        assert id in g && ListsSlot(g[id], s);
      }
    }
  }

  /** Giving a fresh slot to an eligible nurse keeps the hand-out's state. */
  lemma GiveStep(inst: Instance, reqs: map<Slot, int>, done: seq<Slot>, byId: map<Id, seq<Duty>>, ids: seq<Id>,
                 slot: Slot, nid: Id, k: int)
    requires HandOut(inst, reqs, done, byId, ids) && slot in reqs && slot !in done
    requires 0 <= k < |inst.nurses| && inst.nurses[k].id == nid && Qualified(inst.nurses[k], slot.0, slot.1, reqs[slot])
    ensures HandOut(inst, reqs, done + [slot], Given(byId, nid, slot), if nid in byId then ids else ids + [nid])
  {
    GivenLists(byId, nid, slot);
    GiveSound(inst, reqs, done, byId, slot, nid, k);
    GiveUnique(inst, reqs, done, byId, slot, nid);
    GiveComplete(inst, reqs, done, byId, slot, nid);
  }

  /** `[{"id": n_id, "assignments": assigns} for n_id, assigns in nurse_assignments_by_id.items()]` */
  function Records(ids: seq<Id>, byId: map<Id, seq<Duty>>): (r: seq<NurseSchedule>)
    requires forall id :: id in ids ==> id in byId
    ensures |r| == |ids| && forall j :: 0 <= j < |r| ==> r[j] == NurseSchedule(ids[j], byId[ids[j]])
  {
    seq(|ids|, j requires 0 <= j < |ids| => NurseSchedule(ids[j], byId[ids[j]]))
  }

  /** The slots of `order`, each handed to a nurse drawn from those who work
      the slot's shift with the skill it requires. */
  method HandOutSlots(inst: Instance, reqs: map<Slot, int>, order: seq<Slot>, rng: Random)
    returns (byId: map<Id, seq<Duty>>, ids: seq<Id>)
    requires forall s :: s in order ==> s in reqs
    requires forall a, b :: 0 <= a < b < |order| ==> order[a] != order[b]
    modifies rng
    ensures HandOut(inst, reqs, order, byId, ids)
  {
    byId := map[];
    ids := [];
    for i := 0 to |order|
      invariant HandOut(inst, reqs, order[..i], byId, ids)
    {
      var slot := order[i];
      var req := reqs[slot];
      assert order[..i + 1] == order[..i] + [slot];
      assert slot !in order[..i];
      var available := Available(inst.nurses, slot.0, slot.1, req);
      if |available| > 0 {
        var pick := rng.Below(|available|);
        var nurse := available[pick];
        assert nurse in available;
        ghost var k :| 0 <= k < |inst.nurses| && inst.nurses[k] == nurse;
        var nid := nurse.id;
        GiveStep(inst, reqs, order[..i], byId, ids, slot, nid, k);
        var assigns := if nid in byId then byId[nid] else [];
        if nid !in byId {
          ids := ids + [nid];
        }
        var ds := AddRoom(assigns, slot.0, slot.1, slot.2);
        byId := byId[nid := ds];
      } else {
        SkipStep(inst, reqs, order[..i], byId, ids, slot);
      }
    }
    assert order[..|order|] == order;
  }

  /** The slot requirements of a solution: the highest skill each
      (day, shift, room) of its occupancy expansion needs. */
  function Demand(inst: Instance, sol: Solution): map<Slot, int> {
    GroupMax(Demands(inst, Expansion(inst, sol)))
  }

  /** What the nurse phase promises of its records against the slot
      requirements `demand`: no nurse id twice and no repeated (day, shift)
      or room in a record; a slot is listed only if it is required and the
      record's nurse works that shift with the skill, by one record only; and
      every required slot that some nurse could take is listed. */
  ghost predicate RosterFits(inst: Instance, demand: map<Slot, int>, ns: seq<NurseSchedule>) {
    (forall a, b :: 0 <= a < b < |ns| ==> ns[a].id != ns[b].id)
    && (forall j :: 0 <= j < |ns| ==> DutiesDistinct(ns[j].assignments))
    && (forall j, s :: 0 <= j < |ns| && ListsSlot(ns[j].assignments, s) ==>
          s in demand && Eligible(inst, ns[j].id, s, demand[s]))
    && (forall a, b, s ::
          0 <= a < |ns| && 0 <= b < |ns| && ListsSlot(ns[a].assignments, s) && ListsSlot(ns[b].assignments, s)
          ==> a == b)
    && (forall s :: s in demand && Staffable(inst, s, demand[s]) ==>
          exists j :: 0 <= j < |ns| && ListsSlot(ns[j].assignments, s))
  }

  /** The nurse phase: one record per nurse that gets a slot, each with at
      least one duty, fitting the requirements of the solution's expansion. */
  method AssignNurses(inst: Instance, sol: Solution, rng: Random) returns (ns: seq<NurseSchedule>)
    modifies rng
    ensures forall j :: 0 <= j < |ns| ==> |ns[j].assignments| >= 1
    ensures RosterFits(inst, Demand(inst, sol), ns)
  {
    var stays := AllPatientsInRooms(inst, sol);
    var reqs, order := RoomShiftRequirements(inst, stays);
    FirstKeysDistinct(Demands(inst, stays), SlotOf);
    forall s | s in order ensures s in reqs { OrderKeys(Demands(inst, stays), s); }
    forall s | s in reqs ensures s in order { OrderKeys(Demands(inst, stays), s); }
    var byId, ids := HandOutSlots(inst, reqs, order, rng);
    ns := Records(ids, byId);
    forall s | s in reqs && Staffable(inst, s, reqs[s])
      ensures exists j :: 0 <= j < |ns| && ListsSlot(ns[j].assignments, s)
    {
      var id :| id in byId && ListsSlot(byId[id], s);
      var j :| 0 <= j < |ids| && ids[j] == id;
      assert ListsSlot(ns[j].assignments, s);
    }
    forall a, b, s | 0 <= a < |ns| && 0 <= b < |ns| && ListsSlot(ns[a].assignments, s) && ListsSlot(ns[b].assignments, s)
      ensures a == b
    {
      assert ids[a] == ids[b];
    }
  }
}
