/**
 * The Python collection idioms the scheduler is built from, as folds over
 * sequences: dictionaries built by comprehension (a later entry overwrites an
 * earlier one), the insertion order of a dictionary's keys, the grouping
 * dictionaries the constraint functions fill in place, and sums over a
 * dictionary's keys.
 *
 * Every fold is defined on the last element of its sequence, so that a loop
 * that has consumed `xs[..i]` keeps the invariant `acc == Fold(xs[..i])`; the
 * lemmas below say what the folded value means.
 */
module Collections {
  import opened Wrappers

  // ---------------------------------------------------------------------------
  // Dictionaries with overwriting inserts
  // ---------------------------------------------------------------------------

  /** `d = {}; for (k, v) in es: d[k] = v` */
  function LastWins<K, V>(es: seq<(K, V)>): map<K, V>
    decreases |es|
  {
    if es == [] then map[]
    else LastWins(es[..|es| - 1])[es[|es| - 1].0 := es[|es| - 1].1]
  }

  /** A key is present exactly when some entry carries it. */
  lemma {:induction false} LastWinsKey<K, V>(es: seq<(K, V)>, k: K)
    ensures k in LastWins(es) <==> exists i :: 0 <= i < |es| && es[i].0 == k
    decreases |es|
  {
    if es != [] {
      var init := es[..|es| - 1];
      LastWinsKey(init, k);
      if k in LastWins(init) {
        var i :| 0 <= i < |init| && init[i].0 == k;
        assert es[i].0 == k;
      }
      if exists i :: 0 <= i < |es| && es[i].0 == k {
        var i :| 0 <= i < |es| && es[i].0 == k;
        if i < |init| { assert init[i].0 == k; }
      }
    }
  }

  /** The value of a key is that of its last entry. */
  lemma {:induction false} LastWinsAt<K, V>(es: seq<(K, V)>, i: nat)
    requires i < |es|
    requires forall j :: i < j < |es| ==> es[j].0 != es[i].0
    ensures es[i].0 in LastWins(es) && LastWins(es)[es[i].0] == es[i].1
    decreases |es|
  {
    if i < |es| - 1 {
      var init := es[..|es| - 1];
      assert init[i] == es[i];
      forall j | i < j < |init| ensures init[j].0 != init[i].0 {
        assert init[j] == es[j];
      }
      LastWinsAt(init, i);
    }
  }

  /** Every stored value comes from the last entry of its key. */
  lemma {:induction false} LastWinsFrom<K, V>(es: seq<(K, V)>, k: K)
    requires k in LastWins(es)
    ensures exists i :: 0 <= i < |es| && es[i] == (k, LastWins(es)[k])
                        && forall j :: i < j < |es| ==> es[j].0 != k
    decreases |es|
  {
    var n := |es| - 1;
    if es[n].0 != k {
      var init := es[..n];
      LastWinsFrom(init, k);
      var i :| 0 <= i < |init| && init[i] == (k, LastWins(init)[k])
               && forall j :: i < j < |init| ==> init[j].0 != k;
      assert es[i] == init[i];
      forall j | i < j < |es| ensures es[j].0 != k {
        if j < n { assert es[j] == init[j]; }
      }
    } else {
      assert es[n] == (k, LastWins(es)[k]);
    }
  }

  /** Writing `a` and then `b`: a key that `b` writes takes `b`'s value,
      any other key keeps the value `a` gave it. */
  lemma {:induction false} LastWinsAppend<K, V>(a: seq<(K, V)>, b: seq<(K, V)>, k: K)
    ensures k in LastWins(a + b) <==> k in LastWins(a) || k in LastWins(b)
    ensures k in LastWins(b) ==> LastWins(a + b)[k] == LastWins(b)[k]
    ensures k !in LastWins(b) && k in LastWins(a) ==> LastWins(a + b)[k] == LastWins(a)[k]
    decreases |b|
  {
    if b == [] {
      assert a + b == a;
    } else {
      var ab := a + b;
      assert ab[..|ab| - 1] == a + b[..|b| - 1];
      assert ab[|ab| - 1] == b[|b| - 1];
      LastWinsAppend(a, b[..|b| - 1], k);
    }
  }

  /** The position of the first element of `xs` that satisfies `p`: what a
      `for x in xs: if p(x): return` loop stops at. */
  function FirstIndex<T>(xs: seq<T>, p: T -> bool): (r: Option<nat>)
    ensures r.Some? ==> r.value < |xs|
    decreases |xs|
  {
    if xs == [] then None
    else
      var r := FirstIndex(xs[..|xs| - 1], p);
      if r.Some? then r
      else if p(xs[|xs| - 1]) then Some(|xs| - 1)
      else None
  }

  /** The element found satisfies `p` and none before it does. */
  lemma {:induction false} FirstIndexFirst<T>(xs: seq<T>, p: T -> bool)
    requires FirstIndex(xs, p).Some?
    ensures p(xs[FirstIndex(xs, p).value])
    ensures forall j :: 0 <= j < FirstIndex(xs, p).value ==> !p(xs[j])
    decreases |xs|
  {
    var init := xs[..|xs| - 1];
    if FirstIndex(init, p).Some? {
      FirstIndexFirst(init, p);
      assert forall j :: 0 <= j < |init| ==> init[j] == xs[j];
    } else {
      FirstIndexNone(init, p);
      assert forall j :: 0 <= j < |init| ==> init[j] == xs[j];
    }
  }

  /** Nothing is found exactly when no element satisfies `p`. */
  lemma {:induction false} FirstIndexNone<T>(xs: seq<T>, p: T -> bool)
    ensures FirstIndex(xs, p).None? <==> forall j :: 0 <= j < |xs| ==> !p(xs[j])
    decreases |xs|
  {
    if xs != [] {
      var init := xs[..|xs| - 1];
      FirstIndexNone(init, p);
      assert forall j :: 0 <= j < |init| ==> init[j] == xs[j];
      if FirstIndex(init, p).Some? {
        FirstIndexFirst(init, p);
      }
    }
  }

  /** What a prefix finds, the whole sequence finds. */
  lemma {:induction false} FirstIndexPrefix<T>(xs: seq<T>, p: T -> bool, n: nat)
    requires n <= |xs| && FirstIndex(xs[..n], p).Some?
    ensures FirstIndex(xs, p) == FirstIndex(xs[..n], p)
    decreases |xs| - n
  {
    if n < |xs| {
      assert xs[..n + 1][..n] == xs[..n];
      assert FirstIndex(xs[..n + 1], p) == FirstIndex(xs[..n], p);
      FirstIndexPrefix(xs, p, n + 1);
    } else {
      assert xs[..n] == xs;
    }
  }

  /** One more element: what the loop finds after one more iteration. */
  lemma FirstIndexStep<T>(xs: seq<T>, p: T -> bool, n: nat)
    requires n < |xs| && FirstIndex(xs[..n], p).None?
    ensures FirstIndex(xs[..n + 1], p) == if p(xs[n]) then Some(n) else None
  {
    assert xs[..n + 1][..n] == xs[..n];
  }

  /** `z => p(x, y, z)` */
  function Cell<A, B, C>(x: A, y: B, p: (A, B, C) -> bool): C -> bool {
    z => p(x, y, z)
  }

  /** Whether the innermost loop finds a `z` for `x` and `y`. */
  function RowHit<A, B, C>(x: A, zs: seq<C>, p: (A, B, C) -> bool): B -> bool {
    y => FirstIndex(zs, Cell(x, y, p)).Some?
  }

  /** Whether the two inner loops find a `(y, z)` for `x`. */
  function PlaneHit<A, B, C>(ys: seq<B>, zs: seq<C>, p: (A, B, C) -> bool): A -> bool {
    x => FirstIndex(ys, RowHit(x, zs, p)).Some?
  }

  /** The positions where `for x in xs: for y in ys: for z in zs: if p(x, y, z): return`
      stops. */
  function FirstTriple<A, B, C>(xs: seq<A>, ys: seq<B>, zs: seq<C>, p: (A, B, C) -> bool): (r: Option<(nat, nat, nat)>)
    ensures r.Some? ==> r.value.0 < |xs| && r.value.1 < |ys| && r.value.2 < |zs|
  {
    var a := FirstIndex(xs, PlaneHit(ys, zs, p));
    if a.None? then None
    else
      var b := FirstIndex(ys, RowHit(xs[a.value], zs, p));
      if b.None? then None
      else
        var c := FirstIndex(zs, Cell(xs[a.value], ys[b.value], p));
        if c.None? then None else Some((a.value, b.value, c.value))
  }

  /** `(a', b', c')` comes before `(a, b, c)` in the order of three nested loops. */
  predicate Before(a': int, b': int, c': int, a: int, b: int, c: int) {
    a' < a || (a' == a && (b' < b || (b' == b && c' < c)))
  }

  /** The nested loops find nothing exactly when no triple satisfies `p`. */
  lemma FirstTripleNone<A, B, C>(xs: seq<A>, ys: seq<B>, zs: seq<C>, p: (A, B, C) -> bool)
    ensures FirstTriple(xs, ys, zs, p).None? <==>
            forall a, b, c :: 0 <= a < |xs| && 0 <= b < |ys| && 0 <= c < |zs| ==> !p(xs[a], ys[b], zs[c])
  {
    var plane := PlaneHit(ys, zs, p);
    FirstIndexNone(xs, plane);
    var ka := FirstIndex(xs, plane);
    if ka.Some? {
      FirstIndexFirst(xs, plane);
      var a := ka.value;
      var row := RowHit(xs[a], zs, p);
      FirstIndexFirst(ys, row);
      var b := FirstIndex(ys, row).value;
      FirstIndexFirst(zs, Cell(xs[a], ys[b], p));
      var c := FirstIndex(zs, Cell(xs[a], ys[b], p)).value;
      assert p(xs[a], ys[b], zs[c]);
    } else {
      forall a, b, c | 0 <= a < |xs| && 0 <= b < |ys| && 0 <= c < |zs| ensures !p(xs[a], ys[b], zs[c]) {
        assert !plane(xs[a]);
        FirstIndexNone(ys, RowHit(xs[a], zs, p));
        assert !RowHit(xs[a], zs, p)(ys[b]);
        FirstIndexNone(zs, Cell(xs[a], ys[b], p));
        assert !Cell(xs[a], ys[b], p)(zs[c]);
      }
    }
  }

  /** The triple found satisfies `p`, and no triple the loops reach before it does. */
  lemma FirstTripleFirst<A, B, C>(xs: seq<A>, ys: seq<B>, zs: seq<C>, p: (A, B, C) -> bool)
    requires FirstTriple(xs, ys, zs, p).Some?
    ensures var (a, b, c) := FirstTriple(xs, ys, zs, p).value;
            p(xs[a], ys[b], zs[c])
            && forall a', b', c' :: 0 <= a' < |xs| && 0 <= b' < |ys| && 0 <= c' < |zs| && Before(a', b', c', a, b, c)
                 ==> !p(xs[a'], ys[b'], zs[c'])
  {
    var plane := PlaneHit(ys, zs, p);
    FirstIndexFirst(xs, plane);
    var a := FirstIndex(xs, plane).value;
    var row := RowHit(xs[a], zs, p);
    FirstIndexFirst(ys, row);
    var b := FirstIndex(ys, row).value;
    var cell := Cell(xs[a], ys[b], p);
    FirstIndexFirst(zs, cell);
    var c := FirstIndex(zs, cell).value;
    forall a', b', c' | 0 <= a' < |xs| && 0 <= b' < |ys| && 0 <= c' < |zs| && Before(a', b', c', a, b, c)
      ensures !p(xs[a'], ys[b'], zs[c'])
    {
      if a' < a {
        assert !plane(xs[a']);
        FirstIndexNone(ys, RowHit(xs[a'], zs, p));
        assert !RowHit(xs[a'], zs, p)(ys[b']);
        FirstIndexNone(zs, Cell(xs[a'], ys[b'], p));
        assert !Cell(xs[a'], ys[b'], p)(zs[c']);
      } else if b' < b {
        assert !row(ys[b']);
        FirstIndexNone(zs, Cell(xs[a], ys[b'], p));
        assert !Cell(xs[a], ys[b'], p)(zs[c']);
      } else {
        assert !cell(zs[c']);
      }
    }
  }
  /** Every triple on a row before the first hit's row fails `p`. */
  lemma FirstTripleEarlier<A, B, C>(xs: seq<A>, ys: seq<B>, zs: seq<C>, p: (A, B, C) -> bool)
    requires FirstTriple(xs, ys, zs, p).Some?
    ensures var pre := xs[..FirstTriple(xs, ys, zs, p).value.0];
            forall a, b, c :: 0 <= a < |pre| && 0 <= b < |ys| && 0 <= c < |zs| ==> !p(pre[a], ys[b], zs[c])
  {
    var (a0, b0, c0) := FirstTriple(xs, ys, zs, p).value;
    FirstTripleFirst(xs, ys, zs, p);
    var pre := xs[..a0];
    forall a, b, c | 0 <= a < |pre| && 0 <= b < |ys| && 0 <= c < |zs| ensures !p(pre[a], ys[b], zs[c]) {
      assert pre[a] == xs[a];
      assert Before(a, b, c, a0, b0, c0);
    }
  }


  /** The (key, record) entries of a list of records. */
  function Keyed<T, K>(xs: seq<T>, key: T -> K): (es: seq<(K, T)>)
    ensures |es| == |xs|
    ensures forall i :: 0 <= i < |xs| ==> es[i] == (key(xs[i]), xs[i])
  {
    seq(|xs|, i requires 0 <= i < |xs| => (key(xs[i]), xs[i]))
  }

  /** `{key(x): x for x in xs}` */
  function IdDict<T, K>(xs: seq<T>, key: T -> K): map<K, T>
  {
    LastWins(Keyed(xs, key))
  }

  /** A key is in the dictionary exactly when some record has it. */
  lemma IdDictKey<T, K>(xs: seq<T>, key: T -> K, k: K)
    ensures k in IdDict(xs, key) <==> exists i :: 0 <= i < |xs| && key(xs[i]) == k
  {
    var es := Keyed(xs, key);
    LastWinsKey(es, k);
    if exists i :: 0 <= i < |es| && es[i].0 == k {
      var i :| 0 <= i < |es| && es[i].0 == k;
      assert key(xs[i]) == k;
    }
    if exists i :: 0 <= i < |xs| && key(xs[i]) == k {
      var i :| 0 <= i < |xs| && key(xs[i]) == k;
      assert es[i].0 == k;
    }
  }

  /** The record stored under a key is the last record of the list with that key. */
  lemma IdDictFrom<T, K>(xs: seq<T>, key: T -> K, k: K)
    requires k in IdDict(xs, key)
    ensures exists i :: 0 <= i < |xs| && xs[i] == IdDict(xs, key)[k] && key(xs[i]) == k
                        && forall j :: i < j < |xs| ==> key(xs[j]) != k
  {
    var es := Keyed(xs, key);
    LastWinsFrom(es, k);
    var i :| 0 <= i < |es| && es[i] == (k, LastWins(es)[k])
             && forall j :: i < j < |es| ==> es[j].0 != k;
    forall j | i < j < |xs| ensures key(xs[j]) != k {
      assert es[j].0 == key(xs[j]);
    }
  }

  // ---------------------------------------------------------------------------
  // Insertion order of a dictionary's keys
  // ---------------------------------------------------------------------------

  /** The keys of `{key(x): x for x in xs}` in the order `dict.keys()` yields them:
      the order of their first occurrence. */
  function FirstKeys<T, K(==)>(xs: seq<T>, key: T -> K): seq<K>
    decreases |xs|
  {
    if xs == [] then []
    else
      var ks := FirstKeys(xs[..|xs| - 1], key);
      if key(xs[|xs| - 1]) in ks then ks else ks + [key(xs[|xs| - 1])]
  }

  /** No key occurs twice. */
  lemma {:induction false} FirstKeysDistinct<T, K>(xs: seq<T>, key: T -> K)
    ensures forall i, j :: 0 <= i < j < |FirstKeys(xs, key)| ==> FirstKeys(xs, key)[i] != FirstKeys(xs, key)[j]
    decreases |xs|
  {
    if xs != [] {
      FirstKeysDistinct(xs[..|xs| - 1], key);
    }
  }

  /** Exactly the keys the records carry. */
  lemma {:induction false} FirstKeysHas<T, K>(xs: seq<T>, key: T -> K, k: K)
    ensures k in FirstKeys(xs, key) <==> exists i :: 0 <= i < |xs| && key(xs[i]) == k
    decreases |xs|
  {
    if xs != [] {
      var init := xs[..|xs| - 1];
      FirstKeysHas(init, key, k);
      if k in FirstKeys(init, key) {
        var i :| 0 <= i < |init| && key(init[i]) == k;
        assert xs[i] == init[i];
      }
      if exists i :: 0 <= i < |xs| && key(xs[i]) == k {
        var i :| 0 <= i < |xs| && key(xs[i]) == k;
        if i < |init| { assert init[i] == xs[i]; }
      }
    }
  }

  /** `list(d.values())` for `d = {key(x): x for x in xs}`. */
  function DictValues<T, K(==)>(xs: seq<T>, key: T -> K): (vs: seq<T>)
    ensures |vs| == |FirstKeys(xs, key)|
    ensures forall i :: 0 <= i < |vs| ==> FirstKeys(xs, key)[i] in IdDict(xs, key)
  {
    var ks := FirstKeys(xs, key);
    forall i | 0 <= i < |ks| ensures ks[i] in IdDict(xs, key) {
      FirstKeysHas(xs, key, ks[i]);
      IdDictKey(xs, key, ks[i]);
    }
    seq(|ks|, i requires 0 <= i < |ks| => IdDict(xs, key)[ks[i]])
  }

  /** The values are the dictionary's records, each key once, every key present. */
  lemma DictValuesSpec<T, K>(xs: seq<T>, key: T -> K)
    ensures var vs := DictValues(xs, key);
            var d := IdDict(xs, key);
            (forall i :: 0 <= i < |vs| ==> key(vs[i]) in d && d[key(vs[i])] == vs[i])
            && (forall i, j :: 0 <= i < j < |vs| ==> key(vs[i]) != key(vs[j]))
            && forall k :: k in d ==> exists i :: 0 <= i < |vs| && key(vs[i]) == k
  {
    var vs := DictValues(xs, key);
    var ks := FirstKeys(xs, key);
    var d := IdDict(xs, key);
    FirstKeysDistinct(xs, key);
    forall i | 0 <= i < |vs| ensures key(vs[i]) == ks[i] {
      IdDictFrom(xs, key, ks[i]);
    }
    forall k | k in d ensures exists i :: 0 <= i < |vs| && key(vs[i]) == k {
      IdDictKey(xs, key, k);
      FirstKeysHas(xs, key, k);
      var i :| 0 <= i < |ks| && ks[i] == k;
      assert key(vs[i]) == k;
    }
  }

  // ---------------------------------------------------------------------------
  // Grouping dictionaries
  // ---------------------------------------------------------------------------

  /** `g = {}; for (k, v) in es: g.setdefault(k, set()).add(v)` */
  function GroupSets<K, V>(es: seq<(K, V)>): map<K, set<V>>
    decreases |es|
  {
    if es == [] then map[]
    else
      var g := GroupSets(es[..|es| - 1]);
      var e := es[|es| - 1];
      g[e.0 := (if e.0 in g then g[e.0] else {}) + {e.1}]
  }

  /** Appending an entry adds its value to its key's set. */
  lemma GroupSetsSnoc<K, V>(es: seq<(K, V)>, e: (K, V))
    ensures GroupSets(es + [e]) ==
              GroupSets(es)[e.0 := (if e.0 in GroupSets(es) then GroupSets(es)[e.0] else {}) + {e.1}]
  {
    assert (es + [e])[..|es|] == es;
  }

  /** The set of a key holds exactly the values paired with it. */
  lemma {:induction false} GroupSetsAt<K, V>(es: seq<(K, V)>, k: K, v: V)
    ensures k in GroupSets(es) <==> exists i :: 0 <= i < |es| && es[i].0 == k
    ensures k in GroupSets(es) ==> (v in GroupSets(es)[k] <==> exists i :: 0 <= i < |es| && es[i] == (k, v))
    decreases |es|
  {
    if es != [] {
      var init := es[..|es| - 1];
      GroupSetsAt(init, k, v);
      assert forall i :: 0 <= i < |init| ==> init[i] == es[i];
      if exists i :: 0 <= i < |es| && es[i].0 == k {
        var i :| 0 <= i < |es| && es[i].0 == k;
        if i < |init| { assert init[i].0 == k; }
      }
      if exists i :: 0 <= i < |es| && es[i] == (k, v) {
        var i :| 0 <= i < |es| && es[i] == (k, v);
        if i < |init| { assert init[i] == (k, v); }
      }
    }
  }

  /** Every group of `GroupSets` is non-empty. */
  lemma {:induction false} GroupSetsNonEmpty<K, V>(es: seq<(K, V)>, k: K)
    requires k in GroupSets(es)
    ensures |GroupSets(es)[k]| >= 1
    decreases |es|
  {
    var init := es[..|es| - 1];
    if k != es[|es| - 1].0 { GroupSetsNonEmpty(init, k); }
  }

  /** `g = {}; for (k, v) in es: g[k] = g.get(k, 0) + v` */
  function GroupSums<K>(es: seq<(K, int)>): map<K, int>
    decreases |es|
  {
    if es == [] then map[]
    else
      var g := GroupSums(es[..|es| - 1]);
      var e := es[|es| - 1];
      g[e.0 := (if e.0 in g then g[e.0] else 0) + e.1]
  }

  /** Appending an entry adds its value to its key's sum. */
  lemma {:induction false} GroupSumsSnoc<K>(es: seq<(K, int)>, e: (K, int))
    ensures GroupSums(es + [e]) ==
              GroupSums(es)[e.0 := (if e.0 in GroupSums(es) then GroupSums(es)[e.0] else 0) + e.1]
  {
    var xs := es + [e];
    assert xs[..|xs| - 1] == es && xs[|xs| - 1] == e;
  }

  /** `g[k] = g.get(k, 0) + v`: one more entry folded into the sums. */
  method AddTo<K>(g0: map<K, int>, k: K, v: int, ghost es: seq<(K, int)>) returns (g: map<K, int>)
    requires g0 == GroupSums(es)
    ensures g == GroupSums(es + [(k, v)])
  {
    GroupSumsSnoc(es, (k, v));
    g := g0[k := (if k in g0 then g0[k] else 0) + v];
  }

  /** The sum of the values paired with `k` (a reference definition by filtering). */
  function SumFor<K(==)>(es: seq<(K, int)>, k: K): int
  {
    if es == [] then 0 else (if es[0].0 == k then es[0].1 else 0) + SumFor(es[1..], k)
  }

  lemma {:induction false} SumForSnoc<K>(es: seq<(K, int)>, e: (K, int), k: K)
    ensures SumFor(es + [e], k) == SumFor(es, k) + (if e.0 == k then e.1 else 0)
    decreases |es|
  {
    if es != [] {
      assert (es + [e])[1..] == es[1..] + [e];
      SumForSnoc(es[1..], e, k);
    }
  }

  /** A group's total is the sum of the values paired with its key, and the
      groups are exactly the keys that occur. */
  lemma {:induction false} GroupSumsAt<K>(es: seq<(K, int)>, k: K)
    ensures k in GroupSums(es) <==> exists i :: 0 <= i < |es| && es[i].0 == k
    ensures k in GroupSums(es) ==> GroupSums(es)[k] == SumFor(es, k)
    ensures k !in GroupSums(es) ==> SumFor(es, k) == 0
    decreases |es|
  {
    if es != [] {
      var init := es[..|es| - 1];
      GroupSumsAt(init, k);
      assert es == init + [es[|es| - 1]];
      SumForSnoc(init, es[|es| - 1], k);
      assert forall i :: 0 <= i < |init| ==> init[i] == es[i];
      if exists i :: 0 <= i < |es| && es[i].0 == k {
        var i :| 0 <= i < |es| && es[i].0 == k;
        if i < |init| { assert init[i].0 == k; }
      }
    }
  }

  /** `g = {}; for k in ks: g[k] = g.get(k, 0) + 1` */
  function GroupCounts<K>(ks: seq<K>): map<K, int>
    decreases |ks|
  {
    if ks == [] then map[]
    else
      var g := GroupCounts(ks[..|ks| - 1]);
      var k := ks[|ks| - 1];
      g[k := (if k in g then g[k] else 0) + 1]
  }

  /** The counter of a key is its number of occurrences. */
  lemma {:induction false} GroupCountsAt<K>(ks: seq<K>, k: K)
    ensures k in GroupCounts(ks) <==> k in ks
    ensures k in GroupCounts(ks) ==> GroupCounts(ks)[k] == multiset(ks)[k]
    decreases |ks|
  {
    if ks != [] {
      var init := ks[..|ks| - 1];
      GroupCountsAt(init, k);
      assert ks == init + [ks[|ks| - 1]];
    }
  }

  /** `g = {}; for (k, v) in es: g.setdefault(k, []).append(v)` */
  function GroupLists<K, V>(es: seq<(K, V)>): map<K, seq<V>>
    decreases |es|
  {
    if es == [] then map[]
    else
      var g := GroupLists(es[..|es| - 1]);
      var e := es[|es| - 1];
      g[e.0 := (if e.0 in g then g[e.0] else []) + [e.1]]
  }

  /** The list of a key holds exactly the values paired with it, and is never empty. */
  lemma {:induction false} GroupListsAt<K, V>(es: seq<(K, V)>, k: K, v: V)
    ensures k in GroupLists(es) <==> exists i :: 0 <= i < |es| && es[i].0 == k
    ensures k in GroupLists(es) ==> |GroupLists(es)[k]| >= 1
    ensures k in GroupLists(es) ==> (v in GroupLists(es)[k] <==> exists i :: 0 <= i < |es| && es[i] == (k, v))
    decreases |es|
  {
    if es != [] {
      var init := es[..|es| - 1];
      GroupListsAt(init, k, v);
      assert forall i :: 0 <= i < |init| ==> init[i] == es[i];
      if exists i :: 0 <= i < |es| && es[i].0 == k {
        var i :| 0 <= i < |es| && es[i].0 == k;
        if i < |init| { assert init[i].0 == k; }
      }
      if exists i :: 0 <= i < |es| && es[i] == (k, v) {
        var i :| 0 <= i < |es| && es[i] == (k, v);
        if i < |init| { assert init[i] == (k, v); }
      }
    }
  }

  // ---------------------------------------------------------------------------
  // Counting and summing over the keys of a dictionary
  // ---------------------------------------------------------------------------

  /** Taking one more key out of the remaining ones counts it once if it is good. */
  lemma CountStep<K>(good: set<K>, remaining: set<K>, k: K)
    requires k in remaining
    ensures |good - (remaining - {k})| == |good - remaining| + (if k in good then 1 else 0)
  {
    if k in good {
      assert good - (remaining - {k}) == (good - remaining) + {k};
    } else {
      assert good - (remaining - {k}) == good - remaining;
    }
  }

  /** `sum(f(k) for k in s)`, for a set iterated in any order. */
  ghost function SumOver<K>(s: set<K>, f: K -> int): int
    decreases |s|
  {
    if s == {} then 0 else var k :| k in s; f(k) + SumOver(s - {k}, f)
  }

  /** The sum does not depend on the order the keys are taken in. */
  lemma SumOverRemove<K>(s: set<K>, f: K -> int, y: K)
    requires y in s
    ensures SumOver(s, f) == f(y) + SumOver(s - {y}, f)
    decreases |s|
  {
    var x :| x in s && SumOver(s, f) == f(x) + SumOver(s - {x}, f);
    if x != y {
      SumOverRemove(s - {x}, f, y);
      SumOverRemove(s - {y}, f, x);
      assert s - {x} - {y} == s - {y} - {x};
    }
  }

  /** A sum of non-negative terms is non-negative. */
  lemma SumOverNonNegative<K>(s: set<K>, f: K -> int)
    requires forall k :: k in s ==> f(k) >= 0
    ensures SumOver(s, f) >= 0
    decreases |s|
  {
    if s != {} {
      var k :| k in s;
      SumOverRemove(s, f, k);
      SumOverNonNegative(s - {k}, f);
    }
  }

  /** `max(xs)` */
  function SeqMax(xs: seq<int>): (m: int)
    requires |xs| > 0
    ensures m in xs && forall x :: x in xs ==> x <= m
  {
    if |xs| == 1 then xs[0]
    else
      var m := SeqMax(xs[1..]);
      assert forall x :: x in xs ==> x == xs[0] || x in xs[1..];
      if xs[0] >= m then xs[0] else m
  }

  /** `min(xs)` */
  function SeqMin(xs: seq<int>): (m: int)
    requires |xs| > 0
    ensures m in xs && forall x :: x in xs ==> m <= x
  {
    if |xs| == 1 then xs[0]
    else
      var m := SeqMin(xs[1..]);
      assert forall x :: x in xs ==> x == xs[0] || x in xs[1..];
      if xs[0] <= m then xs[0] else m
  }

  /** A sum of non-negative terms is zero exactly when every term is. */
  lemma SumOverZero<K>(s: set<K>, f: K -> int)
    requires forall k :: k in s ==> f(k) >= 0
    ensures SumOver(s, f) == 0 <==> forall k :: k in s ==> f(k) == 0
    decreases |s|
  {
    if s != {} {
      var k :| k in s;
      SumOverRemove(s, f, k);
      SumOverZero(s - {k}, f);
      SumOverNonNegative(s - {k}, f);
    }
  }

  /** A set has two or more elements exactly when it holds two different ones. */
  lemma TwoDistinct<V>(s: set<V>)
    ensures |s| > 1 <==> exists a, b :: a in s && b in s && a != b
  {
    if |s| > 1 {
      var a :| a in s;
      assert |s - {a}| > 0;
      var b :| b in s - {a};
    }
    if exists a, b :: a in s && b in s && a != b {
      var a, b :| a in s && b in s && a != b;
      assert {a, b} <= s;
      assert |{a, b}| == 2;
      assert |{a, b}| <= |s| by { SubsetCard({a, b}, s); }
    }
  }

  lemma SubsetCard<V>(a: set<V>, b: set<V>)
    requires a <= b
    ensures |a| <= |b|
  {
    assert b == a + (b - a);
  }

  // ---------------------------------------------------------------------------
  // The loops that fill the grouping dictionaries and read them back
  // ---------------------------------------------------------------------------

  method BuildGroupSets<K, V>(es: seq<(K, V)>) returns (g: map<K, set<V>>)
    ensures g == GroupSets(es)
  {
    g := map[];
    for i := 0 to |es|
      invariant g == GroupSets(es[..i])
    {
      assert es[..i + 1][..i] == es[..i];
      var (k, v) := es[i];
      if k !in g {
        g := g[k := {}];
      }
      g := g[k := g[k] + {v}];
    }
    assert es[..|es|] == es;
  }

  method BuildGroupSums<K>(es: seq<(K, int)>) returns (g: map<K, int>)
    ensures g == GroupSums(es)
  {
    g := map[];
    for i := 0 to |es|
      invariant g == GroupSums(es[..i])
    {
      assert es[..i + 1][..i] == es[..i];
      var (k, v) := es[i];
      g := g[k := (if k in g then g[k] else 0) + v];
    }
    assert es[..|es|] == es;
  }

  method BuildGroupCounts<K>(ks: seq<K>) returns (g: map<K, int>)
    ensures g == GroupCounts(ks)
  {
    g := map[];
    for i := 0 to |ks|
      invariant g == GroupCounts(ks[..i])
    {
      assert ks[..i + 1][..i] == ks[..i];
      var k := ks[i];
      g := g[k := (if k in g then g[k] else 0) + 1];
    }
    assert ks[..|ks|] == ks;
  }

  method BuildGroupLists<K, V>(es: seq<(K, V)>) returns (g: map<K, seq<V>>)
    ensures g == GroupLists(es)
  {
    g := map[];
    for i := 0 to |es|
      invariant g == GroupLists(es[..i])
    {
      assert es[..i + 1][..i] == es[..i];
      var (k, v) := es[i];
      if k !in g {
        g := g[k := []];
      }
      g := g[k := g[k] + [v]];
    }
    assert es[..|es|] == es;
  }

  /** The keys of `s` that satisfy `p`. */
  function Filter<K>(s: set<K>, p: K -> bool): set<K> {
    set k | k in s && p(k)
  }

  /** `sum(1 for k in s if p(k))`, taking the keys in any order. */
  method CountWhere<K>(s: set<K>, p: K -> bool) returns (n: nat)
    ensures n == |Filter(s, p)|
  {
    ghost var good := Filter(s, p);
    n := 0;
    var rest := s;
    while rest != {}
      invariant rest <= s
      invariant n == |good - rest|
      decreases |rest|
    {
      var k :| k in rest;
      CountStep(good, rest, k);
      if p(k) {
        n := n + 1;
      }
      rest := rest - {k};
    }
  }

  /** `sum(f(k) for k in s)`, taking the keys in any order. */
  method SumAll<K>(s: set<K>, f: K -> int) returns (r: int)
    ensures r == SumOver(s, f)
  {
    r := 0;
    var rest := s;
    while rest != {}
      invariant rest <= s
      invariant r + SumOver(rest, f) == SumOver(s, f)
      decreases |rest|
    {
      var k :| k in rest;
      SumOverRemove(rest, f, k);
      r := r + f(k);
      rest := rest - {k};
    }
  }
}
