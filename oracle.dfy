/**
 * The solver's source of `random.choice` and `random.shuffle`. Only what a
 * draw may return is modelled, not its distribution: a seeded linear
 * congruential generator stands in for Python's Mersenne Twister.
 */
module Oracle {
  class Random {
    var state: nat

    constructor(seed: nat)
      ensures state == seed
    {
      state := seed;
    }

    /** A draw in `[0, n)`: the index `random.choice` picks from a list of length `n`. */
    method Below(n: nat) returns (i: nat)
      requires n > 0
      modifies this
      ensures i < n
    {
      state := (state * 1103515245 + 12345) % 2147483648;
      i := state % n;
    }

    /** `random.shuffle`: Fisher-Yates from the back; the result is a
        permutation of the input. */
    method Shuffle<T>(s: seq<T>) returns (t: seq<T>)
      modifies this
      ensures multiset(t) == multiset(s)
      ensures |t| == |s|
    {
      t := s;
      var i := |t|;
      while i > 1
        invariant 0 <= i <= |t| == |s|
        invariant multiset(t) == multiset(s)
      {
        var j := Below(i);
        i := i - 1;
        t := Swap(t, i, j);
      }
    }
  }

  /** `x[i], x[j] = x[j], x[i]` */
  function Swap<T>(s: seq<T>, i: nat, j: nat): (r: seq<T>)
    requires i < |s| && j < |s|
    ensures |r| == |s| && r[i] == s[j] && r[j] == s[i]
    ensures forall k :: 0 <= k < |s| && k != i && k != j ==> r[k] == s[k]
    ensures multiset(r) == multiset(s)
  {
    if i == j then s
    else
      var r := s[i := s[j]][j := s[i]];
      assert multiset(s[i := s[j]]) == multiset(s) - multiset{s[i]} + multiset{s[j]};
      r
  }
}
