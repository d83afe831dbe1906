/**
 * What the fifteen scoring functions share (solvers/constraints.py and the
 * weight plumbing of solvers/RVNS_solver.py): the hard-violation penalty, the
 * soft-constraint weights and Python's list indexing.
 */
module Scoring {

  /** `HARD_VIOLATION_PENALTY`: what one hard violation costs. */
  const Penalty: int := 1000000

  /** The eight soft-constraint weights of the instance (`data['weights']`),
      restricted to naturals. */
  datatype Weights = Weights(
    roomMixedAge: nat,
    roomNurseSkill: nat,
    continuityOfCare: nat,
    excessiveWorkload: nat,
    openTheater: nat,
    surgeonTransfer: nat,
    patientDelay: nat,
    unscheduledOptional: nat)

  /** The indices Python accepts for `s[i]`, negative ones counting from the end. */
  predicate InPyRange(s: seq<int>, i: int) {
    -|s| <= i < |s|
  }

  /** Python's `s[i]`. */
  function PyIndex(s: seq<int>, i: int): int
    requires InPyRange(s, i)
  {
    if i >= 0 then s[i] else s[|s| + i]
  }

  /** What a hard scoring function returns: a non-negative multiple of the penalty. */
  predicate Quantised(r: int) {
    r >= 0 && r % Penalty == 0
  }

  lemma PenaltyMultiple(n: nat)
    ensures Quantised(Penalty * n)
  {
    var q, m := (Penalty * n) / Penalty, (Penalty * n) % Penalty;
    assert Penalty * n == Penalty * q + m;
    assert m == Penalty * (n - q);
  }

  /** A weighted non-negative cost is non-negative, and with a positive
      weight it is zero exactly when the cost is. */
  lemma Weighted(a: int, w: nat)
    requires a >= 0
    ensures a * w >= 0
    ensures w > 0 ==> (a * w == 0 <==> a == 0)
  {
    if w > 0 && a > 0 {
      assert a * w >= w;
    }
  }
}
