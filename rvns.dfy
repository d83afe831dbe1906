/**
 * The search of solvers/RVNS_solver.py: the shake, the variable
 * neighbourhood descent used as local search, and the solver object whose
 * `solve` keeps the best solution found. The wall-clock budget is a number
 * of rounds (`fuel`).
 */
module Rvns {
  import opened Hospital
  import opened Scoring
  import opened Validity
  import opened Evaluation
  import opened Oracle
  import opened Moves
  import opened Builder

  /** A sequence of solutions each obtained from the one before by
      neighbourhood `k`, or left as it was. */
  ghost predicate Walk(inst: Instance, k: nat, trail: seq<Solution>) {
    forall j :: 0 < j < |trail| ==> Linked(inst, k, trail[j - 1], trail[j])
  }

  /** `next` is valid and is `prev` or one move of neighbourhood `k` away from it. */
  ghost predicate Linked(inst: Instance, k: nat, prev: Solution, next: Solution) {
    Valid(inst, next) && (next == prev || Step(inst, k, prev, next))
  }

  /** `_shake`: neighbourhood `k` (1-based) applied `k` times. */
  method Shake(inst: Instance, sol: Solution, k: nat, rng: Random) returns (s: Solution, ghost trail: seq<Solution>)
    requires 1 <= k <= KMax && WellFormed(inst) && Valid(inst, sol)
    modifies rng
    ensures Valid(inst, s)
    ensures |trail| == k + 1 && trail[0] == sol && trail[k] == s && Walk(inst, k - 1, trail)
  {
    s := sol;
    trail := [sol];
    for j := 0 to k
      invariant Valid(inst, s) && |trail| == j + 1 && trail[0] == sol && trail[j] == s
      invariant Walk(inst, k - 1, trail)
    {
      var next := ApplyMove(inst, k - 1, s, rng);
      trail := trail + [next];
      s := next;
    }
  }

  /** `_local_search`: first improvement over the neighbourhoods in order,
      back to the first after every improvement, until none of the five
      improves. The result is valid and either the input or strictly
      cheaper; a solution with no hard violation keeps none. */
  method LocalSearch(inst: Instance, w: Weights, sol: Solution, rng: Random) returns (s: Solution)
    requires WellFormed(inst) && Valid(inst, sol) && Evaluable(inst, sol)
    modifies rng
    ensures Valid(inst, s) && Evaluable(inst, s)
    ensures s == sol || Cost(inst, w, s) < Cost(inst, w, sol)
    ensures Cost(inst, w, sol) < Penalty ==> CostsOf(inst, w, s).HardZero()
  {
    ValidCost(inst, w, sol);
    s := sol;
    var costCurrent, _ := Evaluate(inst, w, s);
    var k := 0;
    while k < KMax
      invariant 0 <= k <= KMax && Valid(inst, s) && Evaluable(inst, s)
      invariant costCurrent == Cost(inst, w, s) && costCurrent >= 0
      invariant s == sol || costCurrent < Cost(inst, w, sol)
      decreases costCurrent, KMax - k
    {
      var neighbour := ApplyMove(inst, k, s, rng);
      ValidCost(inst, w, neighbour);
      var costNeighbour, _ := Evaluate(inst, w, neighbour);
      if costNeighbour < costCurrent {
        s := neighbour;
        costCurrent := costNeighbour;
        k := 0;
      } else {
        k := k + 1;
      }
    }
    CostSpec(inst, w, s);
  }

  /** Each entry is smaller than the one before. */
  predicate Decreasing(xs: seq<int>) {
    forall i, j :: 0 <= i < j < |xs| ==> xs[j] < xs[i]
  }

  /** The best costs held by a search that started at cost `first` and
      holds `last` now: the first is `first`, the last is `last`, and they
      strictly decrease. */
  predicate Descent(history: seq<int>, first: int, last: int) {
    |history| >= 1 && history[0] == first && history[|history| - 1] == last && Decreasing(history)
  }

  /** Recording a strictly cheaper best cost keeps a descent. */
  lemma DescentSnoc(history: seq<int>, first: int, last: int, x: int)
    requires Descent(history, first, last) && x < last
    ensures Descent(history + [x], first, x)
  {
  }

  /** What a search from `start` guarantees of the best solution it ends
      with: it is valid and scorable and costs `bestCost`, the best costs
      held descend from the start's cost to `bestCost`, the best solution
      is the start or strictly cheaper, and a cost below one penalty means
      no hard constraint is violated. */
  ghost predicate Improved(inst: Instance, w: Weights, start: Solution, history: seq<int>, best: Solution, bestCost: int) {
    Valid(inst, start) && Evaluable(inst, start)
    && Valid(inst, best) && Evaluable(inst, best) && bestCost == Cost(inst, w, best)
    && Descent(history, Cost(inst, w, start), bestCost)
    && (best == start || bestCost < Cost(inst, w, start))
    && (bestCost < Penalty ==> CostsOf(inst, w, best).HardZero())
  }

  /** The rounds of `solve` after the greedy start: in each round the best
      solution is shaken with each neighbourhood in turn (back to the first
      after every improvement), the shaken solution is improved by local
      search and kept when it is cheaper. The best costs held form a strictly
      decreasing sequence starting at the start's cost. */
  method Search(inst: Instance, w: Weights, start: Solution, rng: Random, fuel: nat)
    returns (best: Solution, bestCost: int, ghost history: seq<int>)
    requires WellFormed(inst) && Valid(inst, start) && Evaluable(inst, start)
    modifies rng
    ensures Improved(inst, w, start, history, best, bestCost)
  {
    best := start;
    var startCost, _ := Evaluate(inst, w, start);
    bestCost := startCost;
    history := [bestCost];
    for iteration := 0 to fuel
      invariant Valid(inst, best) && Evaluable(inst, best) && bestCost == Cost(inst, w, best)
      invariant Descent(history, Cost(inst, w, start), bestCost)
      invariant best == start || bestCost < Cost(inst, w, start)
    {
      var k := 1;
      while k <= KMax
        invariant 1 <= k <= KMax + 1
        invariant Valid(inst, best) && Evaluable(inst, best) && bestCost == Cost(inst, w, best)
        invariant Descent(history, Cost(inst, w, start), bestCost)
        invariant best == start || bestCost < Cost(inst, w, start)
        decreases bestCost + 1, KMax + 1 - k
      {
        ValidCost(inst, w, best);
        var shaken, _ := Shake(inst, best, k, rng);
        ValidCost(inst, w, shaken);
        var improved := LocalSearch(inst, w, shaken, rng);
        var costImproved, _ := Evaluate(inst, w, improved);
        ValidCost(inst, w, improved);
        if costImproved < bestCost {
          DescentSnoc(history, Cost(inst, w, start), bestCost, costImproved);
          best, bestCost := improved, costImproved;
          history := history + [costImproved];
          k := 1;
        } else {
          k := k + 1;
        }
      }
    }
    CostSpec(inst, w, best);
  }

  /** A search that has not yet moved from a valid solution. */
  lemma Start(inst: Instance, w: Weights, sol: Solution) returns (history: seq<int>)
    requires WellFormed(inst) && Valid(inst, sol)
    ensures Evaluable(inst, sol) && Improved(inst, w, sol, history, sol, Cost(inst, w, sol))
  {
    ValidCost(inst, w, sol);
    CostSpec(inst, w, sol);
    history := [Cost(inst, w, sol)];
  }

  /** The cost of the empty solution, as a search that has not moved from it. */
  method EmptyStart(inst: Instance, w: Weights) returns (cost: int, ghost history: seq<int>)
    requires WellFormed(inst)
    ensures Improved(inst, w, Solution([], []), history, Solution([], []), cost)
  {
    var empty := Solution([], []);
    history := Start(inst, w, empty);
    var c, _ := Evaluate(inst, w, empty);
    cost := c;
  }

  /** The greedy construction followed by the search: the search starts
      from a greedy start. */
  method Run(inst: Instance, w: Weights, rng: Random, fuel: nat)
    returns (ghost start: Solution, best: Solution, bestCost: int, ghost history: seq<int>)
    requires WellFormed(inst)
    modifies rng
    ensures GreedyStart(inst, start)
    ensures Improved(inst, w, start, history, best, bestCost)
  {
    var initial := InitialSolution(inst, rng);
    start := initial;
    best, bestCost, history := Search(inst, w, initial, rng, fuel);
  }

  /** The solver object: the instance and weights it was built with, its
      random source, and the best solution and cost found so far. */
  class Solver {
    const inst: Instance
    const weights: Weights
    const rng: Random
    var bestSolution: Solution
    var bestCost: int
    /** The solution the last search started from. */
    ghost var start: Solution
    /** The best costs held since then, oldest first. */
    ghost var history: seq<int>

    /** The best solution is valid, scorable, costs `bestCost`, and is the
        outcome of a search from `start` whose best costs were `history`. */
    ghost predicate Inv()
      reads this
    {
      WellFormed(inst) && Improved(inst, weights, start, history, bestSolution, bestCost)
    }

    /** `__init__`: the best solution starts empty and its cost is evaluated. */
    constructor(inst: Instance, weights: Weights, seed: nat)
      requires WellFormed(inst)
      ensures Inv() && fresh(rng)
      ensures this.inst == inst && this.weights == weights && bestSolution == Solution([], [])
    {
      this.inst := inst;
      this.weights := weights;
      rng := new Random(seed);
      bestSolution := Solution([], []);
      start := Solution([], []);
      new;
      var cost, history0 := EmptyStart(inst, weights);
      Store(Solution([], []), history0, Solution([], []), cost);
    }

    /** `solve`: builds the greedy solution, then runs `fuel` rounds of the
        search from it. The new start is a greedy start; the new best
        solution is valid, is that start or strictly cheaper than it, and a
        best cost below one penalty means no hard constraint is violated. */
    method Solve(fuel: nat)
      requires WellFormed(inst)
      modifies this, rng
      ensures Inv() && GreedyStart(inst, start)
    {
      ghost var initial, costs;
      var best, cost;
      initial, best, cost, costs := Run(inst, weights, rng, fuel);
      Store(initial, costs, best, cost);
    }

    /** Records the outcome of a search. */
    method Store(ghost initial: Solution, ghost costs: seq<int>, best: Solution, cost: int)
      modifies this
      ensures bestSolution == best && bestCost == cost && start == initial && history == costs
    {
      bestSolution, bestCost, start, history := best, cost, initial, costs;
    }
  }
}
