/**
 * `RVNS.evaluate_solution`: the fifteen scores of a solution, in the order
 * the breakdown dictionary lists them, and their sum.
 */
module Evaluation {
  import opened Wrappers
  import opened Collections
  import opened Hospital
  import opened Scoring
  import opened PasConstraints
  import opened NraConstraints
  import opened ScpConstraints
  import opened GlobalConstraints
  import opened Validity

  /** The breakdown dictionary `costs`. */
  datatype Costs = Costs(
    h1: int, h2: int, h7: int, s1: int,
    s2: int, s3: int, s4: int,
    h3: int, h4: int, s5: int, s6: int,
    h5: int, h6: int, s7: int, s8: int)
  {
    /** `sum(costs.values())` */
    function Total(): int {
      h1 + h2 + h7 + s1 + s2 + s3 + s4 + h3 + h4 + s5 + s6 + h5 + h6 + s7 + s8
    }

    /** The seven hard scores. */
    function Hard(): int {
      h1 + h2 + h7 + h3 + h4 + h5 + h6
    }

    predicate HardZero() {
      h1 == 0 && h2 == 0 && h7 == 0 && h3 == 0 && h4 == 0 && h5 == 0 && h6 == 0
    }
  }

  /** Each entry as its scoring function defines it, with the instance's weights. */
  ghost function CostsOf(inst: Instance, w: Weights, sol: Solution): Costs
    requires Evaluable(inst, sol)
  {
    Costs(
      H1(inst, sol), H2(inst, sol), H7(inst, sol), S1(inst, sol, w.roomMixedAge),
      S2(inst, sol, w.roomNurseSkill), S3(inst, sol, w.continuityOfCare), S4(inst, sol, w.excessiveWorkload),
      H3(inst, sol), H4(inst, sol), S5(sol, w.openTheater), S6(inst, sol, w.surgeonTransfer),
      H5(inst, sol), H6(inst, sol), S7(inst, sol, w.patientDelay), S8(inst, sol, w.unscheduledOptional))
  }

  /** The `total_cost` of a solution. */
  ghost function Cost(inst: Instance, w: Weights, sol: Solution): int
    requires Evaluable(inst, sol)
  {
    CostsOf(inst, w, sol).Total()
  }

  /** `evaluate_solution` */
  method Evaluate(inst: Instance, w: Weights, sol: Solution) returns (total: int, costs: Costs)
    requires Evaluable(inst, sol)
    ensures costs == CostsOf(inst, w, sol)
    ensures total == Cost(inst, w, sol)
  {
    var h1 := H1NoGenderMix(inst, sol);
    var h2 := H2CompatibleRooms(inst, sol);
    var h7 := H7RoomCapacity(inst, sol);
    var s1 := S1MixedAgePenalty(inst, sol, w.roomMixedAge);
    var s2 := S2MinimumSkillLevel(inst, sol, w.roomNurseSkill);
    var s3 := S3ContinuityOfCare(inst, sol, w.continuityOfCare);
    var s4 := S4MaximumWorkload(inst, sol, w.excessiveWorkload);
    var h3 := H3SurgeonOvertime(inst, sol);
    var h4 := H4TheaterOvertime(inst, sol);
    var s5 := S5(sol, w.openTheater);
    var s6 := S6SurgeonTransfer(inst, sol, w.surgeonTransfer);
    var h5 := H5MandatoryUnscheduled(inst, sol);
    var h6 := H6AdmissionDay(inst, sol);
    var s7 := S7AdmissionDelay(inst, sol, w.patientDelay);
    var s8 := S8UnscheduledOptional(inst, sol, w.unscheduledOptional);
    costs := Costs(h1, h2, h7, s1, s2, s3, s4, h3, h4, s5, s6, h5, h6, s7, s8);
    total := costs.Total();
  }

  /** Every hard entry is a whole number of penalties. */
  lemma HardQuantised(inst: Instance, w: Weights, sol: Solution)
    requires Evaluable(inst, sol)
    ensures var c := CostsOf(inst, w, sol);
            Quantised(c.h1) && Quantised(c.h2) && Quantised(c.h7) && Quantised(c.h3)
            && Quantised(c.h4) && Quantised(c.h5) && Quantised(c.h6)
  {
    PenaltyMultiple(|MixedKeys(GenderGroups(inst, sol))|);
    PenaltyMultiple(IncompatibleCount(inst, sol.patients));
    OccupancyKeys(inst, sol);
    PenaltyMultiple(|OverfullKeys(RoomDict(inst), Occupancy(inst, sol))|);
    SurgeonLoadsIndexable(inst, sol);
    PenaltyMultiple(|OverKeys(SurgeonLoads(inst, sol), SurgeonCaps(inst))|);
    TheaterLoadsIndexable(inst, sol);
    PenaltyMultiple(|OverKeys(TheaterLoads(inst, sol), TheaterCaps(inst))|);
    PenaltyMultiple(|Unscheduled(inst, sol, true)|);
    H6Meaning(inst, sol);
  }

  /** Every soft entry is non-negative. */
  lemma SoftNonNegative(inst: Instance, w: Weights, sol: Solution)
    requires Evaluable(inst, sol)
    ensures var c := CostsOf(inst, w, sol);
            c.s1 >= 0 && c.s2 >= 0 && c.s3 >= 0 && c.s4 >= 0
            && c.s5 >= 0 && c.s6 >= 0 && c.s7 >= 0 && c.s8 >= 0
  {
    S1Meaning(inst, sol, w.roomMixedAge);
    S2Meaning(inst, sol, w.roomNurseSkill);
    S3Meaning(inst, sol, w.continuityOfCare);
    S4Meaning(inst, sol, w.excessiveWorkload);
    S6Meaning(inst, sol, w.surgeonTransfer);
    S7Meaning(inst, sol, w.patientDelay);
    S8Meaning(inst, sol, w.unscheduledOptional);
  }

  /** The total is never negative, it is at least the hard part, and a total
      below one penalty means every hard constraint holds. */
  lemma CostSpec(inst: Instance, w: Weights, sol: Solution)
    requires Evaluable(inst, sol)
    ensures Cost(inst, w, sol) >= CostsOf(inst, w, sol).Hard() >= 0
    ensures Cost(inst, w, sol) < Penalty ==> CostsOf(inst, w, sol).HardZero()
  {
    HardQuantised(inst, w, sol);
    SoftNonNegative(inst, w, sol);
    CostsBound(CostsOf(inst, w, sol));
  }

  /** A whole number of penalties below one penalty is zero. */
  lemma QuantisedBelow(r: int)
    requires Quantised(r) && r < Penalty
    ensures r == 0
  {
  }

  lemma CostsBound(c: Costs)
    requires Quantised(c.h1) && Quantised(c.h2) && Quantised(c.h7) && Quantised(c.h3)
             && Quantised(c.h4) && Quantised(c.h5) && Quantised(c.h6)
    requires c.s1 >= 0 && c.s2 >= 0 && c.s3 >= 0 && c.s4 >= 0
             && c.s5 >= 0 && c.s6 >= 0 && c.s7 >= 0 && c.s8 >= 0
    ensures c.Total() >= c.Hard() >= 0
    ensures c.Total() < Penalty ==> c.HardZero()
  {
    if c.Total() < Penalty {
      QuantisedBelow(c.h1);
      QuantisedBelow(c.h2);
      QuantisedBelow(c.h7);
      QuantisedBelow(c.h3);
      QuantisedBelow(c.h4);
      QuantisedBelow(c.h5);
      QuantisedBelow(c.h6);
    }
  }

  /** The total of a valid solution is a natural number. */
  lemma ValidCost(inst: Instance, w: Weights, sol: Solution)
    requires WellFormed(inst) && Valid(inst, sol)
    ensures Evaluable(inst, sol)
    ensures Cost(inst, w, sol) >= 0
  {
    ValidEvaluable(inst, sol);
    CostSpec(inst, w, sol);
  }
}
