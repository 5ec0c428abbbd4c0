/**
 * The CP-SAT model that `solve_subset_selection` builds: one boolean per
 * candidate, a sum variable bounded by [0, sum(scaled_vals)], a slack `diff`
 * in [0, max_diff] held above |sum - target| by two linear inequalities, and the
 * objective `LARGE * diff + sum(x)` (or `diff` alone without the preference for
 * fewer codes).
 *
 * The lemmas show that the encoding is correct: the points that minimise the
 * CP objective are exactly the reference optima of module Subsets.
 */
module Formulation {
  import opened Subsets

  /** Below this, the weight of `diff` is never chosen smaller. */
  const LARGE_FLOOR: int := 1000000

  datatype CpModel = CpModel(
    scaledVals: seq<int>,
    scaledTarget: int,
    sumUpper: int,    // upper bound of `sum_var`
    maxDiff: int,     // upper bound of `diff`
    large: int,       // weight of `diff` in the objective
    preferFewer: bool)

  function Max(a: int, b: int): int {
    if a < b then b else a
  }

  /** The model built by `solve_subset_selection` before it is handed to the solver. */
  function Formulate(scaledVals: seq<int>, scaledTarget: int, preferFewer: bool): CpModel {
    var total := Sum(scaledVals);
    CpModel(scaledVals, scaledTarget, total, Max(scaledTarget, total), Max(LARGE_FLOOR, scaledTarget + 1), preferFewer)
  }

  /** A point (x, sum_var, diff) that satisfies every domain and constraint of the model. */
  predicate Satisfies(m: CpModel, x: seq<bool>, sum: int, diff: int) {
    && |x| == |m.scaledVals|
    && sum == SelectedSum(m.scaledVals, x)
    && 0 <= sum <= m.sumUpper
    && 0 <= diff <= m.maxDiff
    && sum - m.scaledTarget <= diff
    && m.scaledTarget - sum <= diff
  }

  /** The value the solver minimises. */
  function Objective(m: CpModel, x: seq<bool>, diff: int): int {
    if m.preferFewer then m.large * diff + Count(x) else diff
  }

  /** A point of the model with the least objective value: what an OPTIMAL status promises. */
  ghost predicate Minimises(m: CpModel, x: seq<bool>, sum: int, diff: int) {
    && Satisfies(m, x, sum, diff)
    && forall y, s, d | Satisfies(m, y, s, d) :: Objective(m, x, diff) <= Objective(m, y, d)
  }

  /** The model as built from non-negative values and a non-negative target. */
  predicate WellFormed(m: CpModel) {
    && m == Formulate(m.scaledVals, m.scaledTarget, m.preferFewer)
    && m.scaledTarget >= 0
    && (forall i :: 0 <= i < |m.scaledVals| ==> m.scaledVals[i] >= 0)
    && |m.scaledVals| < m.large
  }

  /** The two inequalities hold exactly when `diff` is at least |sum - target|. */
  lemma Linearisation(sum: int, target: int, diff: int)
    ensures (sum - target <= diff && target - sum <= diff) <==> diff >= Abs(sum - target)
  {
  }

  /**
   * The bounds are wide enough: every assignment, with `sum_var` its sum and
   * `diff` its deviation, is a point of the model.
   */
  lemma {:induction false} EveryAssignmentFits(m: CpModel, x: seq<bool>)
    requires WellFormed(m) && |x| == |m.scaledVals|
    ensures Satisfies(m, x, SelectedSum(m.scaledVals, x), Dist(m.scaledVals, x, m.scaledTarget))
    ensures Dist(m.scaledVals, x, m.scaledTarget) <= m.maxDiff
  {
    SelectedSumBounds(m.scaledVals, x);
  }

  /**
   * One unit of deviation outweighs any number of codes below `large`, and
   * with equal deviation fewer codes give the smaller objective.
   */
  lemma Lexicographic(large: int, n: nat, d1: int, c1: nat, d2: int, c2: nat)
    requires c1 <= n < large
    ensures d1 < d2 ==> large * d1 + c1 < large * d2 + c2
    ensures d1 == d2 && c1 < c2 ==> large * d1 + c1 < large * d2 + c2
  {
    if d1 < d2 {
      var k := d2 - d1 - 1;
      assert large * d2 == large * d1 + large * k + large;
      assert large * k >= 0;
    }
  }

  lemma {:induction false} CountBound(x: seq<bool>)
    ensures Count(x) <= |x|
  {
    if x != [] {
      var n := |x| - 1;
      assert x == x[..n] + [x[n]];
      CountBound(x[..n]);
    }
  }

  /** Objective order agrees with the reference order (deviation first, then codes). */
  lemma ObjectiveOrder(m: CpModel, x: seq<bool>, y: seq<bool>, dx: int, dy: int)
    requires WellFormed(m) && |x| == |m.scaledVals| && |y| == |m.scaledVals|
    ensures dx < dy ==> Objective(m, x, dx) < Objective(m, y, dy)
    ensures dx == dy && m.preferFewer && Count(x) < Count(y) ==> Objective(m, x, dx) < Objective(m, y, dy)
  {
    CountBound(x);
    CountBound(y);
    Lexicographic(m.large, |m.scaledVals|, dx, Count(x), dy, Count(y));
  }

  /**
   * Soundness of the encoding: a point that minimises the CP objective has
   * `diff` equal to its true deviation and its assignment is a reference optimum.
   */
  lemma EncodingSound(m: CpModel, x: seq<bool>, sum: int, diff: int)
    requires WellFormed(m)
    requires Minimises(m, x, sum, diff)
    ensures diff == Dist(m.scaledVals, x, m.scaledTarget)
    ensures IsBestSubset(m.scaledVals, m.scaledTarget, x, m.preferFewer)
  {
    var vals, t := m.scaledVals, m.scaledTarget;
    var dx := Dist(vals, x, t);
    EveryAssignmentFits(m, x);
    ObjectiveOrder(m, x, x, dx, diff);
    assert diff == dx;
    forall y: seq<bool> | |y| == |vals|
      ensures NoWorse(vals, t, x, y, m.preferFewer)
    {
      var dy := Dist(vals, y, t);
      EveryAssignmentFits(m, y);
      ObjectiveOrder(m, y, x, dy, dx);
    }
  }

  /**
   * Completeness of the encoding: every reference optimum, with its sum and
   * deviation, minimises the CP objective.
   */
  lemma EncodingComplete(m: CpModel, x: seq<bool>)
    requires WellFormed(m)
    requires IsBestSubset(m.scaledVals, m.scaledTarget, x, m.preferFewer)
    ensures Minimises(m, x, SelectedSum(m.scaledVals, x), Dist(m.scaledVals, x, m.scaledTarget))
  {
    var vals, t := m.scaledVals, m.scaledTarget;
    var dx := Dist(vals, x, t);
    EveryAssignmentFits(m, x);
    forall y, s, d | Satisfies(m, y, s, d)
      ensures Objective(m, x, dx) <= Objective(m, y, d)
    {
      var dy := Dist(vals, y, t);
      assert dx <= dy <= d;
      if dx == d {
        assert dy == dx;
      }
      ObjectiveOrder(m, x, y, dx, d);
    }
  }

  /** The model always has an optimum, so a proven-infeasible answer never arises from it. */
  lemma ModelHasOptimum(m: CpModel)
    requires WellFormed(m)
    ensures exists x, s, d :: Minimises(m, x, s, d)
  {
    var x := BruteForce(m.scaledVals, m.scaledTarget, m.preferFewer);
    BruteForceIsBest(m.scaledVals, m.scaledTarget, m.preferFewer);
    EncodingComplete(m, x);
  }
}
