/**
 * The subset-selection problem of `solve_subset_selection`, stated over whole
 * scale units: choose x_j in {0,1} to minimise |sum_j x_j * value_j - target|,
 * and, when fewer codes are preferred, use as few codes as possible among the
 * choices that reach that minimum.
 *
 * An assignment is a `seq<bool>`, one entry per candidate. `BruteForce` is a
 * reference solver that tries every subset; it defines what an optimal answer is,
 * independently of the CP-SAT encoding.
 */
module Subsets {

  function Abs(v: int): nat {
    if v < 0 then -v else v
  }

  /** `sum(scaled_vals)` */
  function Sum(vals: seq<int>): int {
    if vals == [] then 0 else Sum(vals[..|vals| - 1]) + vals[|vals| - 1]
  }

  /** `sum(x_i * scaled_vals[i])`: the total of the chosen values. */
  function SelectedSum(vals: seq<int>, x: seq<bool>): int
    requires |x| == |vals|
  {
    if vals == [] then 0
    else
      var n := |vals| - 1;
      SelectedSum(vals[..n], x[..n]) + (if x[n] then vals[n] else 0)
  }

  /** `sum(x)`: the number of chosen codes. */
  function Count(x: seq<bool>): nat {
    multiset(x)[true]
  }

  /** The deviation |selected sum - target| of an assignment. */
  function Dist(vals: seq<int>, x: seq<bool>, target: int): nat
    requires |x| == |vals|
  {
    Abs(SelectedSum(vals, x) - target)
  }

  /**
   * The reference specification of an optimal answer: no subset of the
   * candidates comes closer to the target, and with `preferFewer` no equally
   * close subset uses fewer codes.
   */
  ghost predicate IsBestSubset(vals: seq<int>, target: int, x: seq<bool>, preferFewer: bool) {
    && |x| == |vals|
    && forall y: seq<bool> | |y| == |vals| ::
         && Dist(vals, x, target) <= Dist(vals, y, target)
         && (preferFewer && Dist(vals, x, target) == Dist(vals, y, target) ==> Count(x) <= Count(y))
  }

  /** The lexicographically smaller of the two (deviation first, then number of codes). */
  predicate NoWorse(vals: seq<int>, target: int, x: seq<bool>, y: seq<bool>, preferFewer: bool)
    requires |x| == |vals| && |y| == |vals|
  {
    || Dist(vals, x, target) < Dist(vals, y, target)
    || (Dist(vals, x, target) == Dist(vals, y, target) && (!preferFewer || Count(x) <= Count(y)))
  }

  /** Tries both choices for the last candidate and keeps the better completion. */
  function BruteForce(vals: seq<int>, target: int, preferFewer: bool): (x: seq<bool>)
    ensures |x| == |vals|
  {
    if vals == [] then []
    else
      var n := |vals| - 1;
      var take := BruteForce(vals[..n], target - vals[n], preferFewer) + [true];
      var skip := BruteForce(vals[..n], target, preferFewer) + [false];
      if NoWorse(vals, target, skip, take, preferFewer) then skip else take
  }

  /** Choosing the last candidate shifts the target of the rest by its value. */
  lemma LastChoice(vals: seq<int>, x: seq<bool>, target: int)
    requires |x| == |vals| > 0
    ensures var n := |vals| - 1;
      && Dist(vals, x, target) == Dist(vals[..n], x[..n], if x[n] then target - vals[n] else target)
      && Count(x) == Count(x[..n]) + (if x[n] then 1 else 0)
  {
    var n := |vals| - 1;
    assert x == x[..n] + [x[n]];
  }

  /** The lexicographic order is transitive. */
  lemma NoWorseTransitive(vals: seq<int>, target: int, x: seq<bool>, y: seq<bool>, z: seq<bool>, preferFewer: bool)
    requires |x| == |vals| && |y| == |vals| && |z| == |vals|
    requires NoWorse(vals, target, x, y, preferFewer) && NoWorse(vals, target, y, z, preferFewer)
    ensures NoWorse(vals, target, x, z, preferFewer)
  {
  }

  /**
   * The completion that makes the same last choice as `y` is no worse than `y`
   * once its prefix is no worse than `y`'s prefix.
   */
  lemma SameLastChoice(vals: seq<int>, target: int, preferFewer: bool, y: seq<bool>, prefix: seq<bool>)
    requires |y| == |vals| > 0
    requires var n := |vals| - 1;
      && |prefix| == n
      && NoWorse(vals[..n], if y[n] then target - vals[n] else target, prefix, y[..n], preferFewer)
    ensures NoWorse(vals, target, prefix + [y[|vals| - 1]], y, preferFewer)
  {
    var n := |vals| - 1;
    var z := prefix + [y[n]];
    assert z[..n] == prefix && z[n] == y[n];
    LastChoice(vals, z, target);
    LastChoice(vals, y, target);
  }

  /** No assignment is lexicographically better than the reference solver's. */
  lemma {:induction false} BruteForceNoWorse(vals: seq<int>, target: int, preferFewer: bool, y: seq<bool>)
    requires |y| == |vals|
    ensures NoWorse(vals, target, BruteForce(vals, target, preferFewer), y, preferFewer)
  {
    if vals != [] {
      var x := BruteForce(vals, target, preferFewer);
      var n := |vals| - 1;
      var rest := if y[n] then target - vals[n] else target;
      var prefix := BruteForce(vals[..n], rest, preferFewer);
      BruteForceNoWorse(vals[..n], rest, preferFewer, y[..n]);
      SameLastChoice(vals, target, preferFewer, y, prefix);
      var best := prefix + [y[n]];
      assert NoWorse(vals, target, x, best, preferFewer);
      NoWorseTransitive(vals, target, x, best, y, preferFewer);
    }
  }

  /** The reference solver meets the reference specification. */
  lemma BruteForceIsBest(vals: seq<int>, target: int, preferFewer: bool)
    ensures IsBestSubset(vals, target, BruteForce(vals, target, preferFewer), preferFewer)
  {
    forall y: seq<bool> | |y| == |vals|
      ensures NoWorse(vals, target, BruteForce(vals, target, preferFewer), y, preferFewer)
    {
      BruteForceNoWorse(vals, target, preferFewer, y);
    }
  }

  /**
   * Two optimal answers may select different codes, but they agree on the
   * deviation and, with `preferFewer`, on the number of codes.
   */
  lemma OptimaAgree(vals: seq<int>, target: int, x: seq<bool>, y: seq<bool>, preferFewer: bool)
    requires IsBestSubset(vals, target, x, preferFewer) && IsBestSubset(vals, target, y, preferFewer)
    ensures Dist(vals, x, target) == Dist(vals, y, target)
    ensures preferFewer ==> Count(x) == Count(y)
  {
  }

  /** With non-negative values, every subset sums to between 0 and the total. */
  lemma {:induction false} SelectedSumBounds(vals: seq<int>, x: seq<bool>)
    requires |x| == |vals|
    requires forall i :: 0 <= i < |vals| ==> vals[i] >= 0
    ensures 0 <= SelectedSum(vals, x) <= Sum(vals)
  {
    if vals != [] {
      var n := |vals| - 1;
      SelectedSumBounds(vals[..n], x[..n]);
    }
  }
}
