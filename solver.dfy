/**
 * `solve_subset_selection` end to end: preprocessing, the model, the solver
 * call and the interpretation of its assignment into a result record.
 *
 * The CP-SAT search is a foreign call. It is a parameter here, `backend`, a
 * function from the model to a reply (a status and a value for every
 * variable). What an OPTIMAL reply promises is stated by
 * `Formulation.Minimises`; the lemmas show what the result then satisfies.
 * The time limit, the worker count and the measured solve time are not modelled.
 */
module Solver {
  import opened Preprocess
  import Subsets
  import opened Formulation

  /** The solver statuses of `status_map` in `solve_subset_selection`. */
  datatype Status = Optimal | Feasible | Infeasible | Unknown | ModelInvalid

  datatype Option<T> = None | Some(value: T)

  /** What the backend returns: a status and a value for each boolean, `sum_var` and `diff`. */
  datatype Reply = Reply(status: Status, x: seq<bool>, sum: int, diff: int)

  /**
   * The dict returned by `solve_subset_selection` (without `solve_time`).
   * The early INFEASIBLE answer has no `num_candidates` key: `None`.
   */
  datatype SolveResult = SolveResult(
    status: Status,
    selected: seq<string>,
    selectedSum: real,
    target: real,
    absError: real,
    scaledError: int,
    numCandidates: Option<nat>)

  /** The backend gives every boolean variable of the model it is handed a value. */
  ghost predicate AssignsEveryVariable(backend: CpModel -> Reply) {
    forall m: CpModel :: |backend(m).x| == |m.scaledVals|
  }

  // ---------------------------------------------------------------------------
  // Interpretation of an assignment

  /** The entries of `s` whose variable is 1, in the order of `s`. */
  function Pick<T>(s: seq<T>, x: seq<bool>): seq<T>
    requires |x| == |s|
  {
    if s == [] then []
    else
      var n := |s| - 1;
      Pick(s[..n], x[..n]) + (if x[n] then [s[n]] else [])
  }

  /** The indices whose variable is 1, in increasing order. */
  function Chosen(x: seq<bool>): seq<nat> {
    if x == [] then []
    else
      var n := |x| - 1;
      Chosen(x[..n]) + (if x[n] then [n] else [])
  }

  /** The chosen indices are in range, set, strictly increasing, and include every set index. */
  lemma {:induction false} ChosenIndices(x: seq<bool>)
    ensures |Chosen(x)| == Subsets.Count(x)
    ensures forall k :: 0 <= k < |Chosen(x)| ==> Chosen(x)[k] < |x| && x[Chosen(x)[k]]
    ensures forall k, l :: 0 <= k < l < |Chosen(x)| ==> Chosen(x)[k] < Chosen(x)[l]
    ensures forall i :: 0 <= i < |x| && x[i] ==> i in Chosen(x)
  {
    if x != [] {
      var n := |x| - 1;
      ChosenIndices(x[..n]);
      assert x == x[..n] + [x[n]];
    }
  }

  /** The k-th picked entry is the entry at the k-th chosen index. */
  lemma {:induction false} PickAt<T>(s: seq<T>, x: seq<bool>)
    requires |x| == |s|
    ensures |Pick(s, x)| == |Chosen(x)|
    ensures forall k :: 0 <= k < |Chosen(x)| ==> Chosen(x)[k] < |s| && Pick(s, x)[k] == s[Chosen(x)[k]]
  {
    if s != [] {
      var n := |s| - 1;
      PickAt(s[..n], x[..n]);
      ChosenIndices(x[..n]);
    }
  }

  /**
   * `Pick(s, x)` is the subsequence of `s` at exactly the indices whose
   * variable is 1, taken in increasing order; it has one entry per chosen code.
   */
  lemma PickInOrder<T>(s: seq<T>, x: seq<bool>)
    requires |x| == |s|
    ensures |Pick(s, x)| == |Chosen(x)| == Subsets.Count(x)
    ensures forall k :: 0 <= k < |Chosen(x)| ==> Chosen(x)[k] < |s| && x[Chosen(x)[k]] && Pick(s, x)[k] == s[Chosen(x)[k]]
    ensures forall k, l :: 0 <= k < l < |Chosen(x)| ==> Chosen(x)[k] < Chosen(x)[l]
    ensures forall i :: 0 <= i < |x| && x[i] ==> i in Chosen(x)
  {
    ChosenIndices(x);
    PickAt(s, x);
  }

  /** A name is selected exactly when some candidate of that name has its variable set. */
  lemma PickMembership<T>(s: seq<T>, x: seq<bool>, v: T)
    requires |x| == |s|
    ensures v in Pick(s, x) <==> exists i :: 0 <= i < |s| && x[i] && s[i] == v
  {
    PickInOrder(s, x);
    var r, idx := Pick(s, x), Chosen(x);
    if v in r {
      var k :| 0 <= k < |r| && r[k] == v;
      assert x[idx[k]] && s[idx[k]] == v;
    }
    if i :| 0 <= i < |s| && x[i] && s[i] == v {
      var k :| 0 <= k < |idx| && idx[k] == i;
      assert r[k] == v;
    }
  }

  /** Picking from distinct entries gives distinct entries. */
  lemma PickDistinct<T>(s: seq<T>, x: seq<bool>)
    requires |x| == |s| && Distinct(s)
    ensures Distinct(Pick(s, x))
  {
    PickInOrder(s, x);
  }

  /** The selected sum is the sum of the scaled values of the selected candidates. */
  lemma {:induction false} SelectedSumIsSumOfPicked(vals: seq<int>, x: seq<bool>)
    requires |x| == |vals|
    ensures Subsets.SelectedSum(vals, x) == Subsets.Sum(Pick(vals, x))
  {
    if vals != [] {
      var n := |vals| - 1;
      SelectedSumIsSumOfPicked(vals[..n], x[..n]);
      var p := Pick(vals[..n], x[..n]);
      if x[n] {
        var q := p + [vals[n]];
        assert Pick(vals, x) == q;
        assert q[..|q| - 1] == p;
        assert Subsets.Sum(q) == Subsets.Sum(p) + vals[n];
      } else {
        assert Pick(vals, x) == p;
      }
    }
  }

  /** The selection loop of `solve_subset_selection`: append each name whose variable is 1. */
  method CollectSelected(names: seq<string>, x: seq<bool>) returns (selected: seq<string>)
    requires |x| == |names|
    ensures selected == Pick(names, x)
    ensures forall nm :: nm in selected <==> exists i :: 0 <= i < |names| && x[i] && names[i] == nm
  {
    selected := [];
    for i := 0 to |names|
      invariant selected == Pick(names[..i], x[..i])
    {
      assert names[..i + 1][..i] == names[..i] && x[..i + 1][..i] == x[..i];
      if x[i] {
        selected := selected + [names[i]];
      }
    }
    assert names[..|names|] == names && x[..|x|] == x;
    forall nm
      ensures nm in selected <==> exists i :: 0 <= i < |names| && x[i] && names[i] == nm
    {
      PickMembership(names, x, nm);
    }
  }

  // ---------------------------------------------------------------------------
  // The whole call

  /** `v / float(scale)`: a whole number of scale units back in dollars. */
  function Dollars(units: int, scale: int): real
    requires scale > 0
  {
    units as real / scale as real
  }

  /** The CP-SAT model `solve_subset_selection` builds for the given candidates. */
  function ModelOf(cands: seq<PayCode>, target: real, scale: int, preferFewer: bool): CpModel {
    Formulate(ScaledValues(cands, scale), ToUnits(target, scale), preferFewer)
  }

  /**
   * The tail of `solve_subset_selection`: the result record built from the reply for the given
   * candidates and model.
   */
  function Interpret(cands: seq<PayCode>, m: CpModel, target: real, scale: int, reply: Reply): SolveResult
    requires scale > 0 && |reply.x| == |cands| == |m.scaledVals|
  {
    var units := Subsets.SelectedSum(m.scaledVals, reply.x);
    var err := Subsets.Abs(units - m.scaledTarget);
    SolveResult(reply.status, Pick(Names(cands), reply.x), Dollars(units, scale),
                target, Dollars(err, scale), err, Some(|cands|))
  }

  /** The result `solve_subset_selection` returns for a given backend. */
  function Solution(values: seq<PayCode>, target: real, scale: int, maxCandidates: int,
                    preferFewer: bool, backend: CpModel -> Reply): SolveResult
    requires scale > 0 && AssignsEveryVariable(backend)
  {
    if NonZero(values) == [] then
      SolveResult(Infeasible, [], 0.0, target, target, ToUnits(target, scale), None)
    else
      var cands := Candidates(values, maxCandidates);
      var m := ModelOf(cands, target, scale, preferFewer);
      Interpret(cands, m, target, scale, backend(m))
  }

  /** The tail of `solve_subset_selection`, step by step: the selection loop, then the sums and the record. */
  method ReadReply(cands: seq<PayCode>, m: CpModel, target: real, scale: int, reply: Reply)
    returns (r: SolveResult)
    requires scale > 0 && |reply.x| == |cands| == |m.scaledVals|
    ensures r == Interpret(cands, m, target, scale, reply)
  {
    var selected := CollectSelected(Names(cands), reply.x);
    var units := Subsets.SelectedSum(m.scaledVals, reply.x);
    var err := Subsets.Abs(units - m.scaledTarget);
    r := SolveResult(reply.status, selected, Dollars(units, scale), target,
                     Dollars(err, scale), err, Some(|cands|));
  }

  method SolveSubsetSelection(values: seq<PayCode>, target: real, scale: int, maxCandidates: int,
                              preferFewer: bool, backend: CpModel -> Reply) returns (r: SolveResult)
    requires scale > 0 && AssignsEveryVariable(backend)
    ensures r == Solution(values, target, scale, maxCandidates, preferFewer, backend)
  {
    var items := NonZero(values);
    if items == [] {
      return SolveResult(Infeasible, [], 0.0, target, target, ToUnits(target, scale), None);
    }
    items := SortByMagnitude(items);
    if |items| > maxCandidates {
      items := Prefix(items, maxCandidates);
    }
    assert items == Candidates(values, maxCandidates);
    var m := ModelOf(items, target, scale, preferFewer);
    var reply := backend(m);
    r := ReadReply(items, m, target, scale, reply);
  }

  // ---------------------------------------------------------------------------
  // Properties of the result

  /**
   * Without a non-zero amount the answer is INFEASIBLE with nothing selected,
   * the whole target as error, and the backend is never consulted.
   */
  lemma SolutionWithoutCandidates(values: seq<PayCode>, target: real, scale: int, maxCandidates: int,
                                  preferFewer: bool, backend: CpModel -> Reply, other: CpModel -> Reply)
    requires scale > 0 && AssignsEveryVariable(backend) && AssignsEveryVariable(other)
    requires forall p :: p in values ==> p.amount == 0.0
    ensures var r := Solution(values, target, scale, maxCandidates, preferFewer, backend);
      && r.status == Infeasible && r.selected == [] && r.selectedSum == 0.0
      && r.absError == target && r.scaledError == ToUnits(target, scale) && r.numCandidates == None
      && r == Solution(values, target, scale, maxCandidates, preferFewer, other)
  {
    AllZeroLeavesNothing(values);
  }

  /** After a solve, the result is the interpretation of the backend's reply to the candidates' model. */
  lemma SolvedResult(values: seq<PayCode>, target: real, scale: int, maxCandidates: int,
                     preferFewer: bool, backend: CpModel -> Reply)
    requires scale > 0 && AssignsEveryVariable(backend)
    requires NonZero(values) != []
    ensures var cands := Candidates(values, maxCandidates);
      var m := ModelOf(cands, target, scale, preferFewer);
      && |backend(m).x| == |cands| == |m.scaledVals|
      && m.scaledTarget == ToUnits(target, scale)
      && Solution(values, target, scale, maxCandidates, preferFewer, backend)
         == Interpret(cands, m, target, scale, backend(m))
  {
  }

  /** `num_candidates` never exceeds `max_candidates` nor the number of non-zero amounts. */
  lemma SolutionCandidateCount(values: seq<PayCode>, target: real, scale: int, maxCandidates: int,
                               preferFewer: bool, backend: CpModel -> Reply)
    requires scale > 0 && AssignsEveryVariable(backend)
    requires NonZero(values) != []
    ensures var r := Solution(values, target, scale, maxCandidates, preferFewer, backend);
      && r.numCandidates.Some?
      && r.numCandidates.value <= |NonZero(values)|
      && (maxCandidates >= 0 ==> r.numCandidates.value <= maxCandidates)
  {
    SolvedResult(values, target, scale, maxCandidates, preferFewer, backend);
    CandidateCount(values, maxCandidates);
  }

  /** The selection properties of `Pick` applied to the candidate names. */
  lemma PickedNames(values: seq<PayCode>, maxCandidates: int, x: seq<bool>)
    requires |x| == |Candidates(values, maxCandidates)|
    ensures var cands := Candidates(values, maxCandidates);
      var sel := Pick(Names(cands), x);
      && |sel| == Subsets.Count(x)
      && (forall nm :: nm in sel <==> exists i :: 0 <= i < |cands| && x[i] && cands[i].name == nm)
      && (forall nm :: nm in sel ==> exists p :: p in values && p.name == nm && p.amount != 0.0)
      && (DistinctNames(values) ==> Distinct(sel))
  {
    var cands := Candidates(values, maxCandidates);
    var names := Names(cands);
    var sel := Pick(names, x);
    CandidatesAreNonZero(values, maxCandidates);
    PickInOrder(names, x);
    forall nm
      ensures nm in sel <==> exists i :: 0 <= i < |cands| && x[i] && cands[i].name == nm
    {
      PickMembership(names, x, nm);
    }
    forall nm | nm in sel
      ensures exists p :: p in values && p.name == nm && p.amount != 0.0
    {
      var i :| 0 <= i < |cands| && x[i] && cands[i].name == nm;
      assert cands[i] in cands;
    }
    if DistinctNames(values) {
      CandidatesHaveDistinctNames(values, maxCandidates);
      PickDistinct(names, x);
    }
  }

  /**
   * `selected` holds exactly the names of the candidates whose variable is 1,
   * each a non-zero pay code of the input, one per chosen variable, and without
   * repetition when the input names are distinct.
   */
  lemma SolutionSelection(values: seq<PayCode>, target: real, scale: int, maxCandidates: int,
                          preferFewer: bool, backend: CpModel -> Reply)
    requires scale > 0 && AssignsEveryVariable(backend)
    requires NonZero(values) != []
    ensures var r := Solution(values, target, scale, maxCandidates, preferFewer, backend);
      var cands := Candidates(values, maxCandidates);
      var x := backend(ModelOf(cands, target, scale, preferFewer)).x;
      && |r.selected| == Subsets.Count(x)
      && (forall nm :: nm in r.selected <==> exists i :: 0 <= i < |cands| && x[i] && cands[i].name == nm)
      && (forall nm :: nm in r.selected ==> exists p :: p in values && p.name == nm && p.amount != 0.0)
      && (DistinctNames(values) ==> Distinct(r.selected))
  {
    var cands := Candidates(values, maxCandidates);
    SolvedResult(values, target, scale, maxCandidates, preferFewer, backend);
    PickedNames(values, maxCandidates, backend(ModelOf(cands, target, scale, preferFewer)).x);
  }

  /**
   * The k-th selected name and the k-th picked scaled value come from the same
   * candidate, the `Chosen(x)[k]`-th: `selected` and the selected values are in step.
   */
  lemma InterpretPicks(cands: seq<PayCode>, m: CpModel, target: real, scale: int, reply: Reply)
    requires scale > 0 && |reply.x| == |cands| == |m.scaledVals|
    ensures var r := Interpret(cands, m, target, scale, reply);
      var picked := Pick(m.scaledVals, reply.x);
      && |picked| == |r.selected| == |Chosen(reply.x)|
      && forall k :: 0 <= k < |r.selected| ==>
           var i := Chosen(reply.x)[k];
           i < |cands| && r.selected[k] == cands[i].name && picked[k] == m.scaledVals[i]
  {
    PickInOrder(m.scaledVals, reply.x);
    PickInOrder(Names(cands), reply.x);
  }

  /**
   * Conservation: `selected_sum` is the sum of the scaled values of exactly the
   * selected candidates, back in dollars; `scaled_error` is the exact distance
   * of that sum from the scaled target, and `abs_error` the same in dollars.
   */
  lemma InterpretSums(cands: seq<PayCode>, m: CpModel, target: real, scale: int, reply: Reply)
    requires scale > 0 && |reply.x| == |cands| == |m.scaledVals|
    ensures var r := Interpret(cands, m, target, scale, reply);
      var total := Subsets.Sum(Pick(m.scaledVals, reply.x));
      && r.selectedSum == Dollars(total, scale)
      && r.scaledError == Subsets.Abs(total - m.scaledTarget)
      && r.absError == Dollars(r.scaledError, scale)
      && r.selectedSum * scale as real == total as real
      && r.absError * scale as real == r.scaledError as real
      && r.target == target
  {
    SelectedSumIsSumOfPicked(m.scaledVals, reply.x);
  }

  /**
   * Conservation for the whole call: `selected_sum` is the sum of the scaled
   * values of exactly the selected candidates, divided by the scale, and
   * `abs_error` is `scaled_error` divided by the scale (`InterpretSums` gives
   * the same facts multiplied back out).
   */
  lemma SolutionConservation(values: seq<PayCode>, target: real, scale: int, maxCandidates: int,
                             preferFewer: bool, backend: CpModel -> Reply)
    requires scale > 0 && AssignsEveryVariable(backend)
    requires NonZero(values) != []
    ensures var r := Solution(values, target, scale, maxCandidates, preferFewer, backend);
      var m := ModelOf(Candidates(values, maxCandidates), target, scale, preferFewer);
      && r.selectedSum == Dollars(Subsets.Sum(Pick(m.scaledVals, backend(m).x)), scale)
      && r.absError == Dollars(r.scaledError, scale)
  {
    var cands := Candidates(values, maxCandidates);
    var m := ModelOf(cands, target, scale, preferFewer);
    SolvedResult(values, target, scale, maxCandidates, preferFewer, backend);
    InterpretSums(cands, m, target, scale, backend(m));
  }

  /**
   * When the backend's reply minimises the model's objective (the meaning of
   * OPTIMAL), the selection is a reference optimum: no subset of the candidates
   * comes closer to the scaled target, and with `preferFewer` no equally close
   * subset uses fewer codes.
   */
  lemma SolutionOptimal(values: seq<PayCode>, target: real, scale: int, maxCandidates: int,
                        preferFewer: bool, backend: CpModel -> Reply)
    requires scale > 0 && AssignsEveryVariable(backend)
    requires target >= 0.0 && forall p :: p in values ==> p.amount >= 0.0
    requires 0 <= maxCandidates < LARGE_FLOOR
    requires NonZero(values) != []
    requires var m := ModelOf(Candidates(values, maxCandidates), target, scale, preferFewer);
      Minimises(m, backend(m).x, backend(m).sum, backend(m).diff)
    ensures var r := Solution(values, target, scale, maxCandidates, preferFewer, backend);
      var m := ModelOf(Candidates(values, maxCandidates), target, scale, preferFewer);
      && r.scaledError == backend(m).diff
      && Subsets.IsBestSubset(m.scaledVals, m.scaledTarget, backend(m).x, preferFewer)
      && forall y: seq<bool> | |y| == |m.scaledVals| ::
           && r.scaledError <= Subsets.Dist(m.scaledVals, y, m.scaledTarget)
           && (preferFewer && r.scaledError == Subsets.Dist(m.scaledVals, y, m.scaledTarget) ==> |r.selected| <= Subsets.Count(y))
  {
    var cands := Candidates(values, maxCandidates);
    var m := ModelOf(cands, target, scale, preferFewer);
    var x := backend(m).x;
    SolvedResult(values, target, scale, maxCandidates, preferFewer, backend);
    ModelWellFormed(cands, target, scale, preferFewer, maxCandidates, values);
    EncodingSound(m, x, backend(m).sum, backend(m).diff);
    PickInOrder(Names(cands), x);
  }

  /** Candidates from non-negative amounts and a non-negative target give a well-formed model. */
  lemma ModelWellFormed(cands: seq<PayCode>, target: real, scale: int, preferFewer: bool,
                        maxCandidates: int, values: seq<PayCode>)
    requires scale > 0 && target >= 0.0 && forall p :: p in values ==> p.amount >= 0.0
    requires 0 <= maxCandidates < LARGE_FLOOR && cands == Candidates(values, maxCandidates)
    ensures WellFormed(ModelOf(cands, target, scale, preferFewer))
  {
    CandidateCount(values, maxCandidates);
    CandidatesAreNonZero(values, maxCandidates);
    ScaledValuesNonNegative(cands, scale);
  }
}
