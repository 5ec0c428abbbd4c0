/**
 * Worked cases of `solve_subset_selection`, with the
 * defaults `scale = 100`, `max_candidates = 50` and `prefer_fewer = True`.
 * The backend is any backend whose reply minimises the model's objective.
 */
module Scenarios {
  import opened Preprocess
  import Subsets
  import opened Formulation
  import opened Solver

  /** `{A: 100}` */
  function OneCode(): seq<PayCode> {
    [PayCode("A", 100.0)]
  }

  /** The single non-zero code is the single candidate; in cents, 10000 against 100000. */
  lemma OneCodeModel()
    ensures NonZero(OneCode()) == OneCode()
    ensures Candidates(OneCode(), 50) == OneCode()
    ensures ModelOf(OneCode(), 1000.0, 100, true).scaledVals == [10000]
    ensures ModelOf(OneCode(), 1000.0, 100, true).scaledTarget == 100000
  {
    assert NonZero(OneCode()) == OneCode();
    assert SortByMagnitude(OneCode()) == OneCode();
    assert ToUnits(100.0, 100) == 10000;
    assert ToUnits(1000.0, 100) == 100000;
  }

  /** Taking the code misses 100000 by 90000, leaving it out by 100000: the only optimum takes it. */
  lemma OneCodeOptimum(x: seq<bool>)
    requires Subsets.IsBestSubset([10000], 100000, x, true)
    ensures x == [true]
  {
    var vals := [10000];
    assert vals[..0] == [] && [true][..0] == [] && [false][..0] == [];
    assert Subsets.Dist(vals, [true], 100000) == 90000;
    assert Subsets.Dist(vals, [false], 100000) == 100000;
    assert x[..0] == [];
    assert x == [x[0]];
  }

  /** A reply minimising the objective takes the code. */
  lemma OneCodeAssignment(backend: CpModel -> Reply)
    requires AssignsEveryVariable(backend)
    requires var m := ModelOf(Candidates(OneCode(), 50), 1000.0, 100, true);
      Minimises(m, backend(m).x, backend(m).sum, backend(m).diff)
    ensures backend(ModelOf(OneCode(), 1000.0, 100, true)).x == [true]
  {
    var m := ModelOf(OneCode(), 1000.0, 100, true);
    var x := backend(m).x;
    OneCodeModel();
    assert WellFormed(m);
    EncodingSound(m, x, backend(m).sum, backend(m).diff);
    OneCodeOptimum(x);
  }

  /** The record read from a reply that takes the single code. */
  lemma OneCodeRecord(m: CpModel, reply: Reply)
    requires m.scaledVals == [10000] && m.scaledTarget == 100000
    requires reply.x == [true]
    ensures var r := Interpret(OneCode(), m, 1000.0, 100, reply);
      r.selected == ["A"] && r.selectedSum == 100.0 && r.absError == 900.0 && r.scaledError == 90000
  {
    assert [10000][..0] == [] && [true][..0] == [];
    assert Names(OneCode()) == ["A"] && ["A"][..0] == [];
    assert Subsets.SelectedSum(m.scaledVals, reply.x) == 10000;
  }

  /**
   * A single code of 100 against a target of 1000: the best answer selects it
   * and misses by 900.
   */
  lemma SingleCodeShortOfTarget(backend: CpModel -> Reply)
    requires AssignsEveryVariable(backend)
    requires var m := ModelOf(Candidates(OneCode(), 50), 1000.0, 100, true);
      Minimises(m, backend(m).x, backend(m).sum, backend(m).diff)
    ensures var r := Solution(OneCode(), 1000.0, 100, 50, true, backend);
      r.selected == ["A"] && r.selectedSum == 100.0 && r.absError == 900.0 && r.scaledError == 90000
  {
    var m := ModelOf(OneCode(), 1000.0, 100, true);
    OneCodeModel();
    OneCodeAssignment(backend);
    OneCodeRecord(m, backend(m));
    SolvedResult(OneCode(), 1000.0, 100, 50, true, backend);
  }

  /** `{A: 1000, B: 50, C: 25}` */
  function ThreeCodes(): seq<PayCode> {
    [PayCode("A", 1000.0), PayCode("B", 50.0), PayCode("C", 25.0)]
  }

  /** None of the three amounts is zero. */
  lemma ThreeCodesNonZero()
    ensures NonZero(ThreeCodes()) == ThreeCodes()
  {
    var values := ThreeCodes();
    assert NonZero(values[2..]) == values[2..];
    assert NonZero(values[1..]) == values[1..];
  }

  /** The three amounts are already ordered by magnitude. */
  lemma ThreeCodesSorted()
    ensures SortByMagnitude(ThreeCodes()) == ThreeCodes()
  {
    var values := ThreeCodes();
    assert SortByMagnitude(values[2..]) == values[2..];
    assert SortByMagnitude(values[1..]) == values[1..];
  }

  /** So all three are candidates, in the order given. */
  lemma ThreeCodesCandidates()
    ensures Candidates(ThreeCodes(), 50) == ThreeCodes()
  {
    ThreeCodesNonZero();
    ThreeCodesSorted();
  }

  /** In cents: 100000, 5000 and 2500 against 105000. */
  lemma ThreeCodesModel()
    ensures ModelOf(ThreeCodes(), 1050.0, 100, true).scaledVals == [100000, 5000, 2500]
    ensures ModelOf(ThreeCodes(), 1050.0, 100, true).scaledTarget == 105000
  {
    assert ToUnits(1000.0, 100) == 100000;
    assert ToUnits(50.0, 100) == 5000;
    assert ToUnits(25.0, 100) == 2500;
    assert ToUnits(1050.0, 100) == 105000;
  }

  /** Of the eight subsets, only {A, B} sums to the target exactly. */
  lemma OnlyExactSubset(x: seq<bool>)
    requires |x| == 3
    ensures Subsets.SelectedSum([100000, 5000, 2500], x) == 105000 <==> x == [true, true, false]
    ensures Subsets.Dist([100000, 5000, 2500], x, 105000) == 0 <==> x == [true, true, false]
  {
    var vals := [100000, 5000, 2500];
    assert vals[..2] == [100000, 5000] && vals[..2][..1] == [100000] && vals[..2][..1][..0] == [];
    assert Subsets.SelectedSum(vals[..2][..1], x[..2][..1]) == if x[0] then 100000 else 0;
    assert Subsets.SelectedSum(vals[..2], x[..2]) == Subsets.SelectedSum(vals[..2][..1], x[..2][..1]) + if x[1] then 5000 else 0;
    assert Subsets.SelectedSum(vals, x) == Subsets.SelectedSum(vals[..2], x[..2]) + if x[2] then 2500 else 0;
    assert x == [true, true, false] <==> x[0] && x[1] && !x[2];
  }

  /** Choosing the first two candidates selects the names A and B. */
  lemma PickFirstTwo()
    ensures Pick(Names(ThreeCodes()), [true, true, false]) == ["A", "B"]
  {
    var names := Names(ThreeCodes());
    var x := [true, true, false];
    assert names == ["A", "B", "C"];
    assert x[..2] == [true, true] && x[..2][..1] == [true] && x[..2][..1][..0] == [];
    assert names[..2] == ["A", "B"] && names[..2][..1] == ["A"] && names[..2][..1][..0] == [];
    assert Pick(names[..2][..1], x[..2][..1]) == ["A"];
    assert Pick(names[..2], x[..2]) == ["A", "B"];
  }

  /** An optimal assignment is at least as close as any given one. */
  lemma BestBeatsAny(vals: seq<int>, target: int, x: seq<bool>, preferFewer: bool, y: seq<bool>)
    requires Subsets.IsBestSubset(vals, target, x, preferFewer) && |y| == |vals|
    ensures Subsets.Dist(vals, x, target) <= Subsets.Dist(vals, y, target)
  {
  }

  /** The exact hit is the only optimum. */
  lemma ExactOptimum(x: seq<bool>)
    requires Subsets.IsBestSubset([100000, 5000, 2500], 105000, x, true)
    ensures x == [true, true, false]
  {
    var best := [true, true, false];
    OnlyExactSubset(best);
    BestBeatsAny([100000, 5000, 2500], 105000, x, true, best);
    OnlyExactSubset(x);
  }

  /** The model of this case is well formed (non-negative, few candidates). */
  lemma ThreeCodesWellFormed()
    ensures WellFormed(ModelOf(ThreeCodes(), 1050.0, 100, true))
  {
    ThreeCodesModel();
  }

  /** A reply minimising the objective assigns exactly A and B. */
  lemma ExactHitAssignment(backend: CpModel -> Reply)
    requires AssignsEveryVariable(backend)
    requires var m := ModelOf(Candidates(ThreeCodes(), 50), 1050.0, 100, true);
      Minimises(m, backend(m).x, backend(m).sum, backend(m).diff)
    ensures backend(ModelOf(ThreeCodes(), 1050.0, 100, true)).x == [true, true, false]
  {
    var m := ModelOf(ThreeCodes(), 1050.0, 100, true);
    var x := backend(m).x;
    ThreeCodesCandidates();
    ThreeCodesWellFormed();
    EncodingSound(m, x, backend(m).sum, backend(m).diff);
    ThreeCodesModel();
    ExactOptimum(x);
  }

  /** The record read from a reply that picks A and B of the three codes. */
  lemma ExactHitRecord(m: CpModel, reply: Reply)
    requires m.scaledVals == [100000, 5000, 2500] && m.scaledTarget == 105000
    requires reply.x == [true, true, false]
    ensures var r := Interpret(ThreeCodes(), m, 1050.0, 100, reply);
      r.selected == ["A", "B"] && r.selectedSum == 1050.0 && r.absError == 0.0 && r.scaledError == 0
  {
    OnlyExactSubset(reply.x);
    PickFirstTwo();
  }

  /** A = 1000, B = 50, C = 25 against 1050: the only exact hit is {A, B}, and the best answer finds it. */
  lemma ExactHit(backend: CpModel -> Reply)
    requires AssignsEveryVariable(backend)
    requires var m := ModelOf(Candidates(ThreeCodes(), 50), 1050.0, 100, true);
      Minimises(m, backend(m).x, backend(m).sum, backend(m).diff)
    ensures var r := Solution(ThreeCodes(), 1050.0, 100, 50, true, backend);
      r.selected == ["A", "B"] && r.selectedSum == 1050.0 && r.absError == 0.0 && r.scaledError == 0
  {
    var m := ModelOf(ThreeCodes(), 1050.0, 100, true);
    ThreeCodesCandidates();
    ThreeCodesModel();
    ExactHitAssignment(backend);
    ExactHitRecord(m, backend(m));
    ThreeCodesNonZero();
    SolvedResult(ThreeCodes(), 1050.0, 100, 50, true, backend);
  }
}
