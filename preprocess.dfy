/**
 * Candidate preprocessing of `solve_subset_selection`: drop pay codes whose
 * amount is exactly zero, sort the rest by magnitude (largest first, stable on
 * ties), keep at most `max_candidates` of them and scale each amount to whole
 * units with Python's `round`.
 *
 * Amounts are exact rationals (`real`); binary floating point is not modelled.
 */
module Preprocess {

  /** One entry of the `values` mapping: a pay code and its amount in dollars. */
  datatype PayCode = PayCode(name: string, amount: real)

  function Abs(v: real): real {
    if v < 0.0 then -v else v
  }

  /** The sort key of `solve_subset_selection`: the absolute value of the amount. */
  function Magnitude(p: PayCode): real {
    Abs(p.amount)
  }

  function Names(items: seq<PayCode>): seq<string> {
    seq(|items|, i requires 0 <= i < |items| => items[i].name)
  }

  predicate Distinct<T(==)>(s: seq<T>) {
    forall i, j :: 0 <= i < j < |s| ==> s[i] != s[j]
  }

  /** The keys of a Python dict are unique. */
  predicate DistinctNames(items: seq<PayCode>) {
    forall i, j :: 0 <= i < j < |items| ==> items[i].name != items[j].name
  }

  /**
   * `DistinctNames` is `Distinct` on the names, stated over the entries
   * themselves so that proofs need not go through `Names`.
   */
  lemma DistinctNamesAreDistinct(items: seq<PayCode>)
    ensures DistinctNames(items) <==> Distinct(Names(items))
  {
    var names := Names(items);
    assert forall i :: 0 <= i < |items| ==> names[i] == items[i].name;
  }

  // ---------------------------------------------------------------------------
  // Filtering exact zeros

  /** `[(k, v) for k, v in values.items() if v != 0.0]`, in dict order. */
  function NonZero(values: seq<PayCode>): (items: seq<PayCode>)
    ensures forall p :: multiset(items)[p] == if p.amount != 0.0 then multiset(values)[p] else 0
  {
    if values == [] then []
    else
      assert values == [values[0]] + values[1..];
      if values[0].amount != 0.0 then [values[0]] + NonZero(values[1..])
      else NonZero(values[1..])
  }

  /** One step of the filter: the first entry is kept exactly when its amount is non-zero. */
  lemma NonZeroFirst(values: seq<PayCode>)
    requires values != []
    ensures NonZero(values) == (if values[0].amount != 0.0 then [values[0]] else []) + NonZero(values[1..])
  {
  }

  /** One step of the filter on a concatenation with a non-empty front part. */
  lemma NonZeroFirstOfAppend(a: seq<PayCode>, b: seq<PayCode>)
    requires a != []
    ensures NonZero(a + b) == (if a[0].amount != 0.0 then [a[0]] else []) + NonZero(a[1..] + b)
  {
    assert (a + b)[0] == a[0] && (a + b)[1..] == a[1..] + b;
    NonZeroFirst(a + b);
  }

  lemma AppendAssociates(x: seq<PayCode>, y: seq<PayCode>, z: seq<PayCode>)
    ensures x + (y + z) == (x + y) + z
  {
  }

  /** The inductive step of `NonZeroAppend`: if the rest of the front part distributes, so does the whole. */
  lemma NonZeroAppendStep(a: seq<PayCode>, b: seq<PayCode>)
    requires a != []
    requires NonZero(a[1..] + b) == NonZero(a[1..]) + NonZero(b)
    ensures NonZero(a + b) == NonZero(a) + NonZero(b)
  {
    var head := if a[0].amount != 0.0 then [a[0]] else [];
    calc {
      NonZero(a + b);
      == { NonZeroFirstOfAppend(a, b); }
      head + NonZero(a[1..] + b);
      == { AppendAssociates(head, NonZero(a[1..]), NonZero(b)); }
      (head + NonZero(a[1..])) + NonZero(b);
      == { NonZeroFirst(a); }
      NonZero(a) + NonZero(b);
    }
  }

  /** The filter keeps dict order: filtering a concatenation filters each part and concatenates the results. */
  lemma {:induction false} NonZeroAppend(a: seq<PayCode>, b: seq<PayCode>)
    ensures NonZero(a + b) == NonZero(a) + NonZero(b)
  {
    if a == [] {
      assert a + b == b;
    } else {
      NonZeroAppend(a[1..], b);
      NonZeroAppendStep(a, b);
    }
  }

  /** When every amount is zero, nothing is left: the early INFEASIBLE answer. */
  lemma {:induction false} AllZeroLeavesNothing(values: seq<PayCode>)
    requires forall p :: p in values ==> p.amount == 0.0
    ensures NonZero(values) == []
  {
    if values != [] {
      assert values[0] in values;
      AllZeroLeavesNothing(values[1..]);
    }
  }

  lemma {:induction false} NonZeroKeepsDistinctNames(values: seq<PayCode>)
    requires DistinctNames(values)
    ensures DistinctNames(NonZero(values))
  {
    if values != [] {
      var rest := NonZero(values[1..]);
      NonZeroKeepsDistinctNames(values[1..]);
      forall q | q in rest
        ensures q.name != values[0].name
      {
        assert multiset(rest)[q] > 0;
        assert q in values[1..];
      }
    }
  }

  // ---------------------------------------------------------------------------
  // Stable sort by magnitude, largest first (`items.sort(key=abs, reverse=True)`)

  predicate Descending(s: seq<PayCode>) {
    forall i, j :: 0 <= i < j < |s| ==> Magnitude(s[j]) <= Magnitude(s[i])
  }

  /** A descending sequence stays descending under a head at least as large as its first entry. */
  lemma LargerHead(h: PayCode, t: seq<PayCode>)
    requires Descending(t)
    requires t == [] || Magnitude(t[0]) <= Magnitude(h)
    ensures Descending([h] + t)
  {
    var r := [h] + t;
    forall i, j | 0 <= i < j < |r|
      ensures Magnitude(r[j]) <= Magnitude(r[i])
    {
      if i == 0 {
        assert r[j] == t[j - 1];
      } else {
        assert r[i] == t[i - 1] && r[j] == t[j - 1];
      }
    }
  }

  /** Places `p` in front of every entry of `s` whose magnitude does not exceed its own. */
  function Insert(p: PayCode, s: seq<PayCode>): (r: seq<PayCode>)
    requires Descending(s)
    ensures Descending(r)
    ensures multiset(r) == multiset(s) + multiset{p}
    ensures forall q :: q in r <==> q == p || q in s
    ensures r[0] == p || (s != [] && r[0] == s[0])
  {
    if s == [] || Magnitude(s[0]) <= Magnitude(p) then
      LargerHead(p, s);
      [p] + s
    else
      var tail := Insert(p, s[1..]);
      assert s == [s[0]] + s[1..];
      LargerHead(s[0], tail);
      [s[0]] + tail
  }

  /** Insertion sort from the back: each entry lands before the later ones of equal magnitude. */
  function SortByMagnitude(items: seq<PayCode>): (r: seq<PayCode>)
    ensures Descending(r)
    ensures multiset(r) == multiset(items)
  {
    if items == [] then []
    else
      assert items == [items[0]] + items[1..];
      Insert(items[0], SortByMagnitude(items[1..]))
  }

  /** The entries of `s` whose magnitude is `m`, in the order of `s`. */
  function Run(s: seq<PayCode>, m: real): seq<PayCode> {
    if s == [] then []
    else (if Magnitude(s[0]) == m then [s[0]] else []) + Run(s[1..], m)
  }

  lemma {:induction false} InsertRun(p: PayCode, s: seq<PayCode>, m: real)
    requires Descending(s)
    ensures Run(Insert(p, s), m) == if Magnitude(p) == m then [p] + Run(s, m) else Run(s, m)
  {
    if s == [] || Magnitude(s[0]) <= Magnitude(p) {
      assert ([p] + s)[1..] == s;
    } else {
      var tail := Insert(p, s[1..]);
      InsertRun(p, s[1..], m);
      assert ([s[0]] + tail)[1..] == tail;
    }
  }

  /** The sort is stable: for every magnitude, the entries of that magnitude keep their input order. */
  lemma {:induction false} SortIsStable(items: seq<PayCode>, m: real)
    ensures Run(SortByMagnitude(items), m) == Run(items, m)
  {
    if items != [] {
      SortIsStable(items[1..], m);
      InsertRun(items[0], SortByMagnitude(items[1..]), m);
    }
  }

  lemma {:induction false} InsertKeepsDistinctNames(p: PayCode, s: seq<PayCode>)
    requires Descending(s) && DistinctNames(s)
    requires forall q :: q in s ==> q.name != p.name
    ensures DistinctNames(Insert(p, s))
  {
    if !(s == [] || Magnitude(s[0]) <= Magnitude(p)) {
      InsertKeepsDistinctNames(p, s[1..]);
      var tail := Insert(p, s[1..]);
      forall q | q in tail
        ensures q.name != s[0].name
      {
      }
    }
  }

  lemma {:induction false} SortKeepsDistinctNames(items: seq<PayCode>)
    requires DistinctNames(items)
    ensures DistinctNames(SortByMagnitude(items))
  {
    if items != [] {
      var rest := SortByMagnitude(items[1..]);
      SortKeepsDistinctNames(items[1..]);
      forall q | q in rest
        ensures q.name != items[0].name
      {
        assert multiset(rest)[q] > 0;
        assert q in items[1..];
      }
      InsertKeepsDistinctNames(items[0], rest);
    }
  }

  // ---------------------------------------------------------------------------
  // Truncation to `max_candidates`

  /** Python's `s[:stop]`: a negative `stop` counts from the end. */
  function Prefix<T>(s: seq<T>, stop: int): seq<T> {
    if stop >= 0 then (if stop <= |s| then s[..stop] else s)
    else if |s| + stop >= 0 then s[..|s| + stop]
    else []
  }

  /** `if len(items) > max_candidates: items = items[:max_candidates]` */
  function Truncate(items: seq<PayCode>, maxCandidates: int): seq<PayCode> {
    if |items| > maxCandidates then Prefix(items, maxCandidates) else items
  }

  /** The candidates that enter the model, in the order of their variables. */
  function Candidates(values: seq<PayCode>, maxCandidates: int): seq<PayCode> {
    Truncate(SortByMagnitude(NonZero(values)), maxCandidates)
  }

  lemma TruncateIsPrefix(items: seq<PayCode>, maxCandidates: int)
    ensures var r := Truncate(items, maxCandidates);
      && |r| <= |items| && r == items[..|r|]
      && (maxCandidates >= 0 ==> |r| == if maxCandidates < |items| then maxCandidates else |items|)
      && (maxCandidates < 0 ==> |r| == if |items| + maxCandidates >= 0 then |items| + maxCandidates else 0)
  {
  }

  /** No candidate has a zero amount, and every candidate is one of the input pay codes. */
  lemma CandidatesAreNonZero(values: seq<PayCode>, maxCandidates: int)
    ensures forall p :: p in Candidates(values, maxCandidates) ==> p.amount != 0.0 && p in values
  {
    var sorted := SortByMagnitude(NonZero(values));
    var c := Candidates(values, maxCandidates);
    TruncateIsPrefix(sorted, maxCandidates);
    forall p | p in c
      ensures p.amount != 0.0 && p in values
    {
      assert p in sorted;
      assert multiset(sorted)[p] > 0;
    }
  }

  /** The number of candidates never exceeds `max_candidates` nor the number of non-zero amounts. */
  lemma CandidateCount(values: seq<PayCode>, maxCandidates: int)
    ensures |Candidates(values, maxCandidates)| <= |NonZero(values)|
    ensures maxCandidates >= 0 ==> |Candidates(values, maxCandidates)| <= maxCandidates
    ensures 0 <= maxCandidates <= |NonZero(values)| ==> |Candidates(values, maxCandidates)| == maxCandidates
  {
    var sorted := SortByMagnitude(NonZero(values));
    TruncateIsPrefix(sorted, maxCandidates);
    assert |sorted| == |multiset(sorted)| == |multiset(NonZero(values))| == |NonZero(values)|;
  }

  /** In a descending sequence, nothing past a prefix is larger than anything in it. */
  lemma PrefixHoldsLargest(sorted: seq<PayCode>, n: nat, p: PayCode, q: PayCode)
    requires Descending(sorted) && n <= |sorted|
    requires p in sorted && p !in sorted[..n] && q in sorted[..n]
    ensures Magnitude(p) <= Magnitude(q)
  {
    var j :| 0 <= j < |sorted| && sorted[j] == p;
    var i :| 0 <= i < n && sorted[..n][i] == q;
  }

  /**
   * The candidates are ordered by magnitude, largest first, and no non-zero
   * pay code that was dropped is larger than one that was kept.
   */
  lemma CandidatesAreLargest(values: seq<PayCode>, maxCandidates: int)
    ensures Descending(Candidates(values, maxCandidates))
    ensures forall p, q ::
      (p in NonZero(values) && p !in Candidates(values, maxCandidates) && q in Candidates(values, maxCandidates))
      ==> Magnitude(p) <= Magnitude(q)
  {
    var sorted := SortByMagnitude(NonZero(values));
    var c := Candidates(values, maxCandidates);
    TruncateIsPrefix(sorted, maxCandidates);
    assert Descending(c) by {
      forall i, j | 0 <= i < j < |c|
        ensures Magnitude(c[j]) <= Magnitude(c[i])
      {
        assert c[i] == sorted[i] && c[j] == sorted[j];
      }
    }
    forall p, q | p in NonZero(values) && p !in c && q in c
      ensures Magnitude(p) <= Magnitude(q)
    {
      assert multiset(sorted)[p] > 0;
      PrefixHoldsLargest(sorted, |c|, p, q);
    }
  }

  /** Filtering out zeros keeps, for every non-zero magnitude, the entries of that magnitude in input order. */
  lemma {:induction false} NonZeroRun(values: seq<PayCode>, m: real)
    requires m != 0.0
    ensures Run(NonZero(values), m) == Run(values, m)
  {
    if values != [] {
      NonZeroRun(values[1..], m);
      var rest := NonZero(values[1..]);
      if values[0].amount != 0.0 {
        assert ([values[0]] + rest)[1..] == rest;
      }
    }
  }

  /** The entries of magnitude `m` in a prefix are a prefix of those in the whole sequence. */
  lemma {:induction false} RunOfPrefix(s: seq<PayCode>, i: nat, m: real)
    requires i <= |s|
    ensures |Run(s[..i], m)| <= |Run(s, m)|
    ensures Run(s[..i], m) == Run(s, m)[..|Run(s[..i], m)|]
  {
    if i > 0 {
      RunOfPrefix(s[1..], i - 1, m);
      assert s[..i][1..] == s[1..][..i - 1];
    }
  }

  /**
   * Ties keep input order through the whole preprocessing: for every non-zero
   * magnitude, the candidates of that magnitude are the first few pay codes of
   * that magnitude in the input, in input order.
   */
  lemma CandidatesKeepTieOrder(values: seq<PayCode>, maxCandidates: int, m: real)
    requires m != 0.0
    ensures |Run(Candidates(values, maxCandidates), m)| <= |Run(values, m)|
    ensures Run(Candidates(values, maxCandidates), m) == Run(values, m)[..|Run(Candidates(values, maxCandidates), m)|]
  {
    var sorted := SortByMagnitude(NonZero(values));
    var c := Candidates(values, maxCandidates);
    TruncateIsPrefix(sorted, maxCandidates);
    RunOfPrefix(sorted, |c|, m);
    SortIsStable(NonZero(values), m);
    NonZeroRun(values, m);
  }

  lemma CandidatesHaveDistinctNames(values: seq<PayCode>, maxCandidates: int)
    requires DistinctNames(values)
    ensures DistinctNames(Candidates(values, maxCandidates))
  {
    NonZeroKeepsDistinctNames(values);
    SortKeepsDistinctNames(NonZero(values));
    TruncateIsPrefix(SortByMagnitude(NonZero(values)), maxCandidates);
  }

  // ---------------------------------------------------------------------------
  // Scaling to whole units: `int(round(v * scale))`

  /** Python 3's `round` on an exact value: the nearest integer, ties to the even one. */
  function RoundHalfEven(x: real): (r: int)
    ensures r as real - x <= 0.5 && x - r as real <= 0.5
    ensures (r as real - x == 0.5 || x - r as real == 0.5) ==> r % 2 == 0
    ensures x >= 0.0 ==> r >= 0
  {
    var f := x.Floor;
    var frac := x - f as real;
    if frac < 0.5 then f
    else if frac > 0.5 then f + 1
    else if f % 2 == 0 then f
    else f + 1
  }

  /** `int(round(v * scale))`: an amount in dollars as a whole number of scale units. */
  function ToUnits(v: real, scale: int): (units: int)
    ensures v >= 0.0 && scale >= 0 ==> units >= 0
  {
    var exact := v * (scale as real);
    assert v >= 0.0 && scale >= 0 ==> exact >= 0.0;
    RoundHalfEven(exact)
  }

  /** `scaled_vals`, one entry per candidate. */
  function ScaledValues(cands: seq<PayCode>, scale: int): seq<int> {
    seq(|cands|, i requires 0 <= i < |cands| => ToUnits(cands[i].amount, scale))
  }

  /** Non-negative amounts scale to non-negative whole units. */
  lemma ScaledValuesNonNegative(cands: seq<PayCode>, scale: int)
    requires scale >= 0
    requires forall p :: p in cands ==> p.amount >= 0.0
    ensures forall i :: 0 <= i < |cands| ==> ScaledValues(cands, scale)[i] >= 0
  {
    forall i | 0 <= i < |cands|
      ensures ScaledValues(cands, scale)[i] >= 0
    {
      assert cands[i] in cands;
      assert ScaledValues(cands, scale)[i] == ToUnits(cands[i].amount, scale);
    }
  }
}
