/**
 * The batch script: for every payroll row, estimate the eligible earnings as
 * contribution amount / contribution rate, ask `solve_subset_selection` which
 * pay codes make up that estimate, count how often each code is selected, and
 * suggest the codes selected in at least half of the rows.
 *
 * Reading the CSV and printing are left out; a row is a mapping from column
 * names to numbers plus its employee id.
 */
module BatchInfer {
  import opened Preprocess
  import opened Formulation
  import opened Solver

  const EMPLOYEE_ID: string := "employee_id"
  const AMOUNT: string := "contribution_amount"
  const RATE: string := "contribution_rate"
  const PERIOD: string := "period"

  /** The columns that are never pay codes. */
  const RESERVED: set<string> := {EMPLOYEE_ID, AMOUNT, RATE, PERIOD}

  /** The arguments the script passes to the solver. */
  const SCALE: int := 100
  const MAX_CANDIDATES: int := 20
  const THRESHOLD: real := 0.5

  /**
   * One row of the table: `employeeId` is `None` when the table has no
   * `employee_id` column; `cells` holds the numeric columns.
   */
  datatype Row = Row(employeeId: Option<string>, cells: map<string, real>)

  /** `row.get('employee_id', '')` */
  function EmployeeId(row: Row): string {
    if row.employeeId.Some? then row.employeeId.value else ""
  }

  /** The solver's answer for a row, or SKIP when the row has no rate. */
  datatype Outcome = Skip | Solved(result: SolveResult)

  /** One entry of `results`. */
  datatype RowResult = RowResult(employeeId: string, eligibleEst: Option<real>, solver: Outcome)

  /** `sol.get('selected', [])`: the SKIP answer selects nothing. */
  function Selected(o: Outcome): seq<string> {
    if o.Skip? then [] else o.result.selected
  }

  // ---------------------------------------------------------------------------
  // Per-row inference

  /** The columns other than the four reserved ones, in column order. */
  function PaycodeColumns(columns: seq<string>): (pcs: seq<string>)
    ensures forall c :: c in pcs <==> c in columns && c !in RESERVED
    ensures |pcs| <= |columns|
    ensures Distinct(columns) ==> Distinct(pcs)
  {
    if columns == [] then []
    else
      var n := |columns| - 1;
      var init := PaycodeColumns(columns[..n]);
      assert columns == columns[..n] + [columns[n]];
      if columns[n] in RESERVED then init
      else
        assert Distinct(columns) ==> columns[n] !in columns[..n];
        init + [columns[n]]
  }

  /** One step of the filter: the last column is kept exactly when it is not reserved. */
  lemma PaycodeColumnsLast(columns: seq<string>)
    requires columns != []
    ensures var n := |columns| - 1;
      PaycodeColumns(columns) == PaycodeColumns(columns[..n]) + if columns[n] in RESERVED then [] else [columns[n]]
  {
  }

  /**
   * The filter keeps column order: filtering a concatenation filters each part
   * and concatenates the results.
   */
  lemma {:induction false} PaycodeColumnsAppend(a: seq<string>, b: seq<string>)
    ensures PaycodeColumns(a + b) == PaycodeColumns(a) + PaycodeColumns(b)
  {
    if b == [] {
      assert a + b == a;
    } else {
      var n := |b| - 1;
      var ab := a + b;
      var last := if b[n] in RESERVED then [] else [b[n]];
      assert PaycodeColumns(ab) == PaycodeColumns(a + b[..n]) + last by {
        assert ab[..|ab| - 1] == a + b[..n] && ab[|ab| - 1] == b[n];
        PaycodeColumnsLast(ab);
      }
      assert PaycodeColumns(b) == PaycodeColumns(b[..n]) + last by {
        PaycodeColumnsLast(b);
      }
      PaycodeColumnsAppend(a, b[..n]);
      var pa, pb := PaycodeColumns(a), PaycodeColumns(b[..n]);
      assert (pa + pb) + last == pa + (pb + last);
    }
  }

  /** A single column is kept exactly when it is not reserved. */
  lemma PaycodeColumnsOne(c: string)
    ensures PaycodeColumns([c]) == if c in RESERVED then [] else [c]
  {
    assert [c][..0] == [];
  }

  /** A row holds a number for the amount, the rate and every pay-code column. */
  predicate RowFits(row: Row, columns: seq<string>) {
    && AMOUNT in row.cells && RATE in row.cells
    && forall c :: c in PaycodeColumns(columns) ==> c in row.cells
  }

  /** `{c: float(row[c]) for c in paycode_cols}`, in column order. */
  function RowValues(row: Row, pcs: seq<string>): (values: seq<PayCode>)
    requires forall c :: c in pcs ==> c in row.cells
    ensures |values| == |pcs|
    ensures forall i :: 0 <= i < |pcs| ==> values[i] == PayCode(pcs[i], row.cells[pcs[i]])
  {
    seq(|pcs|, i requires 0 <= i < |pcs| => PayCode(pcs[i], row.cells[pcs[i]]))
  }

  /** The entry of `results` for one row, as built in the body of `batch_infer.py`'s row loop. */
  function InferRow(row: Row, columns: seq<string>, backend: CpModel -> Reply): RowResult
    requires RowFits(row, columns) && AssignsEveryVariable(backend)
  {
    var rate := row.cells[RATE];
    if rate == 0.0 then RowResult(EmployeeId(row), None, Skip)
    else
      var est := row.cells[AMOUNT] / rate;
      var values := RowValues(row, PaycodeColumns(columns));
      RowResult(EmployeeId(row), Some(est), Solved(Solution(values, est, SCALE, MAX_CANDIDATES, true, backend)))
  }

  /** `results` after the given rows: one entry per row, in row order. */
  function Results(rows: seq<Row>, columns: seq<string>, backend: CpModel -> Reply): (results: seq<RowResult>)
    requires forall i :: 0 <= i < |rows| ==> RowFits(rows[i], columns)
    requires AssignsEveryVariable(backend)
    ensures |results| == |rows|
    ensures forall i :: 0 <= i < |rows| ==> results[i] == InferRow(rows[i], columns, backend)
  {
    seq(|rows|, i requires 0 <= i < |rows| => InferRow(rows[i], columns, backend))
  }

  /** Every selection of the results, one after the other: what the counter sees. */
  function Flatten(results: seq<RowResult>): seq<string> {
    if results == [] then []
    else
      var n := |results| - 1;
      Flatten(results[..n]) + Selected(results[n].solver)
  }

  // ---------------------------------------------------------------------------
  // The counter

  /**
   * A `collections.Counter` of codes: its keys in insertion order and the
   * count of each key.
   */
  datatype Counter = Counter(order: seq<string>, counts: map<string, nat>) {
    /** `counter[c] += 1`: a missing key counts as zero and is appended to the key order. */
    function Add(c: string): Counter {
      if c in counts then Counter(order, counts[c := counts[c] + 1])
      else Counter(order + [c], counts[c := 1])
    }
  }

  const EMPTY: Counter := Counter([], map[])

  /** The counter after counting the codes of `s` one by one. */
  function CounterOf(s: seq<string>): (counter: Counter)
    ensures forall c :: c in counter.counts <==> c in s
    ensures forall c :: c in counter.order <==> c in s
  {
    if s == [] then EMPTY
    else
      var n := |s| - 1;
      assert s == s[..n] + [s[n]];
      CounterOf(s[..n]).Add(s[n])
  }

  /** The codes of `s` without repeats, each where it first occurs. */
  function FirstOccurrences(s: seq<string>): seq<string> {
    if s == [] then []
    else
      var n := |s| - 1;
      FirstOccurrences(s[..n]) + if s[n] in s[..n] then [] else [s[n]]
  }

  /** The counter's keys are in the order of first occurrence. */
  lemma {:induction false} CounterOrder(s: seq<string>)
    ensures CounterOf(s).order == FirstOccurrences(s)
  {
    if s != [] {
      var n := |s| - 1;
      CounterOrder(s[..n]);
    }
  }

  /**
   * The counter counts occurrences: each code of `s` is a key with the number
   * of times it occurs, and appears once in the key order.
   */
  lemma {:induction false} CounterCounts(s: seq<string>)
    ensures forall c :: c in CounterOf(s).counts ==> CounterOf(s).counts[c] == multiset(s)[c]
    ensures Distinct(CounterOf(s).order)
  {
    if s != [] {
      var n := |s| - 1;
      CounterCounts(s[..n]);
      assert s == s[..n] + [s[n]];
    }
  }

  /** Counting one more code: only that code's count changes, by one. */
  lemma CounterStep(s: seq<string>, c: string)
    ensures CounterOf(s + [c]) == CounterOf(s).Add(c)
  {
    assert (s + [c])[..|s|] == s;
  }

  // ---------------------------------------------------------------------------
  // The suggested mapping

  /**
   * `cnt / len(df) >= threshold`, multiplied out by the row count (which is
   * positive whenever a code has been counted).
   */
  predicate Meets(count: nat, total: nat, threshold: real) {
    count as real >= threshold * total as real
  }

  /** A share that meets a threshold meets every lower one. */
  lemma MeetsLower(count: nat, total: nat, lower: real, higher: real)
    requires lower <= higher && Meets(count, total, higher)
    ensures Meets(count, total, lower)
  {
    assert (higher - lower) * total as real >= 0.0;
  }

  /** `[code for code, cnt in counter.items() if cnt / len(df) >= threshold]` */
  function Suggested(order: seq<string>, counts: map<string, nat>, total: nat, threshold: real): (mapping: seq<string>)
    requires forall c :: c in order ==> c in counts
    ensures forall c :: c in mapping <==> c in order && Meets(counts[c], total, threshold)
  {
    if order == [] then []
    else
      var n := |order| - 1;
      var init := Suggested(order[..n], counts, total, threshold);
      assert order == order[..n] + [order[n]];
      if Meets(counts[order[n]], total, threshold) then init + [order[n]] else init
  }

  // ---------------------------------------------------------------------------
  // The script

  /** Counting the next selected code extends the counter over one more code. */
  lemma CountNext(seen: seq<string>, selected: seq<string>, j: nat)
    requires j < |selected|
    ensures CounterOf(seen + selected[..j + 1]) == CounterOf(seen + selected[..j]).Add(selected[j])
  {
    var done := seen + selected[..j];
    assert seen + selected[..j + 1] == done + [selected[j]] by {
      assert selected[..j + 1] == selected[..j] + [selected[j]];
    }
    CounterStep(done, selected[j]);
  }

  /** `counter[c] += 1` for every selected code of a solved row, in selection order. */
  method CountSelected(counter0: Counter, ghost seen: seq<string>, selected: seq<string>)
    returns (counter: Counter)
    requires counter0 == CounterOf(seen)
    ensures counter == CounterOf(seen + selected)
  {
    counter := counter0;
    assert seen + selected[..0] == seen;
    for j := 0 to |selected|
      invariant counter == CounterOf(seen + selected[..j])
    {
      CountNext(seen, selected, j);
      counter := counter.Add(selected[j]);
    }
    assert selected[..|selected|] == selected;
  }

  /** The `mapping` comprehension of `batch_infer.py`: the counted codes whose share of all rows meets the threshold, in counter order. */
  method SuggestCodes(order: seq<string>, counts: map<string, nat>, total: nat, threshold: real)
    returns (mapping: seq<string>)
    requires forall c :: c in order ==> c in counts
    ensures mapping == Suggested(order, counts, total, threshold)
  {
    mapping := [];
    for k := 0 to |order|
      invariant mapping == Suggested(order[..k], counts, total, threshold)
    {
      assert order[..k + 1][..k] == order[..k] && order[..k + 1][k] == order[k];
      if counts[order[k]] as real >= threshold * total as real {
        mapping := mapping + [order[k]];
      }
    }
    assert order[..|order|] == order;
  }

  /**
   * The body of `batch_infer.py`'s row loop: the entry of `results` for one row,
   * and the counter after counting that row's selection.
   */
  method InferOne(row: Row, columns: seq<string>, backend: CpModel -> Reply,
                  counter0: Counter, ghost seen: seq<string>)
    returns (entry: RowResult, counter: Counter)
    requires RowFits(row, columns) && AssignsEveryVariable(backend)
    requires counter0 == CounterOf(seen)
    ensures entry == InferRow(row, columns, backend)
    ensures counter == CounterOf(seen + Selected(entry.solver))
  {
    var values := RowValues(row, PaycodeColumns(columns));
    var amount, rate := row.cells[AMOUNT], row.cells[RATE];
    var est: Option<real>;
    var sol: Outcome;
    counter := counter0;
    if rate == 0.0 {
      est, sol := None, Skip;
      assert seen + [] == seen;
    } else {
      est := Some(amount / rate);
      var r := SolveSubsetSelection(values, amount / rate, SCALE, MAX_CANDIDATES, true, backend);
      counter := CountSelected(counter, seen, r.selected);
      sol := Solved(r);
    }
    entry := RowResult(EmployeeId(row), est, sol);
  }

  /**
   * `batch_infer.py`'s row loop and its `mapping` comprehension: one result per row,
   * the counter of selected codes and the suggested codes.
   */
  method InferBatch(columns: seq<string>, rows: seq<Row>, backend: CpModel -> Reply)
    returns (results: seq<RowResult>, counter: Counter, mapping: seq<string>)
    requires forall i :: 0 <= i < |rows| ==> RowFits(rows[i], columns)
    requires AssignsEveryVariable(backend)
    ensures results == Results(rows, columns, backend)
    ensures counter == CounterOf(Flatten(results))
    ensures mapping == Suggested(counter.order, counter.counts, |rows|, THRESHOLD)
  {
    results, counter := [], EMPTY;
    for i := 0 to |rows|
      invariant results == Results(rows[..i], columns, backend)
      invariant counter == CounterOf(Flatten(results))
    {
      var entry;
      entry, counter := InferOne(rows[i], columns, backend, counter, Flatten(results));
      var next := results + [entry];
      assert Results(rows[..i + 1], columns, backend) == next by {
        forall k | 0 <= k <= i
          ensures Results(rows[..i + 1], columns, backend)[k] == next[k]
        {
          assert rows[..i + 1][k] == rows[k];
          if k < i {
            assert rows[..i][k] == rows[k];
          }
        }
      }
      assert Flatten(next) == Flatten(results) + Selected(entry.solver) by {
        assert next[..|results|] == results;
      }
      results := next;
    }
    assert rows[..|rows|] == rows;
    mapping := SuggestCodes(counter.order, counter.counts, |rows|, THRESHOLD);
  }

  // ---------------------------------------------------------------------------
  // Properties of the batch

  /**
   * A row is skipped exactly when its rate is zero; a skipped row has no
   * estimate and selects nothing, a solved row has the estimate amount / rate.
   */
  lemma SkipRule(row: Row, columns: seq<string>, backend: CpModel -> Reply)
    requires RowFits(row, columns) && AssignsEveryVariable(backend)
    ensures var e := InferRow(row, columns, backend);
      && e.employeeId == EmployeeId(row)
      && (e.solver.Skip? <==> row.cells[RATE] == 0.0)
      && (e.solver.Skip? ==> e.eligibleEst == None && Selected(e.solver) == [])
      && (!e.solver.Skip? ==> e.eligibleEst == Some(row.cells[AMOUNT] / row.cells[RATE]))
  {
  }

  /** Distinct pay-code columns give a mapping with distinct keys. */
  lemma RowValuesDistinctNames(row: Row, pcs: seq<string>)
    requires forall c :: c in pcs ==> c in row.cells
    requires Distinct(pcs)
    ensures DistinctNames(RowValues(row, pcs))
  {
  }

  /**
   * The codes selected for a row are pay-code columns with a non-zero amount
   * in that row, none of them twice.
   */
  lemma RowSelection(row: Row, columns: seq<string>, backend: CpModel -> Reply)
    requires RowFits(row, columns) && AssignsEveryVariable(backend)
    requires Distinct(columns)
    ensures var sel := Selected(InferRow(row, columns, backend).solver);
      && Distinct(sel)
      && forall c :: c in sel ==> c in columns && c !in RESERVED && row.cells[c] != 0.0
  {
    var rate := row.cells[RATE];
    if rate != 0.0 {
      var est := row.cells[AMOUNT] / rate;
      var pcs := PaycodeColumns(columns);
      var values := RowValues(row, pcs);
      RowValuesDistinctNames(row, pcs);
      if NonZero(values) != [] {
        SolutionSelection(values, est, SCALE, MAX_CANDIDATES, true, backend);
        var sel := Solution(values, est, SCALE, MAX_CANDIDATES, true, backend).selected;
        forall c | c in sel
          ensures c in columns && c !in RESERVED && row.cells[c] != 0.0
        {
          var p :| p in values && p.name == c && p.amount != 0.0;
          var i :| 0 <= i < |values| && values[i] == p;
          assert pcs[i] in pcs;
        }
      } else {
        SolutionWithoutCandidates(values, est, SCALE, MAX_CANDIDATES, true, backend, backend);
      }
    }
  }

  /** The number of results whose selection contains `c`. */
  function RowsSelecting(results: seq<RowResult>, c: string): (k: nat)
    ensures k <= |results|
  {
    if results == [] then 0
    else
      var n := |results| - 1;
      RowsSelecting(results[..n], c) + if c in Selected(results[n].solver) then 1 else 0
  }

  /** A code occurs at most once in a sequence without repetitions. */
  lemma {:induction false} DistinctOccurrences(s: seq<string>, c: string)
    requires Distinct(s)
    ensures multiset(s)[c] == if c in s then 1 else 0
  {
    if s != [] {
      var n := |s| - 1;
      assert s == s[..n] + [s[n]];
      DistinctOccurrences(s[..n], c);
    }
  }

  /** When no selection repeats a code, counting all selections counts rows. */
  lemma {:induction false} OccurrencesAreRows(results: seq<RowResult>, c: string)
    requires forall i :: 0 <= i < |results| ==> Distinct(Selected(results[i].solver))
    ensures multiset(Flatten(results))[c] == RowsSelecting(results, c)
  {
    if results != [] {
      var n := |results| - 1;
      OccurrencesAreRows(results[..n], c);
      DistinctOccurrences(Selected(results[n].solver), c);
    }
  }

  /**
   * After the batch, the count of every code is the number of rows whose
   * selection contains it, so it never exceeds the number of rows and the
   * share `cnt / len(df)` is at most 1 (skipped rows count in the total).
   */
  lemma CountsAreRows(columns: seq<string>, rows: seq<Row>, backend: CpModel -> Reply)
    requires forall i :: 0 <= i < |rows| ==> RowFits(rows[i], columns)
    requires AssignsEveryVariable(backend)
    requires Distinct(columns)
    ensures var results := Results(rows, columns, backend);
      var counter := CounterOf(Flatten(results));
      forall c :: c in counter.counts ==> 0 < counter.counts[c] == RowsSelecting(results, c) <= |rows|
  {
    var results := Results(rows, columns, backend);
    var flat := Flatten(results);
    CounterCounts(flat);
    forall i | 0 <= i < |results|
      ensures Distinct(Selected(results[i].solver))
    {
      RowSelection(rows[i], columns, backend);
    }
    forall c | c in CounterOf(flat).counts
      ensures 0 < CounterOf(flat).counts[c] == RowsSelecting(results, c)
    {
      OccurrencesAreRows(results, c);
      assert c in multiset(flat);
    }
  }

  /** With the threshold 0.5, a count meets it exactly when twice the count reaches the total. */
  lemma HalfThreshold(count: nat, total: nat)
    ensures Meets(count, total, THRESHOLD) <==> 2 * count >= total
  {
  }

  /**
   * The suggested codes are exactly the codes selected in at least half of
   * all rows, skipped rows included; they are listed in counter order, which
   * is the order of first selection (`CounterOrder`).
   */
  lemma SuggestedAreMajority(columns: seq<string>, rows: seq<Row>, backend: CpModel -> Reply)
    requires forall i :: 0 <= i < |rows| ==> RowFits(rows[i], columns)
    requires AssignsEveryVariable(backend)
    requires Distinct(columns)
    ensures var results := Results(rows, columns, backend);
      var counter := CounterOf(Flatten(results));
      && (forall c :: c in counter.order ==> c in counter.counts)
      && forall c :: c in Suggested(counter.order, counter.counts, |rows|, THRESHOLD) <==>
           RowsSelecting(results, c) > 0 && 2 * RowsSelecting(results, c) >= |rows|
  {
    var results := Results(rows, columns, backend);
    var counter := CounterOf(Flatten(results));
    CountsAreRows(columns, rows, backend);
    forall c
      ensures c in Suggested(counter.order, counter.counts, |rows|, THRESHOLD) <==>
              RowsSelecting(results, c) > 0 && 2 * RowsSelecting(results, c) >= |rows|
    {
      if c in counter.counts {
        HalfThreshold(counter.counts[c], |rows|);
      } else if RowsSelecting(results, c) > 0 {
        RowsSelectingOccurs(results, c);
      }
    }
  }

  /** A code that some row selects occurs among the counted codes. */
  lemma {:induction false} RowsSelectingOccurs(results: seq<RowResult>, c: string)
    requires RowsSelecting(results, c) > 0
    ensures c in Flatten(results)
  {
    var n := |results| - 1;
    if c !in Selected(results[n].solver) {
      RowsSelectingOccurs(results[..n], c);
    }
  }

  /**
   * Raising the threshold never adds a code: the codes suggested at the higher
   * threshold are those suggested at the lower one, filtered again, in the same order.
   */
  lemma {:induction false} RaisingThreshold(order: seq<string>, counts: map<string, nat>, total: nat, lower: real, higher: real)
    requires forall c :: c in order ==> c in counts
    requires lower <= higher
    ensures Suggested(order, counts, total, higher)
         == Suggested(Suggested(order, counts, total, lower), counts, total, higher)
  {
    if order != [] {
      var n := |order| - 1;
      var low := Suggested(order[..n], counts, total, lower);
      RaisingThreshold(order[..n], counts, total, lower, higher);
      if Meets(counts[order[n]], total, higher) {
        MeetsLower(counts[order[n]], total, lower, higher);
      }
      if Meets(counts[order[n]], total, lower) {
        assert (low + [order[n]])[..|low|] == low;
      }
    }
  }
}
