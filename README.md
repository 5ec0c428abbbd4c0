# Pay-code subset selection, modelled in Dafny

This project models how the payroll tool infers which pay codes make up an employee's contribution base.

`solve_subset_selection` (backend/app/solver.py) takes a mapping from pay-code name to dollar amount and a target amount. It works in four steps:
- it keeps the non-zero amounts, sorts them by magnitude (largest first, stable on ties) and keeps at most `max_candidates`;
- it scales each amount to whole cents with Python's `round`;
- it builds a CP-SAT model that minimises |selected sum − target|, preferring fewer codes on ties through the objective `LARGE·diff + Σx`;
- it reads the solver's assignment back into a result record.

The batch script (test_data/batch_infer.py) estimates each row's eligible earnings as contribution amount / rate, runs the solver per row, skips rows whose rate is zero, counts how often each code is selected, and suggests the codes selected in at least half of all rows.

Modules:
- `Preprocess` (preprocess.dfy): the zero filter, the stable magnitude sort, truncation with Python slice semantics, and round-half-even scaling. Amounts are exact rationals (`real`).
- `Subsets` (subsets.dfy): the problem itself over whole units. `BruteForce` is a reference solver that tries every subset. `IsBestSubset` is the reference meaning of an optimal answer.
- `Formulation` (formulation.dfy): the CP model as data (`CpModel`), its constraints (`Satisfies`), its objective, and what an optimum is (`Minimises`). The encoding is proved sound and complete against `IsBestSubset`.
- `Solver` (solver.dfy): the whole call.
  - `Solution` specifies the result.
  - `Interpret` is the record read back from a reply (lines 99-118), for any reply.
  - `SolveSubsetSelection` computes it step by step.
  - `CollectSelected` is the loop that collects the selected names.
  - The CP-SAT search is the parameter `backend: CpModel -> Reply`.
- `BatchInfer` (batch_infer.dfy): the per-row loop, the counter (a `Counter` value holding insertion order and counts) and the suggested mapping.
- `Scenarios` (scenarios.dfy): two worked cases, solved by any backend whose reply is optimal.

## Model

| member | source | states |
|---|---|---|
| Preprocess.Names | backend/app/solver.py:51 | `names = [k for k, _ in items]`: one key per entry, in order; `Interpret` picks `selected` from it, and `DistinctNamesAreDistinct` relates key distinctness to it |
| Preprocess.DistinctNamesAreDistinct | backend/app/solver.py:43 | a mapping's entries have distinct keys exactly when its list of names has no repeats |
| Preprocess.NonZero | backend/app/solver.py:43 | every pay code with a non-zero amount is kept as often as it occurs; every zero amount is dropped (dict order: `NonZeroAppend`; per-magnitude order: `NonZeroRun`) |
| Preprocess.NonZeroAppend | backend/app/solver.py:43 | the filter keeps dict order: filtering a concatenation filters each part and concatenates the results |
| Preprocess.NonZeroAppendStep | backend/app/solver.py:43 | the inductive step of `NonZeroAppend`: the first entry is kept or dropped on its own, ahead of the rest |
| Preprocess.NonZeroRun | backend/app/solver.py:43 | for every non-zero magnitude, the filter keeps the entries of that magnitude in dict order |
| Preprocess.AllZeroLeavesNothing | backend/app/solver.py:43-45 | when every amount is zero the filter leaves nothing, so the early INFEASIBLE answer is taken |
| Preprocess.NonZeroKeepsDistinctNames | backend/app/solver.py:43 | filtering keeps the dict's keys distinct |
| Preprocess.LargerHead | backend/app/solver.py:47 | a descending list stays descending under a head at least as large as its first entry |
| Preprocess.Insert | backend/app/solver.py:47 | inserting into a descending list gives a descending list with the same entries plus the new one, headed by the new entry or the old head |
| Preprocess.Magnitude | backend/app/solver.py:47 | the sort key `abs(kv[1])`; `SortByMagnitude` and `CandidatesAreLargest` state the order it induces |
| Preprocess.SortByMagnitude | backend/app/solver.py:47 | the result is ordered by absolute value, largest first, and is a permutation of the input |
| Preprocess.InsertRun | backend/app/solver.py:47 | the new entry goes before every existing entry of equal magnitude |
| Preprocess.SortIsStable | backend/app/solver.py:47 | for every magnitude, the entries of that magnitude keep their input order (the sort is stable) |
| Preprocess.InsertKeepsDistinctNames | backend/app/solver.py:47 | insertion keeps names distinct |
| Preprocess.SortKeepsDistinctNames | backend/app/solver.py:47 | sorting keeps names distinct |
| Preprocess.Prefix | backend/app/solver.py:49 | Python's `items[:stop]`, negative `stop` counting from the end; `TruncateIsPrefix` states its length and that it is a prefix |
| Preprocess.Truncate | backend/app/solver.py:48-49 | the guarded truncation; characterised by `TruncateIsPrefix` |
| Preprocess.TruncateIsPrefix | backend/app/solver.py:48-49 | truncation keeps a prefix; for max_candidates ≥ 0 its length is min(max_candidates, n); a negative bound drops that many entries from the end, as a Python slice does |
| Preprocess.Candidates | backend/app/solver.py:43-49 | filter, sort and truncate; characterised by `CandidatesAreNonZero`, `CandidateCount`, `CandidatesAreLargest`, `CandidatesKeepTieOrder` and `CandidatesHaveDistinctNames` |
| Preprocess.CandidatesAreNonZero | backend/app/solver.py:43-49 | no candidate has a zero amount, and each candidate is an input pay code |
| Preprocess.CandidateCount | backend/app/solver.py:43-49 | there are at most as many candidates as non-zero amounts and, when max_candidates ≥ 0, at most max_candidates; exactly max_candidates when max_candidates ≥ 0 and that many non-zero amounts exist |
| Preprocess.PrefixHoldsLargest | backend/app/solver.py:47-49 | in a descending list, nothing past a prefix is larger than anything in it |
| Preprocess.CandidatesAreLargest | backend/app/solver.py:47-49 | candidates are in descending magnitude, and no dropped non-zero amount is larger than a kept one |
| Preprocess.RunOfPrefix | backend/app/solver.py:48-49 | the entries of one magnitude in a prefix are a prefix of those in the whole list |
| Preprocess.CandidatesKeepTieOrder | backend/app/solver.py:43-49 | for every non-zero magnitude, the candidates of that magnitude are the first few input codes of that magnitude, in dict order |
| Preprocess.CandidatesHaveDistinctNames | backend/app/solver.py:43-51 | candidate names are distinct |
| Preprocess.RoundHalfEven | backend/app/solver.py:54-55 | Python's `round`: the result is within 0.5 of the value, ties go to the even integer, and it is non-negative for non-negative input |
| Preprocess.ToUnits | backend/app/solver.py:54-55 | a non-negative amount scales to a non-negative number of units |
| Preprocess.ScaledValues | backend/app/solver.py:54 | one `int(round(v * scale))` per candidate; `ScaledValuesNonNegative` states its sign |
| Preprocess.ScaledValuesNonNegative | backend/app/solver.py:54 | non-negative amounts give non-negative `scaled_vals` |
| Subsets.Sum | backend/app/solver.py:62-66 | `sum(scaled_vals)`, the upper bound of `sum_var` and part of `max_diff`; `SelectedSumBounds` relates it to every subset sum |
| Subsets.SelectedSum | backend/app/solver.py:63 | `sum(x_i * scaled_vals_i)`; `SelectedSumIsSumOfPicked` shows it is the sum over the selection read back at line 106, `SelectedSumBounds` bounds it |
| Subsets.Count | backend/app/solver.py:78 | the `sum(x)` term of the objective; `CountBound` bounds it by the number of candidates |
| Subsets.Dist | backend/app/solver.py:3-5 | the deviation \|selected sum − target\| the docstring minimises; `Linearisation` ties it to `diff` |
| Subsets.IsBestSubset | backend/app/solver.py:3-5 | the reference meaning of an optimal answer (least deviation, then fewest codes); `BruteForceIsBest`, `EncodingSound` and `EncodingComplete` characterise it |
| Subsets.NoWorse | backend/app/solver.py:3-5 | the lexicographic order on answers, deviation first, then the number of codes when fewer are preferred; `BruteForceNoWorse` and `ObjectiveOrder` use it |
| Subsets.BruteForce | backend/app/solver.py:3-5 | the reference solver assigns one boolean per candidate |
| Subsets.BruteForceNoWorse | backend/app/solver.py:3-5 | no assignment comes closer to the target, or equally close with fewer codes, than the reference solver's |
| Subsets.BruteForceIsBest | backend/app/solver.py:3-5 | the reference solver's answer is a best subset: minimal deviation, then minimal count |
| Subsets.LastChoice | backend/app/solver.py:63 | choosing the last candidate shifts the target of the rest by its value and adds one code |
| Subsets.OptimaAgree | backend/app/solver.py:71-81 | two optimal answers agree on the deviation and, when fewer codes are preferred, on the number of codes |
| Subsets.SelectedSumBounds | backend/app/solver.py:62 | with non-negative values, every subset sum lies in [0, sum(scaled_vals)], the domain of `sum_var` |
| Formulation.Formulate | backend/app/solver.py:57-81 | the model's data: values, target, the bound sum(scaled_vals) of `sum_var`, max_diff and LARGE; `EncodingSound` and `EncodingComplete` characterise it |
| Formulation.Satisfies | backend/app/solver.py:59-69 | the domains of the variables and the three constraints; `EveryAssignmentFits` and `Linearisation` characterise it |
| Formulation.Objective | backend/app/solver.py:71-81 | `LARGE·diff + Σx` with prefer_fewer, `diff` otherwise; `ObjectiveOrder` characterises it |
| Formulation.Minimises | backend/app/solver.py:71-88 | what OPTIMAL promises: a satisfying point with the least objective; `EncodingSound` and `EncodingComplete` characterise it |
| Formulation.WellFormed | backend/app/solver.py:57-81 | a model as `Formulate` builds it from non-negative scaled values and target, with fewer candidates than LARGE; `ModelWellFormed` shows the solver's models are such, `ModelHasOptimum` that they have an optimum |
| Formulation.Linearisation | backend/app/solver.py:65-69 | the two inequalities hold exactly when diff ≥ \|sum − target\| |
| Formulation.EveryAssignmentFits | backend/app/solver.py:59-69 | every assignment, with its sum and its deviation, satisfies every domain and constraint; the deviation never exceeds max_diff |
| Formulation.Lexicographic | backend/app/solver.py:71-79 | with the number of codes below LARGE, a smaller diff gives a smaller objective; at equal diff, fewer codes give a smaller objective |
| Formulation.CountBound | backend/app/solver.py:78 | the number of chosen codes is at most the number of candidates |
| Formulation.ObjectiveOrder | backend/app/solver.py:71-81 | the objective orders points by deviation first, then (when fewer codes are preferred) by count |
| Formulation.EncodingSound | backend/app/solver.py:57-81 | a point minimising the CP objective has diff = \|sum − target\|, and its assignment is a best subset |
| Formulation.EncodingComplete | backend/app/solver.py:57-81 | every best subset, with its sum and deviation, minimises the CP objective |
| Formulation.ModelHasOptimum | backend/app/solver.py:57-81 | a well-formed model always has an optimum |
| Solver.Pick | backend/app/solver.py:101-104 | the names (or values) whose variable is 1, in candidate order; `PickInOrder` characterises it |
| Solver.ChosenIndices | backend/app/solver.py:101-104 | the indices whose variable is 1 are in range, set, strictly increasing, one per chosen code, and include every set index |
| Solver.PickAt | backend/app/solver.py:101-104 | the k-th picked entry is the entry at the k-th chosen index |
| Solver.PickInOrder | backend/app/solver.py:101-104 | the selection is the subsequence at exactly the indices whose variable is 1, in increasing order; it has one entry per chosen variable |
| Solver.PickMembership | backend/app/solver.py:101-104 | a name is selected exactly when some candidate of that name has its variable set to 1 |
| Solver.PickDistinct | backend/app/solver.py:101-104 | distinct candidate names give a selection without repetitions |
| Solver.SelectedSumIsSumOfPicked | backend/app/solver.py:106 | `selected_sum_scaled` is the sum of the scaled values of exactly the selected candidates |
| Solver.CollectSelected | backend/app/solver.py:101-104 | the loop yields the names whose variable is 1, in candidate order, and exactly those names |
| Solver.Dollars | backend/app/solver.py:107-112 | `v / float(scale)` on exact rationals; `InterpretSums` multiplies it back out |
| Solver.Interpret | backend/app/solver.py:99-118 | the result record read from a reply; `InterpretSums` and `InterpretPicks` characterise it |
| Solver.ReadReply | backend/app/solver.py:99-118 | the selection loop and the sums build the record `Interpret` specifies |
| Solver.ModelOf | backend/app/solver.py:54-81 | the model built from the candidates' scaled values and the scaled target; `ModelWellFormed` states when it is well formed |
| Solver.Solution | backend/app/solver.py:42-118 | the whole call; characterised by `SolutionWithoutCandidates`, `SolvedResult`, `SolutionCandidateCount`, `SolutionSelection`, `SolutionConservation` and `SolutionOptimal` |
| Solver.SolveSubsetSelection | backend/app/solver.py:42-118 | the step-by-step computation returns the result `Solution` specifies |
| Solver.SolutionWithoutCandidates | backend/app/solver.py:44-45 | without a non-zero amount the result is INFEASIBLE: nothing selected, selected_sum 0, abs_error the target, scaled_error round(target·scale), no num_candidates; the backend is never consulted |
| Solver.SolvedResult | backend/app/solver.py:43-118 | an unfolding step used by the other `Solution` lemmas: after a solve, the result is the record read from the backend's reply to the candidates' model, whose scaled target is round(target·scale) and which has one variable per candidate |
| Solver.SolutionCandidateCount | backend/app/solver.py:117 | num_candidates is present, is at most the number of non-zero amounts, and, when max_candidates ≥ 0, is at most max_candidates |
| Solver.SolutionConservation | backend/app/solver.py:106-115 | after a solve, selected_sum is the sum of the selected candidates' scaled values divided by the scale, and abs_error is scaled_error divided by the scale |
| Solver.PickedNames | backend/app/solver.py:101-104 | the selected names are exactly the candidates set to 1; each is a non-zero input code; they are distinct when the input names are |
| Solver.SolutionSelection | backend/app/solver.py:101-104 | `selected` contains exactly the candidates whose variable is 1, one entry per such variable; each is a non-zero input code; no repeats |
| Solver.InterpretPicks | backend/app/solver.py:101-106 | for any reply, the k-th selected name and the k-th summed scaled value come from the same candidate, the k-th whose variable is 1 |
| Solver.InterpretSums | backend/app/solver.py:106-115 | for any reply, selected_sum is the sum of the selected candidates' scaled values divided by the scale; scaled_error is that sum's exact distance from scaled_target; abs_error is scaled_error divided by the scale; multiplied back by the scale, selected_sum is that sum and abs_error is scaled_error; target is returned unchanged |
| Solver.SolutionOptimal | backend/app/solver.py:71-115 | when the reply minimises the objective (OPTIMAL), scaled_error equals diff and the selection is a best subset: no subset is closer, and with prefer_fewer no equally close subset has fewer codes |
| Solver.ModelWellFormed | backend/app/solver.py:54-73 | non-negative amounts and target, with max_candidates below 10^6, give a well-formed model |
| Scenarios.OneCodeModel | backend/app/solver.py:43-55 | {A: 100} with target 1000 gives the one candidate A, scaled to 10000 against 100000 |
| Scenarios.OneCodeOptimum | backend/app/solver.py:63-81 | for the values [10000] and the target 100000, the only best subset takes the code |
| Scenarios.OneCodeAssignment | backend/app/solver.py:57-88 | an optimal reply for that case sets A |
| Scenarios.OneCodeRecord | backend/app/solver.py:99-118 | the record read from that reply selects A, with selected_sum 100.0, abs_error 900.0 and scaled_error 90000 |
| Scenarios.SingleCodeShortOfTarget | backend/app/solver.py:42-118 | {A: 100} against 1000: an optimal answer selects A, selected_sum 100.0, abs_error 900.0 |
| Scenarios.ExactHit | backend/app/solver.py:42-118 | {A: 1000, B: 50, C: 25} against 1050: an optimal answer selects exactly A and B, with zero error |
| Scenarios.ThreeCodesNonZero | backend/app/solver.py:43 | none of A = 1000, B = 50, C = 25 is filtered out |
| Scenarios.ThreeCodesSorted | backend/app/solver.py:47 | A, B, C are already in descending magnitude, so the sort keeps them in place |
| Scenarios.ThreeCodesCandidates | backend/app/solver.py:43-49 | the candidates are A, B, C in that order |
| Scenarios.ThreeCodesModel | backend/app/solver.py:54-55 | in cents, 100000, 5000 and 2500 against 105000 |
| Scenarios.OnlyExactSubset | backend/app/solver.py:63-69 | of the eight subsets of {A, B, C}, only {A, B} hits 1050 exactly |
| Scenarios.ExactOptimum | backend/app/solver.py:63-81 | the exact hit {A, B} is the only best subset |
| Scenarios.ThreeCodesWellFormed | backend/app/solver.py:54-73 | the model of that case is well formed |
| Scenarios.PickFirstTwo | backend/app/solver.py:101-104 | setting the first two variables selects the names A and B |
| Scenarios.ExactHitAssignment | backend/app/solver.py:71-88 | an optimal reply for that case sets exactly A and B |
| Scenarios.ExactHitRecord | backend/app/solver.py:99-118 | the record read from that reply selects A and B with selected_sum 1050.0 and zero error |
| BatchInfer.PaycodeColumns | test_data/batch_infer.py:15 | the pay-code columns are exactly the columns other than the four reserved ones, no more of them than columns, distinct when the columns are (order: `PaycodeColumnsAppend`) |
| BatchInfer.PaycodeColumnsLast | test_data/batch_infer.py:15 | an unfolding step for `PaycodeColumnsAppend`: filtering appends the last column exactly when it is not reserved |
| BatchInfer.PaycodeColumnsAppend | test_data/batch_infer.py:15 | filtering a concatenation concatenates the filtered parts, so column order is kept |
| BatchInfer.PaycodeColumnsOne | test_data/batch_infer.py:15 | a single column is kept exactly when it is not reserved |
| BatchInfer.RowValues | test_data/batch_infer.py:22 | one pay code per pay-code column, with that row's value |
| BatchInfer.RowValuesDistinctNames | test_data/batch_infer.py:22 | a row's values have distinct keys |
| BatchInfer.EmployeeId | test_data/batch_infer.py:33 | `row.get('employee_id', '')`: the id, or the empty string when there is none |
| BatchInfer.Selected | test_data/batch_infer.py:31 | `sol.get('selected', [])`: nothing for a skipped row, the solver's selection otherwise |
| BatchInfer.InferRow | test_data/batch_infer.py:22-33 | one row's entry; `SkipRule` and `RowSelection` characterise it |
| BatchInfer.Results | test_data/batch_infer.py:21-33 | one entry per row, in row order |
| BatchInfer.Flatten | test_data/batch_infer.py:31-32 | every row's selection in row order, what the counter is fed; `OccurrencesAreRows` and `RowsSelectingOccurs` characterise it |
| BatchInfer.SkipRule | test_data/batch_infer.py:25-30 | a row is skipped exactly when its rate is 0; a skipped row has no estimate and selects nothing; a solved row's estimate is amount / rate |
| BatchInfer.RowSelection | test_data/batch_infer.py:22-31 | a row's selected codes are pay-code columns with a non-zero value in that row, none twice |
| BatchInfer.Counter.Add | test_data/batch_infer.py:32 | `counter[c] += 1`: a missing key counts as zero and joins the key order; `CounterCounts` and `CounterOrder` characterise the result |
| BatchInfer.CounterOf | test_data/batch_infer.py:19-32 | the counter's keys and key order are exactly the codes counted |
| BatchInfer.CounterCounts | test_data/batch_infer.py:31-32 | each count is the number of times the code was counted; each key appears once in the key order |
| BatchInfer.FirstOccurrences | test_data/batch_infer.py:19-32 | the counted codes without repeats, each where it first occurs |
| BatchInfer.CounterOrder | test_data/batch_infer.py:19-32 | the counter's key order is the order of first occurrence |
| BatchInfer.CounterStep | test_data/batch_infer.py:32 | counting one more code is one `counter[c] += 1` |
| BatchInfer.CountNext | test_data/batch_infer.py:31-32 | counting the next selected code extends the counter over one more code |
| BatchInfer.CountSelected | test_data/batch_infer.py:31-32 | the inner loop leaves the counter equal to the counter of everything counted so far plus this row's selection |
| BatchInfer.InferOne | test_data/batch_infer.py:22-33 | the loop body produces the row's entry and counts that row's selection |
| BatchInfer.InferBatch | test_data/batch_infer.py:17-46 | results has one entry per row, in row order; the counter is the counter of all selections; the mapping is the suggested set |
| BatchInfer.RowsSelecting | test_data/batch_infer.py:31-32 | the number of rows selecting a code never exceeds the number of rows |
| BatchInfer.DistinctOccurrences | test_data/batch_infer.py:31-32 | a selection without repetitions counts a code at most once |
| BatchInfer.OccurrencesAreRows | test_data/batch_infer.py:21-32 | counting every selection counts the rows that select the code |
| BatchInfer.CountsAreRows | test_data/batch_infer.py:31-46 | after the batch, each code's count is positive and equals the number of rows selecting it, so it is at most len(df), skipped rows included |
| BatchInfer.Meets | test_data/batch_infer.py:46 | `cnt / len(df) >= threshold`, multiplied out by len(df); `HalfThreshold` and `MeetsLower` characterise it |
| BatchInfer.MeetsLower | test_data/batch_infer.py:46 | a count that meets a threshold meets every lower threshold |
| BatchInfer.Suggested | test_data/batch_infer.py:46 | a code is suggested exactly when it was counted and its share meets the threshold |
| BatchInfer.SuggestCodes | test_data/batch_infer.py:46 | the comprehension computes the suggested codes, in counter order |
| BatchInfer.HalfThreshold | test_data/batch_infer.py:45-46 | at threshold 0.5, a count meets it exactly when twice the count reaches the number of rows |
| BatchInfer.SuggestedAreMajority | test_data/batch_infer.py:45-46 | the suggested codes are exactly the codes selected in at least half of all rows |
| BatchInfer.RowsSelectingOccurs | test_data/batch_infer.py:31-32 | a code some row selects is counted |
| BatchInfer.RaisingThreshold | test_data/batch_infer.py:46 | raising the threshold never adds a code: the higher threshold's suggestion is the lower one's, filtered again, in the same order |

## Left out

- The CP-SAT search (backend/app/solver.py:83-88): the time limit and the eight workers are not modelled. It is a foreign library, so the model takes any function from the model to a reply. Being a function, it gives identical replies to identical models; CP-SAT with eight workers and a time limit need not, but no lemma relies on this. Optimality is proved only for replies that minimise the objective (`Formulation.Minimises`, the meaning of OPTIMAL). A FEASIBLE or UNKNOWN reply is taken as given.
- Reading a variable's value when the solver found no solution (lines 101-106): the backend is assumed to give every variable a value (`AssignsEveryVariable`).
- `solve_time` and `time()` (lines 87-89, 116): a clock, not modelled.
- The status map (lines 91-99): the reply carries a `Status` directly, so an unknown code mapped to UNKNOWN is not represented.
- Floating point: amounts, the target, `v * scale`, `/ float(scale)` and `amount / rate` are exact rationals. The model does not capture float rounding before `round`, nor NaN amounts.
- Solver.SolutionOptimal: requires non-negative amounts and a non-negative target, as the docstring (lines 24-25) states. The domain [0, sum(scaled_vals)] of `sum_var` assumes this. It also requires 0 <= max_candidates < 10^6, so that LARGE exceeds the number of codes.
- `scale`: required positive everywhere, including the early INFEASIBLE answer (line 45), which does not divide. With scale = 0 the source raises ZeroDivisionError at line 107. A negative scale makes `sum_var`'s domain [0, sum(scaled_vals)] (line 62) empty for positive amounts, so CP-SAT rejects the model and line 103 reads values that do not exist. Neither case is modelled.
- 64-bit integers: CP-SAT variables and linear expressions are 64-bit, while the model's integers are unbounded. LARGE·diff is about scaled_target², which passes 2^63 once scaled_target nears 3·10^9 (a target near $30M at scale 100). The model does not capture that overflow or what CP-SAT does with it.
- BatchInfer.Meets: states `cnt / len(df) >= threshold` multiplied out by len(df), which is positive whenever a code was counted.
- The batch script also reads the CSV, edits `sys.path` and prints (lines 1-13, 35-43, 47). This is I/O and is not modelled. `counter.most_common()` is used only for printing.
- A row's cells are a map from column name to number, plus an optional employee id. Pandas dtypes and missing cells are not modelled. `RowFits` requires the amount, the rate and every pay-code column to be present, as the script's indexing does.
- BatchInfer.RowSelection, BatchInfer.CountsAreRows, BatchInfer.SuggestedAreMajority: require `Distinct(columns)`, because `RowValues` is a sequence. The requirement holds for every table the script reads: `pd.read_csv` makes column names unique, and the dict comprehension at line 22 would drop repeated keys anyway.
- The batch rule follows the script, which skips a row only when its rate is 0. A zero amount still goes to the solver.
- test_data/generate_excel.py and backend/app/main.py are not part of this model (file conversion and HTTP endpoints).
