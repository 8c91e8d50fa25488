# Population-weighted ANC4 and SBA coverage by U5MR status

This project models the analytic pipeline of `scripts/run_project.py` in Dafny and proves properties of it. The pipeline takes four tables:

- two indicator time series: ANC4 (at least four antenatal-care visits) and SBA (skilled birth attendance);
- a country-status table, classing countries as on track or off track for the under-five-mortality (U5MR) target;
- the demographic projections, with births per country and year.

From these it computes one row per status group that holds the weighted sums, the births total and the birth-weighted average of each indicator.

The model follows the script stage by stage:

| module | lines | what it models |
|---|---|---|
| `Tables` | — | the rows of the input and intermediate tables, their key columns |
| `Order` | 19-20, 43 | the ascending key order in which `groupby` emits its groups |
| `Latest` | 15-20 | the 2018-2022 year window, `sort_values`, `groupby(...).last()` |
| `Join` | 23-36 | `pd.merge(..., how="inner")` on one key column |
| `Merge` | 23-36 | the three merges and the 2022 births selection |
| `Weighting` | 39-40 | the loop adding `ANC4_weighted` and `SBA_weighted`, in place |
| `Grouping` | 43-50 | `groupby("Status.U5MR").agg("sum")` and the divisions, in place |
| `Pipeline` | 15-50 | the whole chain, and end-to-end properties |

The whole-table expressions are modelled as functions over sequences of rows: the filters, the sort/group/last chain, the merges and the group sums.

The two places where the script changes a table in place are modelled as methods over arrays of rows:

- `Weighting.AddWeightedColumns` is the `for service in ["ANC4", "SBA"]` loop.
- `Grouping.AddPopWeightedColumns` is the pair of column assignments at lines 49-50.

Each of these methods is proved equal to a specification function (`Weigh`, `AddMeans`), and the properties are proved about that function.

Modelling choices:

- Country keys and status labels are strings compared by equality. The script does not normalise them.
- Years are `int`. Observed values and births are `real`, so the arithmetic is exact.
- `groupby` sorts its keys; this is modelled as ascending code-point order (`Order.Below`).
- `pd.merge` with `how="inner"` keeps the order of its left table, and within one left row the order of the right table. `Join.InnerJoin` is defined that way.
- Duplicated keys are kept, as `pd.merge` keeps them. Two status rows or two 2022 population rows for one country give that country two merged rows, both counted in its group's sums (`Join.InnerJoinCount`, `Merge.Births2022`). `Pipeline.PipelineUniqueKeys` states when there is one merged row per country.
- `agg("sum")` is modelled by `Grouping.Accumulate`, a single pass that keeps one running row per group. It is proved equal to `Grouping.Total`, a filtered sum per group.
- The division at lines 49-50 has no guard in the script. `Grouping.WeightedMean` requires a non-zero births total, so `Pipeline.Run` and `Pipeline.PopulationWeighted` require every group to have a non-zero total.
  - A zero total is therefore a precondition failure.
  - `Grouping.ZeroBirthsGroup` says when that happens.
  - `Pipeline.PositiveBirthsMeansDefined` shows the precondition holds whenever every 2022 births figure is positive.
  - The requirement is "non-zero" rather than "positive" because the script divides by any total. A negative total is not excluded by the code.
- Ties on the year are broken in the model by input order: the later input row wins, because the sort is modelled as stable. The script's `sort_values` uses pandas' default sort, which is not stable. Every proved property therefore speaks only of "a row with the largest in-window year", which holds under either sort.

## Model

| member | source | states |
|---|---|---|
| Latest.FilterWindow | scripts/run_project.py:15-16 | a row is kept exactly when it is an input row with `2018 <= TIME_PERIOD <= 2022` (inclusive); each kept row keeps its multiplicity, and out-of-window rows have none |
| Latest.SortByPeriod | scripts/run_project.py:19-20 | the result is ordered by year and is a permutation of the input |
| Latest.LastRow | scripts/run_project.py:19-20 | `last()` of one country gives a row of that country, and on a year-sorted table one with that country's largest year |
| Latest.LatestPerKey | scripts/run_project.py:19-20 | one row per country (unique and strictly ascending keys), exactly the input's countries, each row an input row holding its country's largest year |
| Latest.LatestKeysInWindow | scripts/run_project.py:15-20 | a country survives filter and selection exactly when it has a row in 2018-2022 |
| Latest.LatestRowIsLatest | scripts/run_project.py:15-20 | every selected row is an in-window input row whose year is the largest in-window year of its country |
| Order.Ascending | scripts/run_project.py:19-20 | the distinct keys of a column, strictly ascending, nothing added or lost |
| Join.Matches | scripts/run_project.py:23-25 | the right rows matching one left row, at most one when the right keys are unique, none when no key matches |
| Join.InnerJoin | scripts/run_project.py:23-25 | a pair is in the inner merge exactly when its left row and right row are input rows with equal keys |
| Join.MatchesCount | scripts/run_project.py:23-25 | among the matches of one left row, a matching right row occurs as often as it occurs in the right table, a non-matching one never |
| Join.InnerJoinCount | scripts/run_project.py:23-25 | a matching pair occurs in the merge (copies of its left row) × (copies of its right row) times, a non-matching pair never |
| Join.JoinKeySet | scripts/run_project.py:23-25 | the keys of the merge are exactly the keys both tables share |
| Join.JoinUniqueKeys | scripts/run_project.py:29 | merging two tables with unique keys gives unique keys |
| Join.JoinAscending | scripts/run_project.py:29 | merging a strictly ascending table with a unique-key table keeps the keys strictly ascending |
| Merge.Births2022 | scripts/run_project.py:32-33 | a births row is present exactly when a population row of year 2022 carries that `ISO3Code` and `Births_2022`, and occurs as many times as that population row does |
| Merge.BirthsKeys | scripts/run_project.py:32-33 | a country has births exactly when it has a 2022 population row |
| Merge.MergeAll | scripts/run_project.py:23-36 | the merged rows carry no weighted column yet |
| Merge.MergedRowsHaveSources | scripts/run_project.py:23-36 | every merged row is made of one ANC4, one SBA, one status and one births row of the same country |
| Merge.SourcesAreMerged | scripts/run_project.py:23-36 | every such choice of four rows of one country appears in the merged table |
| Merge.MergedKeySet | scripts/run_project.py:23-36 | the merged key set is the intersection of the four key sets |
| Merge.MergedUniqueKeys | scripts/run_project.py:29-36 | four unique-key tables give a unique-key merged table |
| Merge.MergedAscending | scripts/run_project.py:23-36 | with ascending ANC4 keys and unique other keys, the merged table is in strictly ascending key order |
| Weighting.AddColumns | scripts/run_project.py:39-40 | after visiting some services a row holds value times births for each of them, its other columns unchanged |
| Weighting.WeighedRowsAreProducts | scripts/run_project.py:39-40 | after the loop both `ANC4_weighted` and `SBA_weighted` of every row are exactly `OBS_VALUE_<service> * Births_2022`, and no data column changed |
| Weighting.WeighKeepsLabels | scripts/run_project.py:39-40 | the loop leaves the status column as it was |
| Weighting.AddWeightedColumns | scripts/run_project.py:39-40 | the in-place loop over the array leaves exactly the table `Weigh` describes |
| Grouping.AccumulateSums | scripts/run_project.py:43-47 | the one-pass aggregation has an entry for exactly the labels present, each holding that label's sums of both weighted columns and of the births |
| Grouping.GroupSums | scripts/run_project.py:43-47 | one row per distinct status label present, ascending, each with the sum over its group of both weighted columns and of the births |
| Grouping.PresentCount | scripts/run_project.py:43-47 | a label that is present has at least one row |
| Grouping.WeightedMean | scripts/run_project.py:49-50 | the average times the births total gives back the weighted sum |
| Grouping.ZeroBirthsGroup | scripts/run_project.py:49-50 | a group whose births are all zero has a zero births total, where the division is undefined |
| Grouping.PositiveBirthsTotal | scripts/run_project.py:43-50 | a non-empty group with positive births has a positive births total |
| Grouping.EqualBirthsWeighted | scripts/run_project.py:39-47 | when every country of a group has births `c`, each weighted sum is `c` times the plain sum of the values |
| Grouping.EqualBirthsCount | scripts/run_project.py:43-47 | when every country of a group has births `c`, the births total is `c` times the number of countries |
| Grouping.EqualBirthsMean | scripts/run_project.py:43-50 | with equal non-zero births across a group, both the ANC4 and the SBA weighted averages equal the plain averages |
| Grouping.SingleCountryMean | scripts/run_project.py:43-50 | a one-country group with non-zero births has as its ANC4 and SBA averages that country's two values |
| Grouping.GroupMeanUnderEqualBirths | scripts/run_project.py:43-50 | the same for a row of the grouped table: equal births make both its averages the plain averages |
| Grouping.GroupMeanOfSingleCountry | scripts/run_project.py:43-50 | the same for a row of the grouped table standing for one country: both its averages are that country's values |
| Grouping.WithMeans | scripts/run_project.py:49-50 | a group row gains both `<service>_pop_weighted` columns, each times the births total equal to its weighted sum, the other columns unchanged |
| Grouping.MeanIsQuotient | scripts/run_project.py:49-50 | the average a group row gains for a service is its weighted sum divided by its births total |
| Grouping.AddMeans | scripts/run_project.py:49-50 | the grouped table after lines 49-50: same length, every row keeps its label, sums and births total, and holds for each service the weighted sum divided by the births total |
| Grouping.AddMeanColumn | scripts/run_project.py:49-50 | either column assignment gives every row of the array its average for one service and changes nothing else |
| Grouping.AddPopWeightedColumns | scripts/run_project.py:49-50 | the two in-place column assignments leave exactly the table `AddMeans` describes |
| Pipeline.WeightedTable | scripts/run_project.py:39-40 | the merged table of the pipeline after the loop has products as weighted values |
| Pipeline.Run | scripts/run_project.py:15-50 | running the steps, the in-place ones on arrays, yields the table `PopulationWeighted` defines |
| Pipeline.WeighedTotals | scripts/run_project.py:39-47 | the group sum of a weighted column is the sum of value times births over the merged rows of the group, and the births sum is the sum of births |
| Pipeline.PipelineKeys | scripts/run_project.py:15-36 | a country is in the merged table exactly when it has an in-window ANC4 row, an in-window SBA row, a status row and a 2022 population row |
| Pipeline.PipelineRowSources | scripts/run_project.py:15-36 | each merged row holds the values of its country's latest in-window ANC4 and SBA rows, a status of that country, and births from a 2022 population row |
| Pipeline.PipelineUniqueKeys | scripts/run_project.py:19-36 | with unique status and 2022 births keys, the merged table has one row per country, in ascending key order |
| Pipeline.PipelineGroups | scripts/run_project.py:43-47 | the output has one row per status label present in the merged table, and no label twice |
| Pipeline.PipelineMeans | scripts/run_project.py:39-50 | every output average is Σ(value · births) / Σ(births) over the merged rows of the group, and the births total is non-zero |
| Pipeline.PositiveBirthsMeansDefined | scripts/run_project.py:32-50 | if every 2022 births figure is positive, no division at lines 49-50 has a zero divisor |

## Left out

- File loading with `pd.read_csv` and `pd.read_excel` (lines 9-12) is I/O. The four tables are inputs to the model.
- The path constants (lines 5-6), the CSV output (line 53) and the message (line 55) are configuration and I/O. `scripts/user_profile.py` holds only path constants and directory creation and is not part of this model.
- Floating point: values and births are `real`, so rounding is not modelled, nor the NaN or infinity that pandas yields for a zero births total.
- Grouping.WeightedMean: requires a non-zero births total. For a zero total the script produces NaN or infinity, which the model does not represent.
- Grouping.AddMeans: requires a non-zero births total in every group (`MeansDefined`), for the same reason.
- Grouping.AddPopWeightedColumns: requires a non-zero births total in every group, for the same reason.
- Pipeline.PopulationWeighted: requires a non-zero births total in every group, for the same reason.
- Pipeline.Run: requires a non-zero births total in every group, for the same reason.
- Pipeline.PipelineMeans: requires a non-zero births total in every group, for the same reason.
- Latest.LatestPerKey: does not say which row wins when a country has two rows in its latest year. The model's sort is stable, but the script uses pandas' default sort, which is not.
- Missing values: `groupby(...).last()` skips nulls column by column. The model assumes no missing cells.
- Columns of the status and population tables other than the ones the pipeline reads are not modelled. `pd.merge(merged, status)` would carry the status table's other columns along.
- `anc4_latest` and `sba_latest` keep every column of their last rows. Only the key and `OBS_VALUE` reach the merged table (line 23-24), so only those are modelled.
- Several features of the wider system are not present in this script, so none is modelled: key normalisation, a status-label classifier that maps raw labels to two canonical groups, unweighted group means as an output, and named error kinds for empty groups or zero weights. The grouping is on the raw `Status.U5MR` label. `Grouping.ArithmeticMean` is used only as a reference for the weighted average.
