# Employee performance scoring, modelled in Dafny

This project models the scoring-and-ranking core of a small Flask app that
reads an employee spreadsheet and ranks the employees. Each row gets a
weighted performance score. The rows scoring strictly above the table's mean
form the "above-average" subset. From that the app derives:

- gender counts over the whole table;
- the ids, count, department histogram and a top-scoring row of the subset;
- the subset's highest performer;
- a per-department KPI sum over the whole table;
- precision, recall and F1 of "score above the subset's own mean" against the KPI flag.

The model follows `app.py`:

- `Table.dfy`: a cell is `Absent | Num(real) | Text(string)`. A record has one cell per column. A scored record is a record plus its `Performance_score`.
- `Normalization.dfy`: the KPI recoding (`Y`→1, `N`→0, everything else unchanged) and the fill of null experience with 0.
- `Scoring.dfy`: the fixed-weight sum over six features. Null features are skipped and the weights are not renormalised. A present text feature makes the multiplication raise, and the blanket `except` turns the row's score into 0.
- `Threshold.dfy`: the mean over all rows (undefined for an empty table, where pandas gives NaN). Also the subset of rows strictly above it, kept in table order.
- `Aggregates.dfy`: gender counts, the id list and the department histogram. Also the first-maximum selection behind `idxmax` and the per-department KPI sum.
- `Metrics.dfy`: the KPI labels that `astype(int)` produces, the predictions, the confusion counts, and precision, recall and F1 from those counts.
- `Pipeline.dfy`: `filter_above_average` as imperative code. It recodes the caller's array in place, builds the scored table from the recoded rows, and computes the summary with one loop per pandas expression. `Assess` chains the core calls of the upload handler. Because of that, the KPI sum reads the table after it has been recoded in place.

Two behaviours follow the code rather than what one might expect of such a tool:

- An unrecognised KPI value is not rejected during normalisation. It stays text and the row scores 0. If that row has a department, the per-department KPI sum then fails, unless every KPI of that department is text or blank. In that case pandas concatenates the strings, and the model still reports a failure (see `Aggregates.KpiByDepartment` under "Left out"). The later label cast sees the row only when it is in the above-average subset, which for a score of 0 needs a negative mean.
- The max-score candidate comes from `sort_values(...).head(1)`. The code does not fix which of several tied rows it returns. Only `calculate_highest_performer` (`idxmax`) promises the first one.

## Model

| member | source | states |
|---|---|---|
| Normalization.NormalizeKpi | app.py:46 | `Y` becomes 1, `N` becomes 0, every other value (including numeric 0/1) is returned unchanged, and no `Y`/`N` is left |
| Normalization.FillExperience | app.py:49 | a null experience becomes 0; a present one is unchanged; the result is never null |
| Normalization.NormalizeRecord | app.py:46-49 | only the KPI and experience fields change, each as above; every other field is untouched |
| Normalization.NormalizeAll | app.py:46-49 | one fixed row per input row, in the same order: row i is `NormalizeRecord` of input row i (`Y`→1, `N`→0, other KPI cells kept, null experience filled with 0, present experience kept), so no null experience and no `Y`/`N` are left and every other field is untouched |
| Normalization.NormalizeIdempotent | app.py:46-49 | normalising an already normalised table changes nothing |
| Scoring.WeightedSum | app.py:28 | the generator sum raises (None) exactly when some present feature is text |
| Scoring.Score | app.py:18-31 | a row with a present non-numeric feature scores 0 |
| Scoring.WeightsSumToOne | app.py:20-27 | six positive weights that sum to 1 |
| Scoring.ScoreFormula | app.py:20-29 | a well-formed row scores the sum of weight times value over its non-null features only, with no renormalisation |
| Scoring.AllAbsentScoresZero | app.py:28-29 | a row with all six features null scores 0 |
| Scoring.ScoreMonotone | app.py:20-29 | raising one present numeric feature never lowers the score |
| Scoring.MalformedRowScoresZero | app.py:30-31 | a malformed row's score in the score column is 0 |
| Scoring.RowsScoredIndependently | app.py:52 | replacing any one row never changes the score of any other row |
| Scoring.ScoreAll | app.py:52 | one scored row per input row, carrying that row unchanged with `Score` of that row as its score (so, by `ScoreFormula`, the weighted sum of its numeric features); a malformed row scores 0 |
| Threshold.MeanScore | app.py:55 | the mean is undefined exactly when the table is empty |
| Threshold.StrictlyAbove | app.py:58 | every kept row is a row of the table scoring strictly above the threshold; never more rows than the table |
| Threshold.AboveAverage | app.py:55-58 | the subset holds only rows strictly above the mean over ALL rows; an empty table gives an empty subset |
| Threshold.StrictlyAboveSelects | app.py:58 | the subset is exactly the rows above the threshold, each once, in table order (its j-th row is the j-th qualifying position) |
| Threshold.IndicesIncreasing | app.py:58 | the kept positions lie inside the table and strictly increase |
| Threshold.IndicesPickRows | app.py:58 | the j-th kept row is the row at the j-th kept position |
| Threshold.IndicesExact | app.py:58 | a position is kept exactly when its row scores above the threshold |
| Threshold.LowestAtMostMean | app.py:55 | the lowest score never exceeds the mean |
| Threshold.LowestNotAbove | app.py:55-58 | the lowest-scoring row is never in the subset, so the subset of a non-empty table is strictly smaller than the table |
| Threshold.NonEmptySubsetIsStrict | app.py:55-68 | for a non-empty table the above-average count is strictly less than the table size |
| Aggregates.CountGender | app.py:61-62 | a gender count never exceeds the number of rows |
| Aggregates.GenderCountsBounded | app.py:61-62 | male plus female count is at most the number of rows |
| Aggregates.Ids | app.py:65 | one id per subset row, in subset order |
| Aggregates.DeptHistogram | app.py:74 | every key is a present department with a positive count |
| Aggregates.HistogramCounts | app.py:74 | the histogram has exactly the departments that occur, each with its number of rows; absent departments do not appear |
| Aggregates.HistogramTotal | app.py:74 | the histogram's counts add up to the number of rows that have a department |
| Aggregates.FirstMaxIndex | app.py:85 | the chosen position holds the top score and no earlier row reaches it |
| Aggregates.FirstMaxUnique | app.py:85 | only one position is the first maximum, so the winner is determined |
| Aggregates.HighestPerformer | app.py:81-86 | nothing on an empty frame, otherwise the id and department of the first top-scoring row |
| Aggregates.HighestMatchesCandidate | app.py:71-86 | the highest performer has the same score as any max-score candidate |
| Aggregates.KpiByDepartment | app.py:121 | fails exactly when a row with a department has a text KPI; otherwise it has one entry per department that occurs |
| Aggregates.KpiByDepartmentCountsMet | app.py:121 | when every row with a department has a 0/1 or blank KPI, the sum succeeds and each department's value is its number of KPI-meeting rows |
| Metrics.Trunc | app.py:35 | `astype(int)` truncation toward zero: the result is within one of the number, on the side of 0 |
| Metrics.KpiLabel | app.py:35 | true exactly for numbers that truncate to 1, false exactly for numbers that truncate to 0 |
| Metrics.TrueLabels | app.py:35 | fails exactly when some KPI cannot be cast to a 0/1 label; otherwise one label per row |
| Metrics.Predictions | app.py:36 | row i is predicted positive exactly when its score is above the mean of the frame passed in |
| Metrics.Tally | app.py:38-40 | tp, fp, fn and tn are the numbers of rows (label, prediction) = (1,1), (0,1), (1,0), (0,0); together they are all rows |
| Metrics.Precision | app.py:38 | tp/(tp+fp) in [0,1]; undefined exactly when tp+fp is 0 |
| Metrics.Recall | app.py:39 | tp/(tp+fn) in [0,1]; undefined exactly when tp+fn is 0 |
| Metrics.F1 | app.py:40 | in [0,1]; undefined exactly when tp, fp and fn are all 0 |
| Metrics.F1IsHarmonicMean | app.py:40 | when precision p and recall r are defined, F1 is 2pr/(p+r), and 0 when p+r is 0 |
| Metrics.KpiMetrics | app.py:34-42 | fails exactly when a KPI cannot be cast; otherwise the precision, recall and F1 of the confusion counts of labels against predictions, each in [0,1] when defined, all undefined on an empty frame |
| Metrics.NotAllPredictedPositive | app.py:36 | on a non-empty frame fewer rows are predicted positive than the frame holds |
| Pipeline.NormalizeInPlace | app.py:46-49 | the caller's array afterwards holds the normalised rows |
| Pipeline.ScoreColumn | app.py:52 | the score column holds each row's own score |
| Pipeline.Mean | app.py:55 | computes the mean over all rows (undefined for no rows) |
| Pipeline.SelectAbove | app.py:58 | computes the rows strictly above the threshold, in table order |
| Pipeline.CountByGender | app.py:61-62 | counts the rows of one gender |
| Pipeline.CollectIds | app.py:65 | collects the ids of the subset |
| Pipeline.MaxScoreCandidate | app.py:71 | nothing for an empty subset, otherwise a subset row whose score is at least every subset score |
| Pipeline.CountByDepartment | app.py:74 | computes the per-department histogram of the subset |
| Pipeline.Summarize | app.py:55-78 | the mean, subset, ids, count, gender counts, max candidate and histogram, each as specified above |
| Pipeline.FilterAboveAverage | app.py:44-78 | the table is normalised in place, scored row by row, and summarised |
| Pipeline.Assess | app.py:107-157 | the highest performer and metrics come from the subset; the KPI sum comes from the table as recoded in place |
| Pipeline.YesNoBecomesBinary | app.py:46 | a Y/N/blank flag column becomes 1 for Y, 0 for N and stays blank for blank |
| Pipeline.KpiSumCountsYes | app.py:121 | on a Y/N/blank flag column the department KPI sum succeeds and counts each department's Y rows |
| Pipeline.ScenarioScores | app.py:18-31 | three sample employees score 6.5, 2.0 and 4.5 |
| Pipeline.ThreeRowThreshold | app.py:55-58 | scores 6.5, 2.0, 4.5 have mean 13/3, with the first and third rows above it |
| Pipeline.ScenarioSummary | app.py:55-65 | for the sample, the mean is 13/3, the subset is the first and third rows, their ids are listed, and there are 2 males and 1 female |

## Left out

- The web layer: the Flask route, `UploadForm`, `pd.read_excel` and `render_template` are I/O. `Assess` models only the core calls the route makes.
- Chart rendering: matplotlib, the `BytesIO` buffers and the base64 encoding are rasterisation and I/O.
- The route's exception fallbacks: the `ValueError` branch, the outer `except` blocks and the unfinished `error_message = f`. These are control flow around I/O.
- Missing columns: every record has every column, so the `KeyError` for a missing `Department` or `gender` column is not modelled.
- Floating point: scores, the mean and the ratios are exact reals. A `>` comparison right at the mean may therefore come out differently from Python floats.
- Empty tables: the model takes the mean to be undefined and the subset to be empty. What pandas' `apply` does on an empty frame is not modelled.
- Pandas type details: NaN propagation beyond the explicit null checks, mixed-type columns, booleans and `groupby` key order are not modelled.
- Metrics.Precision: a zero denominator gives an explicit undefined result. sklearn would return 0.0 with a warning.
- Metrics.Recall: a zero denominator gives an explicit undefined result. sklearn would return 0.0 with a warning.
- Metrics.F1: an all-negative confusion matrix gives an explicit undefined result. sklearn would return 0.0 with a warning.
- Metrics.KpiLabel: text that `astype(int)` could parse, such as `"1"`, is treated as a failed cast. Integer labels other than 0 and 1, which sklearn rejects in most but not all combinations, are always a failure.
- Aggregates.KpiByDepartment: any text KPI in a department group is a failure. Pandas would instead concatenate the strings of a group that holds only text.
- Pipeline.MaxScoreCandidate: the contract promises only a row with the top score, because `sort_values` does not fix the order of ties. The loop happens to keep the first such row.
- Pipeline.ScoreColumn: the score column is returned as a new sequence of scored records. The caller's array never gains a `Performance_score` field, whereas app.py:52 adds the column to the frame in place. No core output reads that column from the frame.
