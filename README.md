# Kline feature and labelling pipeline

A Dafny model of the per-instrument column pipeline of Kline_Predictor
(`main.py`).  The pipeline turns one instrument's daily Open/High/Low/Close/Volume
table into a labelled feature table in three stages:

1. `calculate_kline_features` adds candle-shape ratios (upper shadow, lower
   shadow and body, each as a percentage of Close), their lag-1 copies, the
   opening gap and close-to-close change, a trailing 5-row volume mean with
   the volume ratio built from it, and a lagged "5-day trend".
2. `calculate_future_returns` adds `Return_{h}d`, the forward return over
   each horizon h of `periods` (default `[3, 20, 60]`).
3. `mark_significant_changes` adds the boolean labels
   `Significant_Rise_{h}d` (`Return_{h}d > threshold`) and
   `Significant_Drop_{h}d` (`Return_{h}d < -threshold`) for h = 3, 20, 60,
   with default threshold 0.05.

Layout:

- `columns.dfy` (module `Columns`): a column is `seq<Option<real>>`, with
  `None` for pandas' NaN.  It holds the pandas operations the stages use:
  `shift(k)` for either sign of k, NaN-propagating elementwise arithmetic,
  `np.maximum`/`np.minimum`, `rolling(w).mean()`, and `>`/`<` against a
  scalar, where NaN compares as false.  `Shift`, `Combine`, `Greater` and
  `Less` are the definitions of `shift`, elementwise arithmetic and `>`/`<`;
  what they mean for the stages is stated by `ShiftDefinedExactly`,
  `RollingSum` and `RollingMean` here and by the lemmas of `Labels`
  (`MissingIsFalse`, `StrictAtThreshold`, `Exclusive`).
- `table.dfy` (module `Table`): the column labels and the two kinds of column,
  numeric and boolean.
- `kline.dfy`, `returns.dfy`, `labels.dfy`: one module per stage.  Each
  derived column is written as the source writes it, as arithmetic over
  shifted whole columns.  Its contract gives the value at every row and says
  which rows are missing.  The lemmas next to it state what the values mean.
- `frames.dfy` (module `Frames`): the DataFrame that the stages change in
  place.  It is a class `Frame`: the raw columns are fields, and the derived
  columns are a `map<Label, Series>` field.  Each stage is a method that adds
  its columns to that map.  The loop over `periods` in
  `calculate_future_returns` is a loop with invariants.
  `Pipeline` runs the three stages in the program's order.

Floats are modelled as `real`.  The stages that divide require Close, and for
the kline stage also Volume, to be positive at every row.

Three behaviours of the code that the model keeps:

- A row whose `Return_{h}d` is missing gets `false` for both labels.  The
  missing value is not passed on to the labels, because in pandas NaN compares
  as false.
- No threshold or horizon is validated, and duplicate horizons are accepted.
  Writing a horizon twice rewrites the same column with the same values.
- No integrity error is raised for malformed rows.  A missing `Return_{h}d`
  column makes the labelling stage fail with KeyError after the labels of the
  earlier horizons have been written.  `MarkSignificantChanges` returns
  `ok = false` in that case and keeps those earlier labels.

## Model

| member | source | states |
|---|---|---|
| `Columns.ShiftDefinedExactly` | main.py:30-43 | shifting a complete column leaves exactly the rows without a source row missing |
| `Columns.RollingSum` | main.py:39 | a rolling sum over w rows is present exactly from row w-1 on, where it is the sum of the w rows ending at that row |
| `Columns.RollingMean` | main.py:39 | `rolling(w).mean()` is present exactly from row w-1 on, where it is the mean of the w rows ending at that row |
| `Columns.SumPositive` | main.py:39-40 | a sum of positive volumes is positive |
| `Kline.UpperShadowColumn` | main.py:25 | every row holds `(High - max(Open, Close)) / Close * 100` |
| `Kline.LowerShadowColumn` | main.py:26 | every row holds `(min(Open, Close) - Low) / Close * 100` |
| `Kline.BodyLengthColumn` | main.py:27 | every row holds `(Close - Open) / Close * 100` |
| `Kline.PreviousRow` | main.py:30-32 | the `Prev_*` columns: missing at row 0, row i holds row i-1 of the feature for i >= 1 |
| `Kline.OpeningTypeColumn` | main.py:35 | missing at row 0; row i >= 1 holds `(Open[i] - Close[i-1]) / Close[i] * 100`, normalised by this row's Close |
| `Kline.ClosingTypeColumn` | main.py:36 | missing at row 0; row i >= 1 holds `(Close[i] - Close[i-1]) / Close[i] * 100` |
| `Kline.VolumeAverageColumn` | main.py:39 | `5Day_MA_Volume` is missing for rows 0-3 and is the mean of `Volume[i-4..i]` from row 4 on |
| `Kline.VolumeRatioColumn` | main.py:40 | `Volume_Ratio` is present exactly where `5Day_MA_Volume` is, and there equals `(Volume - MA) / Volume` |
| `Kline.TrendColumn` | main.py:43 | `5Day_Trend` is missing for rows 0-6 and is `(Close[i-2] - Close[i-7]) / Close[i-7]` from row 7 on |
| `Kline.Features` | main.py:23-45 | the stage adds exactly the eleven feature labels, each holding the column its line of the stage computes (`Upper_Shadow` the upper-shadow column, `Prev_Upper_Shadow` its lag, and so on), each column one entry per row and numeric |
| `Kline.BodyLengthSign` | main.py:27 | with Close > 0, the body is positive iff Close > Open, negative iff Close < Open, zero iff they are equal |
| `Kline.ShadowSigns` | main.py:25-26 | the upper shadow is non-negative iff High >= max(Open, Close); the lower shadow is non-negative iff Low <= min(Open, Close) |
| `Kline.GapPlusBody` | main.py:27-36 | for i >= 1, `Closing_Type` equals `Opening_Type` plus `Body_Length`, because all three are divided by the same row's Close |
| `Kline.VolumeRatioBelow` | main.py:39-40 | with positive volumes, every present `Volume_Ratio` is below 0.8, since the mean includes the row's own volume and four more positive ones |
| `Kline.SingleRow` | main.py:23-45 | on a one-row table the shape features are present and every lag or window feature is missing |
| `Returns.ForwardReturn` | main.py:65 | row i of `Return_{h}d` is present iff row i+h exists, and there equals `(Close[i+h] - Close[i]) / Close[i]` |
| `Returns.TailMissing` | main.py:65 | for h >= 0, exactly the last h rows have no return |
| `Returns.ReturnColumns` | main.py:63-66 | the stage writes exactly the labels `Return_{h}d` for h in `periods`, each holding the forward return over h |
| `Returns.ReturnColumnsStep` | main.py:64-65 | one loop iteration extends the columns of a prefix of `periods` by the next horizon's column |
| `Returns.ReturnsWritten` | main.py:63-66 | after the stage, every horizon's return column is in the table |
| `Labels.MarkOne` | main.py:80-81 | one horizon's labelling succeeds iff `Return_{h}d` is in the table, and keeps label columns boolean |
| `Labels.MarkHorizons` | main.py:79-86 | labelling horizons one after another keeps label columns boolean and the other columns numeric |
| `Labels.MarkHorizonsSucceeds` | main.py:79-86 | labelling succeeds iff every horizon's `Return_{h}d` is present |
| `Labels.MarkHorizonsFrame` | main.py:79-86 | labelling keeps every key, never changes a numeric column or a label of another horizon, and every label column it writes is computed from its horizon's returns |
| `Labels.MarkHorizonsLabels` | main.py:79-86 | every horizon reached before a failure gets `Return > threshold` as its rise label and `Return < -threshold` as its drop label |
| `Labels.FirstHorizonLabels` | main.py:80-81 | the first horizon's labels survive the later horizons |
| `Labels.MarkHorizonsSized` | main.py:79-86 | labelling keeps every column at one entry per row |
| `Labels.LabelsFromReturns` | main.py:79-86 | after the return stage, labelling succeeds and every label equals the strict comparison of the forward return with the threshold |
| `Labels.Exclusive` | main.py:80-81 | with threshold >= 0 a row is never both a significant rise and a significant drop |
| `Labels.NegativeThresholdOverlaps` | main.py:80-81 | below zero the threshold no longer separates the labels: a flat return is both |
| `Labels.StrictAtThreshold` | main.py:80-81 | a return equal to the threshold is not a rise; one equal to minus the threshold is not a drop |
| `Labels.MissingIsFalse` | main.py:80-85 | a missing return gives false for both labels |
| `Labels.LabelsInPrices` | main.py:79-81 | a rise at row i means Close h rows later exceeds `Close[i] * (1 + t)`; a drop means it is below `Close[i] * (1 - t)`; neither can hold where no row i+h exists |
| `Labels.TenRowExample` | main.py:63-86 | on the 10-row series 100, 101, 99, 102, 103, 101, 104, 106, 103, 108, `Return_3d` is present exactly on rows 0-6, is 0.02 at row 0 and 4/104 at row 6, and no row is labelled |
| `Frames.Frame.CalculateKlineFeatures` | main.py:23-45 | adds the eleven feature columns to the table, leaves the raw columns and other columns unchanged, and keeps every column one entry per row |
| `Frames.Frame.CalculateFutureReturns` | main.py:63-66 | adds `Return_{h}d` for each h in `periods` (default 3, 20, 60), with earlier columns and raw columns unchanged |
| `Frames.Frame.MarkHorizon` | main.py:80-81 | writes the two labels of one horizon, or fails and leaves the table as it was when `Return_{h}d` is missing |
| `Frames.Frame.MarkSignificantChanges` | main.py:79-86 | labels horizons 3, 20 and 60 in order with the given threshold (default 0.05), stopping at the first missing return column |
| `Frames.Pipeline` | main.py:47-97 | running the three stages in order with their defaults succeeds; the final table holds the eleven feature columns, `Return_3d`, `Return_20d` and `Return_60d` with their forward returns, and label columns that are the strict comparison of the forward return with 0.05 |

## Left out

- Data download with yfinance (`fetch_stock_data`): a network call into a foreign library.
- Folder creation (`create_folders`): a filesystem side effect.
- CSV reading and writing between stages: the `skiprows=2` header, the column renaming and the date index parsing in `process_csv_files`, `process_future_returns` and `process_significant_changes`.  The model hands the table from one stage to the next directly, so the round trip through a CSV file is not modelled.
- The `try`/`except` blocks that print and swallow errors, and the ticker list, dates and call order of the `__main__` block. `Pipeline` keeps only the stage order.
- IEEE floating point.  Values are `real`, so rounding and the inf/NaN from a zero Close or Volume are not modelled.  Positivity preconditions take their place.
- The `Adj Close` column and the date index.  They pass through unchanged and no stage reads them.
- Column order in the DataFrame.  The derived columns are a map, so the order in which the stages add them is not recorded.
- Processing several instruments at once.  The source runs them one after another and never shares state between them.
- Frames.Frame.CalculateKlineFeatures: the table must start with positive Close and Volume in every row.  The source divides regardless and produces inf or NaN.
- Frames.Frame.CalculateFutureReturns: the table must start with positive Close in every row, for the same reason.
