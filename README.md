# RFM segmentation, modelled in Dafny

This project models the core of a customer-segmentation tool built on RFM (Recency, Frequency, Monetary) analysis. It covers four stages, each with the properties the code promises proved about it.

1. **Preprocessing** (`Preprocessing`, from `modules/preprocessing.py`). The per-source cleaning steps:
   - removal of rows with negative values;
   - the `drop` and `zero` actions for missing values;
   - removal of duplicate rows keeping the first, the last or none;
   - the driver that folds the configured steps over each source in order and skips unknown step names.
2. **Per-customer aggregation** (`RfmCalculator`, from `modules/rfm_calculator.py`). The required-column check, then a group-by over the transactions. Each customer gets:
   - Recency: the days from the latest purchase to the end date;
   - Frequency: the number of distinct purchase dates;
   - Monetary: the price sum;
   - LastPurchaseDate;
   - MonthsWithPurchases: the number of distinct year-months.
3. **Scoring of each variable** (`Stats`, `OutlierLimits`, `Breaks`, `Scoring`, `VariablePipeline`, from `modules/rfm_processing.py`):
   - Outlier limits: IQR, mean ± k·std, or percentiles, with numpy's linear percentile modelled exactly.
   - Cut-points: `min − 0.001`, the interior percentiles of the in-bounds values (or a Jenks classifier), and `max + 0.001`. The consecutive ranges go through the in-place shrink pass.
   - Scores: `np.digitize`, then `np.clip`, then an affine map, reversed for Recency. Each value also gets the first range that holds it.
   - The driver loop skips a variable whose processing raises.
4. **Final score and business category** (`SegmentAssigner`, from `modules/segment_assigner.py`):
   - The final score is the concatenation, sum or mean of the three scores.
   - The category is "Nuevo" for customers in their first month. Everyone else gets the first configured category listing the score's text, or "Sin Categoría" when none does.

Code that changes state in the source is written in the same form here:
- The shrink pass edits an `array`.
- The driver loops, the required-column check and the preprocessing steps are methods with loops.
- `process_rfm` and `assign_business_categories` update the fields of an `RfmFrame` object.

The shrink pass, the driver loops and the preprocessing steps are proved equal to specification functions, and the properties are then proved as lemmas about those functions. The required-column check is specified by what it finds: the first missing column, or none. The `RfmFrame` methods state the new value of every field.

The supporting modules are:
- `Common`: Option, Result and the exception kinds.
- `Text`: Python's `str` on integers, with its inverse, and ASCII lower-casing.
- `Calendar`: the year-month of a day number.
- `Tables`: cells, rows and tables.

Some inputs come in as parameters because the model cannot compute them:
- The sample standard deviation, which needs a square root, is the parameter `std`.
- The Jenks classifier is the parameter `jenks`.
- The text Python prints for a non-whole mean score is the parameter `floatRepr`.
- The analysis end date and the contents of the YAML configuration are plain parameters or datatypes.

Where the model's definitions and the code's documentation differ, the model follows the code. The Findings section below records one such case.

## Model

| member | source | states |
|---|---|---|
| `OutlierLimits.Lookup` | modules/rfm_processing.py:69-71 | The entry configured for a variable; none exactly when no entry has that name. |
| `OutlierLimits.CalculateOutliersLimits` | modules/rfm_processing.py:69-71 | An unconfigured variable raises KeyError; otherwise the limits of its own configuration. |
| `OutlierLimits.LimitsFor` | modules/rfm_processing.py:73-105 | What each outcome means. A missing `outlier_method` gives KeyError and an unsupported one ValueError. On success, min/max are the column's minimum and maximum. IQR gives LI ≤ Q1 ≤ Q3 ≤ LS and spread Q3 − Q1, for a non-negative factor (default 1.5). std_dev gives LI ≤ mean ≤ LS, for non-negative factor (default 2) and deviation. Percentile limits (defaults 5 and 95) lie in [min, max] and are ordered when the percentages are. An out-of-range percentage is rejected. |
| `Stats.Min` | modules/rfm_processing.py:73 | The minimum is a value of the column and no value is below it. |
| `Stats.Max` | modules/rfm_processing.py:74 | The maximum is a value of the column and no value is above it. |
| `Stats.Sort` | modules/rfm_processing.py:100-101 | The sort numpy's percentile works on is sorted and a permutation of its input. |
| `Stats.PercentileBounds` | modules/rfm_processing.py:100-101 | A linear-method percentile lies between the minimum and the maximum. |
| `Stats.PercentileMonotone` | modules/rfm_processing.py:100-101 | A larger percentage never gives a smaller percentile. |
| `Breaks.InBounds` | modules/rfm_processing.py:137 | The filtered values are exactly the column values within [LI, LS]. |
| `Breaks.InBoundsMultiplicity` | modules/rfm_processing.py:137 | Each value within [LI, LS] is kept as many times as the column holds it, and no other value is kept, so the percentiles see every copy. |
| `Breaks.Rank` | modules/rfm_processing.py:142 | Each evenly spaced percentage lies within [0, 100]. |
| `Breaks.RankMonotone` | modules/rfm_processing.py:142 | The spaced percentages increase with their index. |
| `Breaks.InteriorPercentiles` | modules/rfm_processing.py:142-143 | `num_categories − 1` interior breaks, none when there is at most one category. |
| `Breaks.InteriorPercentilesBounded` | modules/rfm_processing.py:142-143 | Every interior break lies between the filtered minimum and maximum. |
| `Breaks.InteriorPercentilesSorted` | modules/rfm_processing.py:142-143 | The interior breaks are non-decreasing. |
| `Breaks.Cutpoints` | modules/rfm_processing.py:145 | The first cut-point is min − 0.001, the last max + 0.001, with the interior ones in between. |
| `Breaks.CutpointsSorted` | modules/rfm_processing.py:145 | Sorted interior points inside [min, max] give a sorted cut-point vector. |
| `Breaks.RangesOf` | modules/rfm_processing.py:147 | One range per consecutive pair of cut-points. |
| `Breaks.AdjacentRangesTouch` | modules/rfm_processing.py:147 | Before the shrink pass, each range's upper bound is the next range's lower bound. |
| `Breaks.ShrinkOverlaps` | modules/rfm_processing.py:150-152 | The in-place pass leaves the array equal to the shrunk list of its old contents. |
| `Breaks.BreakRangesShape` | modules/rfm_processing.py:147-152 | After the pass, range i is (b[i], b[i+1] − 0.001) except the last, which stays (b[n−1], b[n]). Consecutive ranges are strictly separated. |
| `Breaks.InteriorBreaks` | modules/rfm_processing.py:140-171 | An unsupported breaks method raises ValueError. The percentile path succeeds exactly when values remain after filtering, and then yields the interior percentiles. |
| `Breaks.BreaksSpec` | modules/rfm_processing.py:133-171 | An unconfigured variable raises KeyError. On success there are at least two cut-points and the ranges are the shrunk consecutive pairs. |
| `Breaks.CalculateBreaks` | modules/rfm_processing.py:133-171 | The method computes exactly what `BreaksSpec` describes, shrinking the ranges in place. |
| `Breaks.PercentileBreaksSorted` | modules/rfm_processing.py:137-145 | On the percentile path the cut-point vector has `num_categories + 1` entries and is sorted. Its first entry is below the column minimum and its last above the column maximum. |
| `Scoring.CountLe` | modules/rfm_processing.py:203 | The digitize bin index lies in [0, number of breaks]. |
| `Scoring.CountLeSorted` | modules/rfm_processing.py:203 | Over sorted breaks the bin index k brackets the value: the first k breaks are ≤ it and the rest are above it. |
| `Scoring.CountLeMonotone` | modules/rfm_processing.py:203 | A larger value never falls in an earlier bin. |
| `Scoring.BucketExtremes` | modules/rfm_processing.py:203-206 | A value at or above the last interior break gets bucket `num_categories`. A value below the first cut-point is clipped up to the minimum score. |
| `Scoring.ScoreBounds` | modules/rfm_processing.py:206-214 | The clipped bucket lies in [score min, num_categories] and the score in the matching affine interval. |
| `Scoring.ScoreMonotone` | modules/rfm_processing.py:203-214 | With a non-negative step, scores are non-decreasing in the value, and non-increasing when inverse. |
| `Scoring.CalculateScore` | modules/rfm_processing.py:197-216 | One score and one range per value. Scores follow the order of the values, reversed when inverse. Each range is what `get_range_for_value` returns. |
| `Scoring.ColumnScoresMonotone` | modules/rfm_processing.py:197-216 | Across a column, a smaller value never gets a larger score, and the reverse holds when inverse. |
| `Scoring.FirstContaining` | modules/rfm_processing.py:239-241 | The first range, in order, with lower ≤ v < upper; none when no range holds v. |
| `Scoring.GetRangeForValue` | modules/rfm_processing.py:219-247 | None exactly when no range holds v and v is not the last upper bound. Otherwise it returns the first holding range, or the last range at its upper bound. |
| `Scoring.NoEarlierRange` | modules/rfm_processing.py:239-241 | Over sorted breaks, no range before b[i] holds a value ≥ b[i]. |
| `Scoring.RangeFound` | modules/rfm_processing.py:239-241 | A value in [b[i], b[i+1] − 0.001) gets range i. |
| `Scoring.LastRangeFound` | modules/rfm_processing.py:239-245 | A value in the last range, its upper bound included, gets the last range. |
| `Scoring.GapHasNoRange` | modules/rfm_processing.py:239-247 | A value in the 0.001-wide gap below an interior break gets no range. |
| `Text.ToLower` | modules/rfm_processing.py:274 | Lower-casing keeps the length; each upper-case ASCII letter becomes the letter 32 code points above it and every other character is kept. |
| `VariablePipeline.RecencyIgnoresCase` | modules/rfm_processing.py:274 | A variable is scored inversely exactly when its name is "recency" with any of its letters in upper case. |
| `VariablePipeline.RecencyNames` | modules/rfm_processing.py:274 | "Recency", "recency" and "RECENCY" are inverse; "Frequency", "Monetary" and "Recency " are not. |
| `VariablePipeline.ColumnValues` | modules/rfm_processing.py:277-280 | A column of the per-customer table has one number per customer; a name that is not a column raises KeyError. |
| `VariablePipeline.ScoreVariable` | modules/rfm_processing.py:272-284 | A variable succeeds only when its column, its breaks and its scores do. Its scores are inverse exactly when its lower-cased name is "recency", with one entry per customer. |
| `VariablePipeline.ScoreOneVariable` | modules/rfm_processing.py:274-280 | The method yields exactly the outcome `ScoreVariable` describes. |
| `VariablePipeline.ProcessRfmData` | modules/rfm_processing.py:250-295 | The customer rows come back unchanged. The score/range columns are those of the loop over the configured variables, each one customer long. |
| `VariablePipeline.ScoredKeys` | modules/rfm_processing.py:270-289 | A variable has `_score` and `_range` columns exactly when it is configured and its processing does not raise. A failing variable does not stop the others. |
| `VariablePipeline.ScoredValues` | modules/rfm_processing.py:283-284 | The columns stored under a name are that variable's own scores and ranges. |
| `RfmCalculator.ColumnNamesFrom` | modules/rfm_calculator.py:50-57 | The customer-id, date and price aliases are the configured names or their defaults CustomerID, InvoiceDate and UnitPrice. |
| `RfmCalculator.FirstMissingColumn` | modules/rfm_calculator.py:97-104 | The first missing column among customer, date and price, in that order; none when all are present. |
| `RfmCalculator.ToTxns` | modules/rfm_calculator.py:112 | On success there is one transaction per input row, each the conversion of that row. |
| `RfmCalculator.CalculateRfm` | modules/rfm_calculator.py:97-123 | A missing required column raises KeyError and the invoice column is not checked. Otherwise the result is the per-customer aggregation. |
| `RfmCalculator.Customers` | modules/rfm_calculator.py:115 | The group keys are distinct and are exactly the customers with a transaction. |
| `RfmCalculator.GroupMultiplicity` | modules/rfm_calculator.py:115-118 | A customer's group holds each of their transactions as many times as the input does, so Monetary sums every line. |
| `RfmCalculator.AggregateAll` | modules/rfm_calculator.py:115-121 | One row per group key, each the aggregation of that customer's transactions. |
| `RfmCalculator.OneRowPerCustomer` | modules/rfm_calculator.py:115-121 | No two output rows belong to the same customer, and every customer with a transaction has a row. |
| `RfmCalculator.LastDate` | modules/rfm_calculator.py:119 | LastPurchaseDate is one of the customer's dates and no date of theirs is later. |
| `RfmCalculator.LastDateIsLatest` | modules/rfm_calculator.py:116-119 | The latest date is present exactly when the customer has a dated purchase, and then it is the maximum of those dates. |
| `RfmCalculator.RecencyFromLatestDate` | modules/rfm_calculator.py:116 | Recency is the end date minus LastPurchaseDate, in days, where LastPurchaseDate is the latest of the customer's dates. |
| `RfmCalculator.DatedPurchaseIffDates` | modules/rfm_calculator.py:117 | The customer has a dated purchase exactly when their set of distinct dates (whose size is Frequency) is non-empty. |
| `RfmCalculator.MonthsWithinFrequency` | modules/rfm_calculator.py:117-120 | MonthsWithPurchases ≤ Frequency. |
| `RfmCalculator.MonthsPositive` | modules/rfm_calculator.py:120 | MonthsWithPurchases ≥ 1 exactly when the customer has a dated purchase. |
| `SegmentAssigner.FinalScoreOf` | modules/segment_assigner.py:60-67 | An unknown method raises ValueError. 'combinacion' gives text, 'suma' the sum and 'promedio' the mean of the three scores. |
| `SegmentAssigner.CombinationOfDigits` | modules/segment_assigner.py:61 | Single-digit scores r, f, m combine to the three digits in Recency, Frequency, Monetary order (5, 2, 4 gives "524"). |
| `SegmentAssigner.CombinationDecodes` | modules/segment_assigner.py:61 | The combined text of single-digit scores gives the three scores back. |
| `SegmentAssigner.CombinationInjective` | modules/segment_assigner.py:61 | Distinct single-digit score triples never share a combined score. |
| `SegmentAssigner.MeanBetweenScores` | modules/segment_assigner.py:64-65 | The mean is the sum over three and lies between the smallest and the largest score. |
| `SegmentAssigner.AccentedDefaultRejected` | modules/segment_assigner.py:36 | As written, a configuration without `score_method` makes every final score raise ValueError. |
| `SegmentAssigner.DefaultCombines` | modules/segment_assigner.py:36 | With the corrected default, such a configuration concatenates the three scores. |
| `SegmentAssigner.FinalScoreColumn` | modules/segment_assigner.py:48-67 | An unknown method raises ValueError before any column is read. A missing score column raises KeyError. Otherwise there is one final score per customer from that customer's three scores. |
| `SegmentAssigner.ScoreText` | modules/segment_assigner.py:96 | `str(score)`: combined text unchanged, and a sum's text parses back to the sum. A whole mean's text is its value followed by ".0". |
| `SegmentAssigner.Categorize` | modules/segment_assigner.py:94-98 | The first category in declaration order that lists the text, else "Sin Categoría". |
| `SegmentAssigner.CategoryLabels` | modules/segment_assigner.py:94-98 | A label is "Sin Categoría" or the name of a category listing the text. |
| `SegmentAssigner.NewLabelIffNew` | modules/segment_assigner.py:88-105 | If no category is itself called "Nuevo", a row is labelled "Nuevo" exactly when it is new. New means one month with purchases, the last of them in the end date's month. |
| `SegmentAssigner.RfmFrame.AssignBusinessCategories` | modules/segment_assigner.py:83-107 | Without a Final_Score column it raises KeyError and changes nothing. Otherwise each row's category is "Nuevo" if new, else its categorised score text, and no other column changes. |
| `SegmentAssigner.RfmFrame.ProcessRfm` | modules/segment_assigner.py:123-127 | If the final score raises, the frame is unchanged. Otherwise Final_Score, Business_Category and CutoffDate = end date are set on every row. |
| `Preprocessing.KeepNonNegative` | modules/preprocessing.py:68 | The kept rows are exactly the input rows that are ≥ 0 in every given column; a null fails the test. |
| `Preprocessing.KeepNonNegativeOrder` | modules/preprocessing.py:68 | The kept rows are a selection at increasing positions that includes every qualifying position, so their order is preserved and no qualifying row is lost. |
| `Preprocessing.KeepNonNegativeMultiplicity` | modules/preprocessing.py:68 | Each qualifying row is kept as many times as the input holds it; no other row is kept. |
| `Preprocessing.KeepNonNegativeCompose` | modules/preprocessing.py:66-68 | Filtering on one set of columns and then another is filtering on both. |
| `Preprocessing.RemoveNegativeValues` | modules/preprocessing.py:65-69 | The loop computes exactly the fold of one filter per listed column. |
| `Preprocessing.RemoveNegativeFilters` | modules/preprocessing.py:65-69 | The result keeps the columns and exactly the rows, in order, that are ≥ 0 in every listed column the table has. Absent columns are ignored. Numeric or null cells never raise. |
| `Preprocessing.DropNulls` | modules/preprocessing.py:44 | The kept rows are exactly those whose cell in the column is not null. |
| `Preprocessing.DropNullsOrder` | modules/preprocessing.py:44 | The rows left are a selection at increasing positions that includes every position with a value in the column: order is preserved and no such row is lost. |
| `Preprocessing.DropNullsMultiplicity` | modules/preprocessing.py:44 | Each row with a value in the column is kept as many times as the input holds it; no other row is kept. |
| `Preprocessing.ZeroFill` | modules/preprocessing.py:50 | Same length. Nulls in the column become 0 and no null remains there. Non-null rows and every other column are unchanged. |
| `Preprocessing.MissingStep` | modules/preprocessing.py:40-50 | One strategy entry keeps the columns and never adds rows. |
| `Preprocessing.HandleMissing` | modules/preprocessing.py:38-51 | The whole strategy keeps the columns and never adds rows. |
| `Preprocessing.HandleMissingValues` | modules/preprocessing.py:38-51 | The loop computes exactly the fold of the strategy entries in order. |
| `Preprocessing.HandleMissingClearsNulls` | modules/preprocessing.py:38-51 | After the strategy, no present column whose action is 'drop' or 'zero' holds a null. |
| `Preprocessing.KeptIndices` | modules/preprocessing.py:93 | The surviving positions increase and satisfy the keep rule, and every position satisfying it survives. |
| `Preprocessing.MissingKeyColumn` | modules/preprocessing.py:93 | A key column the table lacks, or none exactly when the table has them all. |
| `Preprocessing.HandleDuplicates` | modules/preprocessing.py:89-93 | An empty table is returned as is. A missing key column raises KeyError, then an unknown `keep` raises ValueError. Otherwise the columns are kept and no rows are added. |
| `Preprocessing.DedupDistinctKeys` | modules/preprocessing.py:93 | No two surviving rows share a key, and survivors keep their order. |
| `Preprocessing.EarliestOfKey` | modules/preprocessing.py:93 | With 'first', each key's earliest row survives. |
| `Preprocessing.LatestOfKey` | modules/preprocessing.py:93 | With 'last', each key's latest row survives. |
| `Preprocessing.DedupCoversKeys` | modules/preprocessing.py:93 | With 'first' or 'last', every key of the input is still present. |
| `Preprocessing.DedupNoneKeepsUnique` | modules/preprocessing.py:93 | With False, a row survives exactly when no other row shares its key. |
| `Preprocessing.ApplyStep` | modules/preprocessing.py:124-129 | Every available step keeps the columns and never adds rows. |
| `Preprocessing.RunStep` | modules/preprocessing.py:190 | The dispatch runs exactly the named step. |
| `Preprocessing.ApplyPreprocessingToSource` | modules/preprocessing.py:177-192 | A source's configured steps, in order, with unknown names skipped and the first exception ending the run. |
| `Preprocessing.UnknownStepsIgnored` | modules/preprocessing.py:186-187 | Running with unknown steps equals running with them removed. |
| `Preprocessing.PreprocessShape` | modules/preprocessing.py:177-192 | Preprocessing never changes a table's columns and never adds rows. |
| `Preprocessing.PreprocessAll` | modules/preprocessing.py:206-209 | Every source under its own key, in order, with its own result. The first failing source's exception ends it, and there is none when no source fails. |
| `Text.IntRoundTrip` | modules/segment_assigner.py:61 | `str` on integers can be parsed back, so distinct scores have distinct texts. |

## Left out

- Floating point: values are exact reals, so there is no rounding, no NaN and no infinity. The 0.001 offsets are exact.
- `OutlierLimits.LimitsFor`: an empty column raises EmptyData inside the three known methods. pandas instead returns NaN limits, and the failure shows up later (an empty percentile raises and the variable is skipped).
- Standard deviation: it needs a square root, so it is the parameter `std`. `LimitsFor` states the std_dev ordering only for a non-negative deviation. pandas' NaN deviation for a single value is not modelled.
- Jenks classifier: `jenkspy` is the parameter `jenks`. None stands for the library raising.
- `Scoring.CalculateScore`: the percentile cut-points are proved sorted. np.digitize's ValueError on non-monotonic bins is not modelled, and could only arise from an unsorted Jenks result.
- `Scoring.GetRangeForValue`: requires a non-empty range list. `calculate_breaks` always returns at least one range, so the IndexError the source raises on an empty list cannot occur.
- `VariablePipeline.ColumnValues`: a customer without a dated purchase has a null Recency, and the model then skips the whole Recency variable. pandas does not. With the IQR or std_dev outlier method, the limits skip NaN, `np.digitize` places NaN after every break and `np.clip` gives that customer the bucket `num_categories` (the lowest Recency score), with no range. Only with the percentiles outlier method do the limits become NaN, so no value remains after filtering and the variable is skipped as in the model. A null therefore makes the model drop Recency, and with it every final score, where the source scores it. A variable named after the customer-id column or LastPurchaseDate is also rejected with TypeError, whereas pandas would try to score it.
- `Text.ToLower`: lower-cases ASCII letters only; Python lower-cases all of Unicode.
- Dates are day numbers. Time of day is not modelled, so Recency is a whole number of days.
- `RfmCalculator.CalculateRfm`: the source overwrites the caller's date column with its parsed dates (rfm_calculator.py:112). The model takes the table as a value and leaves it unchanged, so that side effect is not captured.
- `Calendar.YearMonth`: that the month it computes lies in 1..12, so that two dates share the number exactly when they share year and month, is not proved.
- `RfmCalculator.ToTxns`: text date cells are rejected rather than parsed as pandas' `to_datetime` would.
- `RfmCalculator.AggregateAll`: rows come in order of each customer's first transaction; pandas sorts groups by key.
- `SegmentAssigner.ScoreText`: a mean that is not whole has its Python float text supplied by `floatRepr`.
- `SegmentAssigner.Categorize`: category values are strings. A YAML value written as a bare number would never match `str(score)` in Python.
- `SegmentAssigner.RfmFrame.AssignBusinessCategories`: only the default score column `Final_Score` is modelled, the only one `process_rfm` uses.
- `Preprocessing.MissingStep`: the 'mean' and 'median' imputations change nothing here. The in-place `fillna` is taken to write through to the table.
- `cast_column_types` changes nothing here, and its conversions are not modelled.
- `Preprocessing.HandleDuplicates`: the KeyError names the first missing key column, whereas pandas lists all of them. An explicitly empty subset list is treated as an empty key.
- YAML loading, `DataLoader` (including the analysis date range), `exporter.py`, `main.py` and console output are not part of this model. Their values enter as parameters.

## Findings

| source | as written | input that shows it | evidently intended | confidence | as-written member | corrected member |
|---|---|---|---|---|---|---|
| modules/segment_assigner.py:36 | The default `score_method` is "combinación" (accented, also at line 44), but line 60 compares against "combinacion". | A configuration with no `score_method`: `calculate_final_score` raises ValueError at line 67 for every table. | The default selects concatenation. | high; not executed | `SegmentAssigner.AccentedDefaultRejected` | `SegmentAssigner.DefaultCombines` |
