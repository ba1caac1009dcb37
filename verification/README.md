# Freight-load exploratory analysis, modelled in Dafny

The analysis script reads two tables:
- the load-level shipment records, one row per load, with carrier, temperature zone, award type, payment, mileage, linehauls and on-time flags;
- the service-performance records, keyed by `LOAD_ID`.

Before it plots anything, the script derives a handful of tables from these inputs:

- **Carrier × temperature-zone table.** A count crosstab of carrier against temperature zone.
- **Timeliness table.** Rows carrying the placeholder `2.0` in either on-time flag are dropped. The remaining (pick, drop) pairs are cross-tabulated as shares of the whole.
- **Per-carrier payment comparison.** The mean payment per carrier is computed separately for Primary loads and for Waterfall #2 loads. The two are inner-merged on the carrier.
- **Carrier quartiles.** The per-carrier load counts (`value_counts`) and their 25 %, 50 % and 75 % quantiles, using pandas' linear interpolation and median.
- **Carrier-activity segments.** A four-way segmentation of the rows by their carrier's load count. It is followed by a filter that keeps only rows whose contract and paid linehaul both exceed 100.
- **Join diagnostics.** The inner join of the two tables on `LOAD_ID`, with its row count and the `duplicated()` counts of the three id columns.
- **Cost per mile.** A cost-per-mile column in which infinities become missing, together with its missing-value counts.

The model writes each of these as a pure function over sequences of records:
- money, mileage and flags are exact `real`s;
- a missing cell is `None`;
- every derived table is an immutable value.

The modules follow the script's stages:

| module | content |
|---|---|
| `Wrappers` | `Option` |
| `Seqs` | filtering, counting, distinct values, sums, insertion sort |
| `Records` | the two row types and per-carrier group sizes |
| `Contingency` | a generic crosstab with and without `normalize='all'` |
| `TemperatureZones`, `Timeliness`, `Payments`, `Quantiles`, `Segmentation`, `Join`, `CostPerMile` | one stage each |

Two behaviours of the code are worth stating up front:

- **The carrier buckets have gaps.** The bounds `between(Q1+1, Q2)` and `between(Q2+1, Q3)` leave an integer count in no bucket when it lies strictly between `Q1` and `Q1+1`, or between `Q2` and `Q2+1`, which happens whenever the quartiles are fractional (see Findings). The model keeps both readings:
  - the bounds as written;
  - the evidently intended strict-lower-bound buckets, which put every carrier in exactly one bucket.
- **Crosstabs only label values that occur.** For rows (1,1), (0,1), (2,1) the placeholder row is dropped and the timeliness table has two pick values by one drop value, each cell holding the share 0.5. pandas lists the pick labels sorted as (0, 1); the model lists them in order of first occurrence, (1, 0), as "## Left out" records. `Timeliness.ThreeRowExample` proves this table.

## Model

| member | source | states |
|---|---|---|
| Timeliness.TimelinessFilter | Vaibhav-EDA/eda.py:53-55 | no kept row has the placeholder 2.0 as pick or drop flag, and a row is kept exactly when it is an input row with neither flag equal to 2.0 (a missing flag is kept) |
| Timeliness.TimelinessFilterIsOnePass | Vaibhav-EDA/eda.py:53-55 | the two successive masks select the same rows, in the same order, as one mask on "neither flag is 2.0" |
| Timeliness.TimelinessFilterKeepsOrder | Vaibhav-EDA/eda.py:53-55 | the filter distributes over concatenation and keeps a single row exactly when neither flag is 2.0, so surviving rows keep their original order |
| Timeliness.TimelinessTable | Vaibhav-EDA/eda.py:57-61 | the normalized crosstab is well-shaped; its row labels are, without repetition, exactly the pick values of filtered rows that also have a drop flag, and its column labels exactly the drop values of filtered rows that also have a pick flag (so 2.0 never labels either); each cell is the number of complete filtered rows with that (pick, drop) pair divided by the number of complete filtered rows; empty when there are none |
| Timeliness.TimelinessTableTotal | Vaibhav-EDA/eda.py:57-61 | when at least one filtered row has both flags the shares add up to 1 |
| Timeliness.ThreeRowExample | Vaibhav-EDA/eda.py:53-61 | rows (1,1), (0,1), (2,1): the third row is dropped and the table has row labels [1, 0], the single column label [1] and cells [[0.5], [0.5]] |
| Contingency.CrossTab | Vaibhav-EDA/eda.py:33-36 | each distinct first value labels exactly one row and each distinct second value exactly one column, and each cell counts the observations with that pair |
| Contingency.CrossTabRowSum | Vaibhav-EDA/eda.py:33-36 | a row of the count table adds up to the number of observations with that row label |
| Contingency.CrossTabTotal | Vaibhav-EDA/eda.py:33-36 | the count table adds up to the number of observations |
| Contingency.JointShares | Vaibhav-EDA/eda.py:57-61 | with `normalize='all'` each cell is its pair's count divided by the number of observations, with the same labels as the count table |
| Contingency.JointSharesTotal | Vaibhav-EDA/eda.py:57-61 | a non-empty normalized table adds up to 1 |
| TemperatureZones.CarrierZoneTable | Vaibhav-EDA/eda.py:33-36 | the row labels are, without repetition, exactly the carriers with at least one row that has a zone, the column labels exactly the zones with at least one row that has a carrier, and each cell counts the rows with that carrier and that zone |
| TemperatureZones.CarrierRowTotal | Vaibhav-EDA/eda.py:33-36 | a carrier's row adds up to that carrier's loads with a recorded zone, and every row label has at least one such load |
| TemperatureZones.ZoneGrandTotal | Vaibhav-EDA/eda.py:33-36 | the table adds up to the number of rows with both a carrier and a zone |
| Payments.PrimaryLoads | Vaibhav-EDA/eda.py:85-89 | a row is selected exactly when its award type is "Primary" |
| Payments.WaterfallLoads | Vaibhav-EDA/eda.py:85-90 | a row is selected exactly when its award type is "Waterfall #2" |
| Payments.AwardSubsetsAreOnePass | Vaibhav-EDA/eda.py:85-90 | pre-selecting the awards of interest changes neither subset: each equals the one-mask selection of its award type |
| Payments.Tally | Vaibhav-EDA/eda.py:93-94 | the group-by accumulation has a carrier exactly when it has a row, holding that carrier's payment total and row count |
| Payments.MeanPayment | Vaibhav-EDA/eda.py:93-94 | a carrier is in the aggregate exactly when it has a row, and its value is its total payment divided by its number of rows |
| Payments.MergeInner | Vaibhav-EDA/eda.py:97-100 | the merge has exactly the carriers in both aggregates, each paired with its primary and waterfall means |
| Payments.PrimaryVsWaterfall | Vaibhav-EDA/eda.py:85-100 | the merged table has exactly the carriers with rows in both award subsets, each mapped to its total payment over its Primary rows divided by their number and its total over its Waterfall #2 rows divided by theirs |
| Payments.PrimaryVsWaterfallCarriers | Vaibhav-EDA/eda.py:85-100 | a carrier is in the merged table exactly when it has at least one Primary row and at least one Waterfall #2 row |
| Quantiles.Interpolate | Vaibhav-EDA/eda.py:120-122 | the interpolated value lies at or above every order statistic at or below the virtual index and at or below every one at or above it |
| Quantiles.InterpolateBetween | Vaibhav-EDA/eda.py:120-122 | with lo = floor(h) and a next order statistic, the interpolation is `x[lo] + (h - lo) * (x[lo+1] - x[lo])` |
| Quantiles.Quantile | Vaibhav-EDA/eda.py:120-122 | missing exactly for an empty series or p outside [0, 1], otherwise between the smallest and the largest value |
| Quantiles.QuantileOfAnyOrder | Vaibhav-EDA/eda.py:120-122 | for any non-empty series and p in [0, 1] the quantile is the interpolation at index (n-1)p of the values in ascending order |
| Quantiles.QuantileOfPermutation | Vaibhav-EDA/eda.py:119-122 | two series with the same values in any order have the same quantiles, so the order `value_counts` lists the counts in does not matter |
| Seqs.SortedUnique | Vaibhav-EDA/eda.py:120-122 | two ascending sequences with the same values are equal |
| Quantiles.QuantileMonotone | Vaibhav-EDA/eda.py:120-122 | quantiles are ordered like their probabilities |
| Quantiles.Median | Vaibhav-EDA/eda.py:121 | missing exactly for an empty series; otherwise between the smallest and the largest value, and one of the values when the length is odd |
| Quantiles.MedianIsHalfQuantile | Vaibhav-EDA/eda.py:121 | the median (middle value, or mean of the two middle values) is the 0.5-quantile |
| Quantiles.QuartilesOf | Vaibhav-EDA/eda.py:120-122 | missing exactly for an empty series; otherwise Q1, Q2 and Q3 are the 0.25-, 0.5- and 0.75-quantiles and min <= Q1 <= Q2 <= Q3 <= max |
| Records.CarrierCount | Vaibhav-EDA/eda.py:150 | a carrier's group size is at most the number of rows |
| Records.CarrierCountPositive | Vaibhav-EDA/eda.py:150 | a carrier's group size is positive exactly when some row names it |
| Quantiles.CarrierFrequencies | Vaibhav-EDA/eda.py:119 | one entry per distinct carrier, each that carrier's number of rows (so at least 1), adding up to the number of rows naming a carrier |
| Quantiles.CarrierHistogram | Vaibhav-EDA/eda.py:119 | counting the carrier column per distinct carrier gives, for each carrier, its number of rows; every count is at least 1 and the counts add up to the rows that name a carrier |
| Quantiles.CarrierQuartiles | Vaibhav-EDA/eda.py:119-122 | the thresholds are missing exactly when no row names a carrier; otherwise they are the 0.25-, 0.5- and 0.75-quantiles of the per-carrier counts, ordered, with Q1 at least 1 and Q3 at most the largest count |
| Quantiles.QuantileOfSorted | Vaibhav-EDA/eda.py:120-122 | on a sorted series the quantile is the interpolation at index (n-1)p |
| Quantiles.ExampleQuartiles | Vaibhav-EDA/eda.py:120-122 | counts {1, 5, 10, 50} have quartiles 4, 7.5 and 20 |
| Segmentation.BucketOf | Vaibhav-EDA/eda.py:152-155 | with the corrected bounds a count below 1 has no bucket and any other count has exactly one |
| Segmentation.AsWrittenIsCorrectedOutsideGap | Vaibhav-EDA/eda.py:152-155 | a count is in an as-written bucket exactly when it is in that corrected bucket and not strictly between Q1 and Q1+1 or between Q2 and Q2+1 |
| Segmentation.AsWrittenCoverage | Vaibhav-EDA/eda.py:152-155 | the as-written buckets are pairwise disjoint, and a count of at least 1 is in none of them exactly when it lies in a gap |
| Segmentation.Select | Vaibhav-EDA/eda.py:150-155 | a row is selected exactly when it names a carrier whose group size lies in the bucket |
| Segmentation.CorrectedBucketsPartition | Vaibhav-EDA/eda.py:150-155 | with the corrected bounds the four bucket sizes add up to the number of rows naming a carrier |
| Segmentation.DropDegenerate | Vaibhav-EDA/eda.py:157-161 | every kept row has both linehauls present and above 100, and a row is kept exactly when it is an input row satisfying that |
| Segmentation.DropDegenerateIdempotent | Vaibhav-EDA/eda.py:157-161 | filtering twice is filtering once |
| Segmentation.Segment | Vaibhav-EDA/eda.py:150-161 | a row is in a segment exactly when it is in the bucket and carries both linehauls above 100; no segment has rows when no carrier is named |
| Segmentation.SegmentMembers | Vaibhav-EDA/eda.py:150-161 | a segment row has both linehauls above 100, names a carrier whose count the bucket admits, and is in no other segment |
| Segmentation.CorrectedSegmentOfRow | Vaibhav-EDA/eda.py:150-161 | under the corrected bounds a carrier-naming row with both linehauls above 100 lies in exactly the segment of its carrier's count |
| Segmentation.AsWrittenLosesGapRows | Vaibhav-EDA/eda.py:150-161 | under the bounds as written a row whose carrier count lies in a gap is in no segment |
| Segmentation.AsWrittenWithinCorrected | Vaibhav-EDA/eda.py:150-161 | each as-written segment is contained in the corrected one |
| Segmentation.GapAt233 | Vaibhav-EDA/eda.py:120-155 | with quartiles 232.75, 823.5 and 2088.75 a carrier with 233 loads is in no as-written bucket and in the corrected second one |
| Segmentation.GapForThreeCarriers | Vaibhav-EDA/eda.py:119-155 | counts {1, 2, 3} have quartiles 1.5, 2, 2.5, and the carrier with 2 loads is in no as-written bucket |
| Segmentation.FourCarriersBuckets | Vaibhav-EDA/eda.py:119-155 | counts {1, 5, 10, 50} fall in buckets one to four under both readings |
| Join.InnerJoin | Vaibhav-EDA/eda.py:194 | a joined row is exactly a pair of a load row and a service row with the same id, with one row per matching pair of positions |
| Join.JoinSize | Vaibhav-EDA/eda.py:194-197 | the join has as many rows as the sum over distinct load ids of the id's multiplicity in each table multiplied together |
| Join.JoinSizeBound | Vaibhav-EDA/eda.py:194-197 | when no id repeats more than m times in the service table the join has at most m rows per load row |
| Join.EmptyJoinIffNoSharedId | Vaibhav-EDA/eda.py:194-197 | the join is empty exactly when the tables share no id |
| Join.JoinIdsAreShared | Vaibhav-EDA/eda.py:194-199 | the distinct ids of the join are exactly the ids common to both tables |
| Join.Duplicated | Vaibhav-EDA/eda.py:199-201 | one flag per position, set exactly when the value at that position already occurs earlier |
| Join.DuplicatedCount | Vaibhav-EDA/eda.py:199-201 | the number of duplicated flags is the row count minus the number of distinct values |
| Join.Report | Vaibhav-EDA/eda.py:194-201 | the three printed lengths and the three duplicate counts, the join's being its row count minus the number of ids the tables share |
| CostPerMile.CostPerMile | Vaibhav-EDA/eda.py:209-210 | missing exactly when the mileage is missing or zero; otherwise the value times the mileage is the payment |
| CostPerMile.CostColumn | Vaibhav-EDA/eda.py:209-210 | one cell per row, each the cost per mile of that row |
| CostPerMile.MissingCount | Vaibhav-EDA/eda.py:216-219 | `isna().sum()` is at most the column length and is zero exactly when every cell is present |
| CostPerMile.DropMissing | Vaibhav-EDA/eda.py:211 | the kept values plus the missing count make up the column, and a value is kept exactly when the column holds it |
| CostPerMile.MissingCostCount | Vaibhav-EDA/eda.py:209-219 | the cost column misses exactly the missing-mileage rows plus the zero-mileage rows, so at least as many as the mileage column |
| CostPerMile.CostPerMileCases | Vaibhav-EDA/eda.py:209-210 | 0/0, 500/0 and -500/0 (NaN, inf, -inf) and a missing mileage all give a missing value; 500/100 gives 5 |

## Left out

- Reading the two CSV files (Vaibhav-EDA/eda.py:9-10): file I/O. The tables are parameters.
- All `print` calls and all matplotlib/seaborn calls (scatter plots, heatmap, histograms, axis limits, tick labels): output only. The printed values are modelled as the values themselves (`Join.Report`, `CostPerMile.MissingCount`).
- The 90th-percentile `upper` of the cost per mile (Vaibhav-EDA/eda.py:212): it only sets a plot range. `Quantiles.Quantile` would compute it.
- The commented-out outer join (Vaibhav-EDA/eda.py:187): never executed.
- The `nunique` prints of `TEMPERATURE_REQ` and `CARRIER_SKEY` (Vaibhav-EDA/eda.py:25-26): output only. `TEMPERATURE_REQ` is not a column of the model.
- IEEE floating point: values are exact reals. NaN, `inf` and `-inf` all collapse to a missing value, and rounding of the interpolated quantiles is not modelled.
- Order of `value_counts` (Vaibhav-EDA/eda.py:119): pandas lists the counts by descending count; `Quantiles.CarrierFrequencies` lists them by first appearance of the carrier. Only their quantiles are used, and `Quantiles.QuantileOfPermutation` shows those do not depend on the order.
- Label order of crosstabs: pandas sorts the row and column labels. The model keeps them in order of first occurrence, so tables equal pandas' up to a permutation of labels.
- Quantile: pandas raises an error for `p` outside [0, 1]. The model returns a missing value, and the script only uses 0.25, 0.5 and 0.75.
- `LOAD_ID` and `TOTAL_PAYMENT_AMOUNT` are never missing. The comment at Vaibhav-EDA/eda.py:216 says the payment has no missing values, and the join key is modelled as a plain integer.
- Payments.MeanPayment: states the mean as the division of the carrier's payment total by its row count, not in the multiplied-back form.
- pandas internals beyond the stated semantics (index alignment, dtype coercion, the order of groups in a group-by result): the aggregates are maps keyed by carrier.

## Findings

| source | as written | input that shows it | evidently intended | confidence | as-written member | corrected member |
|---|---|---|---|---|---|---|
| Vaibhav-EDA/eda.py:152-155 | the buckets are `between(1, Q1)`, `between(Q1+1, Q2)`, `between(Q2+1, Q3)` and `> Q3`, so with fractional quartiles an integer count strictly between Q1 and Q1+1 (or between Q2 and Q2+1) is in no bucket | quartiles 232.75, 823.5, 2088.75 and a carrier with 233 loads; or counts {1, 2, 3}, whose quartiles are 1.5, 2, 2.5, so the carrier with 2 loads lands in no bucket | buckets `1 <= n <= Q1`, `Q1 < n <= Q2`, `Q2 < n <= Q3`, `n > Q3`, which partition every carrier with at least one load | not executed | Segmentation.AsWrittenCoverage | Segmentation.CorrectedBucketsPartition |
