# Confusion matrix and accuracy values from SAM alignments

This project models the analysis core of `src/analyze_sam.py`: the
classification-accuracy evaluation of a read classifier. There are `n`
datasets. For every pivot dataset `i`, the reads of pivot `i` have been aligned
against every dataset `j`. The program builds an `n`-by-`n` confusion matrix
in three stages:

1. **Collection** (`main`, lines 29-57). For each pivot, the alignment
   records are read dataset by dataset, `j = 0 .. n-1`, in input order.
   - The ground-truth length is the fourth `_`-separated field of the read
     name, parsed as an integer. A name without that field, or whose field is
     not an integer, aborts the run.
   - Records shorter than the threshold `t` are dropped.
   - In MEM mode the length is corrected by the noise value, and records whose
     corrected length is negative are dropped.
   - The rest are grouped by read name into a table of `weight, hit list`.
     The weight is stored on the first insertion only; later records only
     append their dataset index.
2. **Fractional credit** (lines 59-77). Each read of the table spreads its
   weight evenly over the distinct datasets it hit, in row `i`. The weight is
   the stored corrected length in MEM mode and one in half-MEM mode. The total
   weight of the pivot, `total_entries`, is counted alongside.
3. **Accuracy values** (`calculate_accuracy_values`, lines 130-146). For every
   index `k`, each cell of the finished matrix is filed as a true positive (the
   diagonal cell), a false positive (the rest of column `k`), a false negative
   (the rest of row `k`) or a true negative (everything else).

Modules, one per file:

- `ReadNames` (`names.dfy`): Python's `str.split` and `int` on the read name,
  with their partners `str.join` and decimal rendering.
- `Sums` (`sums.dfy`): row, column and matrix sums of exact reals.
- `Collector` (`collector.dfy`): the collection stage. `Collect` is its
  specification, a fold of one `Step` per record. `BuildReadMappings` is the
  loop over the datasets `j` and `AddDataset` the loop over one dataset's
  records; `AddRecord` is the body of that innermost loop. All three are
  proved equal to the specification. The outer loop over the pivots `i` is
  `Analysis.FillMatrix`.
- `Aggregator` (`aggregator.dfy`): the crediting stage. `Contribution` and
  `TotalWeight` are its specification. The class `ConfusionMatrix` holds the
  matrix as a two-dimensional array updated in place.
- `Accuracy` (`accuracy.dfy`): `ScoreOf` files every cell as the source's
  triple loop does. `CalculateAccuracyValues` is that loop.
- `Analysis` (`analysis.dfy`): the whole run. `SpecifiedReport` is its specification,
  pivot by pivot. `Analyze` is the program.

The model follows the code in three details that a description of the tool
might state otherwise:

- In half-MEM mode the code stores the ground-truth length as the read's
  weight (line 54), not 1. It then ignores that weight: it credits `1/|S|`
  (line 74) and counts 1 into `total_entries` (line 69). The results are the
  same as with a weight of 1, and the model stores what the code stores.
- The accuracy record carries the 0-based index `pivot` (line 145), not a
  1-based one.
- Dataset indices in the hit lists are the 0-based loop variable `j` (lines
  46 and 56).

## Model

| member | source | states |
|---|---|---|
| ReadNames.Split | src/analyze_sam.py:37 | `split("_")` yields at least one field, and no field contains the separator |
| ReadNames.JoinSplit | src/analyze_sam.py:37 | joining the fields of a split with the separator gives back the read name |
| ReadNames.SplitJoin | src/analyze_sam.py:37 | splitting fields joined by a separator they do not contain gives back those fields |
| ReadNames.ParseDecimal | src/analyze_sam.py:37 | `int` parses the decimal rendering of every integer back to that integer |
| ReadNames.GroundTruthOfBuiltName | src/analyze_sam.py:37 | a name whose fourth `_`-field is the rendering of `len` yields ground-truth length `len` |
| Collector.InsertEffect | src/analyze_sam.py:43-46 | a new name gets the weight and hit list `[j]` and goes last in the dictionary order; a known name keeps its weight and gets `j` appended; other entries are unchanged |
| Collector.InsertValid | src/analyze_sam.py:53-56 | inserting keeps the table well formed: names listed once, an entry exactly for every listed name, non-empty hit lists of indices below `n` |
| Collector.CollectValid | src/analyze_sam.py:43-56 | every successful collection gives a well-formed table, so every hit list is non-empty and the division at lines 72 and 74 is safe; in MEM mode every weight is non-negative |
| Collector.CollectFails | src/analyze_sam.py:37 | collection fails exactly when some record has a malformed name |
| Collector.CollectErrorSticks | src/analyze_sam.py:36-37 | once a malformed name fails the collection, later records do not change the failure |
| Collector.CollectHits | src/analyze_sam.py:43-56 | a name has an entry exactly when it has a used record, and its hit list is the datasets of those records in order, duplicates kept |
| Collector.CollectFirstWeight | src/analyze_sam.py:42-44 | the stored weight of a read is computed from its earliest used record |
| Collector.WeightFixedAtFirstInsert | src/analyze_sam.py:43-56 | once a read is in the table, further records never change its weight and only extend its hit list |
| Collector.RejectedRecordIgnored | src/analyze_sam.py:39-42 | a record below the threshold, or with negative corrected length in MEM mode, leaves the table exactly as it would be without it |
| Collector.ThresholdBoundary | src/analyze_sam.py:39 | a length equal to the threshold is used (in MEM mode, if the corrected length is non-negative); one below it is dropped |
| Collector.NoiseExample | src/analyze_sam.py:42-44 | with noise 2, a record of length 5 is stored with weight 3 and one of length 1 is dropped |
| Collector.StreamMembers | src/analyze_sam.py:34-36 | the records of a pivot are exactly the records of its datasets, each tagged with its dataset index |
| Collector.StreamDatasets | src/analyze_sam.py:34 | every record of a pivot has a dataset index below the number of datasets |
| Collector.FailureAbortsDataset | src/analyze_sam.py:36-37 | a failure part way through a dataset is the failure of the whole dataset |
| Collector.FailureAbortsPivot | src/analyze_sam.py:34-37 | a failure in an earlier dataset is the failure of the whole pivot |
| Collector.AddRecord | src/analyze_sam.py:37-56 | the loop body for one record computes one `Step` of the specification |
| Collector.AddDataset | src/analyze_sam.py:36-56 | the loop over one dataset's records extends the collection by exactly those records |
| Collector.BuildReadMappings | src/analyze_sam.py:30-57 | the nested loops build exactly the table `Collect` specifies for the pivot's records, or fail with its error |
| Aggregator.HitSet | src/analyze_sam.py:65-74 | `set(...)` holds exactly the datasets of the hit list, no more of them than there are hits, and at least one for a non-empty hit list, so the divisions by `len(curr_set)` at lines 72 and 74 are defined |
| Aggregator.ReadRowSum | src/analyze_sam.py:63-74 | the amounts one read adds to its row sum to its stored weight in MEM mode and to 1 in half-MEM mode |
| Aggregator.CreditSplit | src/analyze_sam.py:70-74 | each dataset the read hit gets its weight divided by the size of its hit set; a dataset it did not hit gets nothing |
| Aggregator.DuplicateHitsIgnored | src/analyze_sam.py:65 | duplicate indices in the hit list do not change what the read adds |
| Aggregator.SplitCreditExample | src/analyze_sam.py:70-72 | a read of weight 2 that hit datasets 0 and 1 adds 1 to each |
| Aggregator.CreditNonNegative | src/analyze_sam.py:72-74 | with non-negative MEM weights every credit is non-negative |
| Aggregator.ContributionSum | src/analyze_sam.py:59-74 | the amounts a well-formed table adds to its row sum to its `total_entries` |
| Aggregator.ContributionNonNegative | src/analyze_sam.py:70-74 | with non-negative MEM weights every amount added to the row is non-negative |
| Aggregator.ConfusionMatrix.constructor | src/analyze_sam.py:18 | the matrix is `n` by `n` and every cell starts at zero |
| Aggregator.ConfusionMatrix.CreditRead | src/analyze_sam.py:64-74 | crediting one read adds its credit to each cell of row `i` and changes no other row |
| Aggregator.ConfusionMatrix.AddPivot | src/analyze_sam.py:59-77 | row `i` grows by the pivot's contribution, in dictionary order; no other row changes; the returned `total_entries` is the specified total weight |
| Accuracy.RowClasses | src/analyze_sam.py:137-144 | within a row, the false positives are the column-`k` cell of every other row, the true negatives the rest of those rows, and the false negatives row `k` without its diagonal cell |
| Accuracy.BlockTruePositives | src/analyze_sam.py:134-144 | the branch chain files only the diagonal cell as the true positive |
| Accuracy.BlockFalsePositives | src/analyze_sam.py:139-140 | the false positives are the column-`k` sum without the diagonal cell |
| Accuracy.BlockFalseNegatives | src/analyze_sam.py:141-142 | the false negatives are the row-`k` sum without the diagonal cell |
| Accuracy.BlockTrueNegatives | src/analyze_sam.py:143-144 | the true negatives are every cell outside row `k` and column `k` |
| Accuracy.ScoreSums | src/analyze_sam.py:133-145 | `tp` is the diagonal cell, `fp` the rest of column `k`, `fn` the rest of row `k`, `tn` everything else; `tp + tn + fp + fn` is the sum of all cells |
| Accuracy.CalculateAccuracyValues | src/analyze_sam.py:130-146 | returns exactly `n` records in ascending index order; record `k` is the score of index `k` |
| Analysis.PivotTableValid | src/analyze_sam.py:34-56 | the table of a pivot's successful collection is well formed for `n` datasets |
| Analysis.PivotsErrorSticks | src/analyze_sam.py:29-37 | a failed pivot fails the whole run with its error |
| Analysis.PivotFails | src/analyze_sam.py:34-37 | a pivot fails exactly when one of its records has a malformed name |
| Analysis.PivotsFail | src/analyze_sam.py:29-37 | the run fails exactly when some record of some pivot has a malformed name |
| Analysis.PivotRowProperties | src/analyze_sam.py:59-77 | row `i` is non-negative and sums to the total printed for pivot `i` |
| Analysis.ReportProperties | src/analyze_sam.py:18-77 | in a finished report every cell is non-negative, row `i` sums to pivot `i`'s total, and the four accuracy values of every index add up to the matrix sum |
| Analysis.PivotsNext | src/analyze_sam.py:29-77 | a pivot whose records collect into a table adds that table's row and total |
| Analysis.PivotAborts | src/analyze_sam.py:29-37 | a pivot whose collection fails ends the run with that failure |
| Analysis.ReportAssembled | src/analyze_sam.py:29-94 | the matrix, the totals and the accuracy values of successful pivots form the specified report |
| Analysis.RunPivot | src/analyze_sam.py:30-77 | one pass of the pivot loop fills row `i` with the specified pivot row, or fails as the run does; other rows are unchanged |
| Analysis.FillMatrix | src/analyze_sam.py:29-77 | the pivot loop on a zero matrix fills every row with its specified pivot row, or fails with the run's first error |
| Analysis.Analyze | src/analyze_sam.py:16-94 | the program computes exactly the specified report: matrix, per-pivot totals and accuracy values, or the first malformed-name failure |

## Left out

- Opening, iterating and closing the SAM files with `pysam` (lines 35-36, 57)
  is I/O. Each file is an input sequence of records, one per pivot and dataset.
  A record carries only its read name, the one field the core uses.
- The noise value, `math.log(int(text_length), 4)` from the `.fai` file
  (lines 21-25), is floating point and file I/O. It is a real parameter of the
  MEM mode. No sign is required of it.
- Floating point: weights, shares and sums are exact reals. The source's
  Python floats round, so its sums depend on the order of addition. The model
  keeps the source's order: dictionary insertion order, and row by row,
  column by column.
- The iteration order of Python's `set` (line 70): `CreditRead` credits the
  hit set's datasets in an arbitrary order. With exact reals the order does
  not change the result.
- Writing the two CSV files (lines 80-94) is I/O. `Analyze` returns the matrix
  and the accuracy values instead.
- The printed log lines (lines 25, 31, 58, 77) are output only.
  `total_entries` is returned per pivot, because its relation to the row sums
  is a property of the core.
- The diagnostic counter `input_entries` (lines 32, 45, 55) is only printed.
  In MEM mode it adds the read-sequence length minus the noise (line 45), and
  the read sequence is not modelled; in half-MEM mode it counts first
  insertions (line 55).
- `parse_arguments` and `check_arguments` (lines 97-128) are command-line
  plumbing. The `Mode` datatype makes "exactly one of MEM and half-MEM"
  structural, and `Analyze` requires `n` pivots of `n` datasets each.
- ReadNames.ParseInt: models Python's `int` on ASCII input only. It strips ASCII white space, then
  accepts an optional sign and decimal digits. Python also accepts Unicode
  digits and white space; those are not modelled. Underscore digit grouping
  cannot occur in a field split on `_`.
- Collector.BuildReadMappings: takes the length extraction as a function
  parameter. `Analyze` passes `ReadNames.GroundTruthLength`.
- The commented-out cap logic and the defunct `build_refs_list` and
  `find_class_of_reference_name` blocks (lines 60, 75-78, 149-174) are not
  part of the running program.
