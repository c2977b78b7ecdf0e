# MUSIC event pipeline: a Dafny model

The MUSIC detector is a segmented-anode ionisation chamber. Its analysis
scripts work on a flat tree of records, one record per anode segment `seg`
(1..16) per event. Each record carries `edepl`, `edepr`, `strip0` and
`strip17`. This project models the table logic under the scripts' I/O and
plotting, and proves what each stage promises.

- **Event reshaping** (`reshape.dfy`, `table.dfy`). The records become a
  34-column event table `s0, s1L, s1R, ..., s16L, s16R, s17`. The model
  covers both the loop-built dictionary of the two analysis scripts and the
  hard-coded arrays and dictionary literal of the top-level script. It also
  models `pd.DataFrame(dict)`, with its refusal of arrays of unequal length.
- **Strip-0 pile-up cut** (`strip0_cut.dfy`). The cut keeps
  `low <= s0 <= high`. It appears in two places:
  - as a record mask with integer limits, applied before reshaping;
  - as a row drop, applied after reshaping. The row drop takes its limits
    either from a Gaussian fit (`mu -/+ 2 sigma`) or, as written, from typed
    text.

  Also modelled: the fit seed, namely the first arg-max bin, the bin's left
  edge and the width 25. On whole-event streams the two placements are
  proved to give the same table.
- **Strip-3 selection** (`strip3.dfy`). This stage is five `df.drop` calls
  with threshold 600. They are proved equal to one conjunctive filter that
  does not depend on the order of the drops.
- **Normalisation** (`normalize.dfy`). Strips 1..16 split into a beam list
  and a no-beam list of columns. Every column is multiplied by
  `target / mean(column)`. The target is 500 for `s0`, `s17` and the beam
  columns, and 50 for the no-beam columns. The whole run of steps is proved
  to be one per-column scaling. Afterwards every column's mean is exactly
  its target.

`seqs.dfy` holds the shared primitives: order-preserving `Filter`, and
`Sum`, `Scale` and `Mean` over reals. Values are exact `real`s. Rows are
sequences of 34 reals and tables are sequences of rows. pandas row labels
are unique wherever `drop` is used (after earlier drops they have gaps, but
no label repeats), so a drop is an order-preserving filter.

`analysis/music_evt_strip0cut_to_norm.py` divides each column by its mean;
it fits no peak and subtracts no offset.

## Model

| member | source | states |
|---|---|---|
| EventTable.Left | analysis/music_root_to_evt_with_strip0cut.py:54-55 | `s{k}L` sits at the odd position `2k-1`, and the strip number is recovered from it |
| EventTable.Right | analysis/music_root_to_evt_with_strip0cut.py:54-56 | `s{k}R` sits at the even position `2k`, and the strip number is recovered from it |
| EventTable.DecimalInjective | analysis/music_root_to_evt_with_strip0cut.py:55-56 | different strip numbers give different `f's{i}'` texts |
| EventTable.ColumnKeyInjective | analysis/music_root_to_evt_with_strip0cut.py:50-58 | the 34 column keys are pairwise different, so no `update` overwrites an earlier column |
| EventTable.ColumnKey | analysis/music_root_to_evt_with_strip0cut.py:52-58 | the key text of each column: `s0`, `s{k}L` / `s{k}R` as written by the f-string and `%i` format, `s17`; KeyOfLeft / KeyOfRight and ColumnKeyInjective give its meaning |
| EventTable.Update | analysis/music_root_to_evt_with_strip0cut.py:52-58 | `dict.update` appends a fresh key at the end and keeps the size when the key already exists |
| EventTable.UpdateReplaces | analysis/music_root_to_evt_with_strip0cut.py:52-58 | updating an existing key replaces its entry in place and leaves every other entry where it was |
| EventTable.FromDict | analysis/music_root_to_evt_with_strip0cut.py:62 | the table is built iff the keys are the 34-column layout and all arrays have equal length; it then has one row per array element, and each column equals its array |
| EventTable.FromDictToDict | analysis/music_root_to_evt_with_strip0cut.py:62 | building a table from its own column dictionary gives the table back |
| EventTable.ToDictFromDict | analysis/music_root_to_evt_with_strip0cut.py:62 | every accepted dictionary is the column dictionary of the table it builds |
| Reshape.Select | analysis/music_root_to_evt_with_strip0cut.py:55-56 | `branches[f][branches['seg'] == s]`: SelectAppend, SelectNone, SelectUnique and SelectFrom give its meaning (order kept, only segment-`s` records, each contributing its own value) |
| Reshape.SelectAppend | analysis/music_root_to_evt_with_strip0cut.py:55-56 | the boolean-mask selection keeps record order: selecting from a concatenation selects from each part |
| Reshape.SelectUnique | analysis/music_root_to_evt_with_strip0cut.py:55-56 | when exactly one record has segment `s`, the selection is that record's value |
| Reshape.SourceOf | analysis/music_root_to_evt_with_strip0cut.py:52-58 | `s{k}L` reads `edepl` and `s{k}R` reads `edepr` of the segment-`k` records; every source segment lies in 1..16 |
| Reshape.LayoutDict | analysis/music_root_to_evt_with_strip0cut.py:50-58 | the intended dictionary has exactly the 34 keys in table order |
| Reshape.SegmentLoop | analysis/music_root_to_evt_strip0cut.py:115-117 | the `for i in range(1, 17)` loop adding `s{i}L` then `s{i}R`; SegmentLoopFromPrefix gives its meaning |
| Reshape.LoopDict | analysis/music_root_to_evt_strip0cut.py:110-119 | the loop-built dictionary: `s0`, the segment loop, `s17`; LoopDictIsLayout gives its meaning |
| Reshape.UpdateLayout | analysis/music_root_to_evt_with_strip0cut.py:55-56 | each `update` of the loop appends the next layout column |
| Reshape.SegmentLoopFromPrefix | analysis/music_root_to_evt_with_strip0cut.py:54-56 | loop iterations `i..16`, started from the first `2i-1` layout entries, produce the first 33 entries |
| Reshape.LoopDictIsLayout | analysis/music_root_to_evt_with_strip0cut.py:50-58 | the loop-built dictionary is exactly `s0, s1L, ..., s16R, s17`, each with the values of its own segment and branch |
| Reshape.FirstEntry | analysis/music_root_to_evt_with_strip0cut.py:52 | `s0` is the first entry and holds the `strip0` values of the segment-1 records |
| Reshape.LastEntry | analysis/music_root_to_evt_with_strip0cut.py:58 | `s17` is the last entry and holds the `strip17` values of the segment-1 records |
| Reshape.HardCodedArrays | music_root_to_evt_strip0cut.py:140-173 | the 34 hard-coded `np.array` selections; HardCodedArraysAreLayout gives their meaning |
| Reshape.HardCodedDict | music_root_to_evt_strip0cut.py:187-196 | the dictionary literal pairs the 34 keys with the 34 arrays; HardCodedIsLayout proves it equals the loop-built dictionary |
| Reshape.HardCodedKeysAreLayout | music_root_to_evt_strip0cut.py:187-196 | the dictionary literal lists the same 34 keys, in the same order, as the loop |
| Reshape.HardCodedArraysAreLayout | music_root_to_evt_strip0cut.py:140-173 | each hard-coded `strip_{i}L` / `strip_{i}R` array is `edepl` / `edepr` of the segment-`i` records; `strip_0` and `strip_17` come from segment 1 |
| Reshape.HardCodedIsLayout | music_root_to_evt_strip0cut.py:140-196 | the hard-coded dictionary equals the loop-built dictionary of the analysis scripts |
| Reshape.EventRow | analysis/music_root_to_evt_with_strip0cut.py:52-58 | in a block of 16 records, `s{k}L` / `s{k}R` come from the `k`-th record, and `s0` / `s17` from the first |
| Reshape.EventRows | analysis/music_root_to_evt_with_strip0cut.py:62 | a whole-event stream of `16n` records gives `n` rows |
| Reshape.ColumnOfStream | analysis/music_root_to_evt_with_strip0cut.py:52-58 | on a whole-event stream, each selected column is that column of the event rows |
| Reshape.LayoutOfStream | analysis/music_root_to_evt_with_strip0cut.py:50-58 | on a whole-event stream, the intended dictionary is the column dictionary of the event rows |
| Reshape.BuildEventStream | music_root_to_evt_strip0cut.py:198 | both dictionaries build, without a length error, the table of one row per event |
| Strip0Cut.MaskRecords | analysis/music_root_to_evt_strip0cut.py:86 | a record is kept iff `int(LOW_CUT) <= strip0 <= int(HIGH_CUT)`, with both ends inclusive |
| Strip0Cut.MaskAppend | analysis/music_root_to_evt_strip0cut.py:106 | the mask keeps record order: masking a concatenation masks each part |
| Strip0Cut.MaskIdempotent | analysis/music_root_to_evt_strip0cut.py:86 | masking twice with the same limits equals masking once |
| Strip0Cut.SelectFrom | analysis/music_root_to_evt_strip0cut.py:113-119 | every value in a built column comes from a record of that column's segment |
| Strip0Cut.Strip0ColumnInMask | analysis/music_root_to_evt_strip0cut.py:113 | an `s0` column drawn from masked records lies in the window |
| Strip0Cut.MaskThenLoopTable | analysis/music_root_to_evt_strip0cut.py:106-121 | each column is built from the masked records only, and every row's `s0` lies in the window |
| Strip0Cut.MaskThenHardCodedTable | music_root_to_evt_strip0cut.py:105-198 | the top-level script: mask, hard-coded arrays, DataFrame; MaskScriptsAgree and MaskScriptsMatchRowCut give its meaning |
| Strip0Cut.MaskScriptsAgree | music_root_to_evt_strip0cut.py:86-198 | the top-level script's mask plus hard-coded arrays gives the same result as the analysis script's mask plus loop |
| Strip0Cut.CutRows | analysis/music_root_to_evt_with_strip0cut.py:158-161 | a row is kept iff `low <= s0 <= high`, so rows exactly on a limit stay; kept rows come from the input unchanged |
| Strip0Cut.CutIsWindowFilter | analysis/music_root_to_evt_with_strip0cut.py:158-161 | the two drops together are one order-preserving filter by the inclusive window |
| Strip0Cut.CutIdempotent | analysis/music_root_to_evt_with_strip0cut.py:158-161 | cutting twice with the same limits equals cutting once |
| Strip0Cut.CutAppend | analysis/music_root_to_evt_with_strip0cut.py:158-161 | surviving rows keep their relative order |
| Strip0Cut.AutoWindow | analysis/music_root_to_evt_with_strip0cut.py:149-150 | the automatic window is centred on the fitted `mu` with width `4 sigma`, and contains `mu` when `sigma >= 0` |
| Strip0Cut.NegativeSigmaDropsAll | analysis/music_root_to_evt_with_strip0cut.py:149-161 | a fit that returns a negative `sigma` gives an inverted window, and the cut then drops every row |
| Strip0Cut.BinCentres | analysis/music_root_to_evt_with_strip0cut.py:138 | there is one centre per bin, and centre `k` is the midpoint of edges `k` and `k+1` |
| Strip0Cut.CentreInsideBin | analysis/music_root_to_evt_with_strip0cut.py:138 | each centre lies strictly inside its bin |
| Strip0Cut.FirstArgMaxUnique | analysis/music_root_to_evt_with_strip0cut.py:140 | the first index of the maximum count is unique |
| Strip0Cut.FirstArgMax | analysis/music_root_to_evt_with_strip0cut.py:140-141 | on non-empty counts, the result is the first index attaining the maximum; `np.argmax` of empty counts fails |
| Strip0Cut.FitSeed | analysis/music_root_to_evt_with_strip0cut.py:136-147 | the seed is (maximum count, left edge of the first arg-max bin, 25), and it exists iff there are bins |
| Strip0Cut.SeedCentreIsLeftEdge | analysis/music_root_to_evt_with_strip0cut.py:138-147 | the seed centre lies half a bin width below that bin's centre |
| Strip0Cut.Strip0CutAsWritten | analysis/music_root_to_evt_with_strip0cut.py:134-161 | with automatic limits, the kept rows lie in `mu -/+ 2 sigma`; with typed limits, the function always fails |
| Strip0Cut.Strip0CutRows | analysis/music_root_to_evt_with_strip0cut.py:134-161 | in either mode, a row is kept iff its `s0` lies in the mode's inclusive window |
| Strip0Cut.AutoModeUnchanged | analysis/music_root_to_evt_with_strip0cut.py:134-150 | on the automatic path, the corrected cut and the cut as written agree |
| Strip0Cut.RootToEvtWithStrip0Cut | analysis/music_root_to_evt_with_strip0cut.py:186-190 | a dictionary that cannot build a table stops the run with that failure; otherwise the result is exactly the built table's rows whose `s0` lies in the automatic window, in order |
| Strip0Cut.WholeEventsWithStrip0Cut | analysis/music_root_to_evt_with_strip0cut.py:186-190 | on a whole-event stream the run succeeds, and keeps exactly the event rows whose `s0` lies in `mu -/+ 2 sigma`, in order |
| Strip0Cut.MaskBlock | analysis/music_root_to_evt_strip0cut.py:86 | all 16 records of an event share `strip0`, so the mask keeps or drops the whole event |
| Strip0Cut.MaskIsRowCut | analysis/music_root_to_evt_strip0cut.py:86-121 | on whole-event streams, masking records and then reshaping equals reshaping and then cutting rows with the same limits |
| Strip0Cut.ReportedEvents | analysis/music_root_to_evt_strip0cut.py:88-92 | the printed event count, record count over 16; ReportedEventsOfStream and MaskScriptsMatchRowCut prove it is the row count before and after the mask |
| Strip0Cut.ReportedEventsOfStream | analysis/music_root_to_evt_strip0cut.py:88 | the reported total, `len / 16`, is the number of event rows |
| Strip0Cut.MaskedLoopTable | analysis/music_root_to_evt_strip0cut.py:106-121 | the masked script's table is the row cut of the unmasked table |
| Strip0Cut.MaskScriptsMatchRowCut | analysis/music_root_to_evt_strip0cut.py:86-121 | both mask scripts equal the row cut, and both printed counts are row counts, before and after the cut |
| Strip3.Drop | analysis/music_evt_in_strip3.py:34 | one drop keeps exactly the rows its test does not flag |
| Strip3.DropAll | analysis/music_evt_in_strip3.py:34-51 | a run of drops only removes rows |
| Strip3.DropAllIsFilter | analysis/music_evt_in_strip3.py:34-51 | a run of drops is one order-preserving filter by the conjunction of the negated tests |
| Strip3.DropOrderIrrelevant | analysis/music_evt_in_strip3.py:34-51 | the same tests in any order remove the same rows |
| Strip3.PassesStrip3Tests | analysis/music_evt_in_strip3.py:32-51 | a row passes all five drops iff `s3L >= 600`, `s2R <= 600`, `s1L <= 600`, `s4R >= 600` and `s16R <= 300` |
| Strip3.Strip3IsFilter | analysis/music_evt_in_strip3.py:32-51 | the five drops equal one filter by that conjunction |
| Strip3.SelectStrip3 | analysis/music_evt_in_strip3.py:32-51 | kept rows come from the input and meet all five bounds, boundary values included; every row meeting them is kept |
| Strip3.Strip3Append | analysis/music_evt_in_strip3.py:34-51 | surviving rows keep their relative order |
| Strip3.Strip3Idempotent | analysis/music_evt_in_strip3.py:34-51 | selecting again removes nothing more |
| Strip3.Strip3AnyOrder | analysis/music_evt_in_strip3.py:34-51 | the five drops may run in any order |
| Normalize.ListsFollowStrips | analysis/music_evt_strip0cut_to_norm.py:34-35 | entry `k` of `beam` is the L side of strip `k` when `k` is odd and the R side when `k` is even; `no_beam` holds the other side |
| Normalize.StripChannels | analysis/music_evt_strip0cut_to_norm.py:34-35 | the two channels of strip `k` are different, both belong to strip `k`, and they fall in different residue classes mod 4 |
| Normalize.BeamByResidue | analysis/music_evt_strip0cut_to_norm.py:34 | a column is in `beam` iff it lies in 1..32 and is 0 or 1 mod 4 |
| Normalize.NoBeamByResidue | analysis/music_evt_strip0cut_to_norm.py:35 | a column is in `no_beam` iff it lies in 1..32 and is 2 or 3 mod 4 |
| Normalize.BeamPartition | analysis/music_evt_strip0cut_to_norm.py:34-35 | the lists have 16 entries each, are disjoint, and together are exactly 1..32 |
| Normalize.TargetOfLists | analysis/music_evt_strip0cut_to_norm.py:50-54 | beam columns get target 500 and no-beam columns get 50 |
| Normalize.ScaleColumn | analysis/music_evt_strip0cut_to_norm.py:51 | the `iloc` assignment multiplies one column and leaves every other value unchanged |
| Normalize.ScaleColumnColumns | analysis/music_evt_strip0cut_to_norm.py:51 | as columns: the chosen column is scaled and every other column is unchanged |
| Normalize.RescaleColumn | analysis/music_evt_strip0cut_to_norm.py:31 | a non-empty column with a zero mean fails; otherwise the column is multiplied by `target / mean` and then has mean exactly `target`, while the other columns and the row count are unchanged |
| Normalize.RescaleAtTarget | analysis/music_evt_strip0cut_to_norm.py:51 | a column whose mean is already its target is left unchanged |
| Normalize.RescaleKeepsOrder | analysis/music_evt_strip0cut_to_norm.py:51 | with a positive mean and target, rescaling keeps the order of values within the column |
| Normalize.LoopSteps | analysis/music_evt_strip0cut_to_norm.py:50-54 | each loop performs one rescale step per list entry, in list order, with the loop's target |
| Normalize.NormalizeSteps | analysis/music_evt_strip0cut_to_norm.py:31-57 | a run of rescale steps keeps the row count |
| Normalize.FactorOfPresent | analysis/music_evt_strip0cut_to_norm.py:50-54 | with distinct columns, a column's overall factor is its own step's `target / mean` |
| Normalize.NormalizeStepsScales | analysis/music_evt_strip0cut_to_norm.py:31-57 | with distinct columns, the run succeeds iff the table is empty or every step's column mean is nonzero; it then multiplies each column by a factor that depends only on that column's original values |
| Normalize.StepOrderIrrelevant | analysis/music_evt_strip0cut_to_norm.py:50-57 | processing the same distinct-column steps in another order gives the same result |
| Normalize.CodeStepsShape | analysis/music_evt_strip0cut_to_norm.py:31-57 | the script performs 34 steps: `s0` at 500, the 16 beam columns at 500, the 16 no-beam columns at 50, and `s17` at 500 |
| Normalize.CodeStepsDistinct | analysis/music_evt_strip0cut_to_norm.py:31-57 | the script rescales each of the 34 columns exactly once |
| Normalize.NormalizeTable | analysis/music_evt_strip0cut_to_norm.py:31-57 | the run succeeds iff the table is empty or no column mean is zero; each column becomes itself times `target / mean`, and then has mean exactly 500 (`s0`, `s17`, beam) or 50 (no-beam); the row count is unchanged |
| Normalize.NormalizedColumn | analysis/music_evt_strip0cut_to_norm.py:31-57 | each output column depends only on the same input column |
| Normalize.NormalizeTwice | analysis/music_evt_strip0cut_to_norm.py:31-57 | normalising an already normalised table changes nothing |
| Normalize.NormalizeKeepsOrder | analysis/music_evt_strip0cut_to_norm.py:51-54 | where a column's mean is positive, normalisation keeps the order of its values |
| Seqs.MeanScale | analysis/music_evt_strip0cut_to_norm.py:51 | scaling a column by `f` scales its mean by `f` |
| Seqs.MeanAfterRescale | analysis/music_evt_strip0cut_to_norm.py:51 | a column with a nonzero mean, multiplied by `target / mean`, has mean exactly `target` |

## Left out

- ROOT reading through `uproot`, feather reading and writing, and output file names. These are I/O. The record stream and the tables are parameters and results.
- Plotting (`summary_plot`, matplotlib), `describe()`, `print` and `tqdm` output. These are display only.
- `input()` prompts and `sys.argv`. Cut limits are parameters. The record mask takes them as the integers `int(LOW_CUT)` and `int(HIGH_CUT)`; the `ValueError` that `int` raises on non-numeric text is not modelled.
- `scipy.optimize.curve_fit`. Its result `(a, mu, sigma)` is an input (`GaussFit`), and a fit that does not converge is not modelled.
- `np.histogram` binning. The counts and edges are an input (`Histogram`). Float bin edges and the inclusive last bin are not modelled.
- Float rounding. Values are exact reals, so "mean equals 500" holds exactly in the model and only approximately in the scripts.
- pandas index bookkeeping. Rows are a plain sequence. `reset_index` at analysis/music_root_to_evt_with_strip0cut.py:190 has nothing left to do on a sequence. The one at analysis/music_evt_in_strip3.py:54 acts on a copy and changes nothing.
- The commented-out alternatives: the strip17 mask, the CSV writer, the per-strip-pair normalisation at analysis/music_evt_strip0cut_to_norm.py:40-46 and the debug prints.
- Normalize.RescaleColumn: a zero mean makes `500 / mean` infinite or NaN in numpy. The model reports `Err(NonFiniteScale(column))` instead of filling the column with non-finite values. An empty column has a NaN mean in numpy and stays empty; the model leaves it unchanged.
- Normalize.NormalizeTable: stops at the first zero-mean column, as above, instead of writing non-finite values and continuing.
- EventTable.FromDict: refuses a dictionary whose keys are not the 34-column layout (`UnexpectedColumns`), which pandas would build into a table with other columns. Every script passes the layout, which Reshape.LoopDictIsLayout and Reshape.HardCodedIsLayout prove.
- Strip0Cut.ReportedEvents: `len(...)/16` is Python float division; the model uses exact real division.
- Strip0Cut.FirstArgMax: empty counts give `Err(EmptyCounts)`, where numpy raises `ValueError`.
- Reshape.EventRows: reshaping is related to rows only for whole-event streams (blocks of 16 records with segments 1..16 in order and one shared `strip0`; `s17` is taken from the block's first record). For other streams, the model gives only the column dictionary and `FromDict`'s length check.

## Findings

| source | as written | input that shows it | evidently intended | confidence | as-written member | corrected member |
|---|---|---|---|---|---|---|
| analysis/music_root_to_evt_with_strip0cut.py:151-157 | with `auto_lims=False`, the limits are the strings returned by `input()`, and the report line formats them with `:.2f`, which raises `ValueError` for a `str` | `strip0_cut(df, False)` with the typed limits `100` and `200` | the typed limits are converted to numbers and the rows are cut to `100 <= s0 <= 200` | high, not executed | Strip0Cut.Strip0CutAsWritten | Strip0Cut.Strip0CutRows |
