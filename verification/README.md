# X-CANIDS unlabeled preprocessing: a verified Dafny model

`preprocessing_unlabeled.py` turns a table of CAN bus events
`(Time, ID, Signal_1_of_ID .. Signal_K_of_ID)` into a sequence of fixed-width
feature vectors, one per clean time window. Each vector has one slice per
source ID, in sorted ID order. Each value in it is min-max normalised against
a global range catalog. This project models that resampling engine in Dafny
and proves its bookkeeping correct.

The parts are:

- **Offsets** (`compute_offsets`). An in-place running sum over an `array<int>`
  turns per-source field counts into the end position of each source's slice.
- **Events**. These are the expression-style selections: the window filter
  `(t - dt, t]`, the per-source filter, the latest row as `idxmax` picks it,
  and the fields of a row that survive `dropna` and the constant-signal drops.
- **Layout**. This is the flat vector as per-source values laid end to end,
  and the way the offset table cuts it into slices.
- **Scaler** (`scale_s`). This is min-max normalisation in place over an
  `array<real>`, with a running offset. A field whose max equals its min
  becomes `1.0`. A value outside `[0, 1]` is the fatal assertion, modelled as
  a `false` result.
- **ConstantSignals** (`get_constant_signals`, `info_constant_signals`). These
  give the 1-based positions, among the columns present in every row of a
  source, of the columns whose max equals their min.
- **Extractor** (`get_s`). This handles one window:
  - A source with rows in the window writes the packed fields of its latest row
    into its slice and into the cache.
  - A source without rows falls back to its cache entry.
  - A source with neither makes the window dirty, but the loop goes on.
  - A clean window is scaled and returned.
- **Driver** (the loops of `main`). The first loop builds the constant-signal
  catalog, the constant-signal count and the offset table. The window loop then
  steps `np.arange(min_t + dt, max_t + dt, dt)`, threads the cache through the
  windows and stores each clean vector in the next row of a preallocated
  buffer, which it truncates at the end. In exact arithmetic the first window
  is `(min_t, min_t + dt]`, so rows at the earliest timestamp are read by no
  window (`Driver.EarliestRowsUnread`).

The loops in the table below are methods with loop invariants, and each of
them is proved against a specification function. The same holds for the loops
of `get_constant_signals` and of the setup in `main`. The loop at lines 69-70
that drops the constant signals from one row is the exception. It is modelled
by functions over the row's fields: the recursive `Events.KeptColumns` picks
the columns that survive, and `Events.Packed` reads their values.

| loop | method | specification function |
|---|---|---|
| `compute_offsets` | `ComputeOffsets` | `PrefixSums` |
| `scale_s` | `ScaleInPlace` | `Scaled` |
| `get_s` | `GetS` | `Extract` |
| the window loop | `RunWindows` | `Extraction` |

The lemmas then state what the source promises about those functions.

Two loop bodies are split off into methods of their own: `Extractor.CopySource`
(one source of `get_s`) and `Driver.StepWindow` (one window of `main`). This
keeps each proof small.

Beyond the source's own claims, the model proves three things about the run:

- every collected vector is exactly as wide as the layout and lies in
  `[0, 1]`;
- a window is dropped exactly when some source has neither fresh rows nor a
  cache entry;
- when no timestamp is negative, the buffer of `int((max_t + dt) / dt)` rows
  always has room, so only the range assertion can stop the run early.

## Model

| member | source | states |
|---|---|---|
| `Offsets.ComputeOffsets` | preprocessing_unlabeled.py:24-27 | The array afterwards holds the running sums of its old contents, in place and with the same length. |
| `Offsets.PrefixSumsAt` | preprocessing_unlabeled.py:24-27 | Offset i is the sum of the original counts 0..i. |
| `Offsets.PrefixSumsFirst` | preprocessing_unlabeled.py:25 | The loop starts at 1, so the first offset is the first count. |
| `Offsets.PrefixSumsStep` | preprocessing_unlabeled.py:26 | Each offset is the previous offset plus its own count. |
| `Offsets.LastOffsetIsTotal` | preprocessing_unlabeled.py:214 | The last offset, which main uses as the vector width `s_len`, is the total of all counts. |
| `Offsets.ZeroCountKeepsOffset` | preprocessing_unlabeled.py:24-27 | A source with zero fields has an empty slice: its offset equals the previous one. |
| `Offsets.OffsetsNonDecreasing` | preprocessing_unlabeled.py:24-27 | With non-negative counts, every offset is non-negative and the offsets never decrease. |
| `Offsets.SliceBounds` | preprocessing_unlabeled.py:51-74 | Source i's slice starts at the previous offset (0 for the first source), which is the sum of the earlier counts. It is as wide as count i and ends within the vector width. |
| `Layout.OffsetsTile` | preprocessing_unlabeled.py:51-74 | The running sum of non-negative widths tiles the vector: consecutive slices, each as wide as its count, all within `offsets[-1]`. |
| `Layout.ConcatLength` | preprocessing_unlabeled.py:51 | The laid-out vector is exactly as wide as the sum of the slice widths. |
| `Layout.ConcatAtOffsets` | preprocessing_unlabeled.py:58-74 | Under the offset table of the widths, slice `[offsets[i-1], offsets[i])` of the layout holds exactly source i's values. |
| `Events.TimeSliceMembers` | preprocessing_unlabeled.py:48-49 | A row is in the window slice exactly when it is in the table and `t - dt < time <= t`. |
| `Events.RowsOfMembers` | preprocessing_unlabeled.py:55 | A row is in a source's selection exactly when it is in the table and carries that ID. |
| `Events.LatestIndex` | preprocessing_unlabeled.py:64-65 | The picked row has the maximal time, and every earlier row has a strictly smaller time (the first maximum, as `idxmax` returns it). |
| `Events.KeptColumns` | preprocessing_unlabeled.py:66-70 | The kept columns are strictly increasing. Column k is kept exactly when its field is present and, with exclusion on, k + 1 is not a listed constant signal. |
| `Events.PackedAllPresent` | preprocessing_unlabeled.py:66-71 | Without exclusion, a row with every field present packs to all of its values, in column order. |
| `Events.MinTime` | preprocessing_unlabeled.py:181 | `min_t` is a time that occurs in the table, and no time is smaller. |
| `Events.MaxTime` | preprocessing_unlabeled.py:180 | `max_t` is a time that occurs in the table, and no time is larger. |
| `Scaler.ScaleField` | preprocessing_unlabeled.py:37-42 | A field with max == min becomes exactly 1.0. Any other result r satisfies r * (max - min) == v - min. Every result lies in [0, 1], and None stands for the failed assertion. |
| `Scaler.ScaleFieldDefinedIff` | preprocessing_unlabeled.py:39-42 | With min < max, the assertion holds exactly when min <= v <= max. |
| `Scaler.Scaled` | preprocessing_unlabeled.py:29-44 | The scaled vector: every laid-out field lies in [0, 1], a constant field is 1.0, and positions past the layout are untouched. |
| `Scaler.SourceRangesAt` | preprocessing_unlabeled.py:31-35 | Source i's minima and maxima sit at the running offset, the sum of `len(mins)` of the earlier sources, and the offset grows by its own `len(mins)`. |
| `Scaler.ScaledSourceField` | preprocessing_unlabeled.py:32-43 | Field j of source i, at position `offsets[i-1] + j`, is scaled with that source's own j-th min and max. |
| `Scaler.ScaleSource` | preprocessing_unlabeled.py:36-42 | The inner loop succeeds exactly when every field of the slice scales. It then rewrites each of them to its scaled value. No position outside the slice changes. |
| `Scaler.ScaleInPlace` | preprocessing_unlabeled.py:29-44 | `scale_s` succeeds exactly when every laid-out field scales. It then leaves the array equal to the scaled vector of its old contents. |
| `ConstantSignals.PresentColumns` | preprocessing_unlabeled.py:85 | The columns that `dropna` keeps are strictly increasing, and each has a value in every row. |
| `ConstantSignals.PresentColumnsComplete` | preprocessing_unlabeled.py:85 | No column that has a value in every row is dropped. |
| `ConstantSignals.ColumnMax` | preprocessing_unlabeled.py:91 | The column maximum bounds every value of the column from above. |
| `ConstantSignals.ColumnMin` | preprocessing_unlabeled.py:92 | The column minimum bounds every value of the column from below. |
| `ConstantSignals.ExtremesAttained` | preprocessing_unlabeled.py:91-92 | Both the maximum and the minimum occur in the column. |
| `ConstantSignals.ConstantIffSingleValue` | preprocessing_unlabeled.py:93 | max == min exactly when the column takes one value in every row. |
| `ConstantSignals.PositionsSpec` | preprocessing_unlabeled.py:89-98 | The running `signal` counter lists strictly increasing positions, and position p is listed exactly when the p-th flag is set. |
| `ConstantSignals.ConstantListSpec` | preprocessing_unlabeled.py:82-99 | The list is strictly increasing and lies within 1..(number of present columns). Position p is listed exactly when the p-th present column is constant. |
| `ConstantSignals.GetConstantSignals` | preprocessing_unlabeled.py:82-99 | The count equals the length of the list, and the list is the constant list of the source. |
| `ConstantSignals.InfoConstantSignals` | preprocessing_unlabeled.py:101-112 | The count equals the length of the list `get_constant_signals` returns for the same table and ID. |
| `Extractor.FreshMembers` | preprocessing_unlabeled.py:49-55 | A source's rows in the window are exactly its table rows with `t - dt < time <= t`. |
| `Extractor.LatestRow` | preprocessing_unlabeled.py:64-65 | The latest row is a row of the source in the window, and no such row is later. |
| `Extractor.LatestAt` | preprocessing_unlabeled.py:55-71 | Per source, that entry is what `get_s` computes on the window slice: the packed row `idxmax` picks, present exactly when the slice has rows of the source. |
| `Extractor.LatestFits` | preprocessing_unlabeled.py:71-73 | Every packed latest row is as wide as its source's slice. |
| `Extractor.Visit` | preprocessing_unlabeled.py:54-75 | If the visit of the first n sources stays clean, each of them has a cache entry. |
| `Extractor.VisitCacheAt` | preprocessing_unlabeled.py:56-72 | A visited source with rows caches its latest packed row. Any other source keeps its entry, or its lack of one. |
| `Extractor.VisitCleanIff` | preprocessing_unlabeled.py:56-63 | The visit stays clean exactly when each visited source has fresh rows or a prior cache entry. |
| `Extractor.ExtractCacheFits` | preprocessing_unlabeled.py:72-80 | The returned cache still fits the range catalog, so the next window can use it. |
| `Extractor.ExtractDroppedIff` | preprocessing_unlabeled.py:56-63 | A window is dropped exactly when some source has neither rows in the window nor an entry in the incoming cache. |
| `Extractor.ExtractCacheAt` | preprocessing_unlabeled.py:54-75 | Whatever the outcome, dropped included, a source with rows in the window now caches its latest packed (unscaled) row. Any other source keeps its entry unchanged. |
| `Extractor.ExtractCacheOther` | preprocessing_unlabeled.py:54-75 | The cache entry of a source outside the catalog is never touched. |
| `Extractor.ExtractEmitted` | preprocessing_unlabeled.py:77-78 | An emitted vector is exactly as wide as the layout, and every value lies in [0, 1]. |
| `Extractor.ExtractSlice` | preprocessing_unlabeled.py:56-78 | In an emitted vector, position `offsets[i-1] + j` holds the scaled value of field j of source i's cache entry after the window. That entry is fresh or forward-filled. |
| `Extractor.AssignSlice` | preprocessing_unlabeled.py:58 | The slice assignment replaces exactly positions `lo .. lo + len(vals) - 1` with `vals`. |
| `Extractor.CopySource` | preprocessing_unlabeled.py:55-75 | One pass of the loop advances the clean flag and the cache as `Visit` does. While clean, it extends the filled prefix by the source's entry. |
| `Extractor.Gather` | preprocessing_unlabeled.py:47-75 | The loop yields `Visit`'s clean flag and cache. When clean, every position of the fresh vector holds the layout of the cache. |
| `Extractor.GetS` | preprocessing_unlabeled.py:46-80 | `get_s` returns exactly `Extract`: the outcome (dropped, scaled vector or range violation) and the new cache. |
| `Driver.BuildLayout` | preprocessing_unlabeled.py:186-207 | The setup loop yields three things. The catalog is the file's, the detected lists, or empty. The offsets are the file's or the running sum of `len(mins)`. The constant-signal total is the sum of the per-source counts. |
| `Driver.DetectedStep` | preprocessing_unlabeled.py:191-192 | Detecting one more source adds exactly its own list to the catalog. |
| `Driver.VectorWidth` | preprocessing_unlabeled.py:214 | Without a file, `s_len = offsets[-1]` is the total of `len(mins)`, the width of the layout. |
| `Driver.SetupConstsCover` | preprocessing_unlabeled.py:186-192 | With exclusion on, every source has an entry in the catalog `get_s` is given. |
| `Driver.Trunc` | preprocessing_unlabeled.py:216 | `int()` truncates toward zero. |
| `Driver.ArangeBelowStop` | preprocessing_unlabeled.py:219 | `np.arange` visits point i exactly when `start + i * step` lies strictly below the stop. |
| `Driver.Windows` | preprocessing_unlabeled.py:219-225 | After n windows, the cache still fits the catalog, and at most n vectors (and no more than the buffer rows) are collected. |
| `Driver.Advance` | preprocessing_unlabeled.py:219-225 | Adding window i keeps the cache fitting and collects at most i + 1 vectors, within the buffer. |
| `Driver.Collect` | preprocessing_unlabeled.py:223-225 | The run continues exactly when the window was dropped, or was emitted with a buffer row free. It then keeps the earlier vectors, appends the emitted vector if there is one, and takes the window's cache. |
| `Driver.CollectedPrefix` | preprocessing_unlabeled.py:219-225 | A run still collecting after n windows was collecting after every m <= n, and the vectors after m windows are a prefix of those after n. |
| `Driver.WindowAppends` | preprocessing_unlabeled.py:219-225 | Window i appends `[s]` to the collected vectors exactly when its `get_s` outcome is a vector `s`, and appends nothing when the window is dropped. |
| `Driver.VectorsGrow` | preprocessing_unlabeled.py:219-225 | A run still collecting after window n - 1 was collecting before it, and that window leaves every earlier vector in its place. |
| `Driver.FailureStep` | preprocessing_unlabeled.py:219-225 | A window that starts with a buffer row free can stop the run only through the range assertion of that window. |
| `Driver.EarliestRowsUnread` | preprocessing_unlabeled.py:214-221 | A row at the earliest timestamp lies in no window, since every window `(t - dt, t]` starts at or after `min_t`. |
| `Driver.WindowsStep` | preprocessing_unlabeled.py:219-225 | The run after window i + 1 is window i's `get_s` result, with the previous cache, collected into the run after window i. |
| `Driver.FailureIsFinal` | preprocessing_unlabeled.py:219-225 | Once the run has failed, later windows change nothing. |
| `Driver.ExtractionIs` | preprocessing_unlabeled.py:216-219 | When the buffer length is non-negative, the run is as many windows as `np.arange` yields, over that buffer. |
| `Driver.CollectedNormalized` | preprocessing_unlabeled.py:223-229 | Every collected vector is as wide as the layout, and each of its values lies in [0, 1]. |
| `Driver.FailsOnlyOutOfRange` | preprocessing_unlabeled.py:216-225 | With no more windows than buffer rows, the buffer never overflows. Only an out-of-range value at some window stops the run. |
| `Driver.WindowsFitBuffer` | preprocessing_unlabeled.py:216-219 | With `0 <= min_t <= max_t`, `np.arange(min_t + dt, max_t + dt, dt)` has no more points than the `int((max_t + dt) / dt)` buffer rows. |
| `Driver.ExtractionFailsOnlyOutOfRange` | preprocessing_unlabeled.py:214-227 | With no negative timestamp, the window loop stops early only on an out-of-range value, at one of its windows. |
| `Driver.StepWindow` | preprocessing_unlabeled.py:221-225 | One window: the buffer holds the collected vectors, and the run state is the one `Windows` gives for one more window. |
| `Driver.FillBuffer` | preprocessing_unlabeled.py:219-227 | The window loop over n windows returns exactly the run `Windows` defines: the truncated buffer and the cache, or the failure. |
| `Driver.RunWindows` | preprocessing_unlabeled.py:214-227 | From buffer allocation to truncation, the run equals `Extraction`, the specification of the window loop. |

## Left out

- File and console I/O are not modelled: CSV loading and dtypes, the `Label` drop, the JSON range and constant-signal files (read or written), TFRecord output, `tqdm` and `print`. The loaded catalogs are inputs: the table, the range map, and an optional constant-signal file given as `ConstFile`.
- The `ID != 1649` filter and the sort/unique of IDs are not modelled. The model takes the catalog as sorted distinct IDs (`Catalog`), as lines 156-159 produce it.
- IEEE-754 floats are not modelled. Times and values are reals, so the accumulated rounding of `np.arange` and the NaN/Inf assertions of lines 228-229 are out of scope. In their place, `Driver.CollectedNormalized` proves every collected value lies in [0, 1]. The rounding of `t - dt` at line 48 also decides whether rows at `min_t` fall in the first window: the float difference can land just below `min_t`, and then those rows are read. `Driver.EarliestRowsUnread` holds for the exact values only.
- Events.LatestIndex: `idxmax` is modelled as the first row of maximal time in table order. That is how pandas resolves ties on a filtered frame.
- Extractor.GetS: requires the offset table to be the running sum of the range catalog's `len(mins)`. An offset table from a constant-signal file that disagrees with the widths is not modelled. In the source, that makes the slice assignments fail or `scale_s`'s stride disagree with the layout.
- Extractor.GetS: requires every row of a catalog source to pack to exactly `len(mins)` values, and every listed constant signal to be a present column listed once (`RowsFit`, `Droppable`). numpy's broadcast of a one-value row into a wider slice, and the exceptions on a mismatch or on dropping a missing column, are not modelled.
- ConstantSignals.GetConstantSignals: positions are counted among the columns present in every row of the source, while line 70 drops the column named `Signal_{p}_of_ID`. The model drops the same named column. That column is the p-th present column, the one found constant, exactly when `Signal_1 .. Signal_p` are all present. Otherwise the code drops a different column, in the model as in the source, and the model does not promise that only constant columns are dropped.
- Driver.RunWindows: requires a non-empty table, a non-empty catalog, range entries for every source, and `dt > 0` (`Inputs`). In the source, an empty table gives an empty catalog and NaN for `max_t` and `min_t` (lines 180-181) without an exception. Without a constant-signal file, `offsets` then stays `[]`, and `offsets[-1]` raises `IndexError` at line 214. With a file, `int()` of the NaN raises `ValueError` at line 216. A source missing from the range file raises `KeyError` at line 197, or in `get_s` and `scale_s` when a file supplies the offsets. `max_t` is a numpy scalar, so `dt = 0` makes `(max_t + dt) / dt` infinite, or NaN when `max_t == 0`, with a warning. `int()` then raises `OverflowError`, or `ValueError` for NaN, at line 216. A negative `dt` can finish normally: with `min_t = 0`, `max_t = 0.5` and `dt = -1`, the buffer has `int(0.5) = 0` rows and `np.arange(-1, -0.5, -1)` is empty. Runs with `dt <= 0` are not modelled, because the window arithmetic (`ArangeLength`) is defined for a positive step only.
- Driver.BuildLayout: requires, when exclusion is on and a constant-signal file is given, that the file lists every source. `Driver.SetupConstsCover` relies on the same condition. In the source, a missing source raises `KeyError` at line 189, and this error path is not modelled.
- Scaler.ScaleInPlace: after a failed assertion the model returns `false` and leaves the array partly rewritten. The source raises `AssertionError`, and the vector is never used.
- Driver.FillBuffer: the `total_s` buffer is an `array<seq<real>>` (one row per element) rather than a two-dimensional float array. Each stored row is as wide as the layout, by `Driver.CollectedNormalized`.
- Extractor.GetS: the cache is passed in and returned as a value. The source mutates its dict in place and returns it, and no other code holds it in between, so the two agree.
- Driver.RunWindows: the failures (a negative buffer length, a full buffer, the range assertion) are `Failed` outcomes that stop the run. The source raises, which also ends the run.
- `np.arange` excludes its stop, so every window end lies strictly below `max_t + dt` (`Driver.ArangeBelowStop`), and the model follows that.
