/**
 * The driver of the preprocessing run: settling the layout before any window
 * (the constant-signal catalog, the count of constant signals and the offset
 * table), then stepping the windows (t - dt, t] over the recording, threading
 * the cache through them and collecting the clean vectors, in window order,
 * into a preallocated buffer that is truncated at the end.
 */
module Driver {
  import opened Wrappers
  import opened Events
  import opened Offsets
  import opened Layout
  import opened Scaler
  import opened ConstantSignals
  import opened Extractor

  /** A loaded constant-signal file: its constant columns per source and its offset table. */
  datatype ConstFile = ConstFile(consts: ConstDict, offsets: seq<int>)

  /** The constant signals main counts for one source. */
  function ConstCount(table: Table, id: Id, k: nat, file: Option<ConstFile>, exclude: bool): nat
    requires exclude && file.Some? ==> id in file.value.consts
  {
    if exclude && file.Some? then |file.value.consts[id]| else |ConstantList(table, id, k)|
  }

  /** constant_signals_total after visiting the given sources. */
  function ConstTotal(table: Table, ids: seq<Id>, k: nat, file: Option<ConstFile>, exclude: bool): nat
    requires exclude && file.Some? ==> forall id :: id in ids ==> id in file.value.consts
  {
    if ids == [] then 0
    else ConstTotal(table, ids[..|ids| - 1], k, file, exclude) + ConstCount(table, ids[|ids| - 1], k, file, exclude)
  }

  /** The constant signals detected from the recording itself, for each given source. */
  function Detected(table: Table, ids: seq<Id>, k: nat): ConstDict
  {
    map id | id in ids :: ConstantList(table, id, k)
  }

  /**
   * The constant-signal catalog get_s is given: the file's when there is one,
   * the detected one when signals are excluded without a file, else empty.
   */
  function SetupConsts(table: Table, ids: seq<Id>, k: nat, file: Option<ConstFile>, exclude: bool): ConstDict
  {
    if file.Some? then file.value.consts
    else if exclude then Detected(table, ids, k)
    else map[]
  }

  /** The offset table get_s is given: the file's, or the running sum of len(mins) per source. */
  function SetupOffsets(ids: seq<Id>, ranges: Ranges, file: Option<ConstFile>): seq<int>
    requires RangesCover(ids, ranges)
  {
    if file.Some? then file.value.offsets else PrefixSums(Widths(ids, ranges))
  }

  /**
   * The loop of main over the sources, then compute_offsets: counts the
   * constant signals, fills the constant-signal catalog when it has to detect
   * them, and builds the offset table when no file supplies one. `k` is the
   * number of `Signal_<j>_of_ID` columns in the table's schema, the field count
   * of every row that get_s packs.
   */
  method BuildLayout(table: Table, ids: seq<Id>, ranges: Ranges, k: nat, file: Option<ConstFile>, exclude: bool)
    returns (consts: ConstDict, offsets: seq<int>, total: nat)
    requires RangesCover(ids, ranges)
    requires exclude && file.Some? ==> forall id :: id in ids ==> id in file.value.consts
    ensures consts == SetupConsts(table, ids, k, file, exclude)
    ensures offsets == SetupOffsets(ids, ranges, file)
    ensures total == ConstTotal(table, ids, k, file, exclude)
  {
    consts := if file.Some? then file.value.consts else map[];
    var counts: seq<int> := [];
    total := 0;
    for i := 0 to |ids|
      invariant total == ConstTotal(table, ids[..i], k, file, exclude)
      invariant file.None? && exclude ==> consts == Detected(table, ids[..i], k)
      invariant file.None? && !exclude ==> consts == map[]
      invariant file.Some? ==> consts == file.value.consts
      invariant file.None? ==> counts == Widths(ids[..i], ranges)
    {
      var id := ids[i];
      assert ids[..i + 1][..i] == ids[..i];
      var constantSignals: nat;
      if exclude {
        if file.Some? {
          constantSignals := |consts[id]|;
        } else {
          var list;
          constantSignals, list := GetConstantSignals(table, id, k);
          DetectedStep(table, ids, k, i);
          consts := consts[id := list];
        }
      } else {
        constantSignals := InfoConstantSignals(table, id, k);
      }
      total := total + constantSignals;
      if file.None? {
        WidthsStep(ids, ranges, i);
        counts := counts + [|ranges[id].mins|];
      }
    }
    assert ids[..|ids|] == ids;
    if file.None? {
      var list := new int[|counts|](j requires 0 <= j < |counts| => counts[j]);
      assert list[..] == counts;
      ComputeOffsets(list);
      offsets := list[..];
    } else {
      offsets := file.value.offsets;
    }
  }

  /** Detecting one more source adds its own entry to the catalog. */
  lemma DetectedStep(table: Table, ids: seq<Id>, k: nat, i: nat)
    requires i < |ids|
    ensures Detected(table, ids[..i + 1], k) == Detected(table, ids[..i], k)[ids[i] := ConstantList(table, ids[i], k)]
  {
    var before, after := Detected(table, ids[..i], k), Detected(table, ids[..i + 1], k);
    assert ids[..i + 1] == ids[..i] + [ids[i]];
    assert forall id :: id in after <==> id in before || id == ids[i];
  }

  /** Without a file, the vector width s_len = offsets[-1] is the total of len(mins), the width of the layout. */
  lemma VectorWidth(ids: seq<Id>, ranges: Ranges)
    requires |ids| > 0 && RangesCover(ids, ranges)
    ensures var offsets := SetupOffsets(ids, ranges, None);
            offsets[|ids| - 1] == Sum(Widths(ids, ranges)) == |FlatMins(ids, ranges)|
  {
    LastOffsetIsTotal(Widths(ids, ranges));
  }

  /**
   * With exclusion on, every source has an entry in the catalog get_s is
   * given: detected for each source, or required of the file.
   */
  lemma SetupConstsCover(table: Table, ids: seq<Id>, k: nat, file: Option<ConstFile>, exclude: bool)
    requires exclude && file.Some? ==> forall id :: id in ids ==> id in file.value.consts
    ensures ConstsCover(ids, SetupConsts(table, ids, k, file, exclude), exclude)
  {
  }

  /** Python's int() on a float: truncation toward zero. */
  function Trunc(x: real): (n: int)
    ensures x >= 0.0 ==> n as real <= x < n as real + 1.0
    ensures x < 0.0 ==> n as real - 1.0 < x <= n as real
  {
    if x >= 0.0 then x.Floor else -((-x).Floor)
  }

  /** len(np.arange(start, stop, step)) for a positive step: ceil((stop - start) / step), at least 0. */
  function ArangeLength(start: real, stop: real, step: real): nat
    requires step > 0.0
  {
    var q := (stop - start) / step;
    if q <= 0.0 then 0 else -((-q).Floor)
  }

  /** Element i of np.arange(start, stop, step). */
  function ArangeAt(start: real, step: real, i: nat): real
  {
    start + i as real * step
  }

  /** np.arange visits exactly the points start + i * step that lie strictly below stop. */
  lemma ArangeBelowStop(start: real, stop: real, step: real, i: nat)
    requires step > 0.0
    ensures i < ArangeLength(start, stop, step) <==> ArangeAt(start, step, i) < stop
  {
    var q := (stop - start) / step;
    assert q * step == stop - start;
    if q > 0.0 {
      var c := -((-q).Floor);
      assert q <= c as real < q + 1.0;
    }
    if i as real < q {
      assert i as real * step < q * step;
    } else {
      assert i as real * step >= q * step;
    }
  }

  /** Why a run stops early. */
  datatype Failure =
    | NegativeBuffer          // np.empty with a negative length
    | BufferFull(window: nat) // a clean vector with no buffer row left for it
    | OutOfRangeAt(window: nat) // the range assertion of scale_s

  /** The state of the run after some windows: the collected vectors and the cache, or the failure. */
  datatype Run = Collected(vectors: seq<seq<real>>, cache: Cache) | Failed(failure: Failure)

  /** What the run needs of its inputs, as main relies on them. */
  predicate Inputs(table: Table, dt: real, ids: seq<Id>, ranges: Ranges, consts: ConstDict, exclude: bool)
  {
    |table| > 0 && dt > 0.0 && |ids| > 0 && Catalog(ids) && RangesCover(ids, ranges) &&
    ConstsCover(ids, consts, exclude) && RowsFit(table, ids, ranges, consts, exclude)
  }

  /** The end of window i: min_t + dt + i * dt. */
  function WindowEnd(table: Table, dt: real, i: nat): real
    requires |table| > 0
  {
    ArangeAt(MinTime(table) + dt, dt, i)
  }

  /** The number of windows: np.arange(min_t + dt, max_t + dt, dt) has this many points. */
  function WindowCount(table: Table, dt: real): nat
    requires |table| > 0 && dt > 0.0
  {
    ArangeLength(MinTime(table) + dt, MaxTime(table) + dt, dt)
  }

  /** The buffer length main preallocates: int((max_t + dt) / dt). */
  function BufferLength(table: Table, dt: real): int
    requires |table| > 0 && dt > 0.0
  {
    Trunc((MaxTime(table) + dt) / dt)
  }

  /**
   * The first n windows, in order, into a buffer of `cap` rows: each window's
   * cache is the one the previous window handed back; a clean vector takes the
   * next buffer row.
   */
  function Windows(table: Table, dt: real, ids: seq<Id>, ranges: Ranges, consts: ConstDict, exclude: bool,
                   cap: nat, n: nat): (r: Run)
    requires Inputs(table, dt, ids, ranges, consts, exclude)
    ensures r.Collected? ==> CacheFits(r.cache, ids, ranges) && |r.vectors| <= n && |r.vectors| <= cap
    decreases n, 0
  {
    if n == 0 then Collected([], map[]) else Advance(table, dt, ids, ranges, consts, exclude, cap, n - 1)
  }

  /** The run after window i: window i's result collected into the run before it. */
  function Advance(table: Table, dt: real, ids: seq<Id>, ranges: Ranges, consts: ConstDict, exclude: bool,
                   cap: nat, i: nat): (r: Run)
    requires Inputs(table, dt, ids, ranges, consts, exclude)
    ensures r.Collected? ==> CacheFits(r.cache, ids, ranges) && |r.vectors| <= i + 1 && |r.vectors| <= cap
    decreases i, 1
  {
    var r := Windows(table, dt, ids, ranges, consts, exclude, cap, i);
    if r.Failed? then r
    else
      var t := WindowEnd(table, dt, i);
      ExtractCacheFits(table, t, dt, ids, ranges, r.cache, consts, exclude);
      var (w, cache) := Extract(table, t, dt, ids, ranges, r.cache, consts, exclude);
      Collect(r.vectors, w, cache, cap, i)
  }

  /**
   * Window i's result goes into the run: a dropped window leaves the vectors
   * as they were, a clean one takes the next buffer row if there is one.
   */
  function Collect(vectors: seq<seq<real>>, w: Window, cache: Cache, cap: nat, i: nat): (r: Run)
    ensures r.Collected? <==> w.Dropped? || (w.Emitted? && |vectors| < cap)
    ensures r.Collected? ==> r.cache == cache
    ensures r.Collected? && w.Dropped? ==> r.vectors == vectors
    ensures r.Collected? && w.Emitted? ==> r.vectors == vectors + [w.s]
    ensures r.Collected? && |vectors| <= cap ==> |r.vectors| <= cap
  {
    match w
    case Dropped => Collected(vectors, cache)
    case OutOfRange => Failed(OutOfRangeAt(i))
    case Emitted(s) => if |vectors| < cap then Collected(vectors + [s], cache) else Failed(BufferFull(i))
  }

  /** The first n windows leave the run in state `run`. */
  predicate Reached(table: Table, dt: real, ids: seq<Id>, ranges: Ranges, consts: ConstDict, exclude: bool,
                    cap: nat, n: nat, run: Run)
    requires Inputs(table, dt, ids, ranges, consts, exclude)
  {
    Windows(table, dt, ids, ranges, consts, exclude, cap, n) == run
  }

  /** The run after window i + 1 is window i's result collected into the run after window i. */
  lemma WindowsStep(table: Table, dt: real, ids: seq<Id>, ranges: Ranges, consts: ConstDict, exclude: bool,
                    cap: nat, i: nat, t: real, vectors: seq<seq<real>>, prev: Cache, w: Window, cache: Cache)
    requires Inputs(table, dt, ids, ranges, consts, exclude) && t == WindowEnd(table, dt, i)
    requires Reached(table, dt, ids, ranges, consts, exclude, cap, i, Collected(vectors, prev))
    requires CacheFits(prev, ids, ranges)
    requires (w, cache) == Extract(table, t, dt, ids, ranges, prev, consts, exclude)
    ensures Reached(table, dt, ids, ranges, consts, exclude, cap, i + 1, Collect(vectors, w, cache, cap, i))
  {
  }

  /** Once the run has failed, later windows change nothing. */
  lemma {:induction false} FailureIsFinal(table: Table, dt: real, ids: seq<Id>, ranges: Ranges, consts: ConstDict,
                                          exclude: bool, cap: nat, m: nat, n: nat)
    requires Inputs(table, dt, ids, ranges, consts, exclude)
    requires m <= n && Windows(table, dt, ids, ranges, consts, exclude, cap, m).Failed?
    ensures Windows(table, dt, ids, ranges, consts, exclude, cap, n) == Windows(table, dt, ids, ranges, consts, exclude, cap, m)
  {
    if m < n {
      FailureIsFinal(table, dt, ids, ranges, consts, exclude, cap, m, n - 1);
    }
  }

  /** A run still collecting after n windows was collecting after every m <= n, and its vectors only grew at the end. */
  lemma {:induction false} CollectedPrefix(table: Table, dt: real, ids: seq<Id>, ranges: Ranges, consts: ConstDict,
                                           exclude: bool, cap: nat, m: nat, n: nat)
    requires Inputs(table, dt, ids, ranges, consts, exclude)
    requires m <= n && Windows(table, dt, ids, ranges, consts, exclude, cap, n).Collected?
    ensures var before := Windows(table, dt, ids, ranges, consts, exclude, cap, m);
            var after := Windows(table, dt, ids, ranges, consts, exclude, cap, n);
            before.Collected? && |before.vectors| <= |after.vectors| &&
            forall k :: 0 <= k < |before.vectors| ==> before.vectors[k] == after.vectors[k]
  {
    if m == n {
      assert Windows(table, dt, ids, ranges, consts, exclude, cap, m) == Windows(table, dt, ids, ranges, consts, exclude, cap, n);
    } else {
      VectorsGrow(table, dt, ids, ranges, consts, exclude, cap, n);
      CollectedPrefix(table, dt, ids, ranges, consts, exclude, cap, m, n - 1);
    }
  }

  /** Window n - 1 keeps the vectors collected before it, in place. */
  lemma VectorsGrow(table: Table, dt: real, ids: seq<Id>, ranges: Ranges, consts: ConstDict, exclude: bool,
                    cap: nat, n: nat)
    requires Inputs(table, dt, ids, ranges, consts, exclude)
    requires n > 0 && Windows(table, dt, ids, ranges, consts, exclude, cap, n).Collected?
    ensures var before := Windows(table, dt, ids, ranges, consts, exclude, cap, n - 1);
            var after := Windows(table, dt, ids, ranges, consts, exclude, cap, n);
            before.Collected? && |before.vectors| <= |after.vectors| &&
            forall k :: 0 <= k < |before.vectors| ==> before.vectors[k] == after.vectors[k]
  {
    WindowAppends(table, dt, ids, ranges, consts, exclude, cap, n - 1);
  }

  /**
   * Window i appends its vector to the run exactly when get_s emits one, and
   * appends nothing when the window is dropped.
   */
  lemma WindowAppends(table: Table, dt: real, ids: seq<Id>, ranges: Ranges, consts: ConstDict, exclude: bool,
                      cap: nat, i: nat)
    requires Inputs(table, dt, ids, ranges, consts, exclude)
    requires Windows(table, dt, ids, ranges, consts, exclude, cap, i + 1).Collected?
    ensures var before := Windows(table, dt, ids, ranges, consts, exclude, cap, i);
            before.Collected? &&
            var w := Extract(table, WindowEnd(table, dt, i), dt, ids, ranges, before.cache, consts, exclude).0;
            (w.Dropped? || w.Emitted?) &&
            Windows(table, dt, ids, ranges, consts, exclude, cap, i + 1).vectors ==
              before.vectors + (if w.Emitted? then [w.s] else [])
  {
  }

  /**
   * The first window is (min_t, min_t + dt], and every later one starts later
   * still: in exact arithmetic, rows at the earliest timestamp fall in no window.
   */
  lemma EarliestRowsUnread(table: Table, dt: real, i: nat, r: Row)
    requires |table| > 0 && dt > 0.0
    requires r in table && r.time == MinTime(table)
    ensures !InWindow(r, WindowEnd(table, dt, i), dt)
  {
    NonNegativeProduct(i as real, dt);
  }

  lemma NonNegativeProduct(x: real, y: real)
    requires x >= 0.0 && y > 0.0
    ensures x * y >= 0.0
  {
  }

  /** A run that has reached a failure is still in it after any later window. */
  lemma StaysFailed(table: Table, dt: real, ids: seq<Id>, ranges: Ranges, consts: ConstDict, exclude: bool,
                    cap: nat, m: nat, n: nat, f: Failure)
    requires Inputs(table, dt, ids, ranges, consts, exclude)
    requires m <= n && Reached(table, dt, ids, ranges, consts, exclude, cap, m, Failed(f))
    ensures Reached(table, dt, ids, ranges, consts, exclude, cap, n, Failed(f))
  {
    FailureIsFinal(table, dt, ids, ranges, consts, exclude, cap, m, n);
  }

  /** The whole window loop of main, from allocating the buffer to truncating it. */
  function Extraction(table: Table, dt: real, ids: seq<Id>, ranges: Ranges, consts: ConstDict, exclude: bool): Run
    requires Inputs(table, dt, ids, ranges, consts, exclude)
  {
    var cap := BufferLength(table, dt);
    if cap < 0 then Failed(NegativeBuffer)
    else Windows(table, dt, ids, ranges, consts, exclude, cap, WindowCount(table, dt))
  }

  /** With a buffer to fill, the run is its windows, as many as np.arange yields. */
  lemma ExtractionIs(table: Table, dt: real, ids: seq<Id>, ranges: Ranges, consts: ConstDict, exclude: bool)
    requires Inputs(table, dt, ids, ranges, consts, exclude)
    requires BufferLength(table, dt) >= 0
    ensures Extraction(table, dt, ids, ranges, consts, exclude) ==
            Windows(table, dt, ids, ranges, consts, exclude, BufferLength(table, dt), WindowCount(table, dt))
  {
  }

  /** A vector as the model of main stores it: one value per layout column, each scaled into [0, 1]. */
  predicate Normalized(v: seq<real>, width: int)
  {
    |v| == width && forall k :: 0 <= k < |v| ==> 0.0 <= v[k] <= 1.0
  }

  /** Every vector the windows collect spans the whole layout and lies in the unit cube. */
  lemma {:induction false} CollectedNormalized(table: Table, dt: real, ids: seq<Id>, ranges: Ranges,
                                               consts: ConstDict, exclude: bool, cap: nat, n: nat)
    requires Inputs(table, dt, ids, ranges, consts, exclude)
    ensures var r := Windows(table, dt, ids, ranges, consts, exclude, cap, n);
            r.Collected? ==> forall j :: 0 <= j < |r.vectors| ==> Normalized(r.vectors[j], Sum(Widths(ids, ranges)))
  {
    if n > 0 {
      var r := Windows(table, dt, ids, ranges, consts, exclude, cap, n - 1);
      CollectedNormalized(table, dt, ids, ranges, consts, exclude, cap, n - 1);
      if r.Collected? {
        var t := WindowEnd(table, dt, n - 1);
        ExtractEmitted(table, t, dt, ids, ranges, r.cache, consts, exclude);
        var (w, c) := Extract(table, t, dt, ids, ranges, r.cache, consts, exclude);
        WindowsStep(table, dt, ids, ranges, consts, exclude, cap, n - 1, t, r.vectors, r.cache, w, c);
        var out := Collect(r.vectors, w, c, cap, n - 1);
        if out.Collected? {
          forall j | 0 <= j < |out.vectors| ensures Normalized(out.vectors[j], Sum(Widths(ids, ranges))) {
            if j < |r.vectors| {
              assert out.vectors[j] == r.vectors[j];
            }
          }
        }
      }
    }
  }

  /** While there are no more windows than buffer rows, the buffer never overflows: only the range assertion can stop the run. */
  lemma {:induction false} FailsOnlyOutOfRange(table: Table, dt: real, ids: seq<Id>, ranges: Ranges,
                                               consts: ConstDict, exclude: bool, cap: nat, n: nat)
    requires Inputs(table, dt, ids, ranges, consts, exclude) && n <= cap
    ensures var r := Windows(table, dt, ids, ranges, consts, exclude, cap, n);
            r.Failed? ==> r.failure.OutOfRangeAt? && r.failure.window < n
  {
    if n > 0 {
      FailsOnlyOutOfRange(table, dt, ids, ranges, consts, exclude, cap, n - 1);
      if Windows(table, dt, ids, ranges, consts, exclude, cap, n - 1).Collected? {
        FailureStep(table, dt, ids, ranges, consts, exclude, cap, n);
      }
    }
  }

  /** A window that starts with a buffer row free can stop the run only by its range assertion (window n - 1 here). */
  lemma FailureStep(table: Table, dt: real, ids: seq<Id>, ranges: Ranges, consts: ConstDict, exclude: bool,
                    cap: nat, n: nat)
    requires Inputs(table, dt, ids, ranges, consts, exclude) && n > 0
    requires var r := Windows(table, dt, ids, ranges, consts, exclude, cap, n - 1); r.Collected? && |r.vectors| < cap
    ensures var r := Windows(table, dt, ids, ranges, consts, exclude, cap, n);
            r.Failed? ==> r.failure == OutOfRangeAt(n - 1)
  {
    assert Windows(table, dt, ids, ranges, consts, exclude, cap, n) == Advance(table, dt, ids, ranges, consts, exclude, cap, n - 1);
  }

  /** Multiplying by a positive step keeps the order of the factors. */
  lemma ScaleMonotone(x: real, y: real, step: real)
    requires step > 0.0 && x * step <= y * step
    ensures x <= y
  {
    if x > y {
      NegativeTimesPositive(y - x, step);
    }
  }

  /** A negative number times a positive one is negative. */
  lemma NegativeTimesPositive(x: real, step: real)
    requires step > 0.0 && x < 0.0
    ensures x * step < 0.0
  {
  }

  /**
   * With no negative timestamps, np.arange(min_t + dt, max_t + dt, dt) has no
   * more points than the int((max_t + dt) / dt) rows main allocates.
   */
  lemma WindowsFitBuffer(minT: real, maxT: real, dt: real)
    requires dt > 0.0 && 0.0 <= minT <= maxT
    ensures ArangeLength(minT + dt, maxT + dt, dt) <= Trunc((maxT + dt) / dt)
  {
    var q, b := ((maxT + dt) - (minT + dt)) / dt, (maxT + dt) / dt;
    assert (q + 1.0) * dt == q * dt + dt == maxT - minT + dt;
    ScaleMonotone(q + 1.0, b, dt);
    ScaleMonotone(0.0, q, dt);
    assert b.Floor as real <= b < b.Floor as real + 1.0;
    if q > 0.0 {
      var c := -((-q).Floor);
      assert c as real < q + 1.0;
    }
  }

  /** With no negative timestamps, main's window loop stops early only on an out-of-range value. */
  lemma ExtractionFailsOnlyOutOfRange(table: Table, dt: real, ids: seq<Id>, ranges: Ranges,
                                      consts: ConstDict, exclude: bool)
    requires Inputs(table, dt, ids, ranges, consts, exclude) && MinTime(table) >= 0.0
    ensures var r := Extraction(table, dt, ids, ranges, consts, exclude);
            r.Failed? ==> r.failure.OutOfRangeAt? && r.failure.window < WindowCount(table, dt)
  {
    var minT, maxT := MinTime(table), MaxTime(table);
    TimeSpan(table);
    WindowsFitBuffer(minT, maxT, dt);
    var cap, n := BufferLength(table, dt), WindowCount(table, dt);
    assert 0 <= n <= cap;
    FailsOnlyOutOfRange(table, dt, ids, ranges, consts, exclude, cap, n);
  }

  /**
   * One pass of the window loop: get_s on window i with the cache the previous
   * window handed back, and a clean vector stored in the next buffer row.
   */
  method StepWindow(table: Table, dt: real, offsets: seq<int>, ids: seq<Id>, ranges: Ranges,
                    consts: ConstDict, exclude: bool, total: array<seq<real>>, i: nat, t: real,
                    steps: nat, ghost vectors: seq<seq<real>>, cache: Cache)
    returns (failure: Option<Failure>, steps': nat, ghost vectors': seq<seq<real>>, cache': Cache)
    requires Inputs(table, dt, ids, ranges, consts, exclude)
    requires offsets == PrefixSums(Widths(ids, ranges)) && t == WindowEnd(table, dt, i)
    requires steps == |vectors| && Stored(total, vectors)
    requires Reached(table, dt, ids, ranges, consts, exclude, total.Length, i, Collected(vectors, cache))
    modifies total
    ensures steps' == |vectors'| && Stored(total, vectors')
    ensures failure.Some? ==> Reached(table, dt, ids, ranges, consts, exclude, total.Length, i + 1, Failed(failure.value))
    ensures failure.None? ==> Reached(table, dt, ids, ranges, consts, exclude, total.Length, i + 1, Collected(vectors', cache'))
  {
    var s;
    s, cache' := GetS(table, t, dt, offsets, ids, ranges, cache, consts, exclude);
    WindowsStep(table, dt, ids, ranges, consts, exclude, total.Length, i, t, vectors, cache, s, cache');
    steps', vectors' := steps, vectors;
    match s
    case Dropped =>
      failure := None;
    case OutOfRange =>
      failure := Some(OutOfRangeAt(i));
    case Emitted(v) =>
      if steps == total.Length {
        failure := Some(BufferFull(i));
      } else {
        total[steps] := v;
        steps', vectors' := steps + 1, vectors + [v];
        failure := None;
      }
  }

  /** The first rows of the buffer hold `vectors`. */
  ghost predicate Stored(total: array<seq<real>>, vectors: seq<seq<real>>)
    reads total
  {
    |vectors| <= total.Length && forall k :: 0 <= k < |vectors| ==> total[k] == vectors[k]
  }

  /**
   * The window loop of main: steps the window ends from `start`, runs get_s on
   * each with the cache of the previous one and stores each clean vector in
   * the next row of the buffer; the result keeps only the rows it filled.
   */
  method FillBuffer(table: Table, dt: real, offsets: seq<int>, ids: seq<Id>, ranges: Ranges,
                    consts: ConstDict, exclude: bool, total: array<seq<real>>, start: real, n: nat) returns (r: Run)
    requires Inputs(table, dt, ids, ranges, consts, exclude)
    requires offsets == PrefixSums(Widths(ids, ranges)) && start == MinTime(table) + dt
    modifies total
    ensures Reached(table, dt, ids, ranges, consts, exclude, total.Length, n, r)
  {
    var steps: nat := 0;
    ghost var vectors: seq<seq<real>> := [];
    var cache: Cache := map[];
    for i := 0 to n
      invariant steps == |vectors| && Stored(total, vectors)
      invariant Reached(table, dt, ids, ranges, consts, exclude, total.Length, i, Collected(vectors, cache))
    {
      var t := ArangeAt(start, dt, i);
      var failure;
      failure, steps, vectors, cache := StepWindow(table, dt, offsets, ids, ranges, consts, exclude, total, i, t, steps, vectors, cache);
      if failure.Some? {
        StaysFailed(table, dt, ids, ranges, consts, exclude, total.Length, i + 1, n, failure.value);
        return Failed(failure.value);
      }
    }
    assert total[..steps] == vectors;
    return Collected(total[..steps], cache);
  }

  /**
   * main from the buffer allocation on: a buffer of int((max_t + dt) / dt)
   * rows, filled by the window loop over np.arange(min_t + dt, max_t + dt, dt).
   */
  method RunWindows(table: Table, dt: real, offsets: seq<int>, ids: seq<Id>, ranges: Ranges,
                    consts: ConstDict, exclude: bool) returns (r: Run)
    requires Inputs(table, dt, ids, ranges, consts, exclude)
    requires offsets == PrefixSums(Widths(ids, ranges))
    ensures r == Extraction(table, dt, ids, ranges, consts, exclude)
  {
    var maxT, minT := MaxTime(table), MinTime(table);
    var totalLength := Trunc((maxT + dt) / dt);
    if totalLength < 0 {
      return Failed(NegativeBuffer);
    }
    var total := new seq<real>[totalLength];
    var n := ArangeLength(minT + dt, maxT + dt, dt);
    assert BufferLength(table, dt) == totalLength && WindowCount(table, dt) == n;
    ExtractionIs(table, dt, ids, ranges, consts, exclude);
    r := FillBuffer(table, dt, offsets, ids, ranges, consts, exclude, total, minT + dt, n);
  }
}
