/**
 * The window extractor (get_s). For the window (t - dt, t] it visits the
 * sources in catalog order: a source with rows in the window contributes the
 * retained fields of its latest row, which also overwrite its cache entry; a
 * source without rows falls back to its cache entry (zero-order hold); a
 * source with neither makes the window dirty, but the visit goes on so that
 * the cache still learns from the sources after it. A clean window is scaled
 * and returned; a dirty one is dropped.
 */
module Extractor {
  import opened Wrappers
  import opened Events
  import opened Offsets
  import opened Layout
  import opened Scaler

  /** The last packed, unscaled values of each source seen so far. */
  type Cache = map<Id, seq<real>>

  /** The constant-signal catalog: 1-based column numbers to drop, per source. */
  type ConstDict = map<Id, seq<nat>>

  /** The outcome of one window: dropped as dirty, a scaled vector, or the fatal range violation. */
  datatype Window = Dropped | Emitted(s: seq<real>) | OutOfRange

  /** The state after visiting some sources: the clean flag and the cache. */
  datatype Pass = Pass(clean: bool, cache: Cache)

  /** The source catalog: sorted unique IDs. */
  predicate Catalog(ids: seq<Id>)
  {
    forall a, b :: 0 <= a < b < |ids| ==> ids[a] < ids[b]
  }

  /** When exclusion is on, every source has an entry in the constant-signal catalog. */
  predicate ConstsCover(ids: seq<Id>, consts: ConstDict, exclude: bool)
  {
    exclude ==> forall id :: id in ids ==> id in consts
  }

  /** The columns dropped from a row of `id`: its constant signals when exclusion is on. */
  function ExcludedOf(consts: ConstDict, id: Id, exclude: bool): seq<nat>
    requires exclude ==> id in consts
  {
    if exclude then consts[id] else []
  }

  /** Each listed column exists, is present in the row, and is listed once, so each drop succeeds. */
  predicate Droppable(fields: seq<Option<real>>, excluded: seq<nat>)
  {
    (forall a :: 0 <= a < |excluded| ==> 1 <= excluded[a] <= |fields| && fields[excluded[a] - 1].Some?) &&
    (forall a, b :: 0 <= a < b < |excluded| ==> excluded[a] != excluded[b])
  }

  /**
   * Every row of every catalog source can have its columns dropped and then
   * packs to exactly as many values as its range entry has minima.
   */
  predicate RowsFit(table: Table, ids: seq<Id>, ranges: Ranges, consts: ConstDict, exclude: bool)
    requires RangesCover(ids, ranges) && ConstsCover(ids, consts, exclude)
  {
    forall i, r :: 0 <= i < |ids| && r in table && r.id == ids[i] ==>
      (exclude ==> Droppable(r.fields, consts[ids[i]])) &&
      |Packed(r.fields, ExcludedOf(consts, ids[i], exclude), exclude)| == |ranges[ids[i]].mins|
  }

  /** Every entry of `m` for a catalog source is exactly as wide as that source's slice. */
  predicate Fits(m: Cache, ids: seq<Id>, widths: seq<int>)
  {
    |widths| == |ids| &&
    forall i :: 0 <= i < |ids| && ids[i] in m ==> |m[ids[i]]| == widths[i]
  }

  /** Every cached entry of a catalog source is as wide as its slice. */
  predicate CacheFits(cache: Cache, ids: seq<Id>, ranges: Ranges)
    requires RangesCover(ids, ranges)
  {
    Fits(cache, ids, Widths(ids, ranges))
  }

  /** The rows of `id` in the window (t - dt, t]. */
  function Fresh(table: Table, t: real, dt: real, id: Id): Table
  {
    RowsOf(TimeSlice(table, t, dt), id)
  }

  /** The fresh rows of a source are exactly its rows in the window. */
  lemma FreshMembers(table: Table, t: real, dt: real, id: Id)
    ensures forall r :: r in Fresh(table, t, dt, id) <==> r in table && r.id == id && InWindow(r, t, dt)
  {
    TimeSliceMembers(table, t, dt);
    RowsOfMembers(TimeSlice(table, t, dt), id);
  }

  /** The latest row of `id` in the window: one with maximal time, as idxmax picks it. */
  function LatestRow(table: Table, t: real, dt: real, id: Id): (r: Row)
    requires Fresh(table, t, dt, id) != []
    ensures r in table && r.id == id && InWindow(r, t, dt)
    ensures forall x :: x in table && x.id == id && InWindow(x, t, dt) ==> x.time <= r.time
  {
    var rows := Fresh(table, t, dt, id);
    var k := LatestIndex(rows);
    FreshMembers(table, t, dt, id);
    assert forall x :: x in rows ==> x.time <= rows[k].time;
    rows[k]
  }

  /** What a source with rows in the window contributes: the retained fields of its latest row. */
  function LatestPacked(table: Table, t: real, dt: real, id: Id, consts: ConstDict, exclude: bool): seq<real>
    requires Fresh(table, t, dt, id) != []
    requires exclude ==> id in consts
  {
    Packed(LatestRow(table, t, dt, id).fields, ExcludedOf(consts, id, exclude), exclude)
  }

  /** The packed latest row of every catalog source that has rows in the window. */
  function Latest(table: Table, t: real, dt: real, ids: seq<Id>, consts: ConstDict, exclude: bool): (m: Cache)
    requires ConstsCover(ids, consts, exclude)
    ensures forall id :: id in m <==> id in ids && Fresh(table, t, dt, id) != []
  {
    map id | id in ids && Fresh(table, t, dt, id) != [] :: LatestPacked(table, t, dt, id, consts, exclude)
  }

  /** What get_s computes for one source: the latest row of its slice of the window, packed. */
  lemma LatestAt(table: Table, t: real, dt: real, ids: seq<Id>, consts: ConstDict, exclude: bool, id: Id)
    requires ConstsCover(ids, consts, exclude) && id in ids
    ensures LatestOf(TimeSlice(table, t, dt), id, Latest(table, t, dt, ids, consts, exclude), consts, exclude)
  {
  }

  /**
   * `latest` holds an entry for `id` exactly when the window slice has rows of
   * it, and that entry is the packed row idxmax picks among them.
   */
  predicate LatestOf(dfT: Table, id: Id, latest: Cache, consts: ConstDict, exclude: bool)
    requires exclude ==> id in consts
  {
    var rows := RowsOf(dfT, id);
    (id in latest <==> rows != []) &&
    (rows != [] ==> latest[id] == Packed(rows[LatestIndex(rows)].fields, ExcludedOf(consts, id, exclude), exclude))
  }

  /** Under RowsFit, every latest packed row is as wide as its source's slice. */
  lemma LatestFits(table: Table, t: real, dt: real, ids: seq<Id>, ranges: Ranges, consts: ConstDict, exclude: bool)
    requires RangesCover(ids, ranges) && ConstsCover(ids, consts, exclude)
    requires RowsFit(table, ids, ranges, consts, exclude)
    ensures CacheFits(Latest(table, t, dt, ids, consts, exclude), ids, ranges)
  {
    var latest := Latest(table, t, dt, ids, consts, exclude);
    forall i | 0 <= i < |ids| && ids[i] in latest
      ensures |latest[ids[i]]| == |ranges[ids[i]].mins|
    {
      var r := LatestRow(table, t, dt, ids[i]);
      assert latest[ids[i]] == Packed(r.fields, ExcludedOf(consts, ids[i], exclude), exclude);
    }
  }

  /**
   * The loop of get_s over the first n sources, given the latest packed row
   * of each source that has one: the clean flag and the cache after visiting
   * them in order.
   */
  function Visit(ids: seq<Id>, n: nat, cache: Cache, latest: Cache): (p: Pass)
    requires n <= |ids|
    ensures p.clean ==> forall j :: 0 <= j < n ==> ids[j] in p.cache
  {
    if n == 0 then Pass(true, cache)
    else
      var p := Visit(ids, n - 1, cache, latest);
      var id := ids[n - 1];
      if id !in latest then Pass(p.clean && id in p.cache, p.cache)
      else Pass(p.clean, p.cache[id := latest[id]])
  }

  /** Visiting keeps every cached entry of a catalog source as wide as its slice. */
  lemma {:induction false} VisitFits(ids: seq<Id>, n: nat, cache: Cache, latest: Cache, widths: seq<int>)
    requires n <= |ids|
    requires Fits(cache, ids, widths) && Fits(latest, ids, widths)
    ensures Fits(Visit(ids, n, cache, latest).cache, ids, widths)
  {
    if n > 0 {
      VisitFits(ids, n - 1, cache, latest, widths);
    }
  }

  /**
   * After visiting the first n sources, catalog source j holds its latest
   * packed row if it was visited and has one; otherwise it keeps exactly its
   * old cache entry, or its absence of one. So a dirty window still updates the
   * cache of the sources that had data.
   */
  lemma {:induction false} VisitCacheAt(ids: seq<Id>, n: nat, cache: Cache, latest: Cache, j: nat)
    requires n <= |ids| && j < |ids| && Catalog(ids)
    ensures var c := Visit(ids, n, cache, latest).cache;
            if j < n && ids[j] in latest then
              ids[j] in c && c[ids[j]] == latest[ids[j]]
            else
              (ids[j] in c <==> ids[j] in cache) && (ids[j] in cache ==> c[ids[j]] == cache[ids[j]])
  {
    if n > 0 {
      VisitCacheAt(ids, n - 1, cache, latest, j);
      assert j != n - 1 ==> ids[j] != ids[n - 1];
    }
  }

  /** Visiting never touches the cache entry of a source outside the catalog. */
  lemma {:induction false} VisitCacheOther(ids: seq<Id>, n: nat, cache: Cache, latest: Cache, id: Id)
    requires n <= |ids| && id !in ids
    ensures var c := Visit(ids, n, cache, latest).cache;
            (id in c <==> id in cache) && (id in cache ==> c[id] == cache[id])
  {
    if n > 0 {
      VisitCacheOther(ids, n - 1, cache, latest, id);
    }
  }

  /**
   * The first n sources leave the window clean exactly when each of them has
   * a latest row in the window or an entry in the cache it started from.
   */
  lemma {:induction false} VisitCleanIff(ids: seq<Id>, n: nat, cache: Cache, latest: Cache)
    requires n <= |ids| && Catalog(ids)
    ensures Visit(ids, n, cache, latest).clean <==>
            forall j :: 0 <= j < n ==> ids[j] in latest || ids[j] in cache
  {
    if n > 0 {
      VisitCleanIff(ids, n - 1, cache, latest);
      VisitCacheAt(ids, n - 1, cache, latest, n - 1);
    }
  }

  /** get_s as a function of its inputs: the window's outcome and the new cache. */
  function Extract(table: Table, t: real, dt: real, ids: seq<Id>, ranges: Ranges, cache: Cache,
                   consts: ConstDict, exclude: bool): (Window, Cache)
    requires RangesCover(ids, ranges) && ConstsCover(ids, consts, exclude)
    requires RowsFit(table, ids, ranges, consts, exclude) && CacheFits(cache, ids, ranges)
  {
    var latest := Latest(table, t, dt, ids, consts, exclude);
    LatestFits(table, t, dt, ids, ranges, consts, exclude);
    VisitFits(ids, |ids|, cache, latest, Widths(ids, ranges));
    var p := Visit(ids, |ids|, cache, latest);
    (Outcome(ids, ranges, p), p.cache)
  }

  /**
   * The outcome of a visit: dropped when it left the window dirty, otherwise
   * the scaled layout of the cache, or the range violation scale_s asserts against.
   */
  function Outcome(ids: seq<Id>, ranges: Ranges, p: Pass): Window
    requires RangesCover(ids, ranges) && CacheFits(p.cache, ids, ranges)
    requires p.clean ==> forall j :: 0 <= j < |ids| ==> ids[j] in p.cache
  {
    if !p.clean then Dropped
    else
      LayoutWidth(ids, ranges, p.cache);
      var raw := Concat(ids, p.cache);
      if Scalable(raw, FlatMins(ids, ranges), FlatMaxs(ids, ranges)) then
        Emitted(Scaled(raw, FlatMins(ids, ranges), FlatMaxs(ids, ranges)))
      else
        OutOfRange
  }

  /** The cache get_s hands back still fits the range catalog, so the next window can use it. */
  lemma ExtractCacheFits(table: Table, t: real, dt: real, ids: seq<Id>, ranges: Ranges, cache: Cache,
                         consts: ConstDict, exclude: bool)
    requires RangesCover(ids, ranges) && ConstsCover(ids, consts, exclude)
    requires RowsFit(table, ids, ranges, consts, exclude) && CacheFits(cache, ids, ranges)
    ensures CacheFits(Extract(table, t, dt, ids, ranges, cache, consts, exclude).1, ids, ranges)
  {
    LatestFits(table, t, dt, ids, ranges, consts, exclude);
    VisitFits(ids, |ids|, cache, Latest(table, t, dt, ids, consts, exclude), Widths(ids, ranges));
  }

  /**
   * A window is dropped exactly when some source has neither rows in the
   * window nor an entry in the cache it started from.
   */
  lemma ExtractDroppedIff(table: Table, t: real, dt: real, ids: seq<Id>, ranges: Ranges, cache: Cache,
                          consts: ConstDict, exclude: bool)
    requires Catalog(ids) && RangesCover(ids, ranges) && ConstsCover(ids, consts, exclude)
    requires RowsFit(table, ids, ranges, consts, exclude) && CacheFits(cache, ids, ranges)
    ensures Extract(table, t, dt, ids, ranges, cache, consts, exclude).0 == Dropped <==>
            exists j :: 0 <= j < |ids| && Fresh(table, t, dt, ids[j]) == [] && ids[j] !in cache
  {
    var latest := Latest(table, t, dt, ids, consts, exclude);
    VisitCleanIff(ids, |ids|, cache, latest);
  }

  /**
   * Whatever the window's outcome, dropped included, a catalog source with
   * rows in the window now caches its latest packed row, and any other source
   * keeps its cache entry (or its lack of one) unchanged.
   */
  lemma ExtractCacheAt(table: Table, t: real, dt: real, ids: seq<Id>, ranges: Ranges, cache: Cache,
                       consts: ConstDict, exclude: bool, j: nat)
    requires Catalog(ids) && RangesCover(ids, ranges) && ConstsCover(ids, consts, exclude)
    requires RowsFit(table, ids, ranges, consts, exclude) && CacheFits(cache, ids, ranges)
    requires j < |ids|
    ensures var c := Extract(table, t, dt, ids, ranges, cache, consts, exclude).1;
            var id := ids[j];
            if Fresh(table, t, dt, id) != [] then
              id in c && c[id] == LatestPacked(table, t, dt, id, consts, exclude)
            else
              (id in c <==> id in cache) && (id in cache ==> c[id] == cache[id])
  {
    var latest := Latest(table, t, dt, ids, consts, exclude);
    VisitCacheAt(ids, |ids|, cache, latest, j);
    assert ids[j] in latest <==> Fresh(table, t, dt, ids[j]) != [];
  }

  /** The cache entry of a source outside the catalog is never touched. */
  lemma ExtractCacheOther(table: Table, t: real, dt: real, ids: seq<Id>, ranges: Ranges, cache: Cache,
                          consts: ConstDict, exclude: bool, id: Id)
    requires RangesCover(ids, ranges) && ConstsCover(ids, consts, exclude)
    requires RowsFit(table, ids, ranges, consts, exclude) && CacheFits(cache, ids, ranges)
    requires id !in ids
    ensures var c := Extract(table, t, dt, ids, ranges, cache, consts, exclude).1;
            (id in c <==> id in cache) && (id in cache ==> c[id] == cache[id])
  {
    VisitCacheOther(ids, |ids|, cache, Latest(table, t, dt, ids, consts, exclude), id);
  }

  /** An emitted vector is exactly as wide as the layout, and every value lies in [0, 1]. */
  lemma ExtractEmitted(table: Table, t: real, dt: real, ids: seq<Id>, ranges: Ranges, cache: Cache,
                       consts: ConstDict, exclude: bool)
    requires RangesCover(ids, ranges) && ConstsCover(ids, consts, exclude)
    requires RowsFit(table, ids, ranges, consts, exclude) && CacheFits(cache, ids, ranges)
    ensures var w := Extract(table, t, dt, ids, ranges, cache, consts, exclude).0;
            w.Emitted? ==>
              |w.s| == Sum(Widths(ids, ranges)) && forall k :: 0 <= k < |w.s| ==> 0.0 <= w.s[k] <= 1.0
  {
    var (w, c) := Extract(table, t, dt, ids, ranges, cache, consts, exclude);
    if w.Emitted? {
      LatestFits(table, t, dt, ids, ranges, consts, exclude);
      VisitFits(ids, |ids|, cache, Latest(table, t, dt, ids, consts, exclude), Widths(ids, ranges));
      LayoutWidth(ids, ranges, c);
    }
  }

  /**
   * Field j of source i in an emitted vector, at offsets[i-1] + j, is that
   * source's unscaled cache entry after the window, scaled with its own range.
   * For a source without rows in the window this is the forward-filled value.
   */
  lemma ExtractSlice(table: Table, t: real, dt: real, ids: seq<Id>, ranges: Ranges, cache: Cache,
                     consts: ConstDict, exclude: bool, i: nat, j: nat)
    requires RangesCover(ids, ranges) && ConstsCover(ids, consts, exclude)
    requires RowsFit(table, ids, ranges, consts, exclude) && CacheFits(cache, ids, ranges)
    requires i < |ids| && j < |ranges[ids[i]].mins|
    ensures var (w, c) := Extract(table, t, dt, ids, ranges, cache, consts, exclude);
            var p := SliceStart(PrefixSums(Widths(ids, ranges)), i) + j;
            w.Emitted? ==>
              ids[i] in c && j < |c[ids[i]]| && 0 <= p < |w.s| &&
              ScaleField(c[ids[i]][j], ranges[ids[i]].mins[j], ranges[ids[i]].maxs[j]) == Some(w.s[p])
  {
    var (w, c) := Extract(table, t, dt, ids, ranges, cache, consts, exclude);
    var latest := Latest(table, t, dt, ids, consts, exclude);
    if w.Emitted? {
      LatestFits(table, t, dt, ids, ranges, consts, exclude);
      VisitFits(ids, |ids|, cache, latest, Widths(ids, ranges));
      LayoutWidth(ids, ranges, c);
      var raw := Concat(ids, c);
      ScaledSourceField(raw, ids, ranges, i, j);
      ConcatAtOffsets(ids, c, i);
      var p := SliceStart(PrefixSums(Widths(ids, ranges)), i) + j;
      assert raw[p] == c[ids[i]][j];
    }
  }

  /** A cache that covers and fits every source lays out to the width the range catalog prescribes. */
  lemma LayoutWidth(ids: seq<Id>, ranges: Ranges, cache: Cache)
    requires RangesCover(ids, ranges) && CacheFits(cache, ids, ranges)
    requires forall j :: 0 <= j < |ids| ==> ids[j] in cache
    ensures |Concat(ids, cache)| == |FlatMins(ids, ranges)| == |FlatMaxs(ids, ranges)|
    ensures WidthsIn(ids, cache) == Widths(ids, ranges)
  {
    assert WidthsIn(ids, cache) == Widths(ids, ranges);
    ConcatLength(ids, cache);
  }

  /**
   * Laying out one more source: when the sources before it keep their entries,
   * the layout grows by that source's entry.
   */
  lemma LayoutStep(ids: seq<Id>, i: nat, before: Cache, after: Cache)
    requires Catalog(ids) && i < |ids|
    requires forall j :: 0 <= j < i ==> ids[j] in before && ids[j] in after && after[ids[j]] == before[ids[j]]
    requires ids[i] in after
    ensures Concat(ids[..i + 1], after) == Concat(ids[..i], before) + after[ids[i]]
  {
    ConcatFrame(ids[..i], before, after);
    ConcatStep(ids, after, i);
  }

  /**
   * One step of the loop of get_s on a clean window: writing source i's entry
   * right after the layout of the sources before it extends that layout, when
   * the step stores the entry or keeps the cache as it was.
   */
  lemma LayoutGrows(ids: seq<Id>, i: nat, before: Cache, after: Cache, prev: seq<real>, next: seq<real>, lo: nat)
    requires Catalog(ids) && i < |ids| && ids[i] in after
    requires after == before || after == before[ids[i] := after[ids[i]]]
    requires forall j :: 0 <= j < i ==> ids[j] in before
    requires lo + |after[ids[i]]| <= |prev| && prev[..lo] == Concat(ids[..i], before)
    requires next == prev[..lo] + after[ids[i]] + prev[lo + |after[ids[i]]|..]
    ensures next[..lo + |after[ids[i]]|] == Concat(ids[..i + 1], after)
  {
    var vals := after[ids[i]];
    forall j | 0 <= j < i
      ensures ids[j] in after && after[ids[j]] == before[ids[j]]
    {
      assert ids[j] < ids[i];
    }
    LayoutStep(ids, i, before, after);
    assert next[..lo + |vals|] == prev[..lo] + vals;
  }

  /** The slice assignment s[lo:lo+len(vals)] = vals. */
  method AssignSlice(s: array<real>, lo: nat, vals: seq<real>)
    requires lo + |vals| <= s.Length
    modifies s
    ensures s[..] == old(s[..lo]) + vals + old(s[lo + |vals|..])
  {
    forall k | lo <= k < lo + |vals| {
      s[k] := vals[k - lo];
    }
  }

  /**
   * One source of get_s's loop: the packed signals of its latest row, which
   * also replace its cache entry, or else its cached entry, copied into its
   * slice of the vector; with neither, the window is no longer clean.
   */
  method CopySource(dfT: Table, offsets: seq<int>, ids: seq<Id>, ghost widths: seq<int>, cache: Cache,
                    consts: ConstDict, exclude: bool, ghost latest: Cache, i: nat, s: array<real>,
                    clean: bool, cache': Cache)
    returns (clean'': bool, cache'': Cache)
    requires i < |ids| && Catalog(ids) && ConstsCover(ids, consts, exclude)
    requires Fits(cache, ids, widths) && Fits(latest, ids, widths)
    requires Tiles(offsets, widths) && s.Length == offsets[|ids| - 1]
    requires LatestOf(dfT, ids[i], latest, consts, exclude)
    requires Pass(clean, cache') == Visit(ids, i, cache, latest)
    requires clean ==> s[..SliceStart(offsets, i)] == Concat(ids[..i], cache')
    modifies s
    ensures Pass(clean'', cache'') == Visit(ids, i + 1, cache, latest)
    ensures clean'' ==> s[..offsets[i]] == Concat(ids[..i + 1], cache'')
  {
    var id := ids[i];
    var offset := SliceStart(offsets, i);
    VisitFits(ids, i, cache, latest, widths);
    ghost var prev := s[..];
    clean'', cache'' := clean, cache';
    var rows := RowsOf(dfT, id);
    if rows == [] {
      if id in cache' {
        AssignSlice(s, offset, cache'[id]);
        if clean {
          LayoutGrows(ids, i, cache', cache'', prev, s[..], offset);
        }
      } else {
        clean'' := false;
      }
    } else {
      var index := LatestIndex(rows);
      var signals := Packed(rows[index].fields, ExcludedOf(consts, id, exclude), exclude);
      cache'' := cache'[id := signals];
      AssignSlice(s, offset, signals);
      if clean {
        LayoutGrows(ids, i, cache', cache'', prev, s[..], offset);
      }
    }
  }

  /**
   * The loop of get_s over the sources: fills a fresh vector slice by slice
   * and updates the cache; `latest` is what the window holds for each source.
   */
  method Gather(dfT: Table, offsets: seq<int>, ids: seq<Id>, ghost widths: seq<int>, cache: Cache,
                consts: ConstDict, exclude: bool, ghost latest: Cache)
    returns (clean: bool, cache': Cache, s: array<real>)
    requires |ids| > 0 && Catalog(ids) && ConstsCover(ids, consts, exclude)
    requires Tiles(offsets, widths)
    requires Fits(cache, ids, widths) && Fits(latest, ids, widths)
    requires forall id :: id in ids ==> LatestOf(dfT, id, latest, consts, exclude)
    ensures fresh(s) && s.Length == offsets[|ids| - 1]
    ensures clean == Visit(ids, |ids|, cache, latest).clean
    ensures cache' == Visit(ids, |ids|, cache, latest).cache
    ensures clean ==> s[..] == Concat(ids, cache')
  {
    clean := true;
    assert 0 <= SliceStart(offsets, |ids| - 1) <= offsets[|ids| - 1];
    s := new real[offsets[|offsets| - 1]];
    cache' := cache;
    for i := 0 to |ids|
      invariant Pass(clean, cache') == Visit(ids, i, cache, latest)
      invariant clean ==> s[..SliceStart(offsets, i)] == Concat(ids[..i], cache')
    {
      assert ids[i] in ids;
      clean, cache' := CopySource(dfT, offsets, ids, widths, cache, consts, exclude, latest, i, s, clean, cache');
      assert SliceStart(offsets, i + 1) == offsets[i];
    }
    assert ids[..|ids|] == ids;
  }

  /**
   * get_s: one window. Returns the outcome and the updated cache; `offsets`
   * must be the offset table of the range catalog's widths.
   */
  method GetS(table: Table, t: real, dt: real, offsets: seq<int>, ids: seq<Id>, ranges: Ranges,
              cache: Cache, consts: ConstDict, exclude: bool) returns (w: Window, cache': Cache)
    requires |ids| > 0 && Catalog(ids) && RangesCover(ids, ranges) && ConstsCover(ids, consts, exclude)
    requires offsets == PrefixSums(Widths(ids, ranges))
    requires RowsFit(table, ids, ranges, consts, exclude) && CacheFits(cache, ids, ranges)
    ensures (w, cache') == Extract(table, t, dt, ids, ranges, cache, consts, exclude)
  {
    ghost var widths := Widths(ids, ranges);
    ghost var latest := Latest(table, t, dt, ids, consts, exclude);
    LatestFits(table, t, dt, ids, ranges, consts, exclude);
    var dfT := TimeSlice(table, t, dt);
    forall id | id in ids
      ensures LatestOf(dfT, id, latest, consts, exclude)
    {
      LatestAt(table, t, dt, ids, consts, exclude, id);
    }
    OffsetsTile(widths);
    var clean, s;
    clean, cache', s := Gather(dfT, offsets, ids, widths, cache, consts, exclude, latest);
    if clean {
      VisitFits(ids, |ids|, cache, latest, widths);
      LayoutWidth(ids, ranges, cache');
      var ok := ScaleInPlace(s, ids, ranges);
      if ok {
        return Emitted(s[..]), cache';
      } else {
        return OutOfRange, cache';
      }
    } else {
      return Dropped, cache';
    }
  }
}
