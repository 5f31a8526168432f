/**
 * Min-max normalisation of a packed vector, in place, against the global
 * range catalog. A field whose max equals its min becomes the sentinel 1.0;
 * any other field becomes (v - min) / (max - min), and a result outside
 * [0, 1] is a fatal error, never clamped.
 */
module Scaler {
  import opened Wrappers
  import opened Events
  import opened Offsets
  import opened Layout

  /** The global range of one source: a (min, max) pair per retained field. */
  datatype Range = Range(mins: seq<real>, maxs: seq<real>)

  type Ranges = map<Id, Range>

  /** Every source of the catalog has a range entry with one max per min. */
  predicate RangesCover(ids: seq<Id>, ranges: Ranges)
  {
    forall i :: 0 <= i < |ids| ==> ids[i] in ranges && |ranges[ids[i]].mins| == |ranges[ids[i]].maxs|
  }

  function MinsOf(ranges: Ranges): map<Id, seq<real>>
  {
    map id | id in ranges :: ranges[id].mins
  }

  function MaxsOf(ranges: Ranges): map<Id, seq<real>>
  {
    map id | id in ranges :: ranges[id].maxs
  }

  /** The minima of all sources, in the flat vector's layout. */
  function FlatMins(ids: seq<Id>, ranges: Ranges): (lo: seq<real>)
    requires RangesCover(ids, ranges)
    ensures |lo| == Sum(Widths(ids, ranges))
  {
    ConcatLength(ids, MinsOf(ranges));
    Concat(ids, MinsOf(ranges))
  }

  /** The maxima of all sources, in the flat vector's layout. */
  function FlatMaxs(ids: seq<Id>, ranges: Ranges): (hi: seq<real>)
    requires RangesCover(ids, ranges)
    ensures |hi| == Sum(Widths(ids, ranges))
  {
    ConcatLength(ids, MaxsOf(ranges));
    assert WidthsIn(ids, MaxsOf(ranges)) == Widths(ids, ranges);
    Concat(ids, MaxsOf(ranges))
  }

  /** The slice widths the range catalog prescribes: len(mins) per source. */
  function Widths(ids: seq<Id>, ranges: Ranges): (w: seq<int>)
    requires RangesCover(ids, ranges)
    ensures |w| == |ids|
    ensures forall i :: 0 <= i < |ids| ==> w[i] == |ranges[ids[i]].mins| == |ranges[ids[i]].maxs|
  {
    WidthsIn(ids, MinsOf(ranges))
  }

  /** Appending one more source appends its len(mins) to the widths. */
  lemma WidthsStep(ids: seq<Id>, ranges: Ranges, i: nat)
    requires RangesCover(ids, ranges) && i < |ids|
    ensures Widths(ids[..i + 1], ranges) == Widths(ids[..i], ranges) + [|ranges[ids[i]].mins|]
  {
  }

  /**
   * One field: the sentinel 1.0 for a constant field, the normalised value
   * otherwise, or None when the normalised value falls outside [0, 1].
   */
  function ScaleField(v: real, lo: real, hi: real): (r: Option<real>)
    ensures hi == lo ==> r == Some(1.0)
    ensures hi != lo && r.Some? ==> r.value * (hi - lo) == v - lo
    ensures r.Some? ==> 0.0 <= r.value <= 1.0
  {
    if hi == lo then Some(1.0)
    else
      var scaled := (v - lo) / (hi - lo);
      if scaled <= 1.0 && scaled >= 0.0 then Some(scaled) else None
  }

  /** With a proper range (min < max), a field scales exactly when min <= v <= max. */
  lemma ScaleFieldDefinedIff(v: real, lo: real, hi: real)
    requires lo < hi
    ensures ScaleField(v, lo, hi).Some? <==> lo <= v <= hi
  {
    QuotientInUnit(v - lo, hi - lo);
  }

  /** For a positive divisor d, x / d lies in [0, 1] exactly when x lies in [0, d]. */
  lemma QuotientInUnit(x: real, d: real)
    requires d > 0.0
    ensures 0.0 <= x / d <= 1.0 <==> 0.0 <= x <= d
  {
    var q := x / d;
    assert q * d == x;
    if q < 0.0 {
      assert q * d < 0.0;
    } else if q > 1.0 {
      assert (q - 1.0) * d > 0.0;
    } else {
      assert q * d <= 1.0 * d;
    }
  }

  /** Every field of the layout scales without a fatal error. */
  predicate Scalable(s: seq<real>, lo: seq<real>, hi: seq<real>)
    requires |lo| == |hi| <= |s|
  {
    forall k :: 0 <= k < |lo| ==> ScaleField(s[k], lo[k], hi[k]).Some?
  }

  /** The scaled vector: each laid-out field scaled, anything beyond the layout untouched. */
  function Scaled(s: seq<real>, lo: seq<real>, hi: seq<real>): (r: seq<real>)
    requires |lo| == |hi| <= |s|
    requires Scalable(s, lo, hi)
    ensures |r| == |s|
    ensures forall k :: 0 <= k < |lo| ==> 0.0 <= r[k] <= 1.0
    ensures forall k :: 0 <= k < |lo| && lo[k] == hi[k] ==> r[k] == 1.0
    ensures forall k :: |lo| <= k < |s| ==> r[k] == s[k]
  {
    seq(|s|, k requires 0 <= k < |s| => if k < |lo| then ScaleField(s[k], lo[k], hi[k]).value else s[k])
  }

  /**
   * Field j of source i sits at offsets[i-1] + j and is scaled with that
   * source's own j-th min and max.
   */
  lemma ScaledSourceField(s: seq<real>, ids: seq<Id>, ranges: Ranges, i: nat, j: nat)
    requires RangesCover(ids, ranges)
    requires |FlatMins(ids, ranges)| <= |s|
    requires Scalable(s, FlatMins(ids, ranges), FlatMaxs(ids, ranges))
    requires i < |ids| && j < |ranges[ids[i]].mins|
    ensures var p := SliceStart(PrefixSums(Widths(ids, ranges)), i) + j;
            0 <= p < |s| &&
            ScaleField(s[p], ranges[ids[i]].mins[j], ranges[ids[i]].maxs[j]) ==
              Some(Scaled(s, FlatMins(ids, ranges), FlatMaxs(ids, ranges))[p])
  {
    ConcatAtOffsets(ids, MinsOf(ranges), i);
    ConcatAtOffsets(ids, MaxsOf(ranges), i);
    assert WidthsIn(ids, MaxsOf(ranges)) == Widths(ids, ranges);
  }

  /**
   * The inner loop of scale_s: rewrites the fields of one source, starting at
   * `offset`, with that source's minima and maxima. `ok` is false when a
   * result falls outside [0, 1]; the fields after it are then left as they were.
   */
  method ScaleSource(s: array<real>, offset: nat, mins: seq<real>, maxs: seq<real>) returns (ok: bool)
    requires |mins| == |maxs| && offset + |mins| <= s.Length
    modifies s
    ensures ok <==> forall j :: 0 <= j < |mins| ==> ScaleField(old(s[offset + j]), mins[j], maxs[j]).Some?
    ensures ok ==> forall j :: 0 <= j < |mins| ==> ScaleField(old(s[offset + j]), mins[j], maxs[j]) == Some(s[offset + j])
    ensures forall k :: 0 <= k < offset || offset + |mins| <= k < s.Length ==> s[k] == old(s[k])
  {
    ghost var raw := s[..];
    for j := 0 to |mins|
      invariant forall i :: 0 <= i < j ==> ScaleField(raw[offset + i], mins[i], maxs[i]) == Some(s[offset + i])
      invariant forall k :: 0 <= k < offset || offset + j <= k < s.Length ==> s[k] == raw[k]
    {
      if maxs[j] == mins[j] {
        s[offset + j] := 1.0;
      } else {
        s[offset + j] := (s[offset + j] - mins[j]) / (maxs[j] - mins[j]);
        if !(s[offset + j] <= 1.0 && s[offset + j] >= 0.0) {
          assert ScaleField(raw[offset + j], mins[j], maxs[j]).None?;
          return false;
        }
      }
    }
    return true;
  }

  /**
   * scale_s: walks the sources in catalog order with a running offset and
   * rewrites each of their fields in place. `ok` is false when a result falls
   * outside [0, 1] (the fatal assertion); the vector is then abandoned.
   */
  method ScaleInPlace(s: array<real>, ids: seq<Id>, ranges: Ranges) returns (ok: bool)
    requires RangesCover(ids, ranges)
    requires |FlatMins(ids, ranges)| <= s.Length
    modifies s
    ensures ok <==> Scalable(old(s[..]), FlatMins(ids, ranges), FlatMaxs(ids, ranges))
    ensures ok ==> s[..] == Scaled(old(s[..]), FlatMins(ids, ranges), FlatMaxs(ids, ranges))
  {
    ghost var raw := s[..];
    ghost var lo, hi := FlatMins(ids, ranges), FlatMaxs(ids, ranges);
    var offset := 0;
    for i := 0 to |ids|
      invariant offset == |Concat(ids[..i], MinsOf(ranges))| <= |lo|
      invariant forall k :: 0 <= k < offset ==> ScaleField(raw[k], lo[k], hi[k]) == Some(s[k])
      invariant forall k :: offset <= k < s.Length ==> s[k] == raw[k]
    {
      var mins, maxs := ranges[ids[i]].mins, ranges[ids[i]].maxs;
      SourceRangesAt(ids, ranges, i);
      ghost var before := s[..];
      ok := ScaleSource(s, offset, mins, maxs);
      if !ok {
        ghost var j :| 0 <= j < |mins| && ScaleField(before[offset + j], mins[j], maxs[j]).None?;
        assert ScaleField(raw[offset + j], lo[offset + j], hi[offset + j]).None?;
        return false;
      }
      forall k | offset <= k < offset + |mins|
        ensures ScaleField(raw[k], lo[k], hi[k]) == Some(s[k])
      {
        var j := k - offset;
        assert ScaleField(before[offset + j], mins[j], maxs[j]) == Some(s[offset + j]);
      }
      offset := offset + |mins|;
    }
    assert ids[..|ids|] == ids;
    ScaledFromFields(raw, lo, hi, s[..]);
    return true;
  }

  /** A vector whose laid-out fields are all scaled, and whose rest is untouched, is the scaled vector. */
  lemma ScaledFromFields(raw: seq<real>, lo: seq<real>, hi: seq<real>, t: seq<real>)
    requires |lo| == |hi| <= |raw| == |t|
    requires forall k :: 0 <= k < |lo| ==> ScaleField(raw[k], lo[k], hi[k]) == Some(t[k])
    requires forall k :: |lo| <= k < |t| ==> t[k] == raw[k]
    ensures Scalable(raw, lo, hi) && t == Scaled(raw, lo, hi)
  {
  }

  /** The source i's minima and maxima sit right after those of the sources before it. */
  lemma SourceRangesAt(ids: seq<Id>, ranges: Ranges, i: nat)
    requires RangesCover(ids, ranges)
    requires i < |ids|
    ensures var offset := |Concat(ids[..i], MinsOf(ranges))|;
            var lo, hi := FlatMins(ids, ranges), FlatMaxs(ids, ranges);
            |Concat(ids[..i + 1], MinsOf(ranges))| == offset + |ranges[ids[i]].mins| <= |lo| == |hi| &&
            forall j :: 0 <= j < |ranges[ids[i]].mins| ==>
              lo[offset + j] == ranges[ids[i]].mins[j] && hi[offset + j] == ranges[ids[i]].maxs[j]
  {
    ConcatStep(ids, MinsOf(ranges), i);
    ConcatStep(ids, MaxsOf(ranges), i);
    ConcatPrefix(ids, MinsOf(ranges), i + 1);
    ConcatPrefix(ids, MaxsOf(ranges), i + 1);
    ConcatLength(ids[..i], MinsOf(ranges));
    ConcatLength(ids[..i], MaxsOf(ranges));
    assert WidthsIn(ids[..i], MaxsOf(ranges)) == WidthsIn(ids[..i], MinsOf(ranges));
  }
}
