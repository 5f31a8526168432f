/**
 * The flat vector layout: one slice per source, in catalog order, each as
 * wide as that source's retained fields. Concat lays per-source values end to
 * end; the offset table gives the slice boundaries.
 */
module Layout {
  import opened Events
  import opened Offsets

  /** Per-source values laid end to end in catalog order. */
  function Concat(ids: seq<Id>, m: map<Id, seq<real>>): seq<real>
    requires forall i :: 0 <= i < |ids| ==> ids[i] in m
  {
    if ids == [] then [] else Concat(ids[..|ids| - 1], m) + m[ids[|ids| - 1]]
  }

  /** The slice widths, in catalog order. */
  function WidthsIn(ids: seq<Id>, m: map<Id, seq<real>>): (w: seq<int>)
    requires forall i :: 0 <= i < |ids| ==> ids[i] in m
    ensures |w| == |ids|
  {
    seq(|ids|, i requires 0 <= i < |ids| => |m[ids[i]]|)
  }

  /** The start of slice i: offsets[i-1], or 0 for the first source. */
  function SliceStart(offsets: seq<int>, i: nat): int
    requires i <= |offsets|
  {
    if i == 0 then 0 else offsets[i - 1]
  }

  /**
   * The offset table cuts a vector of width offsets[last] into consecutive
   * slices, slice i running from SliceStart(offsets, i) to offsets[i] and as
   * wide as widths[i].
   */
  predicate Tiles(offsets: seq<int>, widths: seq<int>)
  {
    |offsets| == |widths| &&
    forall i {:trigger SliceStart(offsets, i)} :: 0 <= i < |widths| ==>
      0 <= SliceStart(offsets, i) <= offsets[i] <= offsets[|offsets| - 1] &&
      SliceStart(offsets, i) + widths[i] == offsets[i]
  }

  /** The running sum of non-negative widths tiles the vector. */
  lemma OffsetsTile(widths: seq<int>)
    requires forall k :: 0 <= k < |widths| ==> widths[k] >= 0
    ensures Tiles(PrefixSums(widths), widths)
  {
    forall i | 0 <= i < |widths|
      ensures 0 <= SliceStart(PrefixSums(widths), i)
      ensures SliceStart(PrefixSums(widths), i) + widths[i] == PrefixSums(widths)[i] <= PrefixSums(widths)[|widths| - 1]
      ensures SliceStart(PrefixSums(widths), i) <= PrefixSums(widths)[i]
    {
      SliceBounds(widths, i);
    }
  }

  /** The concatenation is exactly as wide as the sum of the slice widths. */
  lemma {:induction false} ConcatLength(ids: seq<Id>, m: map<Id, seq<real>>)
    requires forall i :: 0 <= i < |ids| ==> ids[i] in m
    ensures |Concat(ids, m)| == Sum(WidthsIn(ids, m))
  {
    if ids != [] {
      var init := ids[..|ids| - 1];
      ConcatLength(init, m);
      assert WidthsIn(ids, m)[..|ids| - 1] == WidthsIn(init, m);
    }
  }

  /** Laying out the first i sources gives a prefix of the whole layout. */
  lemma {:induction false} ConcatPrefix(ids: seq<Id>, m: map<Id, seq<real>>, i: nat)
    requires forall k :: 0 <= k < |ids| ==> ids[k] in m
    requires i <= |ids|
    ensures |Concat(ids[..i], m)| <= |Concat(ids, m)|
    ensures forall k :: 0 <= k < |Concat(ids[..i], m)| ==> Concat(ids[..i], m)[k] == Concat(ids, m)[k]
  {
    if i < |ids| {
      var init := ids[..|ids| - 1];
      ConcatPrefix(init, m, i);
      assert init[..i] == ids[..i];
    } else {
      assert ids[..i] == ids;
    }
  }

  /** The layout depends only on the values of the sources it lays out. */
  lemma {:induction false} ConcatFrame(ids: seq<Id>, m1: map<Id, seq<real>>, m2: map<Id, seq<real>>)
    requires forall k :: 0 <= k < |ids| ==> ids[k] in m1 && ids[k] in m2 && m1[ids[k]] == m2[ids[k]]
    ensures Concat(ids, m1) == Concat(ids, m2)
  {
    if ids != [] {
      ConcatFrame(ids[..|ids| - 1], m1, m2);
    }
  }

  /** Adding one source appends its values. */
  lemma ConcatStep(ids: seq<Id>, m: map<Id, seq<real>>, i: nat)
    requires i < |ids|
    requires forall k :: 0 <= k <= i ==> ids[k] in m
    ensures Concat(ids[..i + 1], m) == Concat(ids[..i], m) + m[ids[i]]
  {
    assert ids[..i + 1][..i] == ids[..i];
  }

  /**
   * Source i occupies positions Sum(widths of sources 0..i-1) onwards, and
   * that slice holds exactly its own values.
   */
  lemma ConcatSlice(ids: seq<Id>, m: map<Id, seq<real>>, i: nat)
    requires forall k :: 0 <= k < |ids| ==> ids[k] in m
    requires i < |ids|
    ensures 0 <= Sum(WidthsIn(ids, m)[..i])
    ensures Sum(WidthsIn(ids, m)[..i]) + |m[ids[i]]| <= |Concat(ids, m)|
    ensures forall j :: 0 <= j < |m[ids[i]]| ==>
              Concat(ids, m)[Sum(WidthsIn(ids, m)[..i]) + j] == m[ids[i]][j]
  {
    ConcatStep(ids, m, i);
    ConcatPrefix(ids, m, i + 1);
    ConcatLength(ids[..i], m);
    assert WidthsIn(ids[..i], m) == WidthsIn(ids, m)[..i];
  }

  /**
   * Under the offset table built from the widths, source i's slice is
   * [SliceStart(offsets, i), offsets[i]) and holds exactly its own values.
   */
  lemma ConcatAtOffsets(ids: seq<Id>, m: map<Id, seq<real>>, i: nat)
    requires forall k :: 0 <= k < |ids| ==> ids[k] in m
    requires i < |ids|
    ensures var offsets := PrefixSums(WidthsIn(ids, m));
            0 <= SliceStart(offsets, i) <= offsets[i] <= |Concat(ids, m)| &&
            Concat(ids, m)[SliceStart(offsets, i)..offsets[i]] == m[ids[i]]
  {
    var w := WidthsIn(ids, m);
    var offsets := PrefixSums(w);
    ConcatSlice(ids, m, i);
    PrefixSumsAt(w, i);
    if i > 0 {
      PrefixSumsAt(w, i - 1);
      assert w[..i + 1][..i] == w[..i];
    } else {
      assert w[..1][..0] == [];
    }
    OffsetsNonDecreasing(w);
  }
}
