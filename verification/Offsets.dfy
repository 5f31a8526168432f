/**
 * The offset table: per-source field counts turned, in place, into the
 * cumulative end positions of each source's slice in the flat vector.
 */
module Offsets {

  /** Sum of a sequence of counts. */
  function Sum(s: seq<int>): int
  {
    if s == [] then 0 else Sum(s[..|s| - 1]) + s[|s| - 1]
  }

  /** The specification of the offset table: element i is the sum of counts 0..i. */
  function PrefixSums(s: seq<int>): (r: seq<int>)
    ensures |r| == |s|
  {
    if s == [] then [] else PrefixSums(s[..|s| - 1]) + [Sum(s)]
  }

  /** Offset i is the sum of the original counts 0..i. */
  lemma {:induction false} PrefixSumsAt(s: seq<int>, i: nat)
    requires i < |s|
    ensures PrefixSums(s)[i] == Sum(s[..i + 1])
  {
    if i < |s| - 1 {
      PrefixSumsAt(s[..|s| - 1], i);
      assert s[..|s| - 1][..i + 1] == s[..i + 1];
    } else {
      assert s[..i + 1] == s;
    }
  }

  /** The last offset is the total of all counts: the width of the flat vector. */
  lemma LastOffsetIsTotal(s: seq<int>)
    requires |s| > 0
    ensures PrefixSums(s)[|s| - 1] == Sum(s)
  {
    PrefixSumsAt(s, |s| - 1);
    assert s[..|s|] == s;
  }

  /** Each offset is the previous one plus its own count. */
  lemma PrefixSumsStep(s: seq<int>, i: nat)
    requires 0 < i < |s|
    ensures PrefixSums(s)[i] == PrefixSums(s)[i - 1] + s[i]
  {
    PrefixSumsAt(s, i);
    PrefixSumsAt(s, i - 1);
    assert s[..i + 1][..i] == s[..i];
  }

  /** The first offset is the first count. */
  lemma PrefixSumsFirst(s: seq<int>)
    requires |s| > 0
    ensures PrefixSums(s)[0] == s[0]
  {
    PrefixSumsAt(s, 0);
    assert s[..1] == [s[0]];
    assert Sum([s[0]]) == Sum([]) + s[0];
  }

  /** A source with zero fields has a zero-width slice: its offset equals the previous one. */
  lemma ZeroCountKeepsOffset(s: seq<int>, i: nat)
    requires 0 < i < |s| && s[i] == 0
    ensures PrefixSums(s)[i] == PrefixSums(s)[i - 1]
  {
    PrefixSumsStep(s, i);
  }

  /** With non-negative counts the offsets are non-negative and never decrease. */
  lemma {:induction false} OffsetsNonDecreasing(s: seq<int>)
    requires forall k :: 0 <= k < |s| ==> s[k] >= 0
    ensures forall i, j :: 0 <= i <= j < |s| ==> 0 <= PrefixSums(s)[i] <= PrefixSums(s)[j]
  {
    if s != [] {
      var init := s[..|s| - 1];
      OffsetsNonDecreasing(init);
      assert PrefixSums(s) == PrefixSums(init) + [Sum(s)];
      if init != [] {
        LastOffsetIsTotal(init);
      }
    }
  }

  /**
   * With non-negative counts, source i's slice runs from the previous offset
   * (0 for the first source) to offsets[i], is as wide as count i, and ends
   * within the total width.
   */
  lemma SliceBounds(counts: seq<int>, i: nat)
    requires forall k :: 0 <= k < |counts| ==> counts[k] >= 0
    requires i < |counts|
    ensures var offsets := PrefixSums(counts);
            var start := if i == 0 then 0 else offsets[i - 1];
            0 <= start && start + counts[i] == offsets[i] <= offsets[|counts| - 1] &&
            start == Sum(counts[..i])
  {
    var offsets := PrefixSums(counts);
    var last := |counts| - 1;
    assert offsets[i] <= offsets[last] && (i > 0 ==> 0 <= offsets[i - 1]) by {
      OffsetsNonDecreasing(counts);
    }
    if i == 0 {
      PrefixSumsFirst(counts);
    } else {
      PrefixSumsStep(counts, i);
      PrefixSumsAt(counts, i - 1);
      assert counts[..i - 1 + 1] == counts[..i];
    }
  }

  /** compute_offsets: the running sum, computed left to right in place. */
  method ComputeOffsets(offsets: array<int>)
    modifies offsets
    ensures offsets[..] == PrefixSums(old(offsets[..]))
  {
    ghost var counts := offsets[..];
    if offsets.Length == 0 {
      return;
    }
    PrefixSumsFirst(counts);
    var i := 1;
    while i < offsets.Length
      invariant 1 <= i <= offsets.Length
      invariant forall k :: 0 <= k < i ==> offsets[k] == PrefixSums(counts)[k]
      invariant forall k :: i <= k < offsets.Length ==> offsets[k] == counts[k]
    {
      PrefixSumsStep(counts, i);
      offsets[i] := offsets[i] + offsets[i - 1];
      i := i + 1;
    }
  }
}
