/**
 The extents that a rebuild writes for a split: those that were lost or are to be
 replaced, with the offset and the sizes that the writer gave them.
 */
module RebuildSplit {
  import opened Basics
  import opened SplitSizing
  import opened SplitPlan
  import opened RebuildSeek
  import opened RebuildList

  /** The index is written by the rebuild: listed or, without a list, missing. */
  predicate Rebuilt(lyt: seq<Extent>, list: seq<int>, idx: int) {
    if |list| > 0 then idx in list else !HasIdx(lyt, idx)
  }

  lemma {:induction false} SlotsStep(lyt: seq<Extent>, list: seq<int>, lo: int, hi: int)
    ensures lo < hi ==>
      Slots(lyt, list, lo, hi) == (if Rebuilt(lyt, list, lo) then [lo] else []) + Slots(lyt, list, lo + 1, hi)
    ensures lo >= hi ==> Slots(lyt, list, lo, hi) == []
  {
  }

  /** Which indexes a rebuild writes. */
  lemma {:induction false} SlotsAre(lyt: seq<Extent>, list: seq<int>, lo: int, hi: int, idx: int)
    ensures idx in Slots(lyt, list, lo, hi) <==> lo <= idx < hi && Rebuilt(lyt, list, idx)
    decreases hi - lo
  {
    hide Slots, Rebuilt;
    SlotsStep(lyt, list, lo, hi);
    if lo < hi {
      SlotsAre(lyt, list, lo + 1, hi, idx);
    }
  }

  /** The indexes to rebuild from `lo` up to `hi`. */
  method SlotsToRebuild(lyt: seq<Extent>, list: seq<int>, lo: nat, hi: nat) returns (slots: seq<nat>)
    requires lo <= hi
    ensures slots == Slots(lyt, list, lo, hi) && forall k :: 0 <= k < |slots| ==> lo <= slots[k] < hi
  {
    hide Slots, HasIdx;
    slots := [];
    var i := lo;
    while i < hi
      invariant lo <= i <= hi && slots + Slots(lyt, list, i, hi) == Slots(lyt, list, lo, hi)
      invariant forall k :: 0 <= k < |slots| ==> lo <= slots[k] < hi
    {
      SlotsStep(lyt, list, i, hi);
      var found := ExtentFromLayoutIdx(lyt, i);
      var rebuilt := if |list| > 0 then i in list else found == |lyt|;
      assert rebuilt == Rebuilt(lyt, list, i);
      if rebuilt {
        slots := slots + [i];
      }
      i := i + 1;
    }
    SlotsStep(lyt, list, i, hi);
  }

  /**
   The extents of split `s` to write, on the media of the allocation: each one is what the writer of the object made
   at its index.
   */
  method ExtentsOfSplit(lyt: seq<Extent>, list: seq<int>, s: nat, media: seq<Medium>, size: nat, d: nat, n: nat,
                        ghost plan: seq<Split>, ghost chunk: nat)
    returns (extents: seq<Extent>)
    requires 0 < d <= n && chunk > 0 && Tiles(plan, 0, size, chunk, d) && Survives(lyt, plan, d, n) && s < |plan|
    requires |media| >= |Slots(lyt, list, s * n, (s + 1) * n)|
    ensures |extents| == |Slots(lyt, list, s * n, (s + 1) * n)|
    ensures forall j :: 0 <= j < |extents| ==>
      && extents[j].layoutIdx == Slots(lyt, list, s * n, (s + 1) * n)[j] && extents[j].medium == media[j]
      && FromPlan(extents[j], plan, d, n)
  {
    hide Slots, Tiles, Survives, FirstFrom, FromPlan, RebuildSplitSize;
    MulMonotone(s, s + 1, n);
    RebuildInvertsWrite(lyt, plan, size, chunk, d, n, s);
    var slots := SlotsToRebuild(lyt, list, s * n, (s + 1) * n);
    var _, offset := FirstExtentOffset(lyt, s * n);
    var bytes := GetCurrentSplitSize(lyt, s, offset, size, n);
    var q, r := bytes / d, bytes % d;
    extents := FillExtents(slots, offset, q, r, media, d, n, s, plan);
  }

  method FillExtents(slots: seq<nat>, offset: nat, q: nat, r: nat, media: seq<Medium>, d: nat, n: nat,
                     ghost s: nat, ghost plan: seq<Split>)
    returns (extents: seq<Extent>)
    requires n > 0 && s < |plan| && plan[s] == Split(offset, q, r) && |media| >= |slots|
    requires OfSplit(slots, s, n)
    ensures |extents| == |slots|
    ensures forall j :: 0 <= j < |extents| ==>
      extents[j].layoutIdx == slots[j] && extents[j].medium == media[j] && FromPlan(extents[j], plan, d, n)
  {
    hide FromPlan, OfSplit, ExtentSize, Indexes;
    var computed := SetExtentSizes(q, r, d, Indexes(slots, n));
    var sizes := computed[..];
    extents := [];
    while |extents| < |slots|
      invariant |extents| <= |slots|
      invariant forall j :: 0 <= j < |extents| ==>
        extents[j].layoutIdx == slots[j] && extents[j].medium == media[j] && FromPlan(extents[j], plan, d, n)
    {
      var j := |extents|;
      RebuiltFromPlan(plan, d, n, s, slots, j, media[j]);
      extents := extents + [Extent(slots[j], offset, sizes[j], media[j])];
    }
  }

  /** The indexes belong to split `s`. */
  predicate OfSplit(slots: seq<nat>, s: nat, n: nat) {
    forall k :: 0 <= k < |slots| ==> s * n <= slots[k] < (s + 1) * n
  }

  /** The indexes inside their split. */
  function Indexes(slots: seq<nat>, n: nat): (r: seq<nat>)
    requires n > 0
    ensures |r| == |slots|
  {
    seq(|slots|, k requires 0 <= k < |slots| => slots[k] % n)
  }

  lemma {:induction false} RebuiltFromPlan(plan: seq<Split>, d: nat, n: nat, s: nat, slots: seq<nat>, j: nat,
                                           medium: Medium)
    requires n > 0 && s < |plan| && j < |slots| && OfSplit(slots, s, n)
    ensures var size := ExtentSize(plan[s].q, plan[s].r, d, Indexes(slots, n)[j]);
      FromPlan(Extent(slots[j], plan[s].offset, size, medium), plan, d, n)
  {
    SplitRange(slots[j], s, n);
  }

  // ---------------------------------------------------------------- nothing forgotten

  lemma {:induction false} ListedCounts(list: seq<int>, lo: int, hi: int, idx: int)
    requires idx in list && lo <= idx < hi
    ensures CountIn(list, lo, hi) > 0
  {
    if list[0] != idx {
      assert idx in list[1..];
      ListedCounts(list[1..], lo, hi, idx);
    }
  }

  lemma {:induction false} MissingCounts(lyt: seq<Extent>, lo: int, hi: int, idx: int)
    requires !HasIdx(lyt, idx) && lo <= idx < hi
    ensures Present(lyt, lo, hi) < hi - lo
    decreases hi - lo
  {
    if lo < idx {
      MissingCounts(lyt, lo + 1, hi, idx);
    }
  }

  /** Every extent to rebuild, listed or missing, is prepared in a split that both contexts visit. */
  lemma {:induction false} EveryExtentRebuilt(lyt: seq<Extent>, list: seq<int>, n: nat, idx: nat)
    requires n > 0 && |lyt| > 0 && Rebuilt(lyt, list, idx) && idx / n < SplitCount(lyt, n)
    ensures var s := idx / n;
      s in Visits(lyt, list, 0, n) && idx in Slots(lyt, list, s * n, (s + 1) * n)
  {
    hide Visits, Slots, Present, CountIn, HasIdx, SplitCount;
    var s := idx / n;
    SplitRange(idx, s, n);
    SlotsAre(lyt, list, s * n, (s + 1) * n, idx);
    VisitsAreWork(lyt, list, 0, n);
    if |list| > 0 {
      ListedCounts(list, s * n, (s + 1) * n, idx);
    } else {
      MissingCounts(lyt, s * n, (s + 1) * n, idx);
      assert (s + 1) * n - s * n == n;
    }
  }
}
