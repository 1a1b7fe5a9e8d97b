/**
 The splits of a whole object, and what the extents that are left of it still
 tell about them.
 */
module SplitPlan {
  import opened Arithmetic
  import opened SplitSizing

  /** What the daemon grants on each medium, allocation after allocation. */
  type Grants = nat -> seq<nat>

  ghost predicate Positive(grants: Grants) {
    forall k, i :: 0 <= i < |grants(k)| ==> grants(k)[i] > 0
  }

  /** The splits written from `offset` on; nothing follows a split that could not take a byte. */
  function PlanFrom(size: nat, offset: nat, k: nat, grants: Grants, chunk: nat, d: nat): (plan: seq<Split>)
    requires d > 0 && chunk > 0 && offset <= size
    ensures |plan| > 0
    decreases size - offset
  {
    var s := SplitAt(size, offset, grants(k), chunk, d);
    var next := offset + Bytes(s, d);
    if offset < next < size then [s] + PlanFrom(size, next, k + 1, grants, chunk, d) else [s]
  }

  function Plan(size: nat, grants: Grants, chunk: nat, d: nat): seq<Split>
    requires d > 0 && chunk > 0
  {
    PlanFrom(size, 0, 0, grants, chunk, d)
  }

  /**
   The splits are contiguous from `offset` to the end of the object; only the last one has uneven extents or partial
   chunks.
   */
  predicate Tiles(plan: seq<Split>, offset: nat, size: nat, chunk: nat, d: nat)
    requires chunk > 0
  {
    && |plan| > 0 && plan[0].offset == offset
    && (forall i :: 0 <= i < |plan| ==> plan[i].r < d)
    && (forall i :: 0 <= i < |plan| - 1 ==>
          && plan[i + 1].offset == plan[i].offset + Bytes(plan[i], d) > plan[i].offset
          && plan[i].r == 0 && (plan[i].q <= chunk || plan[i].q % chunk == 0))
    && plan[|plan| - 1].offset + Bytes(plan[|plan| - 1], d) == size
    && (offset < size ==> plan[|plan| - 1].offset < size)
  }

  /** Whatever the positive grants, the writer's splits tile the object. */
  lemma {:induction false} PlanTiles(size: nat, offset: nat, k: nat, grants: Grants, chunk: nat, d: nat)
    requires d > 0 && chunk > 0 && offset <= size && Positive(grants) && (offset == size ==> offset == 0)
    ensures Tiles(PlanFrom(size, offset, k, grants, chunk, d), offset, size, chunk, d)
    decreases size - offset
  {
    hide SplitAt, Tiles;
    SplitFacts(size, offset, grants(k), chunk, d);
    var s := SplitAt(size, offset, grants(k), chunk, d);
    var next := offset + Bytes(s, d);
    if offset < next < size {
      PlanTiles(size, next, k + 1, grants, chunk, d);
      TilesCons(s, PlanFrom(size, next, k + 1, grants, chunk, d), next, size, chunk, d);
    } else {
      LastTile(s, size, chunk, d);
    }
  }

  /** Each split is the largest that its own allocation allows. */
  lemma {:induction false} PlanIsLargest(size: nat, offset: nat, k: nat, grants: Grants, chunk: nat, d: nat, j: nat)
    requires d > 0 && chunk > 0 && offset <= size && j < |PlanFrom(size, offset, k, grants, chunk, d)|
    ensures var s := PlanFrom(size, offset, k, grants, chunk, d)[j];
      s.offset <= size && Largest(s, size, grants(k + j), chunk, d)
    decreases size - offset
  {
    hide SplitAt, Largest;
    SplitIsLargest(size, offset, grants(k), chunk, d);
    if j > 0 {
      var s := SplitAt(size, offset, grants(k), chunk, d);
      PlanIsLargest(size, offset + Bytes(s, d), k + 1, grants, chunk, d, j - 1);
    }
  }

  lemma {:induction false} LastTile(s: Split, size: nat, chunk: nat, d: nat)
    requires chunk > 0 && s.r < d && s.offset + Bytes(s, d) == size
    ensures Tiles([s], s.offset, size, chunk, d)
  {
  }

  lemma {:induction false} TilesCons(s: Split, rest: seq<Split>, next: nat, size: nat, chunk: nat, d: nat)
    requires chunk > 0 && Tiles(rest, next, size, chunk, d) && s.offset + Bytes(s, d) == next && s.offset < next < size
    requires s.r < d && s.r == 0 && (s.q <= chunk || s.q % chunk == 0)
    ensures Tiles([s] + rest, s.offset, size, chunk, d)
  {
  }

  // ---------------------------------------------------------------- what is left of the object

  predicate Sorted(lyt: seq<Extent>) {
    forall i, j :: 0 <= i < j < |lyt| ==> lyt[i].layoutIdx < lyt[j].layoutIdx
  }

  /** `e` is an extent of the plan, `n` extents making a split. */
  predicate FromPlan(e: Extent, plan: seq<Split>, d: nat, n: nat)
    requires n > 0
  {
    var s := e.layoutIdx / n;
    s < |plan| && e.offset == plan[s].offset && e.size == ExtentSize(plan[s].q, plan[s].r, d, e.layoutIdx % n)
  }

  /** Some extent of split `s` is left. */
  predicate HasExtent(lyt: seq<Extent>, s: nat, n: nat)
    requires n > 0
  {
    exists i :: 0 <= i < |lyt| && lyt[i].layoutIdx / n == s
  }

  /** What is left of an object written with `plan`: no extent moved, and none of its splits is lost. */
  ghost predicate Survives(lyt: seq<Extent>, plan: seq<Split>, d: nat, n: nat)
    requires n > 0
  {
    && Sorted(lyt)
    && (forall s: nat :: s < |plan| ==> HasExtent(lyt, s, n))
    && forall i :: 0 <= i < |lyt| ==> FromPlan(lyt[i], plan, d, n)
  }

  /** The split of an index is the one whose range holds it. */
  lemma {:induction false} SplitRange(idx: nat, s: nat, n: nat)
    requires n > 0
    ensures s * n <= idx <==> s <= idx / n
    ensures s * n <= idx < (s + 1) * n <==> idx / n == s
  {
    var q, r := idx / n, idx % n;
    assert idx == q * n + r;
    if s <= q {
      MulMonotone(s, q, n);
    } else {
      MulMonotone(q + 1, s, n);
      assert (q + 1) * n == q * n + n;
    }
    if s + 1 <= q {
      MulMonotone(s + 1, q, n);
    }
  }

  /** Position of the first extent at or after an index, or the number of extents. */
  function FirstFrom(lyt: seq<Extent>, idx: nat): (i: nat)
    ensures i <= |lyt|
    ensures forall k :: 0 <= k < i ==> lyt[k].layoutIdx < idx
    ensures i < |lyt| ==> lyt[i].layoutIdx >= idx
    decreases |lyt|
  {
    if lyt == [] || lyt[0].layoutIdx >= idx then 0 else 1 + FirstFrom(lyt[1..], idx)
  }

  lemma {:induction false} FirstOfSplit(lyt: seq<Extent>, s: nat, i: nat, n: nat)
    requires n > 0 && Sorted(lyt) && i < |lyt| && lyt[i].layoutIdx / n == s
    ensures FirstFrom(lyt, s * n) <= i && lyt[FirstFrom(lyt, s * n)].layoutIdx / n == s
  {
    var k := FirstFrom(lyt, s * n);
    SplitRange(lyt[i].layoutIdx, s, n);
    SplitRange(lyt[k].layoutIdx, s, n);
  }

  /** The size of split `s` at `offset` that the rebuilder derives from the offset of the next extent. */
  function RebuildSplitSize(lyt: seq<Extent>, s: nat, offset: nat, size: nat, n: nat): int {
    var i := FirstFrom(lyt, (s + 1) * n);
    if i < |lyt| then Min(lyt[i].offset - offset, size - offset) else size - offset
  }

  method GetCurrentSplitSize(lyt: seq<Extent>, s: nat, offset: nat, size: nat, n: nat) returns (bytes: int)
    ensures bytes == RebuildSplitSize(lyt, s, offset, size, n)
  {
    var i := 0;
    while i < |lyt|
      invariant 0 <= i <= |lyt| && forall k :: 0 <= k < i ==> lyt[k].layoutIdx < (s + 1) * n
    {
      if lyt[i].layoutIdx >= (s + 1) * n {
        return Min(lyt[i].offset - offset, size - offset);
      }
      i := i + 1;
    }
    return size - offset;
  }

  lemma {:induction false} PlanOffsets(plan: seq<Split>, size: nat, chunk: nat, d: nat, i: nat, j: nat)
    requires chunk > 0 && Tiles(plan, 0, size, chunk, d) && i < j < |plan|
    ensures plan[i].offset + Bytes(plan[i], d) <= plan[j].offset
    decreases j
  {
    if i < j - 1 {
      PlanOffsets(plan, size, chunk, d, i, j - 1);
    }
  }

  lemma {:induction false} PlanPlaced(plan: seq<Split>, size: nat, chunk: nat, d: nat, i: nat)
    requires chunk > 0 && Tiles(plan, 0, size, chunk, d) && i < |plan|
    ensures Placed(plan[i], size, d)
  {
    if i < |plan| - 1 {
      PlanOffsets(plan, size, chunk, d, i, |plan| - 1);
    }
  }

  /** The first extent found for a split has its offset. */
  lemma {:induction false} SplitStart(lyt: seq<Extent>, plan: seq<Split>, d: nat, n: nat, s: nat)
    requires n > 0 && Survives(lyt, plan, d, n)
    ensures s < |plan| ==> FirstFrom(lyt, s * n) < |lyt| && lyt[FirstFrom(lyt, s * n)].offset == plan[s].offset
    ensures s >= |plan| ==> FirstFrom(lyt, s * n) == |lyt|
  {
    var k := FirstFrom(lyt, s * n);
    if s < |plan| {
      assert HasExtent(lyt, s, n);
      var i :| 0 <= i < |lyt| && lyt[i].layoutIdx / n == s;
      FirstOfSplit(lyt, s, i, n);
    } else if k < |lyt| {
      SplitRange(lyt[k].layoutIdx, s, n);
    }
  }

  /**
   Rebuild sizing inverts write sizing: from any extents left of each split, the rebuilder finds the offset of
   the split, its size, and the sizes of all its extents.
   */
  lemma {:induction false} RebuildInvertsWrite(lyt: seq<Extent>, plan: seq<Split>, size: nat, chunk: nat, d: nat,
                                               n: nat, s: nat)
    requires d > 0 && n > 0 && chunk > 0 && Tiles(plan, 0, size, chunk, d) && Survives(lyt, plan, d, n) && s < |plan|
    ensures FirstFrom(lyt, s * n) < |lyt| && lyt[FirstFrom(lyt, s * n)].offset == plan[s].offset
    ensures var bytes := RebuildSplitSize(lyt, s, plan[s].offset, size, n);
      bytes == Bytes(plan[s], d) && bytes / d == plan[s].q && bytes % d == plan[s].r
  {
    hide FirstFrom, Survives;
    SplitStart(lyt, plan, d, n, s);
    SplitStart(lyt, plan, d, n, s + 1);
    PlanPlaced(plan, size, chunk, d, s);
    DivModUnique(Bytes(plan[s], d), d, plan[s].q, plan[s].r);
    if s + 1 < |plan| {
      PlanPlaced(plan, size, chunk, d, s + 1);
    }
  }
}
