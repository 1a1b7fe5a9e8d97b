/**
 The writer of one object, split after split, and the extents it leaves; then a
 reader that is given any `d` extents of each split.
 */
module RaidWriter {
  import opened Basics
  import opened Arithmetic
  import opened SplitSizing
  import opened SplitPlan

  /** The extents of split number `k`, one on each medium. */
  function SplitExtents(k: nat, s: Split, media: seq<Medium>, d: nat): (z: seq<Extent>)
    ensures |z| == |media|
  {
    seq(|media|, i requires 0 <= i < |media| =>
          Extent(k * |media| + i, s.offset, ExtentSize(s.q, s.r, d, i), media[i]))
  }

  /** The extents of the splits of `plan`, the first of which is split number `k`. */
  function LayoutFrom(plan: seq<Split>, k: nat, media: nat -> seq<Medium>, d: nat): seq<Extent>
    decreases |plan|
  {
    if plan == [] then [] else SplitExtents(k, plan[0], media(k), d) + LayoutFrom(plan[1..], k + 1, media, d)
  }

  lemma {:induction false} LayoutSnoc(plan: seq<Split>, s: Split, k: nat, media: nat -> seq<Medium>, d: nat)
    ensures LayoutFrom(plan + [s], k, media, d)
         == LayoutFrom(plan, k, media, d) + SplitExtents(k + |plan|, s, media(k + |plan|), d)
    decreases |plan|
  {
    if plan == [] {
      assert plan + [s] == [s];
      assert LayoutFrom([s][1..], k + 1, media, d) == [];
    } else {
      assert (plan + [s])[0] == plan[0] && (plan + [s])[1..] == plan[1..] + [s];
      LayoutSnoc(plan[1..], s, k + 1, media, d);
    }
  }

  class Writer {
    const size: nat
    const d: nat
    const chunk: nat
    var writerOffset: nat
    var currentSplit: nat
    var currentSplitOffset: nat
    var currentSplitSize: nat
    /** Extents of the split being written. */
    var extents: seq<Extent>
    /** Extents of the closed splits. */
    var written: seq<Extent>

    constructor (size: nat, d: nat, chunk: nat)
      ensures this.size == size && this.d == d && this.chunk == chunk
      ensures writerOffset == currentSplit == currentSplitOffset == 0 && written == []
    {
      this.size, this.d, this.chunk := size, d, chunk;
      writerOffset, currentSplit, currentSplitOffset, currentSplitSize := 0, 0, 0, 0;
      extents, written := [], [];
    }

    /** Sets up the next split on the media of an allocation. */
    method SplitSetup(media: seq<Medium>, grants: seq<nat>)
      requires d > 0 && chunk > 0 && writerOffset <= size && d <= |grants| == |media|
      modifies `extents, `currentSplitSize
      ensures var s := SplitAt(size, writerOffset, grants, chunk, d);
        extents == SplitExtents(currentSplit, s, media, d) && currentSplitSize == Bytes(s, d)
    {
      hide SplitAt;
      SplitFacts(size, writerOffset, grants, chunk, d);
      var s, sizes, bytes := WriterSplitSetup(size, writerOffset, grants, chunk, d);
      ghost var all := SplitExtents(currentSplit, s, media, d);
      extents := [];
      for i := 0 to |media|
        invariant extents == all[..i]
      {
        extents := extents + [Extent(currentSplit * |media| + i, writerOffset, sizes[i], media[i])];
      }
      currentSplitSize := bytes;
    }

    /** Writes from a buffer of `n` bytes, never past the end of the split. */
    method WriteFromBuff(n: nat)
      requires currentSplitOffset <= writerOffset <= currentSplitOffset + currentSplitSize
      modifies `writerOffset
      ensures writerOffset == Min(old(writerOffset) + n, currentSplitOffset + currentSplitSize)
    {
      writerOffset := writerOffset + Min(n, currentSplitSize - (writerOffset - currentSplitOffset));
    }

    /** Writes the whole split, `steps` being what the buffer holds at each offset. */
    method WriteSplit(steps: nat -> nat)
      requires currentSplitOffset == writerOffset && forall k :: steps(k) > 0
      modifies `writerOffset
      ensures writerOffset == currentSplitOffset + currentSplitSize
    {
      var splitEnded := writerOffset - currentSplitOffset >= currentSplitSize;
      while !splitEnded
        invariant currentSplitOffset <= writerOffset <= currentSplitOffset + currentSplitSize
        invariant splitEnded <==> writerOffset == currentSplitOffset + currentSplitSize
        decreases currentSplitOffset + currentSplitSize - writerOffset
      {
        WriteFromBuff(steps(writerOffset));
        splitEnded := writerOffset - currentSplitOffset >= currentSplitSize;
      }
    }

    method SplitClose()
      modifies `currentSplit, `currentSplitOffset, `written
      ensures written == old(written) + extents
      ensures currentSplit == old(currentSplit) + 1 && currentSplitOffset == writerOffset
    {
      written := written + extents;
      currentSplit, currentSplitOffset := currentSplit + 1, writerOffset;
    }
  }

  /**
   Writes one object: an allocation, a split setup, as many steps as the buffer takes to bring the split, then
   the next allocation, until the object is written. `steps` is what the buffer holds at each offset.
   */
  method WriteObject(size: nat, d: nat, n: nat, chunk: nat, grants: Grants, media: nat -> seq<Medium>,
                     steps: nat -> nat)
    returns (layout: seq<Extent>)
    requires 0 < d <= n && chunk > 0 && Positive(grants)
    requires forall k :: |grants(k)| == |media(k)| == n
    requires forall k :: steps(k) > 0
    ensures layout == LayoutFrom(Plan(size, grants, chunk, d), 0, media, d)
  {
    hide SplitAt, LayoutFrom, PlanFrom, SplitExtents, Bytes, Positive;
    var w := new Writer(size, d, chunk);
    ghost var plan: seq<Split> := [];
    ghost var whole := Plan(size, grants, chunk, d);
    LayoutNothing(0, media, d);
    var targetEnded := false;
    while !targetEnded
      invariant w.size == size && w.d == d && w.chunk == chunk
      invariant w.currentSplit == |plan| && w.currentSplitOffset == w.writerOffset <= size
      invariant w.written == LayoutFrom(plan, 0, media, d)
      invariant targetEnded ==> plan == whole
      invariant !targetEnded ==>
        && (w.writerOffset == size ==> size == 0)
        && whole == plan + PlanFrom(size, w.writerOffset, w.currentSplit, grants, chunk, d)
      decreases !targetEnded, size - w.writerOffset
    {
      var offset, k := w.writerOffset, w.currentSplit;
      ghost var s := SplitAt(size, offset, grants(k), chunk, d);
      PlanStep(size, offset, k, grants, chunk, d);
      w.SplitSetup(media(k), grants(k));
      w.WriteSplit(steps);
      targetEnded := w.writerOffset == size;
      w.SplitClose();
      LayoutSnoc(plan, s, 0, media, d);
      plan := plan + [s];
    }
    layout := w.written;
  }

  lemma {:induction false} PlanStep(size: nat, offset: nat, k: nat, grants: Grants, chunk: nat, d: nat)
    requires d > 0 && chunk > 0 && offset <= size && Positive(grants) && (offset == size ==> size == 0)
    ensures var s := SplitAt(size, offset, grants(k), chunk, d);
      var next := offset + Bytes(s, d);
      && offset <= next <= size
      && (next == size ==> PlanFrom(size, offset, k, grants, chunk, d) == [s])
      && (next < size ==> offset < next
                          && PlanFrom(size, offset, k, grants, chunk, d)
                             == [s] + PlanFrom(size, next, k + 1, grants, chunk, d))
  {
    hide SplitAt;
    SplitFacts(size, offset, grants(k), chunk, d);
  }

  lemma {:induction false} LayoutNothing(k: nat, media: nat -> seq<Medium>, d: nat)
    ensures LayoutFrom([], k, media, d) == []
  {
  }

  /** Extents of split `k` carry the indexes of split `k`. */
  lemma {:induction false} ExtentIndex(k: nat, i: nat, n: nat)
    requires i < n
    ensures (k * n + i) / n == k && (k * n + i) % n == i
  {
    DivModUnique(k * n + i, n, k, i);
  }

  /** An extent is on the medium that the allocation of its split gave for its index. */
  ghost predicate OnItsMedium(e: Extent, media: nat -> seq<Medium>, n: nat)
    requires n > 0
  {
    e.layoutIdx % n < |media(e.layoutIdx / n)| && e.medium == media(e.layoutIdx / n)[e.layoutIdx % n]
  }

  lemma {:induction false} ExtentFromPlan(whole: seq<Split>, k: nat, media: nat -> seq<Medium>, d: nat, n: nat, i: nat)
    requires k < |whole| && |media(k)| == n && i < n
    ensures FromPlan(SplitExtents(k, whole[k], media(k), d)[i], whole, d, n)
    ensures SplitExtents(k, whole[k], media(k), d)[i].layoutIdx == k * n + i
    ensures OnItsMedium(SplitExtents(k, whole[k], media(k), d)[i], media, n)
  {
    ExtentIndex(k, i, n);
  }

  /** What the writer leaves is an object written with its plan: sorted indexes, every split complete. */
  lemma {:induction false} LayoutIsPlan(plan: seq<Split>, whole: seq<Split>, k: nat, media: nat -> seq<Medium>, d: nat,
                                        n: nat)
    requires n > 0 && (forall j :: |media(j)| == n) && k <= |whole| && plan == whole[k..]
    ensures var lyt := LayoutFrom(plan, k, media, d);
      && |lyt| == |plan| * n && Sorted(lyt)
      && (forall i :: 0 <= i < |lyt| ==>
            FromPlan(lyt[i], whole, d, n) && lyt[i].layoutIdx == k * n + i && OnItsMedium(lyt[i], media, n))
    decreases |plan|
  {
    hide FromPlan, OnItsMedium;
    if plan != [] {
      LayoutIsPlan(plan[1..], whole, k + 1, media, d, n);
      var first, lyt := SplitExtents(k, plan[0], media(k), d), LayoutFrom(plan, k, media, d);
      assert |plan| * n == |plan[1..]| * n + n && (k + 1) * n == k * n + n;
      forall i | 0 <= i < |lyt|
        ensures FromPlan(lyt[i], whole, d, n) && lyt[i].layoutIdx == k * n + i && OnItsMedium(lyt[i], media, n)
      {
        if i < n {
          ExtentFromPlan(whole, k, media, d, n, i);
          assert lyt[i] == first[i];
        } else {
          assert lyt[i] == LayoutFrom(plan[1..], k + 1, media, d)[i - n];
        }
      }
    }
  }

  // ---------------------------------------------------------------- reader

  /** The splits that a reader goes through, given the indexes of the extents it reads each split from. */
  function ReaderRun(plan: seq<Split>, offset: nat, size: nat, d: nat, choice: seq<seq<nat>>): seq<(nat, nat)>
    requires offset <= size && |choice| == |plan|
    decreases |plan|
  {
    if plan == [] then [] else
      var bytes := ReaderSplitSize(SizesAt(plan[0].q, plan[0].r, d, choice[0]), size - offset);
      [(offset, bytes)] + ReaderRun(plan[1..], offset + bytes, size, d, choice[1..])
  }

  /** Whatever `d` extents of each split it reads, the reader follows the splits of the writer. */
  lemma {:induction false} ReaderFollowsWriter(plan: seq<Split>, offset: nat, size: nat, chunk: nat, d: nat,
                                               choice: seq<seq<nat>>)
    requires chunk > 0 && offset <= size && Tiles(plan, offset, size, chunk, d) && |choice| == |plan|
    requires forall k :: 0 <= k < |choice| ==> |choice[k]| == d && NoDup(choice[k])
    ensures var run := ReaderRun(plan, offset, size, d, choice);
      |run| == |plan| && forall k :: 0 <= k < |plan| ==> run[k] == (plan[k].offset, Bytes(plan[k], d))
    decreases |plan|
  {
    hide ReaderSplitSize, SizesAt;
    if |plan| == 1 {
      AnyDataCount(plan[0], size, d, choice[0]);
    } else {
      var rest := plan[1..];
      assert rest[|rest| - 1] == plan[|plan| - 1];
      TilesPlaced(plan, offset, size, chunk, d);
      AnyDataCount(plan[0], size, d, choice[0]);
      assert Tiles(rest, plan[1].offset, size, chunk, d);
      ReaderFollowsWriter(rest, plan[1].offset, size, chunk, d, choice[1..]);
    }
  }

  lemma {:induction false} TilesPlaced(plan: seq<Split>, offset: nat, size: nat, chunk: nat, d: nat)
    requires chunk > 0 && Tiles(plan, offset, size, chunk, d)
    ensures Placed(plan[0], size, d) && (|plan| > 1 ==> plan[1].offset < size)
    decreases |plan|
  {
    if |plan| > 1 {
      assert Tiles(plan[1..], plan[1].offset, size, chunk, d);
      TilesPlaced(plan[1..], plan[1].offset, size, chunk, d);
    }
  }
}
