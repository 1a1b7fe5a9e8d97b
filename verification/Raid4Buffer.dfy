/**
 Whether the stripe loop stays inside the transfer buffer. The parity of a stripe that is short on extent 1 needs room
 after the buffered bytes: there is room unless a refill of the buffer cuts a stripe.
 */
module Raid4Buffer {
  import opened Basics
  import opened Arithmetic
  import opened Raid4Stripes
  import opened Raid4Batches
  import opened Raid4Object
  import opened SplitSizing
  import opened SplitPlan

  /** Every batch, the first one starting at `offset` of the object, stays inside a buffer of `room` bytes. */
  predicate BatchesFit(offset: nat, batches: seq<nat>, left0: nat, left1: nat, room: nat, chunk: nat)
    requires room > 0 && chunk > 0 && Fits(Total(batches), left0, left1)
    decreases |batches|
  {
    batches == [] ||
    (var c := LoopCuts(batches[0], left0, left1, chunk);
     && offset % room + Reach(c) <= room
     && BatchesFit(offset + batches[0], batches[1..], left0 - Sum0(c), left1 - Sum1(c), room, chunk))
  }

  /** The same for a split of `n` bytes. */
  predicate SplitFits(offset: nat, n: nat, room: nat, chunk: nat)
    requires room > 0 && chunk > 0
  {
    BatchesFit(offset, BufferBatches(offset, n, room), n - n / 2, n / 2, room, chunk)
  }

  lemma {:induction false} FitsStep(offset: nat, batches: seq<nat>, left0: nat, left1: nat, room: nat, chunk: nat)
    returns (c: Cuts)
    requires room > 0 && chunk > 0 && Fits(Total(batches), left0, left1) && batches != []
    ensures c == LoopCuts(batches[0], left0, left1, chunk) && Sum0(c) <= left0 && Sum1(c) <= left1
    ensures Fits(Total(batches[1..]), left0 - Sum0(c), left1 - Sum1(c))
    ensures BatchesFit(offset, batches, left0, left1, room, chunk) <==>
      && offset % room + Reach(c) <= room
      && BatchesFit(offset + batches[0], batches[1..], left0 - Sum0(c), left1 - Sum1(c), room, chunk)
  {
    hide Reach, LoopCuts;
    c := SplitStep(batches, left0, left1, chunk);
  }

  // ---------------------------------------------------------------- aligned batches fit

  /** An even split needs no room after its bytes, an odd one needs one byte. */
  lemma {:induction false} RegularReachBound(n: nat, chunk: nat)
    requires chunk > 0
    ensures Reach(Regular(n, chunk)) <= n + n % 2
  {
    if 2 * chunk <= n {
      RegularReachBound(n - 2 * chunk, chunk);
    }
  }

  lemma {:induction false} AlignedReach(offset: nat, n: nat, total: nat, room: nat, chunk: nat)
    requires Buffers(room, room, chunk) && offset % (2 * chunk) == 0 && n == Min(total, room - offset % room)
    ensures offset % room + Reach(Regular(n, chunk)) <= room
    ensures n < total ==> WholeStripes(n, chunk) && (offset + n) % (2 * chunk) == 0
  {
    hide Reach, Regular;
    RoomMod(offset, room, 2 * chunk);
    WholeStripesIsMultiple(room - offset % room, chunk);
    RegularReach(n, room - offset % room, chunk);
  }

  /** On a stripe boundary, all batches fit. */
  lemma {:induction false} AlignedFits(offset: nat, n: nat, left0: nat, left1: nat, room: nat, chunk: nat)
    requires Buffers(room, room, chunk) && offset % (2 * chunk) == 0 && left1 <= left0 <= left1 + 1
    requires n == left0 + left1
    ensures BatchesFit(offset, BufferBatches(offset, n, room), left0, left1, room, chunk)
    decreases n
  {
    hide Reach, Regular, LoopCuts, WholeStripes, BatchesFit;
    if n == 0 {
      NothingFits(offset, left0, left1, room, chunk);
    } else {
      var first := Min(n, room - offset % room);
      var rest := BufferBatches(offset + first, n - first, room);
      var batches := BufferBatches(offset, n, room);
      assert batches[0] == first && batches[1..] == rest;
      AlignedReach(offset, first, n, room, chunk);
      var c := FitsStep(offset, batches, left0, left1, room, chunk);
      AlignedIsRegular(first, left0, left1, chunk);
      if first < n {
        var half := WholeStripesHalves(first, chunk);
        AlignedFits(offset + first, n - first, left0 - half, left1 - half, room, chunk);
      } else {
        NothingFits(offset + first, left0 - Sum0(c), left1 - Sum1(c), room, chunk);
      }
    }
  }

  lemma {:induction false} NothingFits(offset: nat, left0: nat, left1: nat, room: nat, chunk: nat)
    requires room > 0 && chunk > 0 && Fits(0, left0, left1)
    ensures BufferBatches(offset, 0, room) == [] && BatchesFit(offset, [], left0, left1, room, chunk)
  {
  }

  // ---------------------------------------------------------------- a cut stripe does not

  /** A batch that ends inside a stripe, before the end of the split, needs room after its bytes. */
  lemma {:induction false} MisalignedReach(n: nat, left0: nat, left1: nat, chunk: nat)
    requires chunk > 0 && left1 <= left0 <= left1 + 1 && n < left0 + left1 && !WholeStripes(n, chunk)
    ensures Reach(LoopCuts(n, left0, left1, chunk)) > n
    decreases n
  {
    hide LoopCuts;
    var a, b := LoopStep(n, left0, left1, chunk);
    if 2 * chunk <= n {
      WholeTake(n, left0, left1, chunk);
      MisalignedReach(n - 2 * chunk, left0 - chunk, left1 - chunk, chunk);
    } else {
      ShortStripeIsLast(n, left0, left1, chunk);
    }
  }

  /** The first batch of a split that a refill cuts goes past the end of the buffer. */
  lemma {:induction false} CutStripeOverruns(offset: nat, n: nat, room: nat, chunk: nat)
    requires Buffers(room, room, chunk) && !StripesKept(offset, n, room, chunk)
    ensures var first := room - offset % room;
      && first < n && BufferBatches(offset, n, room) != [] && BufferBatches(offset, n, room)[0] == first
      && offset % room + Reach(LoopCuts(first, n - n / 2, n / 2, chunk)) > room
  {
    hide Reach, LoopCuts;
    var first := room - offset % room;
    RoomMod(offset, room, 2 * chunk);
    WholeStripesIsMultiple(first, chunk);
    MisalignedReach(first, n - n / 2, n / 2, chunk);
  }

  lemma {:induction false} OneBatchIs(offset: nat, n: nat, room: nat)
    requires room > 0 && n > 0 && offset % room + n <= room
    ensures BufferBatches(offset, n, room) == [n]
  {
    assert BufferBatches(offset + n, 0, room) == [];
  }

  lemma {:induction false} OneBatchReach(pos: nat, n: nat, room: nat, chunk: nat)
    requires room % 2 == 0 && pos % 2 == 0 && chunk > 0 && pos + n <= room
    ensures pos + Reach(Regular(n, chunk)) <= room
  {
    hide Reach, Regular;
    RegularReachBound(n, chunk);
  }

  lemma {:induction false} OneBatchFits(offset: nat, n: nat, left0: nat, left1: nat, room: nat, chunk: nat)
    requires room > 0 && room % 2 == 0 && chunk > 0 && offset % 2 == 0 && offset % room + n <= room
    requires left1 <= left0 <= left1 + 1 && n == left0 + left1
    ensures BatchesFit(offset, BufferBatches(offset, n, room), left0, left1, room, chunk)
  {
    hide Reach, Regular, LoopCuts, BatchesFit, WholeStripes, BufferBatches, Total;
    if n == 0 {
      NothingFits(offset, left0, left1, room, chunk);
    } else {
      OneBatchIs(offset, n, room);
      var c := FitsStep(offset, [n], left0, left1, room, chunk);
      AlignedIsRegular(n, left0, left1, chunk);
      EvenPosition(offset, room);
      OneBatchReach(offset % room, n, room, chunk);
      assert [n][1..] == [];
      NothingFits(offset + n, left0 - Sum0(c), left1 - Sum1(c), room, chunk);
    }
  }

  lemma {:induction false} EvenPosition(offset: nat, room: nat)
    requires room > 0 && room % 2 == 0 && offset % 2 == 0
    ensures (offset % room) % 2 == 0
  {
    RoomMod(offset, room, 2);
  }

  /** Every batch of a split stays inside the buffer if and only if no refill of the buffer cuts a stripe of it. */
  lemma {:induction false} SplitFitsIff(offset: nat, n: nat, room: nat, chunk: nat)
    requires Buffers(room, room, chunk) && offset % 2 == 0
    ensures SplitFits(offset, n, room, chunk) <==> StripesKept(offset, n, room, chunk)
  {
    hide BatchesFit, Reach, LoopCuts, BufferBatches, Total;
    if offset % (2 * chunk) == 0 {
      AlignedFits(offset, n, n - n / 2, n / 2, room, chunk);
    } else if offset % room + n <= room {
      EvenRoom(room, chunk);
      OneBatchFits(offset, n, n - n / 2, n / 2, room, chunk);
    } else {
      CutStripeOverruns(offset, n, room, chunk);
      FirstBatchFits(offset, BufferBatches(offset, n, room), n - n / 2, n / 2, room, chunk);
    }
  }

  lemma {:induction false} FirstBatchFits(offset: nat, batches: seq<nat>, left0: nat, left1: nat, room: nat, chunk: nat)
    requires room > 0 && chunk > 0 && Fits(Total(batches), left0, left1) && batches != []
    ensures batches[0] <= Total(batches)
    ensures BatchesFit(offset, batches, left0, left1, room, chunk) ==>
      offset % room + Reach(LoopCuts(batches[0], left0, left1, chunk)) <= room
  {
    hide Reach, LoopCuts, BatchesFit;
    var c := FitsStep(offset, batches, left0, left1, room, chunk);
  }

  lemma {:induction false} EvenRoom(room: nat, chunk: nat)
    requires Buffers(room, room, chunk)
    ensures room % 2 == 0
  {
    var k := room / (2 * chunk);
    assert room == 2 * (k * chunk);
  }

  // ---------------------------------------------------------------- the object

  predicate AllFit(plan: seq<Split>, room: nat, chunk: nat)
    requires room > 0 && chunk > 0
  {
    forall k :: 0 <= k < |plan| ==> SplitFits(plan[k].offset, Bytes(plan[k], 2), room, chunk)
  }

  lemma {:induction false} EvenOffset(plan: seq<Split>, size: nat, chunk: nat, k: nat)
    requires chunk > 0 && Tiles(plan, 0, size, chunk, 2) && k < |plan|
    ensures plan[k].offset % 2 == 0
    decreases k
  {
    hide Tiles;
    if k > 0 {
      EvenOffset(plan, size, chunk, k - 1);
      NextTile(plan, size, chunk, k - 1);
    } else {
      FirstTile(plan, size, chunk);
    }
  }

  lemma {:induction false} FirstTile(plan: seq<Split>, size: nat, chunk: nat)
    requires chunk > 0 && Tiles(plan, 0, size, chunk, 2)
    ensures |plan| > 0 && plan[0].offset == 0
  {
  }

  lemma {:induction false} NextTile(plan: seq<Split>, size: nat, chunk: nat, k: nat)
    requires chunk > 0 && Tiles(plan, 0, size, chunk, 2) && k + 1 < |plan|
    ensures plan[k].r == 0 && plan[k + 1].offset == plan[k].offset + 2 * plan[k].q
  {
  }

  /** The writer of an object never goes past the buffer if and only if no refill of the buffer cuts a stripe. */
  lemma {:induction false} ObjectFitsIff(plan: seq<Split>, size: nat, room: nat, chunk: nat)
    requires Buffers(room, room, chunk) && Tiles(plan, 0, size, chunk, 2)
    ensures AllFit(plan, room, chunk) <==> AllStripesKept(plan, room, chunk)
  {
    hide SplitFits, StripesKept, Tiles;
    forall k | 0 <= k < |plan|
      ensures SplitFits(plan[k].offset, Bytes(plan[k], 2), room, chunk)
         <==> StripesKept(plan[k].offset, Bytes(plan[k], 2), room, chunk)
    {
      EvenOffset(plan, size, chunk, k);
      SplitFitsIff(plan[k].offset, Bytes(plan[k], 2), room, chunk);
    }
  }

  /**
   Three bytes granted on each medium, chunks of four and a buffer of eight bytes: the second split starts with two
   bytes at position 6 of the buffer, whose stripe reaches position 10.
   */
  lemma {:induction false} NarrowGrantOverruns()
    ensures var grants := (k: nat) => if k == 0 then [3, 3, 3] else [100, 100, 100];
      var plan := Plan(20, grants, 4, 2);
      && |plan| > 1 && plan[1] == Split(6, 7, 0) && !AllFit(plan, 8, 4)
      && 6 + Reach(LoopCuts(2, 7, 7, 4)) == 10
  {
    hide AllFit, AllStripesKept, SplitFits, Tiles, PlanFrom;
    NarrowGrantCutsStripe();
    var grants := (k: nat) => if k == 0 then [3, 3, 3] else [100, 100, 100];
    PlanTiles(20, 0, 0, grants, 4, 2);
    ObjectFitsIff(Plan(20, grants, 4, 2), 20, 8, 4);
    assert LoopCuts(2, 7, 7, 4) == Next(2, 0, LoopCuts(0, 5, 7, 4));
  }
}
