/**
 Putting and getting an object through transfer buffers, with the stripe loops working in place in them.
 */
module Raid4Transfer {
  import opened Basics
  import opened Arithmetic
  import opened Raid4Stripes
  import opened Raid4Batches
  import opened Raid4Read
  import opened Raid4Split
  import opened Raid4Recovery
  import opened Raid4Object
  import opened Raid4Buffer
  import opened SplitSizing
  import opened SplitPlan

  // ---------------------------------------------------------------- progress of a split

  /** A batch that ends a split whose extent 0 is not the longer one needs no room after its bytes. */
  lemma {:induction false} EndReach(n: nat, left0: nat, left1: nat, chunk: nat)
    requires chunk > 0 && left0 <= left1 && n == left0 + left1
    ensures Reach(LoopCuts(n, left0, left1, chunk)) <= n
    decreases n
  {
    hide LoopCuts;
    if n > 0 {
      var a, b := LoopStep(n, left0, left1, chunk);
      EndReach(n - a - b, left0 - a, left1 - b, chunk);
    } else {
      NothingToCut(left0, left1, chunk);
    }
  }

  /** Extent 0 fills first: it stays the one with less to write. */
  lemma {:induction false} FillsFirst(n: nat, left0: nat, left1: nat, chunk: nat)
    requires chunk > 0 && left0 <= left1 && n <= left0 + left1
    ensures var c := LoopCuts(n, left0, left1, chunk); left0 - Sum0(c) <= left1 - Sum1(c)
    decreases n
  {
    hide LoopCuts;
    if n > 0 {
      var a, b := LoopStep(n, left0, left1, chunk);
      FillsFirst(n - a - b, left0 - a, left1 - b, chunk);
    } else {
      NothingToCut(left0, left1, chunk);
    }
  }

  predicate SizesOf(n: nat, size0: nat, size1: nat) {
    size0 == n - n / 2 && size1 == n / 2
  }

  /** In a split of an even number of bytes, extent 0 is never the longer one to write. */
  predicate Evened(n: nat, left0: nat, left1: nat) {
    n % 2 == 0 ==> left0 <= left1
  }

  lemma {:induction false} EvenedPass(n: nat, left0: nat, left1: nat, first: nat, chunk: nat)
    requires chunk > 0 && Evened(n, left0, left1) && Fits(first, left0, left1)
    ensures var c := LoopCuts(first, left0, left1, chunk);
      && Sum0(c) <= left0 && Sum1(c) <= left1 && Evened(n, left0 - Sum0(c), left1 - Sum1(c))
      && (first == left0 + left1 && n % 2 == 0 ==> Reach(c) <= first)
  {
    hide LoopCuts, Reach;
    if n % 2 == 0 {
      FillsFirst(first, left0, left1, chunk);
      if first == left0 + left1 {
        EndReach(first, left0, left1, chunk);
      }
    }
  }

  /**
   A split of `n` bytes at `start` has been written up to `at`, in these batches, with `left0` and `left1` bytes still
   to write in its data extents: all that was written stayed inside the buffer.
   */
  ghost predicate Putting(batches: seq<nat>, left0: nat, left1: nat, start: nat, n: nat, at: nat, room: nat, chunk: nat)
  {
    && room > 0 && chunk > 0 && start <= at <= start + n && left0 + left1 == start + n - at && left0 <= left1 + 1
    && Evened(n, left0, left1)
    && var rest := BufferBatches(at, left0 + left1, room);
      && batches + rest == BufferBatches(start, n, room)
      && (SplitFits(start, n, room, chunk) <==> BatchesFit(at, rest, left0, left1, room, chunk))
  }

  lemma {:induction false} PuttingStart(batches: seq<nat>, left0: nat, left1: nat, start: nat, n: nat, room: nat,
                                        chunk: nat)
    requires room > 0 && chunk > 0 && batches == [] && SizesOf(n, left0, left1)
    ensures Putting(batches, left0, left1, start, n, start, room, chunk)
  {
    hide BufferBatches, BatchesFit;
    assert batches + BufferBatches(start, n, room) == BufferBatches(start, n, room);
  }

  lemma {:induction false} PuttingPass(batches: seq<nat>, left0: nat, left1: nat, start: nat, n: nat, at: nat,
                                       room: nat, chunk: nat, first: nat)
    requires Putting(batches, left0, left1, start, n, at, room, chunk) && at < start + n
    requires first == Min(left0 + left1, room - at % room)
    ensures Fits(first, left0, left1)
    ensures var c := LoopCuts(first, left0, left1, chunk);
      && Sum0(c) <= left0 && Sum1(c) <= left1
      && (at % room + Reach(c) > room ==> !SplitFits(start, n, room, chunk))
      && (at % room + Reach(c) <= room ==>
            Putting(batches + [first], left0 - Sum0(c), left1 - Sum1(c), start, n, at + first, room, chunk))
      && (first == left0 + left1 && n % 2 == 0 ==> Reach(c) <= first)
  {
    hide LoopCuts, Reach, BatchesFit, SplitFits, BufferBatches, Evened;
    var total := left0 + left1;
    BatchStep(at, total, room, first);
    var c := FitsStep(at, BufferBatches(at, total, room), left0, left1, room, chunk);
    var rest := BufferBatches(at + first, total - first, room);
    assert batches + ([first] + rest) == (batches + [first]) + rest;
    EvenedPass(n, left0, left1, first, chunk);
  }

  lemma {:induction false} BatchStep(at: nat, total: nat, room: nat, first: nat)
    requires room > 0 && total > 0 && first == Min(total, room - at % room)
    ensures 0 < first <= total
    ensures BufferBatches(at, total, room) == [first] + BufferBatches(at + first, total - first, room)
    ensures BufferBatches(at, total, room)[0] == first
    ensures BufferBatches(at, total, room)[1..] == BufferBatches(at + first, total - first, room)
  {
  }

  lemma {:induction false} PuttingEnd(batches: seq<nat>, left0: nat, left1: nat, start: nat, n: nat, at: nat, room: nat,
                                      chunk: nat)
    requires Putting(batches, left0, left1, start, n, at, room, chunk) && at == start + n
    ensures batches == BufferBatches(start, n, room) && SplitFits(start, n, room, chunk)
  {
    assert batches + [] == batches;
  }

  // ---------------------------------------------------------------- put

  /**
   The buffer `b` holds the bytes of `x` between the offsets of the writer and of the reader, at their place after the
   offset of the buffer. It starts at a multiple of its size in the object, and is filled whole unless the object ends.
   */
  ghost predicate Filled(b: seq<Byte>, x: seq<Byte>, bufferOffset: nat, readerOffset: nat, writerOffset: nat) {
    && |b| > 0 && bufferOffset <= writerOffset <= readerOffset <= |x| && readerOffset - bufferOffset <= |b|
    && (writerOffset == readerOffset ==> bufferOffset == writerOffset)
    && (writerOffset < readerOffset ==> readerOffset == Min(bufferOffset + |b|, |x|))
    && (IsMultiple(bufferOffset, |b|) || writerOffset == |x|)
    && forall p :: writerOffset - bufferOffset <= p < readerOffset - bufferOffset ==> b[p] == x[bufferOffset + p]
  }

  predicate IsMultiple(offset: nat, room: nat)
    requires room > 0
  {
    offset % room == 0
  }

  /** Where the next write of at most `left` bytes of a split starts, and how many bytes it takes. */
  lemma {:induction false} NextWrite(b: seq<Byte>, x: seq<Byte>, bufferOffset: nat, readerOffset: nat,
                                     writerOffset: nat, left: nat, n: nat)
    requires Filled(b, x, bufferOffset, readerOffset, writerOffset) && writerOffset < readerOffset
    requires writerOffset + left <= |x| && n == Min(left, readerOffset - writerOffset)
    ensures bufferOffset <= writerOffset && writerOffset - bufferOffset + n <= |b|
    ensures writerOffset % |b| == writerOffset - bufferOffset && n == Min(left, |b| - writerOffset % |b|)
    ensures b[writerOffset - bufferOffset..writerOffset - bufferOffset + n] == x[writerOffset..writerOffset + n]
  {
    Position(bufferOffset, writerOffset, |b|);
    var pos := writerOffset - bufferOffset;
    var batch := b[pos..pos + n];
    forall k | 0 <= k < n
      ensures batch[k] == x[writerOffset..writerOffset + n][k]
    {
      assert batch[k] == b[pos + k];
    }
  }

  /**
   After the write of `n` bytes, which left the buffer alone from `reach` bytes on: what it still holds is untouched,
   since it is empty unless the split ends.
   */
  lemma {:induction false} WroteMore(b: seq<Byte>, after: seq<Byte>, x: seq<Byte>, bufferOffset: nat, readerOffset: nat,
                                    writerOffset: nat, left: nat, n: nat, reach: nat)
    requires Filled(b, x, bufferOffset, readerOffset, writerOffset) && writerOffset < readerOffset && |after| == |b|
    requires 0 < n == Min(left, readerOffset - writerOffset)
    requires var pos := writerOffset - bufferOffset;
      forall k :: pos + n <= k < |b| && pos + reach <= k ==> after[k] == b[k]
    requires n == left ==> reach <= n || writerOffset + left == |x|
    ensures var next := writerOffset + n;
      Filled(after, x, if next == readerOffset then next else bufferOffset, readerOffset, next)
  {
    hide IsMultiple;
    NextBuffer(bufferOffset, readerOffset, |b|, |x|);
  }

  lemma {:induction false} Refilled(b: seq<Byte>, after: seq<Byte>, x: seq<Byte>, at: nat, n: nat)
    requires Filled(b, x, at, at, at) && |after| == |b| && n == Min(|x| - at, |b|)
    requires after[..n] == x[at..at + n]
    ensures Filled(after, x, at, at + n, at)
  {
    hide IsMultiple;
    forall p | 0 <= p < n
      ensures after[p] == x[at + p]
    {
      assert after[p] == after[..n][p] == x[at..at + n][p];
    }
  }

  lemma {:induction false} Position(bufferOffset: nat, at: nat, room: nat)
    requires room > 0 && bufferOffset <= at < bufferOffset + room && IsMultiple(bufferOffset, room)
    ensures at % room == at - bufferOffset
  {
    DivModUnique(at, room, bufferOffset / room, at - bufferOffset);
  }

  lemma {:induction false} NextBuffer(bufferOffset: nat, readerOffset: nat, room: nat, size: nat)
    requires room > 0 && IsMultiple(bufferOffset, room) && readerOffset == Min(bufferOffset + room, size)
    ensures IsMultiple(readerOffset, room) || readerOffset == size
  {
    ModShift(bufferOffset, 1, room);
  }

  /** The transfer of an object `x` from its reader to its writer. */
  class Transfer {
    const x: seq<Byte>
    const chunk: nat
    const buff: array<Byte>
    var bufferOffset: nat
    var readerOffset: nat
    var writerOffset: nat

    ghost predicate Valid()
      reads this, buff
    {
      && chunk > 0 && buff.Length > 0 && writerOffset <= readerOffset
      && Filled(buff[..], x, bufferOffset, readerOffset, writerOffset)
    }

    constructor (x: seq<Byte>, room: nat, chunk: nat)
      requires room > 0 && chunk > 0
      ensures Valid() && this.x == x && this.chunk == chunk && buff.Length == room && writerOffset == 0 && fresh(buff)
    {
      this.x, this.chunk := x, chunk;
      buff := new Byte[room];
      bufferOffset, readerOffset, writerOffset := 0, 0, 0;
    }

    /** Refills the empty buffer. */
    method ReadStep()
      requires Valid() && readerOffset == writerOffset < |x|
      modifies `readerOffset, buff
      ensures Valid() && readerOffset > writerOffset
    {
      hide Filled;
      EmptyBuffer(buff[..], x, bufferOffset, readerOffset, writerOffset);
      var toRead := Min(|x| - readerOffset, buff.Length - (readerOffset - bufferOffset));
      ghost var before := buff[..];
      CopyIn(buff, readerOffset - bufferOffset, x[readerOffset..readerOffset + toRead]);
      assert buff[..][..toRead] == buff[0..toRead];
      Refilled(before, buff[..], x, readerOffset, toRead);
      readerOffset := readerOffset + toRead;
    }

    /** The writer `w` of the split of `n` bytes at `start` still has `left` bytes to write. */
    ghost predicate Writing(w: SplitWriter, left: nat, start: nat, n: nat)
      reads `writerOffset, w
    {
      && w.Valid() && SizesOf(n, w.size0, w.size1) && w.chunk == chunk
      && |w.stored.data0| <= w.size0 && |w.stored.data1| <= w.size1
      && writerOffset + left == start + n <= |x| && start <= writerOffset && w.bytes == x[start..writerOffset]
      && EvenOrLast(start, n, |x|)
      && Putting(w.batches, w.size0 - |w.stored.data0|, w.size1 - |w.stored.data1|, start, n, writerOffset,
                 buff.Length, chunk)
    }

    /** Moves past the `n` bytes just written, and empties the buffer after its last byte. */
    method Advance(ghost left: nat, n: nat, ghost before: seq<Byte>, ghost reach: nat)
      requires chunk > 0 && Filled(before, x, bufferOffset, readerOffset, writerOffset) && |before| == buff.Length
      requires writerOffset < readerOffset && 0 < n == Min(left, readerOffset - writerOffset)
      requires n == left ==> reach <= n || writerOffset + left == |x|
      requires var pos := writerOffset - bufferOffset;
        forall k :: pos + n <= k < |before| && pos + reach <= k ==> buff[k] == before[k]
      modifies `bufferOffset, `writerOffset
      ensures Valid() && writerOffset == old(writerOffset) + n
    {
      WroteMore(before, buff[..], x, bufferOffset, readerOffset, writerOffset, left, n, reach);
      hide Filled;
      writerOffset := writerOffset + n;
      if writerOffset == readerOffset {
        bufferOffset := writerOffset;
      }
    }

    /** One write of the split, from what the buffer holds. */
    method WriteStep(w: SplitWriter, left: nat, ghost start: nat, ghost n: nat) returns (fits: bool, toWrite: nat)
      requires Valid() && readerOffset > writerOffset && left > 0 && Writing(w, left, start, n)
      modifies `bufferOffset, `writerOffset, buff, w`stored, w`bytes, w`batches
      ensures 0 < toWrite <= left
      ensures fits ==> Valid() && Writing(w, left - toWrite, start, n)
      ensures !fits ==> !SplitFits(start, n, buff.Length, chunk)
    {
      hide Putting, Reach, LoopCuts, SplitFits, Filled, SplitWriter.Valid, SizesOf, EvenOrLast, Sum0, Sum1;
      ghost var left0, left1, at := w.size0 - |w.stored.data0|, w.size1 - |w.stored.data1|, writerOffset;
      ghost var before := buff[..];
      toWrite := Min(left, readerOffset - writerOffset);
      NextWrite(before, x, bufferOffset, readerOffset, at, left, toWrite);
      ghost var cuts := NextCut(w.batches, left0, left1, start, n, at, buff.Length, chunk, left, toWrite, |x|);
      var pos := writerOffset - bufferOffset;
      assert buff[pos..pos + toWrite] == before[pos..pos + toWrite];
      fits := w.WriteFromBuff(buff, pos, pos + toWrite, x[at..at + toWrite]);
      if fits {
        assert w.size0 - |w.stored.data0| == left0 - Sum0(cuts) && w.size1 - |w.stored.data1| == left1 - Sum1(cuts);
        Extends(x, start, at, toWrite);
        Advance(left, toWrite, before, Reach(cuts));
      }
    }

    lemma {:induction false} WritingStarts(w: SplitWriter, n: nat)
      requires w.Valid() && SizesOf(n, w.size0, w.size1) && w.chunk == chunk > 0 && buff.Length > 0
      requires w.bytes == [] && w.batches == [] && w.stored == Empty
      requires writerOffset + n <= |x| && EvenOrLast(writerOffset, n, |x|)
      ensures Writing(w, n, writerOffset, n)
    {
      hide Putting, SplitWriter.Valid, EvenOrLast, SizesOf;
      assert |w.stored.data0| == 0;
      assert |w.stored.data1| == 0;
      assert x[writerOffset..writerOffset] == [];
      PuttingStart(w.batches, w.size0 - |w.stored.data0|, w.size1 - |w.stored.data1|, writerOffset, n, buff.Length,
        chunk);
    }

    lemma {:induction false} WritingAt(w: SplitWriter, left: nat, start: nat, n: nat)
      requires Writing(w, left, start, n)
      ensures writerOffset + left == start + n <= |x|
    {
    }

    lemma {:induction false} WritingEnds(w: SplitWriter, start: nat, n: nat)
      requires Writing(w, 0, start, n) && buff.Length > 0 && chunk > 0
      ensures writerOffset == start + n <= |x| && SplitFits(start, n, buff.Length, chunk)
      ensures w.stored == SplitStored(x[start..writerOffset], start, buff.Length, chunk)
    {
      hide Putting, SplitFits, EvenOrLast, Store, SplitCuts;
      PuttingEnd(w.batches, w.size0 - |w.stored.data0|, w.size1 - |w.stored.data1|, start, n, writerOffset,
                 buff.Length, chunk);
    }

    /** A writer for a split of the next `n` bytes. */
    method NewWriter(n: nat) returns (w: SplitWriter)
      requires Valid() && writerOffset + n <= |x| && EvenOrLast(writerOffset, n, |x|)
      ensures fresh(w) && Writing(w, n, writerOffset, n)
    {
      hide Filled, EvenOrLast, Writing, SplitWriter.Valid;
      w := new SplitWriter(n - n / 2, n / 2, chunk);
      WritingStarts(w, n);
    }

    /** Puts the next `n` bytes in a split of their own; None if a stripe goes past the buffer. */
    method PutSplit(n: nat) returns (stored: Option<Stored>)
      requires Valid() && writerOffset + n <= |x| && EvenOrLast(writerOffset, n, |x|)
      modifies `bufferOffset, `readerOffset, `writerOffset, buff
      ensures stored.Some? <==> SplitFits(old(writerOffset), n, buff.Length, chunk)
      ensures stored.Some? ==> Valid() && writerOffset == old(writerOffset) + n
      ensures stored.Some? ==>
        stored.value == SplitStored(x[old(writerOffset)..writerOffset], old(writerOffset), buff.Length, chunk)
    {
      hide SplitFits, Filled, EvenOrLast, Writing, SplitWriter.Valid, SplitStored, Putting;
      ghost var start := writerOffset;
      var w := NewWriter(n);
      var left := n;
      while left > 0
        invariant Valid() && Writing(w, left, start, n)
      {
        WritingAt(w, left, start, n);
        if readerOffset == writerOffset {
          ReadStep();
        }
        var fits, written := WriteStep(w, left, start, n);
        if !fits {
          return None;
        }
        left := left - written;
      }
      WritingEnds(w, start, n);
      stored := Some(w.stored);
    }
  }

  /** A split of `n` bytes at `start` in an object of `size` bytes: one with an odd number of bytes ends the object. */
  predicate EvenOrLast(start: nat, n: nat, size: nat) {
    n % 2 == 0 || start + n == size
  }

  lemma {:induction false} Extends(x: seq<Byte>, start: nat, at: nat, n: nat)
    requires start <= at && at + n <= |x|
    ensures x[start..at] + x[at..at + n] == x[start..at + n]
  {
  }

  lemma {:induction false} NextCut(batches: seq<nat>, left0: nat, left1: nat, start: nat, n: nat, at: nat, room: nat,
                                   chunk: nat, left: nat, first: nat, size: nat)
    returns (cuts: Cuts)
    requires Putting(batches, left0, left1, start, n, at, room, chunk) && at + left == start + n && left > 0
    requires EvenOrLast(start, n, size) && first == Min(left, room - at % room)
    ensures Fits(first, left0, left1) && cuts == LoopCuts(first, left0, left1, chunk)
    ensures Sum0(cuts) <= left0 && Sum1(cuts) <= left1
    ensures at % room + Reach(cuts) > room ==> !SplitFits(start, n, room, chunk)
    ensures at % room + Reach(cuts) <= room ==>
      Putting(batches + [first], left0 - Sum0(cuts), left1 - Sum1(cuts), start, n, at + first, room, chunk)
    ensures first == left ==> Reach(cuts) <= first || at + left == size
  {
    hide Putting, Reach, LoopCuts, SplitFits;
    PuttingTotal(batches, left0, left1, start, n, at, room, chunk);
    PuttingPass(batches, left0, left1, start, n, at, room, chunk, first);
    cuts := LoopCuts(first, left0, left1, chunk);
  }

  lemma {:induction false} PuttingTotal(batches: seq<nat>, left0: nat, left1: nat, start: nat, n: nat, at: nat,
                                        room: nat, chunk: nat)
    requires Putting(batches, left0, left1, start, n, at, room, chunk)
    ensures room > 0 && chunk > 0 && left0 + left1 == start + n - at
  {
  }

  lemma {:induction false} EmptyBuffer(b: seq<Byte>, x: seq<Byte>, bufferOffset: nat, readerOffset: nat,
                                       writerOffset: nat)
    requires Filled(b, x, bufferOffset, readerOffset, writerOffset) && readerOffset == writerOffset
    ensures bufferOffset == readerOffset <= |x| && |b| > 0
  {
  }

  /** The splits before the `k`-th are in `out`, up to `at` in the object. */
  ghost predicate PutSoFar(out: seq<Stored>, x: seq<Byte>, plan: seq<Split>, k: nat, at: nat, room: nat, chunk: nat) {
    && room > 0 && chunk > 0 && k <= |plan| && |x| == PlanBytes(plan) && at + PlanBytes(plan[k..]) == |x|
    && out + StoreObject(x[at..], plan[k..], room, chunk) == StoreObject(x, plan, room, chunk)
  }

  lemma {:induction false} PutStarts(x: seq<Byte>, plan: seq<Split>, room: nat, chunk: nat)
    requires room > 0 && chunk > 0 && |x| == PlanBytes(plan)
    ensures PutSoFar([], x, plan, 0, 0, room, chunk)
  {
    hide StoreObject;
    assert plan[0..] == plan && x[0..] == x;
    assert [] + StoreObject(x, plan, room, chunk) == StoreObject(x, plan, room, chunk);
  }

  lemma {:induction false} PutNext(out: seq<Stored>, x: seq<Byte>, plan: seq<Split>, k: nat, at: nat, room: nat,
                                   chunk: nat, stored: Stored)
    requires PutSoFar(out, x, plan, k, at, room, chunk) && k < |plan| && plan[k].offset == at
    requires at + Bytes(plan[k], 2) <= |x| && stored == SplitStored(x[at..at + Bytes(plan[k], 2)], at, room, chunk)
    ensures PutSoFar(out + [stored], x, plan, k + 1, at + Bytes(plan[k], 2), room, chunk)
  {
    hide SplitStored;
    var n, rest := Bytes(plan[k], 2), plan[k..];
    assert rest[1..] == plan[k + 1..];
    assert x[at..][..n] == x[at..at + n] && x[at..][n..] == x[at + n..];
    var more := StoreObject(x[at + n..], plan[k + 1..], room, chunk);
    assert out + ([stored] + more) == (out + [stored]) + more;
  }

  lemma {:induction false} PutEnds(out: seq<Stored>, x: seq<Byte>, plan: seq<Split>, at: nat, room: nat, chunk: nat)
    requires PutSoFar(out, x, plan, |plan|, at, room, chunk)
    ensures out == StoreObject(x, plan, room, chunk)
  {
    assert out + [] == out;
  }

  /** Every split starts where the one before it ended, and only the last one may have an odd number of bytes. */
  lemma {:induction false} TileFacts(plan: seq<Split>, size: nat, chunk: nat, k: nat)
    requires chunk > 0 && Tiles(plan, 0, size, chunk, 2) && k < |plan|
    ensures var next := plan[k].offset + Bytes(plan[k], 2);
      && next <= size && EvenOrLast(plan[k].offset, Bytes(plan[k], 2), size)
      && (if k + 1 < |plan| then plan[k + 1].offset == next else next == size)
    decreases |plan| - k
  {
    if k + 1 < |plan| {
      TileFacts(plan, size, chunk, k + 1);
    }
  }

  /** Puts the object `x` in the splits of `plan`; None if a stripe goes past the buffer. */
  method PutObject(x: seq<Byte>, plan: seq<Split>, room: nat, chunk: nat) returns (stored: Option<seq<Stored>>)
    requires room > 0 && chunk > 0 && Tiles(plan, 0, |x|, chunk, 2) && |x| == PlanBytes(plan)
    ensures stored == if AllFit(plan, room, chunk) then Some(StoreObject(x, plan, room, chunk)) else None
  {
    hide Tiles, StoreObject, SplitStored, SplitFits, PutSoFar, Filled, EvenOrLast, PlanBytes;
    var t := new Transfer(x, room, chunk);
    var out, k := [], 0;
    PutStarts(x, plan, room, chunk);
    FirstTile(plan, |x|, chunk);
    while k < |plan|
      invariant k <= |plan| && t.Valid() && fresh(t) && fresh(t.buff)
      invariant t.x == x && t.buff.Length == room && t.chunk == chunk
      invariant k < |plan| ==> plan[k].offset == t.writerOffset
      invariant PutSoFar(out, x, plan, k, t.writerOffset, room, chunk)
      invariant forall j :: 0 <= j < k ==> SplitFits(plan[j].offset, Bytes(plan[j], 2), room, chunk)
    {
      TileFacts(plan, |x|, chunk, k);
      ghost var at := t.writerOffset;
      var split := t.PutSplit(Bytes(plan[k], 2));
      if split.None? {
        return None;
      }
      PutNext(out, x, plan, k, at, room, chunk, split.value);
      out, k := out + [split.value], k + 1;
    }
    PutEnds(out, x, plan, t.writerOffset, room, chunk);
    stored := Some(out);
  }

  // ---------------------------------------------------------------- get

  /** With `out` read, the get of a split that will give `all` still has to read `left` bytes at `at`. */
  ghost predicate Getting(out: seq<Byte>, pair: Pair, f: seq<Byte>, g: seq<Byte>, at: nat, left: nat, room: nat,
                          chunk: nat, all: Option<seq<Byte>>)
  {
    && room > 0 && chunk > 0 && (IsMultiple(at, room) || left == 0)
    && all == Prepend(out, ReadBatches(pair, f, g, BufferBatches(at, left, room), chunk))
  }

  lemma {:induction false} GettingStart(pair: Pair, f: seq<Byte>, g: seq<Byte>, n: nat, room: nat, chunk: nat)
    requires room > 0 && chunk > 0
    ensures Getting([], pair, f, g, 0, n, room, chunk, ReadBatches(pair, f, g, BufferBatches(0, n, room), chunk))
  {
    hide ReadBatches, BufferBatches;
    DivModUnique(0, room, 0, 0);
    var all := ReadBatches(pair, f, g, BufferBatches(0, n, room), chunk);
    if all.Some? {
      assert [] + all.value == all.value;
    }
  }

  lemma {:induction false} GettingPass(out: seq<Byte>, pair: Pair, f: seq<Byte>, g: seq<Byte>, at: nat, left: nat,
                                       room: nat, chunk: nat, all: Option<seq<Byte>>, n: nat)
    requires Getting(out, pair, f, g, at, left, room, chunk, all) && left > 0 && n == Min(left, room)
    ensures n > 2 * |f| || Sum1(FetchCuts(n, |f|, chunk)) > |g| ==> all == None
    ensures n <= 2 * |f| && Sum1(FetchCuts(n, |f|, chunk)) <= |g| ==>
      var cuts := FetchCuts(n, |f|, chunk);
      Getting(out + Fetch(pair, f, g, cuts), pair, f[Sum0(cuts)..], g[Sum1(cuts)..], at + n, left - n, room, chunk, all)
  {
    hide FetchCuts, Fetch, BufferBatches, IsMultiple;
    MultipleOf(at, room, left, n);
    BatchStep(at, left, room, n);
    if n <= 2 * |f| && Sum1(FetchCuts(n, |f|, chunk)) <= |g| {
      var cuts := FetchCuts(n, |f|, chunk);
      var more := ReadBatches(pair, f[Sum0(cuts)..], g[Sum1(cuts)..], BufferBatches(at + n, left - n, room), chunk);
      if more.Some? {
        Associative(out, Fetch(pair, f, g, cuts), more.value);
      }
    }
  }

  lemma {:induction false} MultipleOf(at: nat, room: nat, left: nat, n: nat)
    requires room > 0 && IsMultiple(at, room) && n == Min(left, room)
    ensures n == Min(left, room - at % room) && (IsMultiple(at + n, room) || n == left)
  {
    ModShift(at, 1, room);
  }

  lemma {:induction false} GettingEnd(out: seq<Byte>, pair: Pair, f: seq<Byte>, g: seq<Byte>, at: nat, room: nat,
                                      chunk: nat, all: Option<seq<Byte>>)
    requires Getting(out, pair, f, g, at, 0, room, chunk, all)
    ensures all == Some(out)
  {
    assert out + [] == out;
  }

  /** A read into a buffer of whole stripes fails only on an extent that is too short. */
  lemma {:induction false} NeverPastBuffer(pair: Pair, n: nat, left: nat, rest: nat, chunk: nat, room: nat)
    requires chunk > 0 && n <= room && room % (2 * chunk) == 0
    ensures ReadOutcome(pair, n, left, rest, chunk, room) == Done <==>
      n <= 2 * left && Sum1(FetchCuts(n, left, chunk)) <= rest
  {
    hide FetchCuts, ReadOutcome, Reach, Sum1;
    DoneIff(pair, n, left, rest, chunk, room);
    if n <= 2 * left {
      WholeStripesIsMultiple(room, chunk);
      FetchReach(n, left, chunk, room);
    }
  }

  /** Gets a split of `n` bytes, as many at a time as the buffer takes. */
  method GetSplit(buff: array<Byte>, pair: Pair, s: Stored, n: nat, chunk: nat) returns (y: Option<seq<Byte>>)
    requires chunk > 0 && buff.Length > 0 && buff.Length % (2 * chunk) == 0
    modifies buff
    ensures y == ReadSplit(pair, s, BufferBatches(0, n, buff.Length), chunk)
  {
    hide Getting, FetchCuts, Fetch, ReadBatches, ReadOutcome, BufferBatches, Sum0, Sum1;
    var f, g, left, out := First(pair, s), Second(pair, s), n, [];
    ghost var all := ReadSplit(pair, s, BufferBatches(0, n, buff.Length), chunk);
    GettingStart(pair, f, g, n, buff.Length, chunk);
    while left > 0
      invariant 0 <= left <= n && Getting(out, pair, f, g, n - left, left, buff.Length, chunk, all)
    {
      var toRead := Min(left, buff.Length);
      GettingPass(out, pair, f, g, n - left, left, buff.Length, chunk, all, toRead);
      NeverPastBuffer(pair, toRead, |f|, |g|, chunk, buff.Length);
      var r, f1, g1 := ReadIntoBuff(buff, 0, toRead, pair, f, g, chunk);
      if r != Done {
        return None;
      }
      out, f, g := out + buff[0..toRead], f1, g1;
      left := left - toRead;
    }
    GettingEnd(out, pair, f, g, n, buff.Length, chunk, all);
    y := Some(out);
  }

  /** With `out` read from the splits before the `k`-th, the get will give `all`. */
  ghost predicate GotSoFar(out: seq<Byte>, stored: seq<Stored>, plan: seq<Split>, pairs: seq<Pair>, k: nat, room: nat,
                           chunk: nat, all: Option<seq<Byte>>) {
    && room > 0 && chunk > 0 && |stored| == |pairs| == |plan| && k <= |plan|
    && all == Prepend(out, ReadStored(stored[k..], plan[k..], pairs[k..], room, chunk))
  }

  lemma {:induction false} GotNext(out: seq<Byte>, stored: seq<Stored>, plan: seq<Split>, pairs: seq<Pair>, k: nat,
                                   room: nat, chunk: nat, all: Option<seq<Byte>>)
    requires GotSoFar(out, stored, plan, pairs, k, room, chunk, all) && k < |plan|
    ensures var y := ReadSplit(pairs[k], stored[k], BufferBatches(0, Bytes(plan[k], 2), room), chunk);
      if y.None? then all == None else GotSoFar(out + y.value, stored, plan, pairs, k + 1, room, chunk, all)
  {
    hide ReadSplit, BufferBatches;
    assert stored[k..][1..] == stored[k + 1..] && plan[k..][1..] == plan[k + 1..] && pairs[k..][1..] == pairs[k + 1..];
    var y := ReadSplit(pairs[k], stored[k], BufferBatches(0, Bytes(plan[k], 2), room), chunk);
    var more := ReadStored(stored[k + 1..], plan[k + 1..], pairs[k + 1..], room, chunk);
    if y.Some? && more.Some? {
      Associative(out, y.value, more.value);
    }
  }

  lemma {:induction false} GotStarts(stored: seq<Stored>, plan: seq<Split>, pairs: seq<Pair>, room: nat, chunk: nat)
    requires room > 0 && chunk > 0 && |stored| == |pairs| == |plan|
    ensures GotSoFar([], stored, plan, pairs, 0, room, chunk, ReadStored(stored, plan, pairs, room, chunk))
  {
    hide ReadStored;
    assert stored[0..] == stored && plan[0..] == plan && pairs[0..] == pairs;
    var all := ReadStored(stored, plan, pairs, room, chunk);
    if all.Some? {
      assert [] + all.value == all.value;
    }
  }

  lemma {:induction false} GotEnds(out: seq<Byte>, stored: seq<Stored>, plan: seq<Split>, pairs: seq<Pair>, room: nat,
                                   chunk: nat, all: Option<seq<Byte>>)
    requires GotSoFar(out, stored, plan, pairs, |plan|, room, chunk, all)
    ensures all == Some(out)
  {
    assert out + [] == out;
  }

  /** Gets the object of these splits through one buffer, from the pair of extents that is left of each. */
  method GetObject(stored: seq<Stored>, plan: seq<Split>, pairs: seq<Pair>, room: nat, chunk: nat)
    returns (y: Option<seq<Byte>>)
    requires Buffers(room, room, chunk) && |stored| == |pairs| == |plan|
    ensures y == ReadStored(stored, plan, pairs, room, chunk)
  {
    hide GotSoFar, ReadStored, ReadSplit, BufferBatches;
    ghost var all := ReadStored(stored, plan, pairs, room, chunk);
    var buff := new Byte[room];
    var out, k := [], 0;
    GotStarts(stored, plan, pairs, room, chunk);
    while k < |plan|
      invariant k <= |plan| && GotSoFar(out, stored, plan, pairs, k, room, chunk, all)
    {
      GotNext(out, stored, plan, pairs, k, room, chunk, all);
      var split := GetSplit(buff, pairs[k], stored[k], Bytes(plan[k], 2), chunk);
      if split.None? {
        return None;
      }
      out, k := out + split.value, k + 1;
    }
    GotEnds(out, stored, plan, pairs, room, chunk, all);
    y := Some(out);
  }

  // ---------------------------------------------------------------- put then get

  /**
   A put and a get of any object through their buffers, whatever extent each split has lost in between. They give the
   object back if no refill of the put buffer cuts a stripe; otherwise the put goes past its buffer. Grants of a chunk
   or more never cut one.
   */
  method PutThenGet(x: seq<Byte>, grants: Grants, pairs: seq<Pair>, room: nat, getRoom: nat, chunk: nat)
    returns (y: Option<seq<Byte>>)
    requires Buffers(room, getRoom, chunk) && Positive(grants) && |pairs| == |Plan(|x|, grants, chunk, 2)|
    ensures y == if AllStripesKept(Plan(|x|, grants, chunk, 2), room, chunk) then Some(x) else None
    ensures (forall k, i :: 0 <= i < |grants(k)| ==> grants(k)[i] >= chunk) ==> y == Some(x)
  {
    hide PlanFrom, Tiles, AllFit, AllStripesKept, StoreObject, ReadStored;
    var plan := Plan(|x|, grants, chunk, 2);
    PlanTiles(|x|, 0, 0, grants, chunk, 2);
    TilesBytes(plan, 0, |x|, chunk);
    ObjectFitsIff(plan, |x|, room, chunk);
    if forall k, i :: 0 <= i < |grants(k)| ==> grants(k)[i] >= chunk {
      WidePlan(|x|, grants, room, chunk);
    }
    var stored := PutObject(x, plan, room, chunk);
    if stored.None? {
      return None;
    }
    ObjectReadBack(x, plan, pairs, room, getRoom, chunk);
    y := GetObject(stored.value, plan, pairs, getRoom, chunk);
  }
}
