/**
 A whole RAID4 split: written batch after batch, read back from two extents,
 and rebuilt extent by extent.
 */
module Raid4Split {
  import opened Basics
  import opened Raid4Stripes
  import opened Raid4Batches

  // ---------------------------------------------------------------- writing

  lemma {:induction false} StoreConcat(x: seq<Byte>, y: seq<Byte>, c: Cuts, d: Cuts)
    requires Covers(c, |x|) && Covers(d, |y|)
    ensures Covers(Concat(c, d), |x + y|)
    ensures Store(x + y, Concat(c, d)) == Append(Store(x, c), Store(y, d))
    decreases c
  {
    ConcatCovers(c, |x|, d, |y|);
    if c.End? {
      assert x + y == y;
      AppendEmpty(Store(y, d));
      return;
    }
    var m := c.a + c.b;
    var stripe, s, t := Stripe(x, c.a, c.b), Store(x[m..], c.more), Store(y, d);
    assert Store(x, c) == Append(stripe, s);
    assert Store(x + y, Concat(c, d)) == Append(stripe, Store(x[m..] + y, Concat(c.more, d))) by {
      StoreStep(x, y, c, d);
    }
    hide Store, Append, Concat, Covers;
    StoreConcat(x[m..], y, c.more, d);
    AppendAssociative(stripe, s, t);
  }

  lemma {:induction false} StoreStep(x: seq<Byte>, y: seq<Byte>, c: Cuts, d: Cuts)
    requires c.Next? && Covers(c, |x|) && Covers(Concat(c, d), |x + y|)
    ensures var m := c.a + c.b;
      && Covers(Concat(c.more, d), |x[m..] + y|)
      && Store(x + y, Concat(c, d)) == Append(Stripe(x, c.a, c.b), Store(x[m..] + y, Concat(c.more, d)))
  {
    var a, m := c.a, c.a + c.b;
    assert (x + y)[m..] == x[m..] + y;
    assert (x + y)[..a] == x[..a] && (x + y)[a..m] == x[a..m];
  }

  lemma {:induction false} StoreLengths(x: seq<Byte>, cuts: Cuts)
    requires Covers(cuts, |x|)
    ensures var s := Store(x, cuts);
      |s.data0| == |s.parity| == Sum0(cuts) && |s.data1| == Sum1(cuts) && Sum0(cuts) + Sum1(cuts) == |x|
    decreases cuts
  {
    if cuts.Next? {
      StoreLengths(x[cuts.a + cuts.b..], cuts.more);
    }
  }

  lemma {:induction false} ConcatFacts(c: Cuts, d: Cuts, e: Cuts)
    ensures Concat(Concat(c, d), e) == Concat(c, Concat(d, e))
    ensures Sum0(Concat(c, d)) == Sum0(c) + Sum0(d) && Sum1(Concat(c, d)) == Sum1(c) + Sum1(d)
  {
    if c.Next? {
      ConcatFacts(c.more, d, e);
    }
  }

  /** The stripes `c` share `n` bytes between the data extents and leave room for `m` more. */
  predicate Leaves(c: Cuts, n: nat, left0: int, left1: int, m: nat) {
    Sum0(c) <= left0 && Sum1(c) <= left1 && Sum0(c) + Sum1(c) == n && Fits(m, left0 - Sum0(c), left1 - Sum1(c))
  }

  lemma {:induction false} LeavesConcat(c: Cuts, n: nat, d: Cuts, m: nat, left0: int, left1: int, k: nat)
    requires Leaves(c, n, left0, left1, m) && Leaves(d, m, left0 - Sum0(c), left1 - Sum1(c), k)
    ensures Leaves(Concat(c, d), n + m, left0, left1, k)
  {
    ConcatFacts(c, d, End);
  }

  lemma {:induction false} SplitLeaves(batches: seq<nat>, left0: nat, left1: nat, chunk: nat, m: nat)
    requires chunk > 0 && Fits(Total(batches) + m, left0, left1)
    ensures Leaves(SplitCuts(batches, left0, left1, chunk), Total(batches), left0, left1, m)
    decreases |batches|
  {
    hide LoopCuts;
    if batches != [] {
      var c := LoopCuts(batches[0], left0, left1, chunk);
      var left0', left1' := left0 - Sum0(c), left1 - Sum1(c);
      SplitLeaves(batches[1..], left0', left1', chunk, m);
      LeavesConcat(c, batches[0], SplitCuts(batches[1..], left0', left1', chunk), Total(batches[1..]), left0, left1, m);
    }
  }

  /** One more batch continues with what the batches before it left. */
  lemma {:induction false} SplitSnoc(batches: seq<nat>, n: nat, left0: nat, left1: nat, chunk: nat)
    requires chunk > 0 && Fits(Total(batches) + n, left0, left1)
    ensures Total(batches + [n]) == Total(batches) + n
    ensures var c := SplitCuts(batches, left0, left1, chunk);
      && Leaves(c, Total(batches), left0, left1, n)
      && SplitCuts(batches + [n], left0, left1, chunk)
         == Concat(c, LoopCuts(n, left0 - Sum0(c), left1 - Sum1(c), chunk))
    decreases |batches|
  {
    hide LoopCuts, SplitCuts, Concat, Sum0, Sum1, Total;
    SplitLeaves(batches, left0, left1, chunk, n);
    TotalSnoc(batches, n);
    if batches == [] {
      OnlyBatch(n, left0, left1, chunk);
      assert batches + [n] == [n];
    } else {
      var c := SplitStep(batches, left0, left1, chunk);
      var left0', left1', rest := left0 - Sum0(c), left1 - Sum1(c), batches[1..];
      SplitSnoc(rest, n, left0', left1', chunk);
      var d := SplitStep(batches + [n], left0, left1, chunk);
      assert (batches + [n])[1..] == rest + [n];
      var e := SplitCuts(rest, left0', left1', chunk);
      ConcatFacts(c, e, LoopCuts(n, left0' - Sum0(e), left1' - Sum1(e), chunk));
    }
  }

  lemma {:induction false} OnlyBatch(n: nat, left0: nat, left1: nat, chunk: nat)
    requires chunk > 0 && Fits(n, left0, left1)
    ensures Total([n]) == n && Total([]) == 0 && SplitCuts([], left0, left1, chunk) == End
    ensures SplitCuts([n], left0, left1, chunk) == Concat(End, LoopCuts(n, left0, left1, chunk))
    ensures Sum0(End) == Sum1(End) == 0
  {
    hide LoopCuts, SplitCuts, Concat;
    var c := SplitStep([n], left0, left1, chunk);
    SplitNothing(left0, left1, left0 - Sum0(c), left1 - Sum1(c), chunk, c);
  }

  lemma {:induction false} SplitNothing(left0: nat, left1: nat, left0': nat, left1': nat, chunk: nat, c: Cuts)
    requires chunk > 0 && Fits(0, left0, left1) && Fits(0, left0', left1')
    ensures SplitCuts([], left0, left1, chunk) == SplitCuts([], left0', left1', chunk) == End
    ensures Concat(c, End) == c == Concat(End, c) && Sum0(End) == Sum1(End) == 0
  {
    ConcatEnd(c);
  }

  lemma {:induction false} TotalSnoc(batches: seq<nat>, n: nat)
    ensures Total(batches + [n]) == Total(batches) + n
  {
    if batches == [] {
      assert batches + [n] == [n];
    } else {
      assert (batches + [n])[1..] == batches[1..] + [n];
      TotalSnoc(batches[1..], n);
    }
  }

  /** The RAID4 side of a writer during one split. */
  class SplitWriter {
    const size0: nat
    const size1: nat
    const chunk: nat
    var stored: Stored
    ghost var bytes: seq<Byte>
    ghost var batches: seq<nat>

    ghost predicate Valid()
      reads this
    {
      && chunk > 0 && Fits(Total(batches), size0, size1)
      && |stored.data0| <= size0 && |stored.data1| <= size1
      && Covers(SplitCuts(batches, size0, size1, chunk), |bytes|)
      && stored == Store(bytes, SplitCuts(batches, size0, size1, chunk))
    }

    /** A split whose data extents were given these sizes. */
    constructor (size0: nat, size1: nat, chunk: nat)
      requires chunk > 0 && size1 <= size0 <= size1 + 1
      ensures Valid() && bytes == [] && batches == [] && stored == Empty
      ensures this.size0 == size0 && this.size1 == size1 && this.chunk == chunk
    {
      this.size0, this.size1, this.chunk := size0, size1, chunk;
      stored, bytes, batches := Empty, [], [];
    }

    /** The stripes that the next `n` bytes will be cut in. */
    ghost function NextCuts(n: nat): Cuts
      requires chunk > 0 && |stored.data0| <= size0 && |stored.data1| <= size1
      requires Fits(n, size0 - |stored.data0|, size1 - |stored.data1|)
      reads this
    {
      LoopCuts(n, size0 - |stored.data0|, size1 - |stored.data1|, chunk)
    }

    /**
     Writes the bytes `batch`, buffered from `off` to `end`. The parity of the stripes may need room after `end`: the
     batch fits if it stays inside the buffer.
     */
    method WriteFromBuff(buff: array<Byte>, off: nat, end: nat, ghost batch: seq<Byte>) returns (fits: bool)
      requires Valid() && off <= end <= buff.Length && buff[off..end] == batch
      requires Fits(|batch|, size0 - |stored.data0|, size1 - |stored.data1|)
      modifies `stored, `bytes, `batches, buff
      ensures Valid() && (fits <==> off + Reach(old(NextCuts(|batch|))) <= buff.Length)
      ensures fits ==> bytes == old(bytes) + batch && batches == old(batches) + [|batch|]
      ensures fits ==> Wrote(old(stored), stored, old(NextCuts(|batch|)))
      ensures !fits ==> unchanged(`stored, `bytes, `batches)
      ensures forall k :: 0 <= k < off ==> buff[k] == old(buff[k])
      ensures forall k :: end <= k < buff.Length && off + Reach(old(NextCuts(|batch|))) <= k ==> buff[k] == old(buff[k])
    {
      hide SplitCuts, LoopCuts, Reach, Store, Covers, Total, Concat, Sum0, Sum1;
      ghost var cuts := SplitCuts(batches, size0, size1, chunk);
      StoreLengths(bytes, cuts);
      SplitLeaves(batches, size0, size1, chunk, 0);
      SplitSnoc(batches, |batch|, size0, size1, chunk);
      var left0, left1 := size0 - |stored.data0|, size1 - |stored.data1|;
      ghost var more := LoopCuts(|batch|, left0, left1, chunk);
      var out;
      fits, out := StripeLoop(buff, off, end, left0, left1, chunk, batch);
      if !fits {
        return;
      }
      StoreConcat(bytes, batch, cuts, more);
      StoreLengths(batch, more);
      stored := Append(stored, out);
      bytes, batches := bytes + batch, batches + [|batch|];
    }
  }

  /** These stripes were appended to the data extents. */
  predicate Wrote(before: Stored, after: Stored, cuts: Cuts) {
    |after.data0| == |before.data0| + Sum0(cuts) && |after.data1| == |before.data1| + Sum1(cuts)
  }
}
