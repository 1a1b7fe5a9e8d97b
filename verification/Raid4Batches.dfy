/**
 A split is written in batches, one each time the transfer buffer has been
 filled. The extents hold the layout of the split for every content exactly when
 every batch but the last ends on a stripe boundary of the split.
 */
module Raid4Batches {
  import opened Basics
  import opened Raid4Stripes

  function Concat(c: Cuts, d: Cuts): Cuts {
    match c
    case End => d
    case Next(a, b, more) => Next(a, b, Concat(more, d))
  }

  lemma {:induction false} ConcatCovers(c: Cuts, m: nat, d: Cuts, n: nat)
    requires Covers(c, m) && Covers(d, n)
    ensures Covers(Concat(c, d), m + n)
  {
    if c.Next? {
      ConcatCovers(c.more, m - c.a - c.b, d, n);
    }
  }

  /** The stripes that a whole split is cut in, batch after batch. */
  function SplitCuts(batches: seq<nat>, left0: nat, left1: nat, chunk: nat): Cuts
    requires chunk > 0 && Fits(Total(batches), left0, left1)
  {
    if batches == [] then End else
      var c := LoopCuts(batches[0], left0, left1, chunk);
      Concat(c, SplitCuts(batches[1..], left0 - Sum0(c), left1 - Sum1(c), chunk))
  }

  lemma {:induction false} SplitCovers(batches: seq<nat>, left0: nat, left1: nat, chunk: nat)
    requires chunk > 0 && Fits(Total(batches), left0, left1)
    ensures Covers(SplitCuts(batches, left0, left1, chunk), Total(batches))
    decreases |batches|
  {
    hide SplitCuts, LoopCuts, Covers, Fits;
    if batches == [] {
      EmptySplit(batches, left0, left1, chunk);
    } else {
      var c := SplitStep(batches, left0, left1, chunk);
      SplitCovers(batches[1..], left0 - Sum0(c), left1 - Sum1(c), chunk);
      ConcatCovers(c, batches[0], SplitCuts(batches[1..], left0 - Sum0(c), left1 - Sum1(c), chunk),
        Total(batches[1..]));
    }
  }

  lemma {:induction false} EmptySplit(batches: seq<nat>, left0: nat, left1: nat, chunk: nat)
    requires chunk > 0 && batches == [] && Fits(Total(batches), left0, left1)
    ensures SplitCuts(batches, left0, left1, chunk) == End == Regular(0, chunk)
    ensures Total(batches) == 0 && Covers(End, 0)
  {
  }

  /** Every batch but the last ends on a stripe boundary. */
  predicate AllAligned(batches: seq<nat>, total: nat, chunk: nat)
    requires chunk > 0
  {
    batches == [] ||
    (Aligned(batches[0], total, chunk) && AllAligned(batches[1..], total - batches[0], chunk))
  }

  /** Whole stripes come first in the layout of a longer split. */
  lemma {:induction false} RegularConcat(n: nat, m: nat, total: nat, chunk: nat)
    requires chunk > 0 && WholeStripes(n, chunk) && total == n + m
    ensures Concat(Regular(n, chunk), Regular(m, chunk)) == Regular(total, chunk)
  {
    if n != 0 {
      RegularConcat(n - 2 * chunk, m, total - 2 * chunk, chunk);
      RegularWhole(n, n - 2 * chunk, chunk);
      RegularWhole(total, total - 2 * chunk, chunk);
    }
  }

  /** Whole stripes give as much to both data extents. */
  lemma {:induction false} WholeStripesHalves(n: nat, chunk: nat) returns (half: nat)
    requires chunk > 0 && WholeStripes(n, chunk)
    ensures n == 2 * half && Sum0(Regular(n, chunk)) == Sum1(Regular(n, chunk)) == half
  {
    half := 0;
    if n != 0 {
      half := WholeStripesHalves(n - 2 * chunk, chunk);
      half := half + chunk;
    }
  }

  lemma {:induction false} ConcatEnd(c: Cuts)
    ensures Concat(c, End) == c
  {
    if c.Next? {
      ConcatEnd(c.more);
    }
  }

  lemma {:induction false} SplitStep(batches: seq<nat>, left0: nat, left1: nat, chunk: nat) returns (c: Cuts)
    requires chunk > 0 && Fits(Total(batches), left0, left1) && batches != []
    ensures c == LoopCuts(batches[0], left0, left1, chunk)
    ensures Sum0(c) <= left0 && Sum1(c) <= left1 && Sum0(c) + Sum1(c) == batches[0] && Covers(c, batches[0])
    ensures Total(batches) == batches[0] + Total(batches[1..])
    ensures Fits(Total(batches[1..]), left0 - Sum0(c), left1 - Sum1(c))
    ensures SplitCuts(batches, left0, left1, chunk)
         == Concat(c, SplitCuts(batches[1..], left0 - Sum0(c), left1 - Sum1(c), chunk))
  {
    c := LoopCuts(batches[0], left0, left1, chunk);
  }

  /** A batch that ends the split is cut in the layout of the split. */
  lemma {:induction false} LastBatch(batches: seq<nat>, left0: nat, left1: nat, total: nat, chunk: nat)
    requires chunk > 0 && left1 <= left0 <= left1 + 1 && left0 + left1 == total == Total(batches)
    requires batches != [] && batches[0] == total
    ensures SplitCuts(batches, left0, left1, chunk) == Regular(total, chunk)
  {
    hide SplitCuts, LoopCuts, Regular, WholeStripes;
    var c := SplitStep(batches, left0, left1, chunk);
    AlignedIsRegular(total, left0, left1, chunk);
    EmptyTail(batches[1..], left0 - Sum0(c), left1 - Sum1(c), chunk);
    ConcatEnd(c);
  }

  /** A batch of whole stripes is cut in those stripes and leaves the two data extents level. */
  lemma {:induction false} WholeBatch(batches: seq<nat>, left0: nat, left1: nat, total: nat, chunk: nat)
    returns (half: nat)
    requires chunk > 0 && left1 <= left0 <= left1 + 1 && left0 + left1 == total == Total(batches)
    requires batches != [] && WholeStripes(batches[0], chunk)
    ensures batches[0] == 2 * half && half <= left1 && Fits(Total(batches[1..]), left0 - half, left1 - half)
    ensures SplitCuts(batches, left0, left1, chunk)
         == Concat(Regular(batches[0], chunk), SplitCuts(batches[1..], left0 - half, left1 - half, chunk))
  {
    hide SplitCuts, LoopCuts, Regular, WholeStripes;
    half := WholeStripesHalves(batches[0], chunk);
    AlignedIsRegular(batches[0], left0, left1, chunk);
    var c := SplitStep(batches, left0, left1, chunk);
  }

  /** Batches that all end on stripe boundaries leave the layout of the split. */
  lemma {:induction false} AlignedSplit(batches: seq<nat>, left0: nat, left1: nat, total: nat, chunk: nat)
    requires chunk > 0 && left1 <= left0 <= left1 + 1 && left0 + left1 == total == Total(batches)
    requires AllAligned(batches, total, chunk)
    ensures SplitCuts(batches, left0, left1, chunk) == Regular(total, chunk)
    decreases |batches|
  {
    hide SplitCuts, LoopCuts, Regular, WholeStripes;
    if batches == [] {
      EmptySplit(batches, left0, left1, chunk);
    } else if batches[0] == total {
      LastBatch(batches, left0, left1, total, chunk);
    } else {
      var n := batches[0];
      var half := WholeBatch(batches, left0, left1, total, chunk);
      AlignedSplit(batches[1..], left0 - half, left1 - half, total - n, chunk);
      RegularConcat(n, total - n, total, chunk);
    }
  }

  lemma {:induction false} EmptyTail(batches: seq<nat>, left0: nat, left1: nat, chunk: nat)
    requires chunk > 0 && Total(batches) == 0 && Fits(0, left0, left1)
    ensures SplitCuts(batches, left0, left1, chunk) == End
  {
    if batches != [] {
      EmptyTail(batches[1..], left0, left1, chunk);
    }
  }

  // ---------------------------------------------------------------- misaligned batches

  /** After the same stripes, `c` has a short stripe that misses bytes of extent 1 which `r` puts in that stripe. */
  predicate Diverges(c: Cuts, r: Cuts) {
    && c.Next? && r.Next?
    && ((c.b < c.a <= r.a && c.b < r.b) || (c.a == r.a && c.b == r.b && Diverges(c.more, r.more)))
  }

  lemma {:induction false} DivergesAfter(prefix: Cuts, c: Cuts, r: Cuts)
    requires Diverges(c, r)
    ensures Diverges(Concat(prefix, c), Concat(prefix, r))
  {
    if prefix.Next? {
      DivergesAfter(prefix.more, c, r);
    }
  }

  lemma {:induction false} MisalignedStripe(n: nat, left0: nat, left1: nat, total: nat, chunk: nat)
    requires chunk > 0 && left1 <= left0 <= left1 + 1 && left0 + left1 == total && 0 < n < total && n < 2 * chunk
    ensures var a, b := Take0(n, left0, chunk), Take1(n, left0, left1, chunk);
      var r := Regular(total, chunk);
      b < a <= r.a && b < r.b
  {
  }

  /** A batch that ends inside a stripe, before the end of the split, diverges from the layout there. */
  lemma {:induction false} MisalignedBatch(n: nat, left0: nat, left1: nat, total: nat, chunk: nat, rest: Cuts)
    requires chunk > 0 && left1 <= left0 <= left1 + 1 && left0 + left1 == total
    requires n < total && !WholeStripes(n, chunk)
    ensures Diverges(Concat(LoopCuts(n, left0, left1, chunk), rest), Regular(total, chunk))
    decreases n
  {
    hide LoopCuts, Regular, Take0, Take1;
    var a, b := LoopStep(n, left0, left1, chunk);
    if n < 2 * chunk {
      MisalignedStripe(n, left0, left1, total, chunk);
      return;
    }
    WholeTake(n, left0, left1, chunk);
    MisalignedBatch(n - 2 * chunk, left0 - chunk, left1 - chunk, total - 2 * chunk, chunk, rest);
    RegularWhole(total, total - 2 * chunk, chunk);
  }

  lemma {:induction false} NothingIsAligned(batches: seq<nat>, chunk: nat)
    requires chunk > 0 && Total(batches) == 0
    ensures AllAligned(batches, 0, chunk)
  {
    if batches != [] {
      NothingIsAligned(batches[1..], chunk);
    }
  }

  /** One misaligned batch makes the split diverge from its layout. */
  lemma {:induction false} MisalignedSplit(batches: seq<nat>, left0: nat, left1: nat, total: nat, chunk: nat)
    requires chunk > 0 && left1 <= left0 <= left1 + 1 && left0 + left1 == total == Total(batches)
    requires !AllAligned(batches, total, chunk)
    ensures Diverges(SplitCuts(batches, left0, left1, chunk), Regular(total, chunk))
    decreases |batches|
  {
    hide SplitCuts, LoopCuts, Regular, WholeStripes, Diverges;
    var n := batches[0];
    if Aligned(n, total, chunk) {
      if n == total { NothingIsAligned(batches[1..], chunk); }
      var half := WholeBatch(batches, left0, left1, total, chunk);
      MisalignedSplit(batches[1..], left0 - half, left1 - half, total - n, chunk);
      RegularConcat(n, total - n, total, chunk);
      DivergesAfter(Regular(n, chunk), SplitCuts(batches[1..], left0 - half, left1 - half, chunk),
        Regular(total - n, chunk));
    } else {
      var c := SplitStep(batches, left0, left1, chunk);
      MisalignedBatch(n, left0, left1, total, chunk, SplitCuts(batches[1..], left0 - Sum0(c), left1 - Sum1(c), chunk));
    }
  }

  /** Some content of the split is then stored with a wrong parity. */
  lemma {:induction false} DivergingContent(c: Cuts, r: Cuts, n: nat) returns (x: seq<Byte>)
    requires Diverges(c, r) && Covers(c, n) && Covers(r, n)
    ensures |x| == n && Store(x, c).parity != Store(x, r).parity
  {
    if c.b < c.a <= r.a && c.b < r.b {
      x := seq(n, k => if k == r.a + c.b then 1 else 0);
      assert Store(x, c).parity[c.b] == 0;
      assert Store(x, r).parity[c.b] == 1;
    } else {
      var x' := DivergingContent(c.more, r.more, n - c.a - c.b);
      x := seq(c.a + c.b, _ => 0) + x';
      assert x[c.a + c.b..] == x';
      SamePrefix(ParityChunk(x[..c.a], x[c.a..c.a + c.b]), Store(x', c.more).parity, Store(x', r.more).parity);
    }
  }

  lemma {:induction false} SamePrefix(p: seq<Byte>, s: seq<Byte>, t: seq<Byte>)
    requires s != t
    ensures p + s != p + t
  {
    assert (p + s)[|p|..] == s && (p + t)[|p|..] == t;
  }

  /** The extents of the split `x` written in `batches`. */
  function Written(x: seq<Byte>, batches: seq<nat>, chunk: nat): Stored
    requires chunk > 0 && Total(batches) == |x|
  {
    SplitCovers(batches, |x| - |x| / 2, |x| / 2, chunk);
    Store(x, SplitCuts(batches, |x| - |x| / 2, |x| / 2, chunk))
  }

  /** A misaligned batch stores some content of the split with a wrong parity. */
  lemma {:induction false} MisalignedContent(batches: seq<nat>, chunk: nat) returns (x: seq<Byte>)
    requires chunk > 0 && !AllAligned(batches, Total(batches), chunk)
    ensures |x| == Total(batches) && Written(x, batches, chunk).parity != Striped(x, chunk).parity
  {
    hide SplitCuts, Regular, Store, AllAligned, Diverges;
    var total := Total(batches);
    MisalignedSplit(batches, total - total / 2, total / 2, total, chunk);
    SplitCovers(batches, total - total / 2, total / 2, chunk);
    x := DivergingContent(SplitCuts(batches, total - total / 2, total / 2, chunk), Regular(total, chunk), total);
  }

  /**
   Every content of the split is stored in its layout if and only if every batch but the last ends on a stripe boundary.
   */
  lemma {:induction false} StripedIffAligned(batches: seq<nat>, chunk: nat)
    requires chunk > 0
    ensures (forall x: seq<Byte> :: |x| == Total(batches) ==> Written(x, batches, chunk) == Striped(x, chunk))
       <==> AllAligned(batches, Total(batches), chunk)
  {
    hide SplitCuts, Regular, Store, AllAligned;
    var total := Total(batches);
    if AllAligned(batches, total, chunk) {
      AlignedSplit(batches, total - total / 2, total / 2, total, chunk);
    } else {
      var x := MisalignedContent(batches, chunk);
    }
  }
}
