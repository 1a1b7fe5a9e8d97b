/**
 Rebuilding a lost extent from the two others: it comes back byte for byte for
 every content of the split, whichever extent is lost, exactly when the split was
 written in aligned batches.
 */
module Raid4Rebuild {
  import opened Basics
  import opened Raid4Stripes
  import opened Raid4Batches
  import opened Raid4Read
  import opened Raid4Split
  import opened Raid4Recovery
  import opened Arithmetic

  /** One of the three extents: data 0, data 1 or parity. */
  function ExtentBytes(s: Stored, k: nat): seq<Byte>
    requires k < 3
  {
    if k == 0 then s.data0 else if k == 1 then s.data1 else s.parity
  }

  /** The two extents that remain when extent `k` is lost. */
  function Without(k: nat): Pair
    requires k < 3
  {
    if k == 0 then Data1Parity else if k == 1 then Data0Parity else Data01
  }

  /**
   The stripes that the rebuilder makes of a batch. It has one I/O descriptor, the one of the extent `k` being
   rebuilt, and takes what that extent has received as what both data extents have received. None stands for a
   loop that would go on with a wrapped or an exhausted size.
   */
  function RebuildCuts(k: nat, n: nat, left0: int, left1: int, chunk: nat): (r: Option<Cuts>)
    requires k < 3 && chunk > 0
    ensures r.Some? ==> Covers(r.value, n)
    decreases n
  {
    if n == 0 then Some(End)
    else if left0 < 0 || left1 < 0 || left0 + left1 == 0 then None
    else
      var a, b := Take0(n, left0, chunk), Take1(n, left0, left1, chunk);
      var got := if k == 1 then b else a;
      var more := RebuildCuts(k, n - (a + b), left0 - got, left1 - got, chunk);
      if more.None? then None else Some(Next(a, b, more.value))
  }

  /** The bytes written to the extent `k` rebuilt from the split `x`, batch after batch. */
  function RebuildBatches(k: nat, x: seq<Byte>, batches: seq<nat>, left0: int, left1: int,
                          chunk: nat): Option<seq<Byte>>
    requires k < 3 && chunk > 0 && Total(batches) == |x|
    decreases |batches|
  {
    if batches == [] then Some([]) else
      match RebuildCuts(k, batches[0], left0, left1, chunk)
      case None => None
      case Some(cuts) =>
        var out := ExtentBytes(Store(x[..batches[0]], cuts), k);
        Prepend(out, RebuildBatches(k, x[batches[0]..], batches[1..], left0 - |out|, left1 - |out|, chunk))
  }

  lemma {:induction false} RebuildIsRegular(k: nat, n: nat, left0: nat, left1: nat, chunk: nat)
    requires k < 3 && chunk > 0 && left1 <= left0 <= left1 + 1 && Aligned(n, left0 + left1, chunk)
    ensures RebuildCuts(k, n, left0, left1, chunk) == Some(Regular(n, chunk))
    decreases n
  {
    hide RebuildCuts;
    if n == 0 {
      RebuildCutsEnd(k, left0, left1, chunk);
    } else {
      var a, b := RebuildTakes(k, n, left0, left1, chunk);
      if n < 2 * chunk {
        var got := if k == 1 then b else a;
        RebuildCutsEnd(k, left0 - got, left1 - got, chunk);
      } else {
        WholeTake(n, left0, left1, chunk);
        RebuildIsRegular(k, n - 2 * chunk, left0 - chunk, left1 - chunk, chunk);
      }
    }
  }

  lemma {:induction false} RebuildCutsEnd(k: nat, left0: int, left1: int, chunk: nat)
    requires k < 3 && chunk > 0
    ensures RebuildCuts(k, 0, left0, left1, chunk) == Some(End)
  {
  }

  lemma {:induction false} RebuildStep(k: nat, x: seq<Byte>, batches: seq<nat>, left0: nat, left1: nat, chunk: nat,
                                       out: seq<Byte>, more: seq<Byte>)
    requires k < 3 && chunk > 0 && Total(batches) == |x| == left0 + left1 && left1 <= left0 <= left1 + 1
    requires batches != [] && Aligned(batches[0], |x|, chunk)
    requires out == ExtentBytes(Striped(x[..batches[0]], chunk), k)
    requires RebuildBatches(k, x[batches[0]..], batches[1..], left0 - |out|, left1 - |out|, chunk) == Some(more)
    ensures RebuildBatches(k, x, batches, left0, left1, chunk) == Some(out + more)
  {
    hide RebuildCuts, Regular, Store, WholeStripes;
    RebuildIsRegular(k, batches[0], left0, left1, chunk);
  }

  /** A rebuild in aligned batches writes the extent that the layout gives to the split. */
  lemma {:induction false} RebuildAligned(k: nat, x: seq<Byte>, batches: seq<nat>, left0: nat, left1: nat, chunk: nat)
    requires k < 3 && chunk > 0 && Total(batches) == |x| == left0 + left1 && left1 <= left0 <= left1 + 1
    requires AllAligned(batches, |x|, chunk)
    ensures RebuildBatches(k, x, batches, left0, left1, chunk) == Some(ExtentBytes(Striped(x, chunk), k))
    decreases |batches|
  {
    hide Striped, RebuildBatches, WholeStripes;
    if batches == [] {
      StripedNothing(chunk);
      RebuildNothing(k, x, batches, left0, left1, chunk);
    } else {
      var n := batches[0];
      var y, z := x[..n], x[n..];
      var out, more := ExtentBytes(Striped(y, chunk), k), ExtentBytes(Striped(z, chunk), k);
      if n == |x| {
        assert y == x && z == [];
        StripedNothing(chunk);
        RebuildNothing(k, z, batches[1..], left0 - |out|, left1 - |out|, chunk);
        assert out + more == out;
      } else {
        assert x == y + z;
        StripedPrefix(y, z, chunk);
        StripedLengths(y, chunk);
        var half := WholeStripesHalves(n, chunk);
        RebuildAligned(k, z, batches[1..], left0 - half, left1 - half, chunk);
      }
      RebuildStep(k, x, batches, left0, left1, chunk, out, more);
    }
  }

  lemma {:induction false} StripedNothing(chunk: nat)
    requires chunk > 0
    ensures Striped([], chunk) == Empty
  {
  }

  lemma {:induction false} RebuildNothing(k: nat, x: seq<Byte>, batches: seq<nat>, left0: int, left1: int, chunk: nat)
    requires k < 3 && chunk > 0 && x == [] && Total(batches) == 0
    ensures RebuildBatches(k, x, batches, left0, left1, chunk) == Some([])
    decreases |batches|
  {
    if batches != [] {
      var none: seq<Byte> := [];
      assert x[..0] == [] && x[0..] == [] && none + none == none;
      RebuildNothing(k, x, batches[1..], left0, left1, chunk);
    }
  }

  /**
   Losing any one extent of a split written in aligned batches, reading the split from the two others and
   rebuilding the lost one, in aligned batches too, gives back the bytes of the lost extent.
   */
  lemma {:induction false} RebuildRestores(k: nat, x: seq<Byte>, written: seq<nat>, rebuilt: seq<nat>, chunk: nat)
    requires k < 3 && chunk > 0 && Total(written) == Total(rebuilt) == |x|
    requires AllAligned(written, |x|, chunk) && AllAligned(rebuilt, |x|, chunk)
    ensures var s := Written(x, written, chunk);
      && ReadSplit(Without(k), s, rebuilt, chunk) == Some(x)
      && RebuildBatches(k, x, rebuilt, |x| - |x| / 2, |x| / 2, chunk) == Some(ExtentBytes(s, k))
  {
    hide Written, Striped, ReadSplit, AllAligned, RebuildBatches;
    StripedIffAligned(written, chunk);
    ReadAligned(Without(k), x, rebuilt, chunk);
    RebuildAligned(k, x, rebuilt, |x| - |x| / 2, |x| / 2, chunk);
  }

  // ---------------------------------------------------------------- the loop in the buffer

  /** The I/O descriptor has no room left, or more was written than the size it is compared with. */
  predicate Stuck(left0: int, left1: int) {
    left0 < 0 || left1 < 0 || left0 + left1 == 0
  }

  /**
   What the rebuild loop writes for `batch`, with `room` bytes of buffer from its start on. Only a parity extent needs
   room after the batch.
   */
  function LoopRebuilds(k: nat, batch: seq<Byte>, left0: int, left1: int, chunk: nat, room: nat): Option<seq<Byte>>
    requires k < 3 && chunk > 0
  {
    var cuts := RebuildCuts(k, |batch|, left0, left1, chunk);
    if cuts.None? || (k == 2 && Reach(cuts.value) > room) then None else Some(ExtentBytes(Store(batch, cuts.value), k))
  }

  lemma {:induction false} LoopRebuildsStep(k: nat, rest: seq<Byte>, left0: int, left1: int, chunk: nat, room: nat)
    returns (a: nat, b: nat)
    requires k < 3 && chunk > 0 && 0 < |rest| <= room && left1 <= left0 <= left1 + 1 && !Stuck(left0, left1)
    ensures a == Min(Min(|rest|, left0), chunk) && b == Min(Min(|rest| - a, left1), chunk) && 0 < a + b <= |rest|
    ensures b < a && a + b < |rest| ==> a == left0 && b == left1
    ensures k == 2 && 2 * a > room ==> LoopRebuilds(k, rest, left0, left1, chunk, room) == None
    ensures k < 2 || 2 * a <= room ==>
      var bytes := ExtentBytes(Stripe(rest, a, b), k);
      LoopRebuilds(k, rest, left0, left1, chunk, room) ==
        Prepend(bytes, LoopRebuilds(k, rest[a + b..], left0 - |bytes|, left1 - |bytes|, chunk, room - (a + b)))
  {
    hide Store, Reach, RebuildCuts, Append, Stripe;
    a, b := RebuildTakes(k, |rest|, left0, left1, chunk);
    var bytes := ExtentBytes(Stripe(rest, a, b), k);
    StripeSizes(rest, a, b, k);
    var after := rest[a + b..];
    var more := RebuildCuts(k, |after|, left0 - |bytes|, left1 - |bytes|, chunk);
    if more.Some? {
      ReachStep(a, b, more.value);
      StoreNext(rest, a, b, more.value, k);
    }
  }

  lemma {:induction false} RebuildTakes(k: nat, n: nat, left0: int, left1: int, chunk: nat) returns (a: nat, b: nat)
    requires k < 3 && chunk > 0 && 0 < n && left1 <= left0 <= left1 + 1 && !Stuck(left0, left1)
    ensures a == Min(Min(n, left0), chunk) && b == Min(Min(n - a, left1), chunk) && 0 < a + b <= n
    ensures b < a && a + b < n ==> a == left0 && b == left1
    ensures var got := if k == 1 then b else a;
      var more := RebuildCuts(k, n - (a + b), left0 - got, left1 - got, chunk);
      RebuildCuts(k, n, left0, left1, chunk) == if more.None? then None else Some(Next(a, b, more.value))
  {
    hide RebuildCuts;
    TakesAre(n, left0, left1, chunk);
    a, b := Take0(n, left0, chunk), Take1(n, left0, left1, chunk);
    CutsNext(k, n, left0, left1, chunk, a, b);
  }

  lemma {:induction false} CutsNext(k: nat, n: nat, left0: int, left1: int, chunk: nat, a: nat, b: nat)
    requires k < 3 && chunk > 0 && 0 < n && !Stuck(left0, left1) && a + b <= n
    requires a == Take0(n, left0, chunk) && b == Take1(n, left0, left1, chunk)
    ensures var got := if k == 1 then b else a;
      var more := RebuildCuts(k, n - (a + b), left0 - got, left1 - got, chunk);
      RebuildCuts(k, n, left0, left1, chunk) == if more.None? then None else Some(Next(a, b, more.value))
  {
    hide Take0, Take1;
  }

  lemma {:induction false} TakesAre(n: nat, left0: nat, left1: nat, chunk: nat)
    requires chunk > 0 && n > 0 && left1 <= left0 <= left1 + 1 && left0 + left1 > 0
    ensures var a, b := Take0(n, left0, chunk), Take1(n, left0, left1, chunk);
      && a == Min(Min(n, left0), chunk) && b == Min(Min(n - a, left1), chunk) && 0 < a + b <= n
      && (b < a && a + b < n ==> a == left0 && b == left1)
  {
  }

  lemma {:induction false} StripeSizes(x: seq<Byte>, a: nat, b: nat, k: nat)
    requires a + b <= |x| && k < 3
    ensures |ExtentBytes(Stripe(x, a, b), k)| == if k == 1 then b else a
  {
  }

  lemma {:induction false} ReachStep(a: nat, b: nat, more: Cuts)
    ensures Reach(Next(a, b, more)) == if a + b + Reach(more) <= 2 * a then 2 * a else a + b + Reach(more)
  {
  }

  lemma {:induction false} StoreNext(x: seq<Byte>, a: nat, b: nat, more: Cuts, k: nat)
    requires a + b <= |x| && Covers(more, |x[a + b..]|) && k < 3
    ensures Covers(Next(a, b, more), |x|)
    ensures ExtentBytes(Store(x, Next(a, b, more)), k) ==
      ExtentBytes(Stripe(x, a, b), k) + ExtentBytes(Store(x[a + b..], more), k)
  {
  }

  /** The chunk of the extent `k` for a stripe at `pos`, the parity being computed in place. */
  method RebuildChunk(buff: array<Byte>, pos: nat, end: nat, k: nat, a: nat, b: nat, ghost rest: seq<Byte>)
    returns (fits: bool, bytes: seq<Byte>)
    requires k < 3 && pos + a + b <= end <= buff.Length && buff[pos..end] == rest
    modifies buff
    ensures fits <==> k < 2 || pos + 2 * a <= buff.Length
    ensures fits ==> bytes == ExtentBytes(Stripe(rest, a, b), k)
    ensures k < 2 || a <= b || pos + a + b == end ==> buff[pos + (a + b)..end] == rest[a + b..]
    ensures forall i :: 0 <= i < pos ==> buff[i] == old(buff[i])
  {
    fits := true;
    var chunk0, chunk1 := buff[pos..pos + a], buff[pos + a..pos + a + b];
    StripeSlices(buff[..], rest, pos, end, a, b);
    match k {
      case 0 => bytes := chunk0;
      case 1 => bytes := chunk1;
      case _ =>
        ghost var before := buff[..];
        fits := ParityInPlace(buff, pos, a, b, chunk0, chunk1);
        bytes := if fits then buff[pos + a..pos + 2 * a] else [];
        if a <= b || pos + a + b == end {
          SameSlice(before, buff[..], pos + a + b, end);
        }
    }
  }

  lemma {:induction false} StripeSlices(s: seq<Byte>, rest: seq<Byte>, pos: nat, end: nat, a: nat, b: nat)
    requires pos + a + b <= end <= |s| && s[pos..end] == rest
    ensures s[pos..pos + a] == rest[..a] && s[pos + a..pos + a + b] == rest[a..a + b]
    ensures s[pos + (a + b)..end] == rest[a + b..]
  {
    assert forall i :: 0 <= i < |rest| ==> rest[i] == s[pos + i];
  }

  lemma {:induction false} SameSlice(before: seq<Byte>, s: seq<Byte>, lo: nat, hi: nat)
    requires lo <= hi <= |s| == |before| && forall i :: lo <= i < hi ==> s[i] == before[i]
    ensures s[lo..hi] == before[lo..hi]
  {
  }

  /**
   The rebuild loop over `batch`, buffered from `off` to `end`: what it writes to the extent `k`, or None if it would go
   on with a wrapped or an exhausted size or past the end of the buffer.
   */
  method RebuildLoop(buff: array<Byte>, off: nat, end: nat, k: nat, size0: int, size1: int, chunk: nat,
                     ghost batch: seq<Byte>)
    returns (out: Option<seq<Byte>>)
    requires k < 3 && chunk > 0 && off <= end <= buff.Length && buff[off..end] == batch && size1 <= size0 <= size1 + 1
    modifies buff
    ensures out == LoopRebuilds(k, batch, size0, size1, chunk, buff.Length - off)
  {
    hide LoopRebuilds, Stripe;
    var pos, left0, left1, bytes := off, size0, size1, [];
    ghost var rest, all := batch, LoopRebuilds(k, batch, size0, size1, chunk, buff.Length - off);
    PrependNothing(all);
    while pos < end
      invariant off <= pos <= end && |rest| == end - pos && left1 <= left0 <= left1 + 1
      invariant Stuck(left0, left1) || buff[pos..end] == rest
      invariant all == Prepend(bytes, LoopRebuilds(k, rest, left0, left1, chunk, buff.Length - pos))
    {
      if Stuck(left0, left1) {
        StuckIsNone(k, rest, left0, left1, chunk, buff.Length - pos);
        return None;
      }
      ghost var a', b' := LoopRebuildsStep(k, rest, left0, left1, chunk, buff.Length - pos);
      var a := Min(Min(end - pos, left0), chunk);
      var b := Min(Min(end - pos - a, left1), chunk);
      var fits, more := RebuildChunk(buff, pos, end, k, a, b, rest);
      if !fits {
        return None;
      }
      StripeSizes(rest, a, b, k);
      PrependTwice(bytes, more, LoopRebuilds(k, rest[a + b..], left0 - |more|, left1 - |more|, chunk,
                                             buff.Length - pos - (a + b)));
      rest := rest[a + b..];
      bytes, pos, left0, left1 := bytes + more, pos + (a + b), left0 - |more|, left1 - |more|;
    }
    NothingRebuilt(k, rest, left0, left1, chunk, buff.Length - pos);
    assert bytes + [] == bytes;
    out := Some(bytes);
  }

  lemma {:induction false} PrependNothing(all: Option<seq<Byte>>)
    ensures all == Prepend([], all)
  {
    if all.Some? {
      assert [] + all.value == all.value;
    }
  }

  lemma {:induction false} PrependTwice(x: seq<Byte>, y: seq<Byte>, more: Option<seq<Byte>>)
    ensures Prepend(x, Prepend(y, more)) == Prepend(x + y, more)
  {
    if more.Some? {
      Associative(x, y, more.value);
    }
  }

  lemma {:induction false} StuckIsNone(k: nat, rest: seq<Byte>, left0: int, left1: int, chunk: nat, room: nat)
    requires k < 3 && chunk > 0 && rest != [] && Stuck(left0, left1)
    ensures LoopRebuilds(k, rest, left0, left1, chunk, room) == None
  {
  }

  lemma {:induction false} NothingRebuilt(k: nat, rest: seq<Byte>, left0: int, left1: int, chunk: nat, room: nat)
    requires k < 3 && chunk > 0 && rest == []
    ensures LoopRebuilds(k, rest, left0, left1, chunk, room) == Some([])
  {
  }

  // ---------------------------------------------------------------- after a misaligned write

  /** Storing what was read from two data extents gives these extents back, with the parity of what they hold. */
  lemma {:induction false} StoreFetched(f: seq<Byte>, g: seq<Byte>, c: Cuts)
    requires Even(c) && |f| == Sum0(c) && |g| == Sum1(c)
    ensures var y := Fetch(Data01, f, g, c);
      Covers(c, |y|) && Store(y, c) == Stored(f, g, ParityChunk(f, g))
    decreases c
  {
    if c.Next? {
      var a, b := c.a, c.b;
      var rest := Fetch(Data01, f[a..], g[b..], c.more);
      StoreFetched(f[a..], g[b..], c.more);
      ParityJoins(f, g, a, b);
      assert f == f[..a] + f[a..] && g == g[..b] + g[b..];
      StoreJoined(f[..a], g[..b], rest, c);
    }
  }

  lemma {:induction false} StoreJoined(d: seq<Byte>, e: seq<Byte>, rest: seq<Byte>, c: Cuts)
    requires c.Next? && |d| == c.a && |e| == c.b && Covers(c.more, |rest|)
    ensures Covers(c, |(d + e) + rest|)
    ensures Store((d + e) + rest, c) == Append(Stored(d, e, ParityChunk(d, e)), Store(rest, c.more))
  {
    var y, a, m := (d + e) + rest, c.a, c.a + c.b;
    assert y[..a] == d && y[a..m] == e && y[m..] == rest;
  }

  lemma {:induction false} ParityJoins(f: seq<Byte>, g: seq<Byte>, a: nat, b: nat)
    requires a <= |f| && b <= |g| && (a == b || (a == |f| && b == |g|))
    ensures ParityChunk(f, g) == ParityChunk(f[..a], g[..b]) + ParityChunk(f[a..], g[b..])
  {
  }

  /** Every byte of extent 1 is one when the split is made of ones. */
  lemma {:induction false} OnesStored(x: seq<Byte>, c: Cuts)
    requires Covers(c, |x|) && forall k :: 0 <= k < |x| ==> x[k] == 1
    ensures |Store(x, c).data1| == Sum1(c) && forall k :: 0 <= k < Sum1(c) ==> Store(x, c).data1[k] == 1
    decreases c
  {
    if c.Next? {
      OnesStored(x[c.a + c.b..], c.more);
    }
  }

  /** The stored parity is not the parity of the stored data. */
  predicate WrongParity(s: Stored) {
    s.parity != ParityChunk(s.data0, s.data1)
  }

  /**
   Zeros up to the end of a stripe that is short on extent 1, then ones: the next byte of extent 1 is not in the parity.
   */
  lemma {:induction false} ShortStripe(c: Cuts, n: nat) returns (x: seq<Byte>)
    requires c.Next? && Covers(c, n) && c.b < c.a && Sum1(c.more) > 0
    ensures |x| == n && WrongParity(Store(x, c))
  {
    var m, b := c.a + c.b, c.b;
    x := seq(n, k => if k < m then 0 else 1);
    OnesStored(x[m..], c.more);
    var s := Store(x, c);
    assert s.parity[b] == ParityChunk(x[..c.a], x[c.a..m])[b] == 0;
    assert s.data0[b] == 0 && s.data1[b] == Store(x[m..], c.more).data1[0] == 1;
    assert ParityChunk(s.data0, s.data1)[b] == 1;
  }

  lemma {:induction false} WrongAfter(x: seq<Byte>, y: seq<Byte>, c: Cuts)
    requires c.Next? && c.a == c.b && |x| == c.a + c.b && Covers(c.more, |y|) && WrongParity(Store(y, c.more))
    ensures Covers(c, |x + y|) && WrongParity(Store(x + y, c))
  {
    var a, s, t := c.a, Store(x + y, c), Store(y, c.more);
    assert (x + y)[a + a..] == y;
    var p := ParityChunk((x + y)[..a], (x + y)[a..a + a]);
    ParityJoins(s.data0, s.data1, a, a);
    assert s.data0[..a] == (x + y)[..a] && s.data0[a..] == t.data0;
    assert s.data1[..a] == (x + y)[a..a + a] && s.data1[a..] == t.data1;
    SamePrefix(p, t.parity, ParityChunk(t.data0, t.data1));
  }

  /** Cuts that diverge from even ones store some content with a parity that is not the one of its data. */
  lemma {:induction false} DivergingParity(c: Cuts, r: Cuts, n: nat) returns (x: seq<Byte>)
    requires Diverges(c, r) && Even(r) && Covers(c, n) && Sum1(c) == Sum1(r)
    ensures |x| == n && WrongParity(Store(x, c))
    decreases c
  {
    if c.b < c.a <= r.a && c.b < r.b {
      x := ShortStripe(c, n);
    } else {
      var y := DivergingParity(c.more, r.more, n - c.a - c.b);
      var zeros: seq<Byte> := seq(c.a + c.b, _ => 0);
      WrongAfter(zeros, y, c);
      x := zeros + y;
    }
  }

  /** A misaligned batch stores some content with a parity that is not the one of its data. */
  lemma {:induction false} MisalignedParity(batches: seq<nat>, chunk: nat) returns (x: seq<Byte>)
    requires chunk > 0 && !AllAligned(batches, Total(batches), chunk)
    ensures |x| == Total(batches) && WrongParity(Written(x, batches, chunk))
  {
    hide SplitCuts, Regular, Store, AllAligned, Diverges, WrongParity, Even, Sum0, Sum1;
    var total := Total(batches);
    var left0, left1 := total - total / 2, total / 2;
    MisalignedSplit(batches, left0, left1, total, chunk);
    SplitCovers(batches, left0, left1, chunk);
    SplitLeaves(batches, left0, left1, chunk, 0);
    RegularIsEven(total, chunk);
    RegularSums(total, chunk);
    x := DivergingParity(SplitCuts(batches, left0, left1, chunk), Regular(total, chunk), total);
  }

  /** What a rebuild writes for the bytes `y` read in these batches. */
  function RebuiltAll(k: nat, y: Option<seq<Byte>>, batches: seq<nat>, left0: int, left1: int, chunk: nat)
    : Option<seq<Byte>>
    requires k < 3 && chunk > 0
  {
    if y.None? || |y.value| != Total(batches) then None else RebuildBatches(k, y.value, batches, left0, left1, chunk)
  }

  /** What a rebuild of extent `k`, reading and writing in these batches, gives for a split of `n` bytes. */
  function RebuiltFrom(k: nat, s: Stored, n: nat, batches: seq<nat>, chunk: nat): Option<seq<Byte>>
    requires k < 3 && chunk > 0 && Total(batches) == n
  {
    RebuiltAll(k, ReadSplit(Without(k), s, batches, chunk), batches, n - n / 2, n / 2, chunk)
  }

  /** Whatever the extents hold, a rebuild in aligned batches gives the extent of the layout of what was read. */
  lemma {:induction false} RebuiltIs(k: nat, s: Stored, n: nat, batches: seq<nat>, chunk: nat)
    requires k < 3 && chunk > 0 && Total(batches) == n && AllAligned(batches, n, chunk)
    requires |s.data0| == |s.parity| == n - n / 2 && |s.data1| == n / 2
    ensures var f, g, cuts := First(Without(k), s), Second(Without(k), s), Regular(n, chunk);
      && Sum0(cuts) <= |f| && Sum1(cuts) <= |g|
      && RebuiltFrom(k, s, n, batches, chunk) == Some(ExtentBytes(Striped(Fetch(Without(k), f, g, cuts), chunk), k))
  {
    hide Striped, Regular, Fetch, ReadBatches, RebuildBatches, AllAligned, Sum0, Sum1;
    var f, g := First(Without(k), s), Second(Without(k), s);
    ReadAtOnce(Without(k), f, g, n, batches, chunk);
    FetchedLength(Without(k), f, g, n, chunk);
    RebuildAligned(k, Fetch(Without(k), f, g, Regular(n, chunk)), batches, n - n / 2, n / 2, chunk);
  }

  lemma {:induction false} FetchedLength(pair: Pair, f: seq<Byte>, g: seq<Byte>, n: nat, chunk: nat)
    requires chunk > 0 && Sum0(Regular(n, chunk)) <= |f| && Sum1(Regular(n, chunk)) <= |g|
    ensures |Fetch(pair, f, g, Regular(n, chunk))| == n
  {
    hide Regular, Fetch;
    RegularSums(n, chunk);
    FetchLength(pair, f, g, Regular(n, chunk));
  }

  /** With such a parity, every rebuild of the parity extent gives other bytes. */
  lemma {:induction false} WrongParityReplaced(s: Stored, n: nat, batches: seq<nat>, chunk: nat)
    requires chunk > 0 && Total(batches) == n && AllAligned(batches, n, chunk)
    requires |s.data0| == |s.parity| == n - n / 2 && |s.data1| == n / 2 && WrongParity(s)
    ensures RebuiltFrom(2, s, n, batches, chunk) == Some(ParityChunk(s.data0, s.data1)) != Some(s.parity)
  {
    hide Regular, Fetch, RebuiltFrom, Store, Even, AllAligned, Sum0, Sum1;
    RebuiltIs(2, s, n, batches, chunk);
    RegularIsEven(n, chunk);
    RegularSums(n, chunk);
    StoreFetched(s.data0, s.data1, Regular(n, chunk));
    FetchedLength(Data01, s.data0, s.data1, n, chunk);
  }

  /** Whatever the split holds and whichever extent is lost, any rebuild in aligned batches gives it back. */
  ghost predicate RestoresAny(written: seq<nat>, chunk: nat)
    requires chunk > 0
  {
    forall k: nat, x: seq<Byte>, batches | k < 3 && |x| == Total(written) == Total(batches) ::
      AllAligned(batches, |x|, chunk) ==>
        var s := Written(x, written, chunk);
        RebuiltFrom(k, s, |x|, batches, chunk) == Some(ExtentBytes(s, k))
  }

  /**
   A lost extent of a split is always rebuilt byte for byte if and only if the split was written in aligned batches.
   */
  lemma {:induction false} RestoresIffAligned(written: seq<nat>, chunk: nat)
    requires chunk > 0
    ensures RestoresAny(written, chunk) <==> AllAligned(written, Total(written), chunk)
  {
    hide Written, Striped, AllAligned, ReadSplit, RebuildBatches, WrongParity;
    var n := Total(written);
    if AllAligned(written, n, chunk) {
      forall k: nat, x: seq<Byte>, batches | k < 3 && |x| == n == Total(batches) && AllAligned(batches, |x|, chunk)
        ensures RebuiltFrom(k, Written(x, written, chunk), |x|, batches, chunk) ==
          Some(ExtentBytes(Written(x, written, chunk), k))
      {
        RebuildRestores(k, x, written, batches, chunk);
      }
    } else {
      hide RebuiltFrom;
      var x := MisalignedParity(written, chunk);
      WrittenLengths(x, written, chunk);
      OneBatch(n, chunk);
      WrongParityReplaced(Written(x, written, chunk), n, [n], chunk);
    }
  }
}
