/**
 The rebuild of a whole object through a buffer of its own: each split that has
 lost an extent is read from the two others and the lost one is written again.
 */
module Raid4Restore {
  import opened Basics
  import opened Arithmetic
  import opened Raid4Stripes
  import opened Raid4Batches
  import opened Raid4Read
  import opened Raid4Recovery
  import opened Raid4Rebuild
  import opened Raid4Object
  import opened Raid4Transfer

  // ---------------------------------------------------------------- one extent

  /** What is still to come of a rebuild of extent `k`, `left` bytes of the split being still to read at `at`. */
  function RebuiltRest(k: nat, f: seq<Byte>, g: seq<Byte>, at: nat, left: nat, left0: int, left1: int, room: nat,
                       chunk: nat): Option<seq<Byte>>
    requires k < 3 && room > 0 && chunk > 0
  {
    var batches := BufferBatches(at, left, room);
    RebuiltAll(k, ReadBatches(Without(k), f, g, batches, chunk), batches, left0, left1, chunk)
  }

  /** What a rebuild knows between two batches. */
  ghost predicate Rebuilding(at: nat, left: nat, left0: int, left1: int, room: nat, chunk: nat) {
    && room > 0 && chunk > 0 && WholeStripes(room, chunk) && (IsMultiple(at, room) || left == 0)
    && left1 <= left0 <= left1 + 1 && (left > 0 ==> left0 + left1 == left && left1 >= 0)
  }

  /** The next batch is whole stripes or the end of the split: it is cut in the stripes of the layout. */
  lemma {:induction false} NextIsAligned(at: nat, left: nat, left0: int, left1: int, room: nat, chunk: nat, n: nat)
    requires Rebuilding(at, left, left0, left1, room, chunk) && left > 0 && n == Min(left, room)
    ensures 0 < n <= left && n == Min(left, room - at % room) && Aligned(n, left, chunk) && WholeStripes(room, chunk)
    ensures IsMultiple(at + n, room) || n == left
  {
    hide WholeStripes, IsMultiple;
    MultipleOf(at, room, left, n);
  }

  lemma {:induction false} LoopIsLayout(k: nat, z: seq<Byte>, left0: nat, left1: nat, chunk: nat, room: nat)
    requires k < 3 && chunk > 0 && left1 <= left0 <= left1 + 1 && |z| <= room && WholeStripes(room, chunk)
    requires Aligned(|z|, left0 + left1, chunk)
    ensures RebuildCuts(k, |z|, left0, left1, chunk) == Some(Regular(|z|, chunk))
    ensures LoopRebuilds(k, z, left0, left1, chunk, room) == Some(ExtentBytes(Striped(z, chunk), k))
  {
    hide RebuildCuts, Regular, Reach, Store, WholeStripes;
    RebuildIsRegular(k, |z|, left0, left1, chunk);
    RegularReach(|z|, room, chunk);
  }

  lemma {:induction false} RebuildingNext(at: nat, left: nat, left0: nat, left1: nat, room: nat, chunk: nat,
                                          z: seq<Byte>, k: nat)
    requires Rebuilding(at, left, left0, left1, room, chunk) && left > 0 && |z| == Min(left, room) && k < 3
    ensures var out := ExtentBytes(Striped(z, chunk), k);
      Rebuilding(at + |z|, left - |z|, left0 - |out|, left1 - |out|, room, chunk)
  {
    hide Striped, WholeStripes, IsMultiple;
    NextStarts(at, left, left0, left1, room, chunk, |z|);
    if |z| < left {
      WholeHalf(z, chunk, k);
    }
  }

  lemma {:induction false} NextStarts(at: nat, left: nat, left0: int, left1: int, room: nat, chunk: nat, n: nat)
    requires Rebuilding(at, left, left0, left1, room, chunk) && left > 0 && n == Min(left, room)
    ensures 0 < n <= left && (IsMultiple(at + n, room) || n == left) && (n < left ==> WholeStripes(n, chunk))
  {
    hide WholeStripes, IsMultiple;
    MultipleOf(at, room, left, n);
  }

  lemma {:induction false} WholeHalf(z: seq<Byte>, chunk: nat, k: nat)
    requires chunk > 0 && WholeStripes(|z|, chunk) && k < 3
    ensures 2 * |ExtentBytes(Striped(z, chunk), k)| == |z|
  {
    hide Striped, WholeStripes;
    var half := WholeStripesHalves(|z|, chunk);
    StripedLengths(z, chunk);
  }

  lemma {:induction false} RestIsNone(k: nat, f: seq<Byte>, g: seq<Byte>, at: nat, left: nat, left0: int, left1: int,
                                      room: nat, chunk: nat, n: nat)
    requires k < 3 && room > 0 && chunk > 0 && left > 0 && n == Min(left, room - at % room)
    requires n > 2 * |f| || Sum1(FetchCuts(n, |f|, chunk)) > |g|
    ensures RebuiltRest(k, f, g, at, left, left0, left1, room, chunk) == None
  {
    hide FetchCuts, Fetch, BufferBatches, RebuildBatches;
    BatchStep(at, left, room, n);
  }

  /** One batch of a rebuild, then the rest. */
  lemma {:induction false} RestStep(k: nat, f: seq<Byte>, g: seq<Byte>, at: nat, left: nat, left0: nat, left1: nat,
                                    room: nat, chunk: nat, n: nat)
    requires k < 3 && Rebuilding(at, left, left0, left1, room, chunk) && left > 0 && n == Min(left, room)
    requires n <= 2 * |f| && Sum1(FetchCuts(n, |f|, chunk)) <= |g|
    ensures var cuts := FetchCuts(n, |f|, chunk);
      var z := Fetch(Without(k), f, g, cuts);
      var out := ExtentBytes(Striped(z, chunk), k);
      && |z| == n
      && RebuiltRest(k, f, g, at, left, left0, left1, room, chunk) ==
         Prepend(out, RebuiltRest(k, f[Sum0(cuts)..], g[Sum1(cuts)..], at + n, left - n, left0 - |out|, left1 - |out|,
                                  room, chunk))
  {
    hide FetchCuts, Fetch, BufferBatches, Striped, ReadBatches, RebuiltAll, WholeStripes, Sum0, Sum1;
    NextIsAligned(at, left, left0, left1, room, chunk, n);
    BatchStep(at, left, room, n);
    var cuts := FetchCuts(n, |f|, chunk);
    var z := Fetch(Without(k), f, g, cuts);
    FetchLength(Without(k), f, g, cuts);
    ReadStep(Without(k), f, g, BufferBatches(at, left, room), chunk);
    var rest := BufferBatches(at + n, left - n, room);
    var more := ReadBatches(Without(k), f[Sum0(cuts)..], g[Sum1(cuts)..], rest, chunk);
    ReadLength(Without(k), f[Sum0(cuts)..], g[Sum1(cuts)..], rest, chunk);
    RebuiltStep(k, z, more, BufferBatches(at, left, room), left0, left1, chunk, left);
  }

  lemma {:induction false} ReadStep(pair: Pair, f: seq<Byte>, g: seq<Byte>, batches: seq<nat>, chunk: nat)
    requires chunk > 0 && batches != [] && batches[0] <= 2 * |f| && Sum1(FetchCuts(batches[0], |f|, chunk)) <= |g|
    ensures var cuts := FetchCuts(batches[0], |f|, chunk);
      ReadBatches(pair, f, g, batches, chunk) ==
        Prepend(Fetch(pair, f, g, cuts), ReadBatches(pair, f[Sum0(cuts)..], g[Sum1(cuts)..], batches[1..], chunk))
  {
    hide FetchCuts, Fetch;
  }

  lemma {:induction false} RebuiltStep(k: nat, z: seq<Byte>, more: Option<seq<Byte>>, batches: seq<nat>, left0: nat,
                                       left1: nat, chunk: nat, left: nat)
    requires k < 3 && chunk > 0 && left1 <= left0 <= left1 + 1 && left0 + left1 == left && Aligned(|z|, left, chunk)
    requires batches != [] && batches[0] == |z| && Total(batches) == left
    ensures var out := ExtentBytes(Striped(z, chunk), k);
      RebuiltAll(k, Prepend(z, more), batches, left0, left1, chunk) ==
        Prepend(out, RebuiltAll(k, more, batches[1..], left0 - |out|, left1 - |out|, chunk))
  {
    hide RebuildCuts, Regular, Store, WholeStripes;
    RebuildIsRegular(k, |z|, left0, left1, chunk);
    if more.Some? {
      var x := z + more.value;
      assert x[..|z|] == z && x[|z|..] == more.value;
    }
  }

  lemma {:induction false} RestStarts(k: nat, s: Stored, n: nat, room: nat, chunk: nat)
    requires k < 3 && room > 0 && chunk > 0 && room % (2 * chunk) == 0
    ensures Rebuilding(0, n, n - n / 2, n / 2, room, chunk)
    ensures RebuiltRest(k, First(Without(k), s), Second(Without(k), s), 0, n, n - n / 2, n / 2, room, chunk) ==
      RebuiltFrom(k, s, n, BufferBatches(0, n, room), chunk)
  {
    hide BufferBatches, ReadBatches, RebuildBatches, WholeStripes;
    WholeStripesIsMultiple(room, chunk);
    DivModUnique(0, room, 0, 0);
  }

  lemma {:induction false} RestEnds(k: nat, f: seq<Byte>, g: seq<Byte>, at: nat, left0: int, left1: int, room: nat,
                                    chunk: nat)
    requires k < 3 && room > 0 && chunk > 0
    ensures RebuiltRest(k, f, g, at, 0, left0, left1, room, chunk) == Some([])
  {
  }

  /** Reads the next `n` bytes of the split and writes what they make of the extent `k`. */
  method RebuildBatch(buff: array<Byte>, k: nat, f: seq<Byte>, g: seq<Byte>, n: nat, left0: nat, left1: nat, chunk: nat)
    returns (out: Option<seq<Byte>>, f1: seq<Byte>, g1: seq<Byte>)
    requires k < 3 && chunk > 0 && n <= buff.Length && buff.Length % (2 * chunk) == 0
    requires left1 <= left0 <= left1 + 1 && Aligned(n, left0 + left1, chunk)
    modifies buff
    ensures out.Some? <==> n <= 2 * |f| && Sum1(FetchCuts(n, |f|, chunk)) <= |g|
    ensures out.Some? ==> var cuts := FetchCuts(n, |f|, chunk);
      && out.value == ExtentBytes(Striped(Fetch(Without(k), f, g, cuts), chunk), k)
      && f1 == f[Sum0(cuts)..] && g1 == g[Sum1(cuts)..]
  {
    hide FetchCuts, Fetch, ReadOutcome, Sum0, Sum1, LoopRebuilds, Striped, WholeStripes;
    NeverPastBuffer(Without(k), n, |f|, |g|, chunk, buff.Length);
    var end;
    end, f1, g1 := ReadIntoBuff(buff, 0, n, Without(k), f, g, chunk);
    if end != Done {
      return None, f1, g1;
    }
    ghost var z := Fetch(Without(k), f, g, FetchCuts(n, |f|, chunk));
    FetchLength(Without(k), f, g, FetchCuts(n, |f|, chunk));
    WholeStripesIsMultiple(buff.Length, chunk);
    LoopIsLayout(k, z, left0, left1, chunk, buff.Length);
    out := RebuildLoop(buff, 0, n, k, left0, left1, chunk, z);
  }

  /** Rebuilds the extent `k` of a split of `n` bytes from the two others, batch after batch in the buffer. */
  method RebuildExtent(buff: array<Byte>, k: nat, s: Stored, n: nat, chunk: nat) returns (r: Option<seq<Byte>>)
    requires k < 3 && chunk > 0 && buff.Length > 0 && buff.Length % (2 * chunk) == 0
    modifies buff
    ensures r == RebuiltFrom(k, s, n, BufferBatches(0, n, buff.Length), chunk)
  {
    hide RebuiltRest, RebuiltFrom, Rebuilding, FetchCuts, Fetch, BufferBatches, Sum0, Sum1, Striped, WholeStripes,
      IsMultiple, Aligned, Without;
    var f, g, left: nat, out := First(Without(k), s), Second(Without(k), s), n, [];
    var left0, left1 := n - n / 2, n / 2;
    ghost var room, all := buff.Length, RebuiltFrom(k, s, n, BufferBatches(0, n, buff.Length), chunk);
    RestStarts(k, s, n, room, chunk);
    PrependNothing(all);
    while left > 0
      invariant left <= n && Rebuilding(n - left, left, left0, left1, room, chunk)
      invariant all == Prepend(out, RebuiltRest(k, f, g, n - left, left, left0, left1, room, chunk))
    {
      var toRead := Min(left, buff.Length);
      RebuildingLefts(n - left, left, left0, left1, room, chunk);
      NextIsAligned(n - left, left, left0, left1, room, chunk, toRead);
      var bytes, f1, g1 := RebuildBatch(buff, k, f, g, toRead, left0, left1, chunk);
      if bytes.None? {
        RestIsNone(k, f, g, n - left, left, left0, left1, room, chunk, toRead);
        return None;
      }
      RestStep(k, f, g, n - left, left, left0, left1, room, chunk, toRead);
      ghost var z := Fetch(Without(k), f, g, FetchCuts(toRead, |f|, chunk));
      RebuildingNext(n - left, left, left0, left1, room, chunk, z, k);
      left0, left1 := left0 - |bytes.value|, left1 - |bytes.value|;
      left := left - toRead;
      PrependTwice(out, bytes.value, RebuiltRest(k, f1, g1, n - left, left, left0, left1, room, chunk));
      out, f, g := out + bytes.value, f1, g1;
    }
    RestEnds(k, f, g, n, left0, left1, room, chunk);
    assert out + [] == out;
    r := Some(out);
  }

  lemma {:induction false} RebuildingLefts(at: nat, left: nat, left0: int, left1: int, room: nat, chunk: nat)
    requires Rebuilding(at, left, left0, left1, room, chunk) && left > 0
    ensures left0 >= 0 && left1 >= 0 && left1 <= left0 <= left1 + 1 && left0 + left1 == left
  {
  }
}
