/**
 What RAID4 is for: a split survives the loss of any one of its extents exactly
 when it was written in aligned batches.
 */
module Raid4Recovery {
  import opened Basics
  import opened Raid4Stripes
  import opened Raid4Batches
  import opened Raid4Read
  import opened Raid4Split

  function Prepend(out: seq<Byte>, more: Option<seq<Byte>>): Option<seq<Byte>> {
    if more.None? then None else Some(out + more.value)
  }

  /** Reading a split batch by batch; None is the error of a read that finds too few bytes. */
  function ReadBatches(pair: Pair, f: seq<Byte>, g: seq<Byte>, batches: seq<nat>, chunk: nat): Option<seq<Byte>>
    requires chunk > 0
    decreases |batches|
  {
    if batches == [] then Some([])
    else if batches[0] > 2 * |f| then None
    else
      var cuts := FetchCuts(batches[0], |f|, chunk);
      if Sum1(cuts) > |g| then None
      else
        Prepend(Fetch(pair, f, g, cuts), ReadBatches(pair, f[Sum0(cuts)..], g[Sum1(cuts)..], batches[1..], chunk))
  }

  function ReadSplit(pair: Pair, s: Stored, batches: seq<nat>, chunk: nat): Option<seq<Byte>>
    requires chunk > 0
  {
    ReadBatches(pair, First(pair, s), Second(pair, s), batches, chunk)
  }

  /** Whole stripes at the start of a split are stored before the stripes of the rest. */
  lemma {:induction false} StripedPrefix(x: seq<Byte>, y: seq<Byte>, chunk: nat)
    requires chunk > 0 && WholeStripes(|x|, chunk)
    ensures Striped(x + y, chunk) == Append(Striped(x, chunk), Striped(y, chunk))
  {
    hide Store, Regular, Append;
    RegularConcat(|x|, |y|, |x + y|, chunk);
    StoreConcat(x, y, Regular(|x|, chunk), Regular(|y|, chunk));
  }

  lemma {:induction false} StripedLengths(x: seq<Byte>, chunk: nat)
    requires chunk > 0
    ensures var s := Striped(x, chunk); |s.data0| == |s.parity| == |x| - |x| / 2 && |s.data1| == |x| / 2
  {
    hide Store, Regular;
    StoreLengths(x, Regular(|x|, chunk));
    RegularSums(|x|, chunk);
  }

  lemma {:induction false} RegularSums(n: nat, chunk: nat)
    requires chunk > 0
    ensures Sum0(Regular(n, chunk)) == n - n / 2 && Sum1(Regular(n, chunk)) == n / 2
  {
    if 2 * chunk <= n {
      RegularSums(n - 2 * chunk, chunk);
    }
  }

  /** A whole split is read from any two extents. */
  lemma {:induction false} ReadRest(pair: Pair, x: seq<Byte>, chunk: nat)
    requires chunk > 0
    ensures var s, cuts := Striped(x, chunk), Regular(|x|, chunk);
      var f, g := First(pair, s), Second(pair, s);
      && |x| <= 2 * |f| && FetchCuts(|x|, |f|, chunk) == cuts && Sum1(cuts) <= |g|
      && Sum0(cuts) <= |f| && Fetch(pair, f, g, cuts) == x
  {
    hide Store, Regular, Fetch, FetchCuts, Sum0, Sum1, WholeStripes;
    StripedLengths(x, chunk);
    RegularIsEven(|x|, chunk);
    AppendEmpty(Striped(x, chunk));
    ReadBack(pair, x, Regular(|x|, chunk), Empty);
    FetchIsRegular(|x|, |First(pair, Striped(x, chunk))|, chunk);
  }

  lemma {:induction false} ReadNothing(pair: Pair, f: seq<Byte>, g: seq<Byte>, batches: seq<nat>, chunk: nat)
    requires chunk > 0 && Total(batches) == 0
    ensures ReadBatches(pair, f, g, batches, chunk) == Some([])
    decreases |batches|
  {
    if batches != [] {
      var none: seq<Byte> := [];
      assert f[0..] == f && g[0..] == g && none + none == none;
      assert FetchCuts(0, |f|, chunk) == End;
      ReadNothing(pair, f, g, batches[1..], chunk);
    }
  }

  lemma {:induction false} FetchNext(pair: Pair, f: seq<Byte>, g: seq<Byte>, a: nat, b: nat, more: Cuts)
    requires a + Sum0(more) <= |f| && b + Sum1(more) <= |g|
    ensures Fetch(pair, f, g, Next(a, b, more)) == Recover(pair, f[..a], g[..b]) + Fetch(pair, f[a..], g[b..], more)
  {
  }

  lemma {:induction false} FetchConcat(pair: Pair, f: seq<Byte>, g: seq<Byte>, c: Cuts, d: Cuts)
    requires Sum0(c) + Sum0(d) <= |f| && Sum1(c) + Sum1(d) <= |g|
    ensures Sum0(Concat(c, d)) == Sum0(c) + Sum0(d) && Sum1(Concat(c, d)) == Sum1(c) + Sum1(d)
    ensures Fetch(pair, f, g, Concat(c, d)) == Fetch(pair, f, g, c) + Fetch(pair, f[Sum0(c)..], g[Sum1(c)..], d)
    decreases c
  {
    hide Recover, Fetch;
    ConcatFacts(c, d, End);
    match c {
      case End =>
        NothingFetched(pair, f, g, 1);
        assert f[0..] == f && g[0..] == g;
        assert [] + Fetch(pair, f, g, d) == Fetch(pair, f, g, d);
      case Next(a, b, more) =>
        FetchConcat(pair, f[a..], g[b..], more, d);
        assert f[a..][Sum0(more)..] == f[Sum0(c)..] && g[b..][Sum1(more)..] == g[Sum1(c)..];
        FetchBefore(pair, f, g, a, b, more, Concat(more, d), Fetch(pair, f[Sum0(c)..], g[Sum1(c)..], d));
    }
  }

  lemma {:induction false} FetchBefore(pair: Pair, f: seq<Byte>, g: seq<Byte>, a: nat, b: nat, more: Cuts, all: Cuts,
                                       rest: seq<Byte>)
    requires a + Sum0(more) <= |f| && b + Sum1(more) <= |g| && a + Sum0(all) <= |f| && b + Sum1(all) <= |g|
    requires Fetch(pair, f[a..], g[b..], all) == Fetch(pair, f[a..], g[b..], more) + rest
    ensures Fetch(pair, f, g, Next(a, b, all)) == Fetch(pair, f, g, Next(a, b, more)) + rest
  {
    hide Recover, Fetch;
    FetchNext(pair, f, g, a, b, more);
    FetchNext(pair, f, g, a, b, all);
    Associative(Recover(pair, f[..a], g[..b]), Fetch(pair, f[a..], g[b..], more), rest);
  }

  lemma {:induction false} Associative(x: seq<Byte>, y: seq<Byte>, z: seq<Byte>)
    ensures x + (y + z) == (x + y) + z
  {
  }

  /** Aligned batches read what one read of the whole split would, whatever the extents hold. */
  lemma {:induction false} ReadAtOnce(pair: Pair, f: seq<Byte>, g: seq<Byte>, n: nat, batches: seq<nat>, chunk: nat)
    requires chunk > 0 && n == Total(batches) && |f| == n - n / 2 && n / 2 <= |g| && AllAligned(batches, n, chunk)
    ensures Sum0(Regular(n, chunk)) <= |f| && Sum1(Regular(n, chunk)) <= |g|
    ensures ReadBatches(pair, f, g, batches, chunk) == Some(Fetch(pair, f, g, Regular(n, chunk)))
    decreases |batches|
  {
    hide Regular, Fetch, FetchCuts, Sum0, Sum1, WholeStripes;
    RegularSums(n, chunk);
    if batches == [] {
      NothingFetched(pair, f, g, chunk);
    } else {
      var m := batches[0];
      if m == n {
        FetchIsRegular(n, |f|, chunk);
        var cuts := Regular(n, chunk);
        ReadNothing(pair, f[Sum0(cuts)..], g[Sum1(cuts)..], batches[1..], chunk);
        assert Fetch(pair, f, g, cuts) + [] == Fetch(pair, f, g, cuts);
      } else {
        var half := WholeStripesHalves(m, chunk);
        FetchIsRegular(m, |f|, chunk);
        ReadAtOnce(pair, f[half..], g[half..], n - m, batches[1..], chunk);
        RegularConcat(m, n - m, n, chunk);
        RegularSums(n - m, chunk);
        FetchConcat(pair, f, g, Regular(m, chunk), Regular(n - m, chunk));
      }
    }
  }

  lemma {:induction false} NothingFetched(pair: Pair, f: seq<Byte>, g: seq<Byte>, chunk: nat)
    requires chunk > 0
    ensures Regular(0, chunk) == End && Sum0(End) == Sum1(End) == 0 && Fetch(pair, f, g, End) == []
  {
  }

  lemma {:induction false} FetchLength(pair: Pair, f: seq<Byte>, g: seq<Byte>, cuts: Cuts)
    requires Sum0(cuts) <= |f| && Sum1(cuts) <= |g|
    ensures |Fetch(pair, f, g, cuts)| == Sum0(cuts) + Sum1(cuts)
    decreases cuts
  {
    if cuts.Next? {
      FetchLength(pair, f[cuts.a..], g[cuts.b..], cuts.more);
    }
  }

  /** A striped split is read back from any two extents, in any aligned batches. */
  lemma {:induction false} ReadAligned(pair: Pair, x: seq<Byte>, batches: seq<nat>, chunk: nat)
    requires chunk > 0 && Total(batches) == |x| && AllAligned(batches, |x|, chunk)
    ensures ReadSplit(pair, Striped(x, chunk), batches, chunk) == Some(x)
  {
    hide Striped, Regular, Fetch, FetchCuts, ReadBatches, AllAligned;
    var s := Striped(x, chunk);
    StripedLengths(x, chunk);
    ReadRest(pair, x, chunk);
    ReadAtOnce(pair, First(pair, s), Second(pair, s), |x|, batches, chunk);
  }

  // ---------------------------------------------------------------- loss of an extent

  lemma {:induction false} RecoverInjective(d: seq<Byte>, e: seq<Byte>, d': seq<Byte>, e': seq<Byte>)
    requires |d| == |d'| && |e| == |e'| && Recover(Data1Parity, d, e) == Recover(Data1Parity, d', e')
    ensures d == d' && e == e'
  {
    var r, r' := Recover(Data1Parity, d, e), Recover(Data1Parity, d', e');
    assert e == r[|d|..] && e' == r'[|d|..];
    forall j | 0 <= j < |d|
      ensures d[j] == d'[j]
    {
      assert r[j] == r'[j];
      var pad := if j < |e| then e[j] else 0;
      XorCancels(d[j], pad);
      XorCancels(d'[j], pad);
    }
  }

  /** What is read without extent 0 tells the parity extent apart. */
  lemma {:induction false} FetchInjective(f: seq<Byte>, g: seq<Byte>, f': seq<Byte>, g': seq<Byte>, cuts: Cuts)
    requires |f| == |f'| == Sum0(cuts) && |g| == |g'| == Sum1(cuts)
    requires Fetch(Data1Parity, f, g, cuts) == Fetch(Data1Parity, f', g', cuts)
    ensures f == f'
    decreases cuts
  {
    if cuts.Next? {
      var a, b := cuts.a, cuts.b;
      var r, r' := Recover(Data1Parity, f[..a], g[..b]), Recover(Data1Parity, f'[..a], g'[..b]);
      var t, t' := Fetch(Data1Parity, f[a..], g[b..], cuts.more), Fetch(Data1Parity, f'[a..], g'[b..], cuts.more);
      assert r + t == r' + t' && |r| == |r'| == a + b;
      assert r == (r + t)[..a + b] && t == (r + t)[a + b..];
      assert r' == (r' + t')[..a + b] && t' == (r' + t')[a + b..];
      RecoverInjective(f[..a], g[..b], f'[..a], g'[..b]);
      FetchInjective(f[a..], g[b..], f'[a..], g'[b..], cuts.more);
      assert f == f[..a] + f[a..] && f' == f'[..a] + f'[a..];
    }
  }

  lemma {:induction false} WrittenLengths(x: seq<Byte>, batches: seq<nat>, chunk: nat)
    requires chunk > 0 && Total(batches) == |x|
    ensures var s := Written(x, batches, chunk);
      |s.data0| == |s.parity| == |x| - |x| / 2 && |s.data1| == |x| / 2
  {
    hide Store, SplitCuts, Covers;
    SplitLengths(x, batches, |x| - |x| / 2, |x| / 2, chunk);
  }

  lemma {:induction false} SplitLengths(x: seq<Byte>, batches: seq<nat>, left0: nat, left1: nat, chunk: nat)
    requires chunk > 0 && Total(batches) == |x| == left0 + left1 && left1 <= left0 <= left1 + 1
    ensures Covers(SplitCuts(batches, left0, left1, chunk), |x|)
    ensures var s := Store(x, SplitCuts(batches, left0, left1, chunk));
      |s.data0| == |s.parity| == left0 && |s.data1| == left1
  {
    hide Store, SplitCuts, Covers;
    SplitCovers(batches, left0, left1, chunk);
    SplitLeaves(batches, left0, left1, chunk, 0);
    StoreLengths(x, SplitCuts(batches, left0, left1, chunk));
  }

  /** Every content of the split can be read back whichever extent is lost, in any aligned reads. */
  ghost predicate SurvivesAnyLoss(batches: seq<nat>, chunk: nat)
    requires chunk > 0
  {
    forall x: seq<Byte>, pair, gets :: |x| == Total(batches) == Total(gets) && AllAligned(gets, |x|, chunk) ==>
      ReadSplit(pair, Written(x, batches, chunk), gets, chunk) == Some(x)
  }

  /** With a parity that is not the one of the layout, every read from extent 1 and the parity gives other bytes. */
  lemma {:induction false} MisalignedLoses(batches: seq<nat>, x: seq<Byte>, gets: seq<nat>, chunk: nat)
    requires chunk > 0 && |x| == Total(batches) && Written(x, batches, chunk).parity != Striped(x, chunk).parity
    requires Total(gets) == |x| && AllAligned(gets, |x|, chunk)
    ensures ReadSplit(Data1Parity, Written(x, batches, chunk), gets, chunk) != Some(x)
  {
    hide Written, Striped, ReadBatches, Fetch, Regular, Sum0, Sum1, AllAligned;
    var w, s := Written(x, batches, chunk), Striped(x, chunk);
    WrittenLengths(x, batches, chunk);
    StripedLengths(x, chunk);
    RegularSums(|x|, chunk);
    ReadAtOnce(Data1Parity, w.parity, w.data1, |x|, gets, chunk);
    ReadRest(Data1Parity, x, chunk);
    if ReadSplit(Data1Parity, w, gets, chunk) == Some(x) {
      FetchInjective(w.parity, w.data1, s.parity, s.data1, Regular(|x|, chunk));
    }
  }

  /** A split survives the loss of any one extent if and only if it was written in aligned batches. */
  lemma {:induction false} SurvivesIffAligned(batches: seq<nat>, chunk: nat)
    requires chunk > 0
    ensures SurvivesAnyLoss(batches, chunk) <==> AllAligned(batches, Total(batches), chunk)
  {
    hide Written, Striped, ReadSplit, AllAligned;
    var total := Total(batches);
    if AllAligned(batches, total, chunk) {
      StripedIffAligned(batches, chunk);
      forall x: seq<Byte>, pair, gets | |x| == total == Total(gets) && AllAligned(gets, |x|, chunk)
        ensures ReadSplit(pair, Written(x, batches, chunk), gets, chunk) == Some(x)
      {
        ReadAligned(pair, x, gets, chunk);
      }
    } else {
      var x := MisalignedContent(batches, chunk);
      OneBatch(|x|, chunk);
      MisalignedLoses(batches, x, [|x|], chunk);
    }
  }

  lemma {:induction false} OneBatch(n: nat, chunk: nat)
    requires chunk > 0
    ensures Total([n]) == n && AllAligned([n], n, chunk)
  {
  }
}
