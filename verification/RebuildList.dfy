/**
 Lists of extents to rebuild: which ones validation accepts, and what the
 rebuilder then finds to read from and to fill in each split.
 */
module RebuildList {
  import opened Basics
  import opened SplitSizing
  import opened SplitPlan
  import opened RebuildSeek

  /** Number of indexes from `lo` up to `hi` that have an extent and are listed. */
  function ListedPresent(lyt: seq<Extent>, list: seq<int>, lo: int, hi: int): nat
    decreases hi - lo
  {
    if lo >= hi then 0 else (if HasIdx(lyt, lo) && lo in list then 1 else 0) + ListedPresent(lyt, list, lo + 1, hi)
  }

  /** The extents not to be rebuilt are the present ones minus the listed ones: the subtraction never wraps. */
  lemma {:induction false} KeptIsDifference(lyt: seq<Extent>, list: seq<int>, lo: int, hi: int)
    ensures Kept(lyt, list, lo, hi) + ListedPresent(lyt, list, lo, hi) == Present(lyt, lo, hi)
    decreases hi - lo
  {
    if lo < hi {
      KeptIsDifference(lyt, list, lo + 1, hi);
    }
  }

  /** What validation demands of split `s`. */
  predicate SplitAccepted(lyt: seq<Extent>, list: seq<int>, s: nat, d: nat, p: nat) {
    var lo, hi := s * (d + p), (s + 1) * (d + p);
    CountIn(list, lo, hi) <= p && Kept(lyt, list, lo, hi) >= d
  }

  /** The lists that validation accepts. */
  ghost predicate Accepted(lyt: seq<Extent>, list: seq<int>, d: nat, p: nat)
    requires d + p > 0 && |lyt| > 0
  {
    && InObject(lyt, list)
    && forall s: nat :: s < SplitCount(lyt, d + p) ==> SplitAccepted(lyt, list, s, d, p)
  }

  method CountListedPresent(lyt: seq<Extent>, list: seq<int>, lo: nat, hi: nat) returns (c: nat)
    ensures c == ListedPresent(lyt, list, lo, hi)
  {
    c := 0;
    var idx := lo;
    while idx < hi
      invariant lo <= idx && c + ListedPresent(lyt, list, idx, hi) == ListedPresent(lyt, list, lo, hi)
      decreases hi - idx
    {
      var found := ExtentFromLayoutIdx(lyt, idx);
      if found < |lyt| && idx in list {
        c := c + 1;
      }
      idx := idx + 1;
    }
  }

  /** Counts the entries of a split; an entry outside of the object rejects the list. */
  method CheckEntries(list: seq<int>, maxIdx: nat, lo: int, hi: int) returns (ok: bool, found: nat)
    ensures ok <==> forall i :: 0 <= i < |list| ==> 0 <= list[i] <= maxIdx
    ensures ok ==> found == CountIn(list, lo, hi)
  {
    ok, found := true, 0;
    var i := 0;
    while i < |list|
      invariant 0 <= i <= |list| && ok && found + CountIn(list[i..], lo, hi) == CountIn(list, lo, hi)
      invariant forall k :: 0 <= k < i ==> 0 <= list[k] <= maxIdx
    {
      assert list[i..][0] == list[i] && list[i..][1..] == list[i + 1..];
      if list[i] < 0 || list[i] > maxIdx {
        ok := false;
        return;
      }
      if lo <= list[i] < hi {
        found := found + 1;
      }
      i := i + 1;
    }
  }

  /** Validation of a list of extents to rebuild. */
  method ValidateExtentList(lyt: seq<Extent>, list: seq<int>, d: nat, p: nat) returns (ok: bool)
    requires d + p > 0 && |lyt| > 0
    ensures ok <==> Accepted(lyt, list, d, p)
  {
    hide CountIn, Kept, Present, ListedPresent;
    var n, maxIdx, s: nat := d + p, lyt[|lyt| - 1].layoutIdx, 0;
    SplitRange(maxIdx, 0, n);
    while s * n <= maxIdx
      invariant s * n <= maxIdx <==> s < SplitCount(lyt, n)
      invariant s > 0 ==> InObject(lyt, list)
      invariant forall k: nat :: k < s ==> SplitAccepted(lyt, list, k, d, p)
      decreases SplitCount(lyt, n) - s
    {
      var lo, hi := s * n, (s + 1) * n;
      var present := CountPresent(lyt, lo, hi);
      var inObject, found := CheckEntries(list, maxIdx, lo, hi);
      if !inObject {
        return false;
      }
      var listedPresent := CountListedPresent(lyt, list, lo, hi);
      KeptIsDifference(lyt, list, lo, hi);
      if found > p || present - listedPresent < d {
        assert !SplitAccepted(lyt, list, s, d, p);
        return false;
      }
      s := s + 1;
      SplitRange(maxIdx, s, n);
    }
    return true;
  }

  // ---------------------------------------------------------------- reading

  /** The extent can be read by the rebuild: not to be rebuilt itself, and on the chosen medium when there is one. */
  predicate CanRead(e: Extent, list: seq<int>, only: seq<Medium>) {
    (|list| > 0 ==> e.layoutIdx !in list) && (only != [] ==> e.medium == only[0])
  }

  /** The extents of split `s` that the rebuild may read. */
  function Readable(lyt: seq<Extent>, list: seq<int>, only: seq<Medium>, s: nat, n: nat): set<int>
    requires n > 0
  {
    set i | 0 <= i < |lyt| && lyt[i].layoutIdx / n == s && CanRead(lyt[i], list, only) :: lyt[i].layoutIdx
  }

  /** The indexes from `lo` up to `hi` that can be read, no medium being chosen. */
  function KeptSet(lyt: seq<Extent>, list: seq<int>, lo: int, hi: int): set<int> {
    set idx | lo <= idx < hi && HasIdx(lyt, idx) && idx !in list
  }

  lemma {:induction false} KeptSetSize(lyt: seq<Extent>, list: seq<int>, lo: int, hi: int)
    ensures |KeptSet(lyt, list, lo, hi)| == Kept(lyt, list, lo, hi)
    decreases hi - lo
  {
    if lo >= hi {
      assert KeptSet(lyt, list, lo, hi) == {};
    } else {
      KeptSetSize(lyt, list, lo + 1, hi);
      var rest := KeptSet(lyt, list, lo + 1, hi);
      assert lo !in rest;
      assert KeptSet(lyt, list, lo, hi) == if HasIdx(lyt, lo) && lo !in list then {lo} + rest else rest;
    }
  }

  /** A rebuild without a chosen medium reads each split from its extents that are not to be rebuilt. */
  lemma {:induction false} ReadableIsKept(lyt: seq<Extent>, list: seq<int>, s: nat, n: nat)
    requires n > 0
    ensures |Readable(lyt, list, [], s, n)| == Kept(lyt, list, s * n, (s + 1) * n)
  {
    var a, b := Readable(lyt, list, [], s, n), KeptSet(lyt, list, s * n, (s + 1) * n);
    KeptSetSize(lyt, list, s * n, (s + 1) * n);
    forall x: int
      ensures x in b <==> x in a
    {
      if x in b {
        var i :| 0 <= i < |lyt| && lyt[i].layoutIdx == x;
        SplitRange(x, s, n);
      }
      if x in a {
        SplitRange(x, s, n);
        assert HasIdx(lyt, x);
      }
    }
    assert a == b;
  }

  /** No accepted list starves its reader: every split keeps `d` extents to read from. */
  lemma {:induction false} AcceptedIsReadable(lyt: seq<Extent>, list: seq<int>, d: nat, p: nat, s: nat)
    requires d + p > 0 && |lyt| > 0 && Accepted(lyt, list, d, p) && s < SplitCount(lyt, d + p)
    ensures |Readable(lyt, list, [], s, d + p)| >= d
  {
    assert SplitAccepted(lyt, list, s, d, p);
    ReadableIsKept(lyt, list, s, d + p);
  }

  // ---------------------------------------------------------------- filling

  /** The indexes from `lo` up to `hi` for which the rebuilder prepares an extent, in order. */
  function Slots(lyt: seq<Extent>, list: seq<int>, lo: int, hi: int): seq<int>
    decreases hi - lo
  {
    if lo >= hi then [] else
      (if |list| > 0 then (if lo in list then [lo] else []) else if HasIdx(lyt, lo) then [] else [lo])
      + Slots(lyt, list, lo + 1, hi)
  }

  /** No index from `lo` up to `hi` is listed twice. */
  predicate NoRepeat(list: seq<int>, lo: int, hi: int) {
    forall i, j :: 0 <= i < j < |list| && lo <= list[i] < hi ==> list[i] != list[j]
  }

  lemma {:induction false} CountOne(list: seq<int>, x: int)
    ensures CountIn(list, x, x + 1) > 0 <==> x in list
    ensures CountIn(list, x, x + 1) <= 1 <==> NoRepeat(list, x, x + 1)
  {
    if list != [] {
      CountOne(list[1..], x);
      if list[0] == x {
        if x in list[1..] {
          var j :| 0 <= j < |list[1..]| && list[1..][j] == x;
          assert list[j + 1] == x;
        }
      } else {
        assert NoRepeat(list, x, x + 1) <==> NoRepeat(list[1..], x, x + 1) by {
          if NoRepeat(list[1..], x, x + 1) {
            forall i, j | 0 <= i < j < |list| && x <= list[i] < x + 1
              ensures list[i] != list[j]
            {
              assert list[1..][i - 1] == list[i] && list[1..][j - 1] == list[j];
            }
          }
          if NoRepeat(list, x, x + 1) {
            forall i, j | 0 <= i < j < |list[1..]| && x <= list[1..][i] < x + 1
              ensures list[1..][i] != list[1..][j]
            {
              assert list[i + 1] == list[1..][i] && list[j + 1] == list[1..][j];
            }
          }
        }
      }
    }
  }

  lemma {:induction false} NoRepeatSplit(list: seq<int>, lo: int, hi: int)
    requires lo < hi
    ensures NoRepeat(list, lo, hi) <==> NoRepeat(list, lo, lo + 1) && NoRepeat(list, lo + 1, hi)
  {
  }

  /**
   With a list, as many extents are prepared as were counted if and only if the list names none of the split twice.
   */
  lemma {:induction false} SlotsMatchCount(lyt: seq<Extent>, list: seq<int>, lo: int, hi: int)
    requires |list| > 0 && lo <= hi
    ensures |Slots(lyt, list, lo, hi)| <= CountIn(list, lo, hi)
    ensures |Slots(lyt, list, lo, hi)| == CountIn(list, lo, hi) <==> NoRepeat(list, lo, hi)
    decreases hi - lo
  {
    hide CountIn, NoRepeat;
    if lo < hi {
      SlotsMatchCount(lyt, list, lo + 1, hi);
      CountSplit(list, lo, lo + 1, hi);
      CountOne(list, lo);
      NoRepeatSplit(list, lo, hi);
    } else {
      NothingListed(list, lo, hi);
    }
  }

  lemma {:induction false} NothingListed(list: seq<int>, lo: int, hi: int)
    requires lo >= hi
    ensures CountIn(list, lo, hi) == 0 && NoRepeat(list, lo, hi)
  {
    if list != [] {
      NothingListed(list[1..], lo, hi);
    }
  }

  /** Without a list, as many extents are prepared as are missing. */
  lemma {:induction false} SlotsMatchMissing(lyt: seq<Extent>, lo: int, hi: int)
    requires lo <= hi
    ensures |Slots(lyt, [], lo, hi)| == hi - lo - Present(lyt, lo, hi)
    decreases hi - lo
  {
    if lo < hi {
      SlotsMatchMissing(lyt, lo + 1, hi);
    }
  }

  /** The rebuilder prepares exactly the extents to rebuild of a split. */
  lemma {:induction false} SlotsAreWork(lyt: seq<Extent>, list: seq<int>, s: nat, n: nat)
    requires n > 0
    ensures var lo, hi := s * n, (s + 1) * n;
      |Slots(lyt, list, lo, hi)| == Work(lyt, list, s, n) <==> NoRepeat(list, lo, hi)
  {
    MulMonotone(s, s + 1, n);
    if |list| > 0 {
      SlotsMatchCount(lyt, list, s * n, (s + 1) * n);
    } else {
      SlotsMatchMissing(lyt, s * n, (s + 1) * n);
    }
  }

  /**
   A repeated entry: two extents are counted and asked for, one is prepared. Validation accepts it in an object of three
   copies, and rejects it with two data extents and one of parity.
   */
  lemma {:induction false} RepeatedEntry(lyt: seq<Extent>)
    ensures Work(lyt, [1, 1], 0, 3) == 2 && Slots(lyt, [1, 1], 0, 3) == [1]
    ensures |lyt| == 3 && (forall i :: 0 <= i < 3 ==> lyt[i].layoutIdx == i) ==> Accepted(lyt, [1, 1], 1, 2)
    ensures |lyt| > 0 ==> !Accepted(lyt, [1, 1], 2, 1)
  {
    assert CountIn([1, 1], 0, 3) == 1 + CountIn([1, 1][1..], 0, 3);
    assert Slots(lyt, [1, 1], 2, 3) == [] + Slots(lyt, [1, 1], 3, 3);
    if |lyt| == 3 && forall i :: 0 <= i < 3 ==> lyt[i].layoutIdx == i {
      assert Kept(lyt, [1, 1], 0, 3) >= 1 by {
        assert lyt[0].layoutIdx == 0;
        assert HasIdx(lyt, 0);
      }
      assert SplitCount(lyt, 3) == 1 && SplitAccepted(lyt, [1, 1], 0, 1, 2);
    }
    if |lyt| > 0 {
      assert !SplitAccepted(lyt, [1, 1], 0, 2, 1);
    }
  }
}
