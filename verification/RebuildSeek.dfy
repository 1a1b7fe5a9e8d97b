/**
 Which splits a rebuild goes through, how it counts what remains to rebuild, and
 which lists of extents it accepts.
 */
module RebuildSeek {
  import opened SplitSizing
  import opened SplitPlan

  // ---------------------------------------------------------------- counting in a split

  /** Some extent has this index. */
  predicate HasIdx(lyt: seq<Extent>, idx: int) {
    exists i :: 0 <= i < |lyt| && lyt[i].layoutIdx == idx
  }

  /** Number of indexes from `lo` up to `hi` that have an extent. */
  function Present(lyt: seq<Extent>, lo: int, hi: int): (c: nat)
    ensures c <= if lo <= hi then hi - lo else 0
    decreases hi - lo
  {
    if lo >= hi then 0 else (if HasIdx(lyt, lo) then 1 else 0) + Present(lyt, lo + 1, hi)
  }

  /** Number of entries of the list from `lo` up to `hi`, repetitions included. */
  function CountIn(list: seq<int>, lo: int, hi: int): (c: nat)
    ensures c <= |list|
  {
    if list == [] then 0 else (if lo <= list[0] < hi then 1 else 0) + CountIn(list[1..], lo, hi)
  }

  /** Number of indexes from `lo` up to `hi` that have an extent not to be rebuilt. */
  function Kept(lyt: seq<Extent>, list: seq<int>, lo: int, hi: int): nat
    decreases hi - lo
  {
    if lo >= hi then 0 else (if HasIdx(lyt, lo) && lo !in list then 1 else 0) + Kept(lyt, list, lo + 1, hi)
  }

  /** How many extents of split `s` are to be rebuilt: those of the list, or without a list the missing ones. */
  function Work(lyt: seq<Extent>, list: seq<int>, s: nat, n: nat): nat {
    if |list| > 0 then CountIn(list, s * n, (s + 1) * n)
    else (s + 1) * n - s * n - Present(lyt, s * n, (s + 1) * n)
  }

  /** Number of splits up to the last extent. */
  function SplitCount(lyt: seq<Extent>, n: nat): nat
    requires n > 0 && |lyt| > 0
  {
    lyt[|lyt| - 1].layoutIdx / n + 1
  }

  /** Number of extents to rebuild when the rebuild starts. */
  function ToRebuild(lyt: seq<Extent>, list: seq<int>, n: nat): int
    requires n > 0 && |lyt| > 0
  {
    if |list| > 0 then |list| else SplitCount(lyt, n) * n - |lyt|
  }

  method CountPresent(lyt: seq<Extent>, lo: nat, hi: nat) returns (c: nat)
    ensures c == Present(lyt, lo, hi)
  {
    c := 0;
    var idx := lo;
    while idx < hi
      invariant lo <= idx && c + Present(lyt, idx, hi) == Present(lyt, lo, hi)
      decreases hi - idx
    {
      var found := ExtentFromLayoutIdx(lyt, idx);
      if found < |lyt| {
        c := c + 1;
      }
      idx := idx + 1;
    }
  }

  /** Position of the extent with this index, or the number of extents. */
  method ExtentFromLayoutIdx(lyt: seq<Extent>, idx: int) returns (i: nat)
    ensures i <= |lyt| && (i < |lyt| <==> HasIdx(lyt, idx))
    ensures i < |lyt| ==> lyt[i].layoutIdx == idx
  {
    i := 0;
    while i < |lyt|
      invariant 0 <= i <= |lyt| && forall k :: 0 <= k < i ==> lyt[k].layoutIdx != idx
    {
      if lyt[i].layoutIdx == idx {
        return;
      }
      i := i + 1;
    }
  }

  method CountList(list: seq<int>, lo: int, hi: int) returns (c: nat)
    ensures c == CountIn(list, lo, hi)
  {
    c := 0;
    var i := 0;
    while i < |list|
      invariant 0 <= i <= |list| && c + CountIn(list[i..], lo, hi) == CountIn(list, lo, hi)
    {
      assert list[i..][0] == list[i] && list[i..][1..] == list[i + 1..];
      if lo <= list[i] < hi {
        c := c + 1;
      }
      i := i + 1;
    }
  }

  method SplitWork(lyt: seq<Extent>, list: seq<int>, s: nat, n: nat) returns (c: nat)
    ensures c == Work(lyt, list, s, n)
  {
    if |list| > 0 {
      c := CountList(list, s * n, (s + 1) * n);
    } else {
      var present := CountPresent(lyt, s * n, (s + 1) * n);
      c := (s + 1) * n - s * n - present;
    }
  }

  // ---------------------------------------------------------------- seeking

  /** The first split from `s` on that has something to rebuild, or the number of splits. */
  function NextWork(lyt: seq<Extent>, list: seq<int>, s: nat, n: nat): (t: nat)
    requires n > 0 && |lyt| > 0
    ensures s <= SplitCount(lyt, n) ==> s <= t <= SplitCount(lyt, n)
    ensures s > SplitCount(lyt, n) ==> t == s
    ensures t < SplitCount(lyt, n) ==> Work(lyt, list, t, n) > 0
    ensures forall k :: s <= k < t ==> Work(lyt, list, k, n) == 0
    decreases SplitCount(lyt, n) - s
  {
    if s >= SplitCount(lyt, n) || Work(lyt, list, s, n) > 0 then s else NextWork(lyt, list, s + 1, n)
  }

  /** Seeks the next split to rebuild and the offset of its first extent. */
  method Seek(lyt: seq<Extent>, list: seq<int>, split: nat, n: nat)
    returns (found: bool, s: nat, count: nat, offset: nat)
    requires n > 0 && |lyt| > 0 && Sorted(lyt)
    ensures found <==> NextWork(lyt, list, split, n) < SplitCount(lyt, n)
    ensures s == NextWork(lyt, list, split, n)
    ensures found ==> count == Work(lyt, list, s, n)
    ensures found ==> FirstFrom(lyt, s * n) < |lyt| && offset == lyt[FirstFrom(lyt, s * n)].offset
  {
    hide Work, FirstFrom;
    s, count, offset := split, 0, 0;
    var maxIdx := lyt[|lyt| - 1].layoutIdx;
    SplitRange(maxIdx, s, n);
    while s * n <= maxIdx
      invariant s * n <= maxIdx <==> s < SplitCount(lyt, n)
      invariant NextWork(lyt, list, s, n) == NextWork(lyt, list, split, n)
      decreases SplitCount(lyt, n) - s
    {
      count := SplitWork(lyt, list, s, n);
      if count == 0 {
        s := s + 1;
        SplitRange(maxIdx, s, n);
        continue;
      }
      found, offset := FirstExtentOffset(lyt, s * n);
      return;
    }
    found := false;
  }

  /** The offset of the first extent at or after an index. */
  method FirstExtentOffset(lyt: seq<Extent>, idx: nat) returns (found: bool, offset: nat)
    ensures found <==> FirstFrom(lyt, idx) < |lyt|
    ensures found ==> offset == lyt[FirstFrom(lyt, idx)].offset
  {
    offset := 0;
    var i := 0;
    while i < |lyt|
      invariant 0 <= i <= |lyt| && forall k :: 0 <= k < i ==> lyt[k].layoutIdx < idx
    {
      if lyt[i].layoutIdx >= idx {
        return true, lyt[i].offset;
      }
      i := i + 1;
    }
    found := false;
  }

  // ---------------------------------------------------------------- the splits of a rebuild

  /** The splits that a context goes through, each seek starting after the split that was done. */
  function Visits(lyt: seq<Extent>, list: seq<int>, from: nat, n: nat): seq<nat>
    requires n > 0 && |lyt| > 0
    decreases SplitCount(lyt, n) - from
  {
    var s := NextWork(lyt, list, from, n);
    if from < SplitCount(lyt, n) && s < SplitCount(lyt, n) then [s] + Visits(lyt, list, s + 1, n) else []
  }

  /** The visited splits are, in ascending order, exactly those that have something to rebuild. */
  lemma {:induction false} VisitsAreWork(lyt: seq<Extent>, list: seq<int>, from: nat, n: nat)
    requires n > 0 && |lyt| > 0
    ensures var v := Visits(lyt, list, from, n);
      && (forall i, j :: 0 <= i < j < |v| ==> v[i] < v[j])
      && (forall s: nat :: s in v <==> from <= s < SplitCount(lyt, n) && Work(lyt, list, s, n) > 0)
    decreases SplitCount(lyt, n) - from
  {
    hide Work;
    var next := NextWork(lyt, list, from, n);
    if from < SplitCount(lyt, n) && next < SplitCount(lyt, n) {
      VisitsAreWork(lyt, list, next + 1, n);
      var rest := Visits(lyt, list, next + 1, n);
      assert Visits(lyt, list, from, n) == [next] + rest;
      assert forall s: nat :: s in [next] + rest <==> s == next || s in rest;
      assert forall j :: 0 <= j < |rest| ==> rest[j] in rest;
    }
  }

  function WorkSum(lyt: seq<Extent>, list: seq<int>, splits: seq<nat>, n: nat): nat {
    if splits == [] then 0 else Work(lyt, list, splits[0], n) + WorkSum(lyt, list, splits[1..], n)
  }

  /** What all the splits from `from` on have to rebuild. */
  function WorkFrom(lyt: seq<Extent>, list: seq<int>, from: nat, n: nat): nat
    requires n > 0 && |lyt| > 0
    decreases SplitCount(lyt, n) - from
  {
    if from >= SplitCount(lyt, n) then 0 else Work(lyt, list, from, n) + WorkFrom(lyt, list, from + 1, n)
  }

  lemma {:induction false} SkippedWork(lyt: seq<Extent>, list: seq<int>, from: nat, to: nat, n: nat)
    requires n > 0 && |lyt| > 0 && from <= to <= SplitCount(lyt, n)
    requires forall k: nat :: from <= k < to ==> Work(lyt, list, k, n) == 0
    ensures WorkFrom(lyt, list, from, n) == WorkFrom(lyt, list, to, n)
    decreases SplitCount(lyt, n) - from
  {
    hide Work;
    if from < to {
      SkippedWork(lyt, list, from + 1, to, n);
    }
  }

  lemma {:induction false} VisitsSum(lyt: seq<Extent>, list: seq<int>, from: nat, n: nat)
    requires n > 0 && |lyt| > 0
    ensures WorkSum(lyt, list, Visits(lyt, list, from, n), n) == WorkFrom(lyt, list, from, n)
    decreases SplitCount(lyt, n) - from
  {
    hide Work;
    var s := NextWork(lyt, list, from, n);
    if from < SplitCount(lyt, n) {
      SkippedWork(lyt, list, from, s, n);
      if s < SplitCount(lyt, n) {
        VisitsSum(lyt, list, s + 1, n);
      }
    }
  }

  lemma {:induction false} CountSplit(list: seq<int>, lo: int, mid: int, hi: int)
    requires lo <= mid <= hi
    ensures CountIn(list, lo, mid) + CountIn(list, mid, hi) == CountIn(list, lo, hi)
  {
    if list != [] {
      CountSplit(list[1..], lo, mid, hi);
    }
  }

  lemma {:induction false} CountAll(list: seq<int>, lo: int, hi: int)
    requires forall i :: 0 <= i < |list| ==> lo <= list[i] < hi
    ensures CountIn(list, lo, hi) == |list|
  {
    if list != [] {
      CountAll(list[1..], lo, hi);
    }
  }

  lemma {:induction false} PresentSplit(lyt: seq<Extent>, lo: int, mid: int, hi: int)
    requires lo <= mid <= hi
    ensures Present(lyt, lo, mid) + Present(lyt, mid, hi) == Present(lyt, lo, hi)
    decreases mid - lo
  {
    if lo < mid {
      PresentSplit(lyt, lo + 1, mid, hi);
    }
  }

  lemma {:induction false} PresentTail(lyt: seq<Extent>, lo: int, hi: int)
    requires |lyt| > 0 && Sorted(lyt) && lyt[0].layoutIdx < lo
    ensures Present(lyt, lo, hi) == Present(lyt[1..], lo, hi)
    decreases hi - lo
  {
    if lo < hi {
      PresentTail(lyt, lo + 1, hi);
      if HasIdx(lyt, lo) {
        var i :| 0 <= i < |lyt| && lyt[i].layoutIdx == lo;
        assert lyt[1..][i - 1].layoutIdx == lo;
      }
      if HasIdx(lyt[1..], lo) {
        var i :| 0 <= i < |lyt| - 1 && lyt[1..][i].layoutIdx == lo;
        assert lyt[i + 1].layoutIdx == lo;
      }
    }
  }

  /** Sorted extents have distinct indexes: they are all counted, once. */
  lemma {:induction false} PresentAll(lyt: seq<Extent>, lo: int, hi: int)
    requires Sorted(lyt) && forall i :: 0 <= i < |lyt| ==> lo <= lyt[i].layoutIdx < hi
    ensures Present(lyt, lo, hi) == |lyt|
    decreases hi - lo
  {
    if lo < hi {
      if |lyt| > 0 && lyt[0].layoutIdx == lo {
        assert HasIdx(lyt, lo);
        PresentTail(lyt, lo + 1, hi);
        PresentAll(lyt[1..], lo + 1, hi);
      } else {
        assert !HasIdx(lyt, lo);
        PresentAll(lyt, lo + 1, hi);
      }
    }
  }

  /** Over all the splits, the work is what the rebuild counts at its start. */
  lemma {:induction false} WorkRange(lyt: seq<Extent>, list: seq<int>, from: nat, n: nat)
    requires n > 0 && |lyt| > 0 && from <= SplitCount(lyt, n)
    ensures from * n <= SplitCount(lyt, n) * n
    ensures var lo, hi := from * n, SplitCount(lyt, n) * n;
      WorkFrom(lyt, list, from, n) == if |list| > 0 then CountIn(list, lo, hi) else hi - lo - Present(lyt, lo, hi)
    decreases SplitCount(lyt, n) - from
  {
    hide Present, CountIn;
    var hi := SplitCount(lyt, n) * n;
    MulMonotone(from, SplitCount(lyt, n), n);
    if from == SplitCount(lyt, n) {
      EmptyRange(lyt, list, hi);
    } else {
      WorkRange(lyt, list, from + 1, n);
      MulMonotone(from, from + 1, n);
      CountSplit(list, from * n, (from + 1) * n, hi);
      PresentSplit(lyt, from * n, (from + 1) * n, hi);
    }
  }

  lemma {:induction false} EmptyRange(lyt: seq<Extent>, list: seq<int>, at: int)
    ensures Present(lyt, at, at) == 0 && CountIn(list, at, at) == 0
  {
    if list != [] {
      EmptyRange(lyt, list[1..], at);
    }
  }

  /** The entries of the list are indexes of the object: what validation checks, and true without a list. */
  predicate InObject(lyt: seq<Extent>, list: seq<int>)
    requires |lyt| > 0
  {
    forall i :: 0 <= i < |list| ==> 0 <= list[i] <= lyt[|lyt| - 1].layoutIdx
  }

  /** The count at the start of the rebuild is the work of all the visited splits. */
  lemma {:induction false} ToRebuildIsVisits(lyt: seq<Extent>, list: seq<int>, n: nat)
    requires n > 0 && |lyt| > 0 && Sorted(lyt) && InObject(lyt, list)
    ensures ToRebuild(lyt, list, n) == WorkSum(lyt, list, Visits(lyt, list, 0, n), n)
  {
    hide Work, WorkFrom, Visits, Present, CountIn;
    VisitsSum(lyt, list, 0, n);
    WorkRange(lyt, list, 0, n);
    var hi := SplitCount(lyt, n) * n;
    SplitRange(lyt[|lyt| - 1].layoutIdx, SplitCount(lyt, n), n);
    if |list| > 0 {
      CountAll(list, 0, hi);
    } else {
      PresentAll(lyt, 0, hi);
    }
  }
}
