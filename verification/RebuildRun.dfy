/**
 The two contexts of a rebuild, one reading and one writing, each seeking its own
 next split, and the counter that tells when everything has been rebuilt.
 */
module RebuildRun {
  import opened Basics
  import opened Arithmetic
  import opened SplitSizing
  import opened SplitPlan
  import opened RebuildSeek

  lemma {:induction false} VisitsStep(lyt: seq<Extent>, list: seq<int>, from: nat, n: nat)
    requires n > 0 && |lyt| > 0
    ensures var s := NextWork(lyt, list, from, n);
      && (s < SplitCount(lyt, n) ==>
            && from <= s && Work(lyt, list, s, n) > 0
            && Visits(lyt, list, from, n) == [s] + Visits(lyt, list, s + 1, n))
      && (s >= SplitCount(lyt, n) ==> Visits(lyt, list, from, n) == [])
  {
  }

  lemma {:induction false} WorkSumStep(lyt: seq<Extent>, list: seq<int>, s: nat, rest: seq<nat>, n: nat)
    ensures WorkSum(lyt, list, [s] + rest, n) == Work(lyt, list, s, n) + WorkSum(lyt, list, rest, n)
  {
    assert ([s] + rest)[1..] == rest;
  }

  /** The counts are positive, except for the last one when the rebuild is over: it is then zero. */
  predicate CountsDown(remaining: seq<int>, over: bool) {
    forall k :: 0 <= k < |remaining| ==> remaining[k] >= 0 && (remaining[k] == 0 <==> k == |remaining| - 1 && over)
  }

  lemma {:induction false} CountedOnce(remaining: seq<int>, left: int, over: bool)
    requires CountsDown(remaining, false) && left >= 0 && (left == 0 <==> over)
    ensures CountsDown(remaining + [left], over)
  {
  }

  /**
   The writing context: the splits it rebuilds and, after each of them, how many extents remain to rebuild. The
   rebuild is over exactly when that count reaches zero.
   */
  method WriterRun(lyt: seq<Extent>, list: seq<int>, n: nat) returns (visited: seq<nat>, remaining: seq<int>)
    requires n > 0 && |lyt| > 0 && Sorted(lyt) && InObject(lyt, list)
    ensures visited == Visits(lyt, list, 0, n) && |remaining| == |visited|
    ensures CountsDown(remaining, true)
  {
    hide NextWork, Work, Written, CountsDown;
    var left := ToRebuild(lyt, list, n);
    WriterStarts(lyt, list, n, left);
    ghost var from := 0;
    visited, remaining := [], [];
    var found, s, count, offset := Seek(lyt, list, 0, n);
    while found
      invariant s == NextWork(lyt, list, from, n) && (found <==> s < SplitCount(lyt, n))
      invariant found ==> count == Work(lyt, list, s, n)
      invariant Written(lyt, list, n, from, visited, left, remaining)
      decreases SplitCount(lyt, n) - from
    {
      WriterWrites(lyt, list, n, from, visited, left, remaining);
      visited := visited + [s];
      left := left - count;
      remaining := remaining + [left];
      from := s + 1;
      found, s, count, offset := Seek(lyt, list, s + 1, n);
    }
    WriterEnds(lyt, list, n, from, visited, left, remaining);
  }

  /** The writing context has visited the splits before `from`, and `left` extents remain in the others. */
  ghost predicate Written(lyt: seq<Extent>, list: seq<int>, n: nat, from: nat,
                          visited: seq<nat>, left: int, remaining: seq<int>)
    requires n > 0 && |lyt| > 0
  {
    && visited + Visits(lyt, list, from, n) == Visits(lyt, list, 0, n)
    && left == WorkSum(lyt, list, Visits(lyt, list, from, n), n) && |remaining| == |visited|
    && CountsDown(remaining, Visits(lyt, list, from, n) == [])
  }

  lemma {:induction false} WriterStarts(lyt: seq<Extent>, list: seq<int>, n: nat, left: int)
    requires n > 0 && |lyt| > 0 && Sorted(lyt) && InObject(lyt, list) && left == ToRebuild(lyt, list, n)
    ensures Written(lyt, list, n, 0, [], left, [])
  {
    hide Visits, WorkSum, ToRebuild;
    ToRebuildIsVisits(lyt, list, n);
  }

  lemma {:induction false} WriterWrites(lyt: seq<Extent>, list: seq<int>, n: nat, from: nat,
                                        visited: seq<nat>, left: int, remaining: seq<int>)
    requires n > 0 && |lyt| > 0 && Written(lyt, list, n, from, visited, left, remaining)
    requires NextWork(lyt, list, from, n) < SplitCount(lyt, n)
    ensures var s := NextWork(lyt, list, from, n);
      var left' := left - Work(lyt, list, s, n);
      from <= s && Written(lyt, list, n, s + 1, visited + [s], left', remaining + [left'])
  {
    hide NextWork, Work, Visits, WorkSum, CountsDown;
    var s := NextWork(lyt, list, from, n);
    var rest := Visits(lyt, list, s + 1, n);
    VisitsStep(lyt, list, from, n);
    WorkSumStep(lyt, list, s, rest, n);
    LeftIsZero(lyt, list, s + 1, n);
    CountedOnce(remaining, left - Work(lyt, list, s, n), rest == []);
    assert visited + ([s] + rest) == (visited + [s]) + rest;
  }

  lemma {:induction false} WriterEnds(lyt: seq<Extent>, list: seq<int>, n: nat, from: nat,
                                      visited: seq<nat>, left: int, remaining: seq<int>)
    requires n > 0 && |lyt| > 0 && Written(lyt, list, n, from, visited, left, remaining)
    requires NextWork(lyt, list, from, n) >= SplitCount(lyt, n)
    ensures visited == Visits(lyt, list, 0, n) && |remaining| == |visited| && CountsDown(remaining, true)
  {
    hide NextWork, Work, Visits, WorkSum, CountsDown;
    VisitsStep(lyt, list, from, n);
    assert visited + [] == visited;
  }

  /** Nothing remains to rebuild exactly when no split remains to visit. */
  lemma {:induction false} LeftIsZero(lyt: seq<Extent>, list: seq<int>, from: nat, n: nat)
    requires n > 0 && |lyt| > 0
    ensures WorkSum(lyt, list, Visits(lyt, list, from, n), n) == 0 <==> Visits(lyt, list, from, n) == []
  {
    hide Work, NextWork;
    VisitsStep(lyt, list, from, n);
    var s := NextWork(lyt, list, from, n);
    if s < SplitCount(lyt, n) {
      WorkSumStep(lyt, list, s, Visits(lyt, list, s + 1, n), n);
    }
  }

  lemma {:induction false} PlanIsCounted(lyt: seq<Extent>, plan: seq<Split>, d: nat, n: nat)
    requires n > 0 && |plan| > 0 && Survives(lyt, plan, d, n)
    ensures |lyt| > 0 && SplitCount(lyt, n) == |plan|
  {
    assert HasExtent(lyt, |plan| - 1, n);
    var i :| 0 <= i < |lyt| && lyt[i].layoutIdx / n == |plan| - 1;
    var last := |lyt| - 1;
    SplitRange(lyt[i].layoutIdx, |plan| - 1, n);
    SplitRange(lyt[last].layoutIdx, |plan| - 1, n);
    assert FromPlan(lyt[last], plan, d, n);
  }

  /** Each visited split was read from its start to its end. */
  predicate ReadWhole(visited: seq<nat>, ends: seq<(nat, nat)>, plan: seq<Split>, d: nat) {
    |ends| == |visited| && forall k :: 0 <= k < |visited| ==>
      visited[k] < |plan| && ends[k] == (plan[visited[k]].offset, plan[visited[k]].offset + Bytes(plan[visited[k]], d))
  }

  lemma {:induction false} NothingRead(plan: seq<Split>, d: nat)
    ensures ReadWhole([], [], plan, d)
  {
  }

  lemma {:induction false} ReadOneMore(visited: seq<nat>, ends: seq<(nat, nat)>, plan: seq<Split>, d: nat, s: nat)
    requires ReadWhole(visited, ends, plan, d) && s < |plan|
    ensures ReadWhole(visited + [s], ends + [(plan[s].offset, plan[s].offset + Bytes(plan[s], d))], plan, d)
  {
  }

  /**
   The reading context, `sizes` being the sizes of the extents that the daemon chose for each split: it reads the
   splits that the writing context rebuilds, each from its offset to its end.
   */
  method ReaderRun(lyt: seq<Extent>, list: seq<int>, n: nat, d: nat, size: nat, sizes: nat -> seq<nat>,
                   ghost plan: seq<Split>, ghost chunk: nat, ghost choice: nat -> seq<nat>)
    returns (visited: seq<nat>, ends: seq<(nat, nat)>)
    requires 0 < d <= n && chunk > 0 && Tiles(plan, 0, size, chunk, d) && Survives(lyt, plan, d, n)
    requires forall s: nat :: s < |plan| ==>
      |choice(s)| == d && NoDup(choice(s)) && sizes(s) == SizesAt(plan[s].q, plan[s].r, d, choice(s))
    ensures |lyt| > 0 && visited == Visits(lyt, list, 0, n)
    ensures ReadWhole(visited, ends, plan, d)
  {
    hide NextWork, Work, Visits, FirstFrom, Survives, Tiles, SizesAt, Bytes, ReadWhole;
    NothingRead(plan, d);
    TilesNonEmpty(plan, size, chunk, d);
    PlanIsCounted(lyt, plan, d, n);
    SurvivesSorted(lyt, plan, d, n);
    ghost var from, rest := 0, Visits(lyt, list, 0, n);
    visited, ends := [], [];
    var found, s, count, offset := Seek(lyt, list, 0, n);
    VisitsStep(lyt, list, 0, n);
    var readerOffset := 0;
    while found
      invariant s == NextWork(lyt, list, from, n) && (found <==> s < |plan|)
      invariant found ==> FirstFrom(lyt, s * n) < |lyt| && offset == lyt[FirstFrom(lyt, s * n)].offset
      invariant rest == Visits(lyt, list, from, n) && visited + rest == Visits(lyt, list, 0, n)
      invariant found ==> readerOffset <= plan[s].offset
      invariant ReadWhole(visited, ends, plan, d)
      decreases |plan| - from
    {
      VisitsStep(lyt, list, from, n);
      SplitStart(lyt, plan, d, n, s);
      PlanPlaced(plan, size, chunk, d, s);
      AnyDataCount(plan[s], size, d, choice(s));
      if readerOffset < offset {
        readerOffset := offset;
      }
      var start := readerOffset;
      var total := SumSizes(sizes(s));
      readerOffset := readerOffset + Min(total, size - readerOffset);
      ReadOneMore(visited, ends, plan, d, s);
      visited, ends := visited + [s], ends + [(start, readerOffset)];
      ghost var done := s;
      from, rest := s + 1, Visits(lyt, list, s + 1, n);
      found, s, count, offset := Seek(lyt, list, s + 1, n);
      VisitsStep(lyt, list, from, n);
      if found {
        LaterSplitStarts(plan, size, chunk, d, done, s);
      }
      found := found && readerOffset < size;
    }
    VisitsStep(lyt, list, from, n);
  }

  lemma {:induction false} TilesNonEmpty(plan: seq<Split>, size: nat, chunk: nat, d: nat)
    requires chunk > 0 && Tiles(plan, 0, size, chunk, d)
    ensures |plan| > 0
  {
  }

  lemma {:induction false} SurvivesSorted(lyt: seq<Extent>, plan: seq<Split>, d: nat, n: nat)
    requires n > 0 && Survives(lyt, plan, d, n)
    ensures Sorted(lyt)
  {
  }

  /** A later split starts at or after the end of an earlier one, and inside the object. */
  lemma {:induction false} LaterSplitStarts(plan: seq<Split>, size: nat, chunk: nat, d: nat, i: nat, j: nat)
    requires chunk > 0 && Tiles(plan, 0, size, chunk, d) && i < j < |plan|
    ensures plan[i].offset + Bytes(plan[i], d) <= plan[j].offset < size
  {
    PlanOffsets(plan, size, chunk, d, i, j);
    if j < |plan| - 1 {
      PlanOffsets(plan, size, chunk, d, j, |plan| - 1);
    }
  }
}
