/**
 The eraser of an object: it goes through the splits that still have extents,
 and stops when its countdown of extents reaches zero.
 */
module Eraser {
  import opened Basics
  import opened SplitSizing
  import opened SplitPlan
  import opened RebuildSeek

  /** Number of extents at or after split `s`. */
  function Remaining(lyt: seq<Extent>, s: nat, n: nat): nat {
    |lyt| - FirstFrom(lyt, s * n)
  }

  /** The extents of split `s`. */
  function SplitSlice(lyt: seq<Extent>, s: nat, n: nat): seq<Extent> {
    var i, j := FirstFrom(lyt, s * n), FirstFrom(lyt, (s + 1) * n);
    if i <= j then lyt[i..j] else []
  }

  lemma {:induction false} FirstFromMonotone(lyt: seq<Extent>, lo: nat, hi: nat)
    requires lo <= hi
    ensures FirstFrom(lyt, lo) <= FirstFrom(lyt, hi)
  {
    var i, j := FirstFrom(lyt, lo), FirstFrom(lyt, hi);
  }

  lemma {:induction false} FirstFromIs(lyt: seq<Extent>, idx: nat, k: nat)
    requires Sorted(lyt) && k <= |lyt|
    requires k < |lyt| ==> lyt[k].layoutIdx >= idx
    requires k > 0 ==> lyt[k - 1].layoutIdx < idx
    ensures FirstFrom(lyt, idx) == k
  {
    var i := FirstFrom(lyt, idx);
  }

  lemma {:induction false} FirstFromAtZero(lyt: seq<Extent>, n: nat)
    ensures FirstFrom(lyt, 0 * n) == 0
  {
  }

  /** The extents of a sorted layout from `lo` up to `hi` lie between the first ones at or after these indexes. */
  lemma {:induction false} PresentIsRange(lyt: seq<Extent>, lo: nat, hi: nat)
    requires Sorted(lyt) && lo <= hi
    ensures Present(lyt, lo, hi) == FirstFrom(lyt, hi) - FirstFrom(lyt, lo)
    decreases hi - lo
  {
    if lo < hi {
      hide FirstFrom;
      PresentIsRange(lyt, lo + 1, hi);
      var i, j := FirstFrom(lyt, lo), FirstFrom(lyt, lo + 1);
      FirstFromMonotone(lyt, lo, lo + 1);
      if HasIdx(lyt, lo) {
        var k :| 0 <= k < |lyt| && lyt[k].layoutIdx == lo;
        FirstFromIs(lyt, lo, k);
        FirstFromIs(lyt, lo + 1, k + 1);
      }
    }
  }

  /** A split is worth what it takes off the count of remaining extents. */
  lemma {:induction false} SliceFacts(lyt: seq<Extent>, s: nat, n: nat)
    requires Sorted(lyt) && n > 0
    ensures var slice := SplitSlice(lyt, s, n);
      && |slice| == Present(lyt, s * n, (s + 1) * n)
      && Remaining(lyt, s, n) == |slice| + Remaining(lyt, s + 1, n)
      && lyt[FirstFrom(lyt, s * n)..] == slice + lyt[FirstFrom(lyt, (s + 1) * n)..]
  {
    MulMonotone(s, s + 1, n);
    FirstFromMonotone(lyt, s * n, (s + 1) * n);
    PresentIsRange(lyt, s * n, (s + 1) * n);
  }

  /** While extents remain, the split is not beyond the last one. */
  lemma {:induction false} RemainingBounds(lyt: seq<Extent>, s: nat, n: nat) returns (end: nat)
    requires n > 0 && Sorted(lyt) && Remaining(lyt, s, n) > 0
    ensures end == lyt[|lyt| - 1].layoutIdx && s <= end
  {
    var i, last := FirstFrom(lyt, s * n), |lyt| - 1;
    assert lyt[i].layoutIdx <= lyt[last].layoutIdx;
    assert s <= s * n;
    end := lyt[last].layoutIdx;
  }

  /** Moves to the first split from `split` on that has an extent. */
  method SkipEmptySplits(lyt: seq<Extent>, split: nat, n: nat) returns (s: nat)
    requires n > 0 && Sorted(lyt) && Remaining(lyt, split, n) > 0
    ensures s >= split && Remaining(lyt, s, n) == Remaining(lyt, split, n)
    ensures FirstFrom(lyt, s * n) == FirstFrom(lyt, split * n)
    ensures Present(lyt, s * n, (s + 1) * n) > 0
  {
    hide Present, FirstFrom, SplitSlice, Sorted;
    s := split;
    var c := CountPresent(lyt, s * n, (s + 1) * n);
    ghost var end := RemainingBounds(lyt, s, n);
    while c == 0
      invariant split <= s <= end && c == Present(lyt, s * n, (s + 1) * n)
      invariant FirstFrom(lyt, s * n) == FirstFrom(lyt, split * n)
      decreases end - s
    {
      EmptySplit(lyt, s, n);
      s := s + 1;
      var _ := RemainingBounds(lyt, s, n);
      c := CountPresent(lyt, s * n, (s + 1) * n);
    }
  }

  lemma {:induction false} EmptySplit(lyt: seq<Extent>, s: nat, n: nat)
    requires n > 0 && Sorted(lyt) && Present(lyt, s * n, (s + 1) * n) == 0
    ensures FirstFrom(lyt, (s + 1) * n) == FirstFrom(lyt, s * n)
  {
    hide Present, FirstFrom, SplitSlice, Sorted;
    SliceFacts(lyt, s, n);
  }

  // ---------------------------------------------------------------- erasing

  /** Position of the extent of split `s` on this medium, or the number of extents. */
  method ExtentIndex(lyt: seq<Extent>, medium: Medium, lo: nat, hi: nat) returns (i: nat)
    ensures i <= |lyt|
    ensures i < |lyt| ==> lo <= lyt[i].layoutIdx < hi && lyt[i].medium == medium
    ensures i == |lyt| ==> forall k :: 0 <= k < |lyt| && lo <= lyt[k].layoutIdx < hi ==> lyt[k].medium != medium
  {
    i := 0;
    while i < |lyt|
      invariant 0 <= i <= |lyt|
      invariant forall k :: 0 <= k < i && lo <= lyt[k].layoutIdx < hi ==> lyt[k].medium != medium
    {
      if lo <= lyt[i].layoutIdx < hi && lyt[i].medium == medium {
        return;
      }
      i := i + 1;
    }
  }

  predicate DistinctMedia(extents: seq<Extent>) {
    forall i, j :: 0 <= i < j < |extents| ==> extents[i].medium != extents[j].medium
  }

  /** The media of a sorted layout are distinct inside each split. */
  ghost predicate Spread(lyt: seq<Extent>, n: nat) {
    forall s: nat :: DistinctMedia(SplitSlice(lyt, s, n))
  }

  lemma {:induction false} InSlice(lyt: seq<Extent>, s: nat, n: nat, i: nat)
    requires Sorted(lyt) && n > 0 && i < |lyt|
    ensures s * n <= lyt[i].layoutIdx < (s + 1) * n <==> lyt[i] in SplitSlice(lyt, s, n)
  {
    hide FirstFrom, Sorted;
    MulMonotone(s, s + 1, n);
    FirstFromMonotone(lyt, s * n, (s + 1) * n);
    var a, b := FirstFrom(lyt, s * n), FirstFrom(lyt, (s + 1) * n);
    BeforeFirst(lyt, s * n, i);
    BeforeFirst(lyt, (s + 1) * n, i);
    if s * n <= lyt[i].layoutIdx < (s + 1) * n {
      assert lyt[i] == SplitSlice(lyt, s, n)[i - a];
    }
    if lyt[i] in SplitSlice(lyt, s, n) {
      var k :| a <= k < b && lyt[k] == lyt[i];
      BeforeFirst(lyt, s * n, k);
      BeforeFirst(lyt, (s + 1) * n, k);
    }
  }

  lemma {:induction false} BeforeFirst(lyt: seq<Extent>, idx: nat, i: nat)
    requires Sorted(lyt) && i < |lyt|
    ensures i < FirstFrom(lyt, idx) <==> lyt[i].layoutIdx < idx
  {
    var k := FirstFrom(lyt, idx);
  }

  /** A layout index belongs to one extent only, so distinct media make distinct extents. */
  lemma {:induction false} DistinctCount(extents: seq<Extent>, e: Extent)
    requires DistinctMedia(extents)
    ensures multiset(extents)[e] <= 1
  {
    if extents != [] {
      var last := |extents| - 1;
      DistinctCount(extents[..last], e);
      assert extents == extents[..last] + [extents[last]];
    }
  }

  lemma {:induction false} SubExtents(a: seq<Extent>, b: seq<Extent>)
    requires DistinctMedia(a) && forall k :: 0 <= k < |a| ==> a[k] in b
    ensures multiset(a) <= multiset(b) && (|a| == |b| ==> multiset(a) == multiset(b))
  {
    forall e
      ensures multiset(a)[e] <= multiset(b)[e]
    {
      DistinctCount(a, e);
    }
    assert multiset(a) <= multiset(b);
    assert multiset(b) == multiset(a) + (multiset(b) - multiset(a));
  }

  /** The answers of the I/O adapter to the deletions of a split; 0 is a success. */
  datatype Io = Io(adapterRc: nat -> int, deleteRc: nat -> int)

  /** What comes of the deletion on the `i`-th medium of an allocation. */
  function DeleteRc(lyt: seq<Extent>, s: nat, n: nat, media: seq<Medium>, io: Io, i: nat): int
    requires i < |media|
  {
    if io.adapterRc(i) != 0 then io.adapterRc(i)
    else if media[i] !in Media(SplitSlice(lyt, s, n)) then -ENOMEDIUM
    else io.deleteRc(i)
  }

  /**
   These extents of split `s` were deleted on the first media of an allocation, up to the first failure, whose result is
   `rc`. An allocation with another number of media than the split has extents deletes nothing.
   */
  predicate DeletedUpTo(lyt: seq<Extent>, s: nat, n: nat, media: seq<Medium>, io: Io, rc: int, deleted: seq<Extent>) {
    && |deleted| <= |media| && Media(deleted) == media[..|deleted|]
    && (forall k :: 0 <= k < |deleted| ==> deleted[k] in SplitSlice(lyt, s, n))
    && (forall k :: 0 <= k < |deleted| ==> DeleteRc(lyt, s, n, media, io, k) == 0)
    && if |media| != Present(lyt, s * n, (s + 1) * n) then rc == -EINVAL && deleted == []
       else if rc == 0 then |deleted| == |media|
       else |deleted| < |media| && rc == DeleteRc(lyt, s, n, media, io, |deleted|)
  }

  /** Deletes the extents of split `s` on the media of an allocation, up to the first failure. */
  method DeleteSplit(lyt: seq<Extent>, s: nat, n: nat, media: seq<Medium>, io: Io)
    returns (rc: int, deleted: seq<Extent>)
    requires n > 0 && Sorted(lyt)
    ensures DeletedUpTo(lyt, s, n, media, io, rc, deleted)
  {
    hide Present, FirstFrom, SplitSlice;
    rc, deleted := 0, [];
    var count := CountPresent(lyt, s * n, (s + 1) * n);
    if |media| != count {
      return -EINVAL, [];
    }
    var i := 0;
    while i < |media|
      invariant 0 <= i == |deleted| <= |media| && rc == 0 && Media(deleted) == media[..i]
      invariant forall k :: 0 <= k < |deleted| ==> deleted[k] in SplitSlice(lyt, s, n)
      invariant forall k :: 0 <= k < i ==> DeleteRc(lyt, s, n, media, io, k) == 0
    {
      rc := io.adapterRc(i);
      if rc != 0 {
        return;
      }
      var at := ExtentIndex(lyt, media[i], s * n, (s + 1) * n);
      MediumOfSplit(lyt, s, n, media[i], at);
      if at == |lyt| {
        return -ENOMEDIUM, deleted;
      }
      InSlice(lyt, s, n, at);
      rc := io.deleteRc(i);
      if rc != 0 {
        return;
      }
      deleted := deleted + [lyt[at]];
      i := i + 1;
    }
  }

  lemma {:induction false} MissingMedium(lyt: seq<Extent>, s: nat, n: nat, m: Medium)
    requires n > 0 && Sorted(lyt)
    requires forall k :: 0 <= k < |lyt| && s * n <= lyt[k].layoutIdx < (s + 1) * n ==> lyt[k].medium != m
    ensures m !in Media(SplitSlice(lyt, s, n))
  {
    var slice := SplitSlice(lyt, s, n);
    forall k | 0 <= k < |slice|
      ensures Media(slice)[k] != m
    {
      var i := FirstFrom(lyt, s * n) + k;
      assert slice[k] == lyt[i];
      InSlice(lyt, s, n, i);
    }
  }

  /** `media` are those of split `s`, in some order. */
  ghost predicate Answers(lyt: seq<Extent>, s: nat, n: nat, media: seq<Medium>) {
    multiset(media) == multiset(Media(SplitSlice(lyt, s, n)))
  }

  /** An allocation on all the media of a split deletes each of its extents once, up to the first failure. */
  lemma {:induction false} AnsweredSplit(lyt: seq<Extent>, s: nat, n: nat, media: seq<Medium>, deleted: seq<Extent>)
    requires n > 0 && Sorted(lyt) && DistinctMedia(SplitSlice(lyt, s, n)) && Answers(lyt, s, n, media)
    requires |deleted| <= |media| && Media(deleted) == media[..|deleted|]
    requires forall k :: 0 <= k < |deleted| ==> deleted[k] in SplitSlice(lyt, s, n)
    ensures |media| == |SplitSlice(lyt, s, n)|
    ensures forall k :: 0 <= k < |media| ==> media[k] in Media(SplitSlice(lyt, s, n))
    ensures multiset(deleted) <= multiset(SplitSlice(lyt, s, n))
    ensures |deleted| == |media| ==> multiset(deleted) == multiset(SplitSlice(lyt, s, n))
  {
    hide SplitSlice;
    var slice := SplitSlice(lyt, s, n);
    assert |multiset(media)| == |media| && |multiset(Media(slice))| == |slice|;
    forall k | 0 <= k < |media|
      ensures media[k] in Media(slice)
    {
      assert media[k] in multiset(media);
    }
    DistinctAnswer(slice, media, deleted);
    SubExtents(deleted, slice);
  }

  lemma {:induction false} DistinctAnswer(slice: seq<Extent>, media: seq<Medium>, deleted: seq<Extent>)
    requires DistinctMedia(slice) && multiset(media) == multiset(Media(slice))
    requires |deleted| <= |media| && Media(deleted) == media[..|deleted|]
    ensures DistinctMedia(deleted)
  {
    forall i, j | 0 <= i < j < |deleted|
      ensures deleted[i].medium != deleted[j].medium
    {
      var m := media[i];
      assert deleted[i].medium == Media(deleted)[i] == media[i] && deleted[j].medium == Media(deleted)[j] == media[j];
      OnceIn(Media(slice), m);
      if media[j] == m {
        TwiceIn(media, i, j);
      }
    }
  }

  lemma {:induction false} OnceIn(media: seq<Medium>, m: Medium)
    requires NoDup(media)
    ensures multiset(media)[m] <= 1
  {
    if media != [] {
      var last := |media| - 1;
      OnceIn(media[..last], m);
      assert media == media[..last] + [media[last]];
    }
  }

  lemma {:induction false} TwiceIn(media: seq<Medium>, i: nat, j: nat)
    requires i < j < |media| && media[i] == media[j]
    ensures multiset(media)[media[i]] >= 2
  {
    assert media == media[..j] + [media[j]] + media[j + 1..];
    assert media[..j][i] in media[..j];
  }

  /** Counts the released media of split `s`, up to one that the split does not have. */
  method CountReleased(lyt: seq<Extent>, s: nat, n: nat, media: seq<Medium>) returns (rc: int, counted: nat)
    requires n > 0 && Sorted(lyt)
    ensures rc == SplitAnswer(lyt, s, n, media)
    ensures counted <= Present(lyt, s * n, (s + 1) * n)
    ensures rc == 0 ==> counted == |media|
  {
    hide Present, FirstFrom, SplitSlice;
    rc, counted := 0, 0;
    var count := CountPresent(lyt, s * n, (s + 1) * n);
    if |media| != count {
      return -EINVAL, 0;
    }
    while counted < |media|
      invariant 0 <= counted <= |media| && rc == 0
      invariant forall k :: 0 <= k < counted ==> media[k] in Media(SplitSlice(lyt, s, n))
    {
      var at := ExtentIndex(lyt, media[counted], s * n, (s + 1) * n);
      MediumOfSplit(lyt, s, n, media[counted], at);
      if at == |lyt| {
        rc := -ENOMEDIUM;
        return;
      }
      counted := counted + 1;
    }
  }

  class EraserProcessor {
    const lyt: seq<Extent>
    const n: nat
    var currentSplit: nat
    var toDelete: nat
    var done: bool
    /** Extents deleted so far. */
    var deleted: seq<Extent>

    /** Extents `from` on have been left alone, the others deleted once each. */
    ghost predicate Erased(from: nat)
      reads this
    {
      from <= |lyt| && multiset(deleted) == multiset(lyt[..from])
    }

    /** The countdown is what remains from the current split on, and the current split has extents. */
    ghost predicate Counting()
      reads `toDelete, `currentSplit
    {
      && n > 0 && Sorted(lyt) && Spread(lyt, n)
      && toDelete == Remaining(lyt, currentSplit, n) > 0
      && Present(lyt, currentSplit * n, (currentSplit + 1) * n) > 0
    }

    /** The media of the current split have been asked for, or all is deleted. */
    ghost predicate Waiting()
      reads this
    {
      if done then multiset(deleted) == multiset(lyt) else Counting() && Erased(FirstFrom(lyt, currentSplit * n))
    }

    /** The extents of the current split are deleted and its media are being released. */
    ghost predicate Releasing()
      reads this
    {
      !done && Counting() && Erased(FirstFrom(lyt, (currentSplit + 1) * n))
    }

    /** An eraser of extents that are not on tapes; it is done at once when there is none. */
    constructor (lyt: seq<Extent>, n: nat)
      requires n > 0 && Sorted(lyt) && Spread(lyt, n)
      ensures this.lyt == lyt && this.n == n && currentSplit == 0 && toDelete == |lyt| && deleted == []
      ensures done <==> lyt == []
    {
      this.lyt, this.n := lyt, n;
      currentSplit, toDelete, deleted := 0, |lyt|, [];
      done := |lyt| == 0;
    }

    /** The first step, which asks for the media of the first split that has extents. */
    method FirstStep()
      requires n > 0 && Sorted(lyt) && Spread(lyt, n) && !done
      requires currentSplit == 0 && toDelete == |lyt| > 0 && deleted == []
      modifies `currentSplit
      ensures Waiting()
    {
      hide Present, FirstFrom, Spread;
      FirstFromAtZero(lyt, n);
      currentSplit := SkipEmptySplits(lyt, 0, n);
      assert lyt[..0] == [];
    }

    /**
     Deletes the extents of the current split on the media of an allocation. An allocation on all its media gives the
     result of the first deletion that fails, if there is one, and deletes no extent twice.
     */
    method HandleAllocation(media: seq<Medium>, io: Io) returns (rc: int)
      requires Waiting() && !done
      modifies `deleted
      ensures |media| != Present(lyt, currentSplit * n, (currentSplit + 1) * n) ==>
        rc == -EINVAL && deleted == old(deleted)
      ensures Answers(lyt, currentSplit, n, media) ==>
        (rc == 0 <==> NoFailure(io, |media|)) && multiset(deleted) <= multiset(lyt)
      ensures Answers(lyt, currentSplit, n, media) && rc == 0 ==> Releasing()
    {
      hide Present, FirstFrom, SplitSlice, Answers, DeletedUpTo, NoFailure, Sorted;
      var gone;
      rc, gone := DeleteSplit(lyt, currentSplit, n, media, io);
      NothingDeleted(lyt, currentSplit, n, media, io, rc, gone);
      if Answers(lyt, currentSplit, n, media) {
        ghost var first, next := FirstFrom(lyt, currentSplit * n), FirstFrom(lyt, (currentSplit + 1) * n);
        AllocationDeletes(lyt, currentSplit, n, media, io, rc, gone, deleted, first, next);
      }
      deleted := deleted + gone;
    }

    /** The media of the current split are released: counts them down and asks for the next split with extents. */
    method HandleRelease(media: seq<Medium>) returns (rc: int)
      requires Releasing()
      modifies `toDelete, `currentSplit, `done
      ensures rc == SplitAnswer(lyt, old(currentSplit), n, media)
      ensures rc == 0 ==> Waiting() && toDelete == old(toDelete) - |media| < old(toDelete)
      ensures rc == 0 ==> (done <==> toDelete == 0)
      ensures rc != 0 ==> !done && currentSplit == old(currentSplit)
    {
      hide Present, FirstFrom, SplitSlice, Answers, Spread, SplitAnswer, Sorted;
      SliceFacts(lyt, currentSplit, n);
      AcceptedIsPresent(lyt, currentSplit, n, media);
      var counted;
      rc, counted := CountReleased(lyt, currentSplit, n, media);
      toDelete := toDelete - counted;
      if rc != 0 {
        return;
      }
      Advance();
    }

    /** The current split is deleted and counted: moves to the next split with extents, or ends. */
    method Advance()
      requires !done && n > 0 && Sorted(lyt) && Spread(lyt, n)
      requires toDelete == Remaining(lyt, currentSplit + 1, n)
      requires Erased(FirstFrom(lyt, (currentSplit + 1) * n))
      modifies `currentSplit, `done
      ensures Waiting() && (done <==> toDelete == 0)
    {
      hide Present, FirstFrom, SplitSlice, Spread;
      if toDelete == 0 {
        done := true;
        assert lyt[..FirstFrom(lyt, (currentSplit + 1) * n)] == lyt;
        currentSplit := 0;
      } else {
        currentSplit := SkipEmptySplits(lyt, currentSplit + 1, n);
      }
    }
  }

  /** Every deletion of an allocation on `count` media succeeds. */
  ghost predicate NoFailure(io: Io, count: nat) {
    forall k: nat :: k < count ==> io.adapterRc(k) == 0 && io.deleteRc(k) == 0
  }

  lemma {:induction false} NothingDeleted(lyt: seq<Extent>, s: nat, n: nat, media: seq<Medium>, io: Io, rc: int,
                                          gone: seq<Extent>)
    requires DeletedUpTo(lyt, s, n, media, io, rc, gone)
    ensures |media| != Present(lyt, s * n, (s + 1) * n) ==> rc == -EINVAL && gone == []
  {
  }

  /** An allocation on the media of a split deletes no extent twice, and all of the split if no deletion fails. */
  lemma {:induction false} AllocationDeletes(lyt: seq<Extent>, s: nat, n: nat, media: seq<Medium>, io: Io, rc: int,
                                             gone: seq<Extent>, before: seq<Extent>, first: nat, next: nat)
    requires first == FirstFrom(lyt, s * n) <= |lyt| && next == FirstFrom(lyt, (s + 1) * n) <= |lyt|
    requires n > 0 && Sorted(lyt) && Spread(lyt, n) && Answers(lyt, s, n, media)
    requires DeletedUpTo(lyt, s, n, media, io, rc, gone) && multiset(before) == multiset(lyt[..first])
    ensures (rc == 0 <==> NoFailure(io, |media|)) && multiset(before + gone) <= multiset(lyt)
    ensures rc == 0 ==> multiset(before + gone) == multiset(lyt[..next])
  {
    hide Present, FirstFrom, SplitSlice, Answers, NoFailure, Sorted, DeleteRc;
    SliceFacts(lyt, s, n);
    ErasedMore(lyt, s, n);
    AnsweredSplit(lyt, s, n, media, gone);
    FailureIff(lyt, s, n, media, io, rc, |gone|);
    DeletedOnce(lyt, next, first, before, gone, SplitSlice(lyt, s, n));
  }

  lemma {:induction false} FailureIff(lyt: seq<Extent>, s: nat, n: nat, media: seq<Medium>, io: Io, rc: int, count: nat)
    requires (forall k :: 0 <= k < |media| ==> media[k] in Media(SplitSlice(lyt, s, n))) && count <= |media|
    requires forall k :: 0 <= k < count ==> DeleteRc(lyt, s, n, media, io, k) == 0
    requires if rc == 0 then count == |media| else count < |media| && rc == DeleteRc(lyt, s, n, media, io, count)
    ensures rc == 0 <==> NoFailure(io, |media|)
  {
    hide SplitSlice;
    assert forall k :: 0 <= k < |media| ==>
      (DeleteRc(lyt, s, n, media, io, k) == 0 <==> io.adapterRc(k) == 0 && io.deleteRc(k) == 0);
  }

  lemma {:induction false} DeletedOnce(lyt: seq<Extent>, next: nat, first: nat, before: seq<Extent>, gone: seq<Extent>,
                                       slice: seq<Extent>)
    requires next <= |lyt| && first <= |lyt| && lyt[..next] == lyt[..first] + slice
    requires multiset(before) == multiset(lyt[..first]) && multiset(gone) <= multiset(slice)
    ensures multiset(before + gone) <= multiset(lyt)
    ensures multiset(gone) == multiset(slice) ==> multiset(before + gone) == multiset(lyt[..next])
  {
    assert lyt == lyt[..next] + lyt[next..];
    assert multiset(lyt) == multiset(lyt[..first]) + multiset(slice) + multiset(lyt[next..]);
  }

  /** The answer to a release response listing these media for split `s`. */
  function SplitAnswer(lyt: seq<Extent>, s: nat, n: nat, media: seq<Medium>): int {
    if |media| != Present(lyt, s * n, (s + 1) * n) then -EINVAL
    else if forall k :: 0 <= k < |media| ==> media[k] in Media(SplitSlice(lyt, s, n)) then 0
    else -ENOMEDIUM
  }

  lemma {:induction false} AcceptedIsPresent(lyt: seq<Extent>, s: nat, n: nat, media: seq<Medium>)
    ensures SplitAnswer(lyt, s, n, media) == 0 ==> |media| == Present(lyt, s * n, (s + 1) * n)
  {
  }

  lemma {:induction false} MediumOfSplit(lyt: seq<Extent>, s: nat, n: nat, m: Medium, at: nat)
    requires n > 0 && Sorted(lyt) && at <= |lyt|
    requires at < |lyt| ==> s * n <= lyt[at].layoutIdx < (s + 1) * n && lyt[at].medium == m
    requires at == |lyt| ==> forall k :: 0 <= k < |lyt| && s * n <= lyt[k].layoutIdx < (s + 1) * n ==>
      lyt[k].medium != m
    ensures m in Media(SplitSlice(lyt, s, n)) <==> at < |lyt|
  {
    if at < |lyt| {
      var slice := SplitSlice(lyt, s, n);
      InSlice(lyt, s, n, at);
      var k :| 0 <= k < |slice| && slice[k] == lyt[at];
      assert Media(slice)[k] == m;
    } else {
      MissingMedium(lyt, s, n, m);
    }
  }

  lemma {:induction false} ErasedMore(lyt: seq<Extent>, s: nat, n: nat)
    requires Sorted(lyt) && n > 0
    ensures lyt[..FirstFrom(lyt, (s + 1) * n)] == lyt[..FirstFrom(lyt, s * n)] + SplitSlice(lyt, s, n)
  {
    MulMonotone(s, s + 1, n);
    FirstFromMonotone(lyt, s * n, (s + 1) * n);
  }

  /**
   Erases an object, the daemon answering each request with the media of the split in some order, up to the first
   deletion that fails. No extent is deleted twice, and all are deleted if none fails.
   */
  method Erase(lyt: seq<Extent>, n: nat, answers: nat -> seq<Medium>, io: nat -> Io)
    returns (rc: int, deleted: seq<Extent>)
    requires n > 0 && Sorted(lyt) && Spread(lyt, n)
    requires forall s: nat :: Answers(lyt, s, n, answers(s))
    ensures multiset(deleted) <= multiset(lyt) && (rc == 0 ==> multiset(deleted) == multiset(lyt))
    ensures (forall s: nat :: NoFailure(io(s), |answers(s)|)) ==> rc == 0
  {
    hide Spread, Answers, Present, FirstFrom, SplitSlice, EraserProcessor.Counting, EraserProcessor.Releasing,
      NoFailure;
    var e := new EraserProcessor(lyt, n);
    rc := 0;
    if e.done {
      return 0, e.deleted;
    }
    e.FirstStep();
    while !e.done
      invariant e.lyt == lyt && e.n == n && e.Waiting() && rc == 0
      decreases !e.done, e.toDelete
    {
      var media := answers(e.currentSplit);
      rc := e.HandleAllocation(media, io(e.currentSplit));
      if rc != 0 {
        return rc, e.deleted;
      }
      AnswerAccepted(lyt, e.currentSplit, n, media);
      rc := e.HandleRelease(media);
    }
    deleted := e.deleted;
  }

  lemma {:induction false} AnswerAccepted(lyt: seq<Extent>, s: nat, n: nat, media: seq<Medium>)
    requires n > 0 && Sorted(lyt) && Spread(lyt, n) && Answers(lyt, s, n, media)
    ensures SplitAnswer(lyt, s, n, media) == 0
  {
    hide Present, FirstFrom, SplitSlice;
    SliceFacts(lyt, s, n);
    assert media[..0] == [] == Media([]);
    AnsweredSplit(lyt, s, n, media, []);
  }
}
