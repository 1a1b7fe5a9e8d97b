/**
 The requests that the scheduler makes of the rebuilder: one extent, and sometimes a
 medium to read it from. The rebuilder accepts all of them and can read enough extents.
 */
module SchedulerRequest {
  import opened Basics
  import opened SplitSizing
  import opened SplitPlan
  import opened RebuildSeek
  import opened RebuildList
  import opened SchedulerScore
  import opened SchedulerSelect
  import opened SchedulerCollect
  import opened SchedulerGroups
  import opened GroupKeys
  import opened SchedulerRun

  function AsList(only: Option<Medium>): seq<Medium> {
    if only.None? then [] else [only.value]
  }

  /** An extent of the split of `idx` is on this medium. */
  predicate InSameSplit(lyt: seq<Extent>, m: Medium, idx: nat, n: nat)
    requires n > 0
  {
    exists i :: 0 <= i < |lyt| && lyt[i].layoutIdx / n == idx / n && lyt[i].medium == m
  }

  /** The medium to read from is accepted: in the split of the extent to rebuild, and not its own medium. */
  predicate MediumAccepted(lyt: seq<Extent>, e: Extent, only: Option<Medium>, n: nat)
    requires n > 0
  {
    only.None? || (only.value != e.medium && InSameSplit(lyt, only.value, e.layoutIdx, n))
  }

  method MediaReadInSameSplit(lyt: seq<Extent>, m: Medium, idx: nat, n: nat) returns (ok: bool)
    requires n > 0
    ensures ok <==> InSameSplit(lyt, m, idx, n)
  {
    var split := idx / n;
    var i := 0;
    while i < |lyt|
      invariant 0 <= i <= |lyt|
      invariant forall k :: 0 <= k < i ==> !(lyt[k].layoutIdx / n == split && lyt[k].medium == m)
    {
      SplitRange(lyt[i].layoutIdx, split, n);
      if lyt[i].layoutIdx >= split * n && lyt[i].layoutIdx < (split + 1) * n && lyt[i].medium == m {
        return true;
      }
      i := i + 1;
    }
    return false;
  }

  /**
   The rebuilder's check of the medium to read from, for a list of one extent; None where the source dereferences the
   extent of an index that the layout does not have.
   */
  method ValidateMediaRead(lyt: seq<Extent>, only: Option<Medium>, list: seq<int>, n: nat) returns (ok: Option<bool>)
    requires n > 0 && Sorted(lyt)
    ensures ok == None <==> only.Some? && |list| == 1 && !HasIdx(lyt, list[0])
    ensures only.None? ==> ok == Some(true)
    ensures only.Some? && |list| != 1 ==> ok == Some(false)
    ensures only.Some? && |list| == 1 && ok.Some? ==>
      exists i :: 0 <= i < |lyt| && lyt[i].layoutIdx == list[0] && (ok.value <==> MediumAccepted(lyt, lyt[i], only, n))
  {
    if only.None? {
      return Some(true);
    }
    if |list| != 1 {
      return Some(false);
    }
    var at := ExtentFromLayoutIdx(lyt, list[0]);
    if at == |lyt| {
      return None;
    }
    if lyt[at].medium == only.value {
      return Some(false);
    }
    var same := MediaReadInSameSplit(lyt, only.value, list[0], n);
    ok := Some(same);
  }

  /** One copy of two is left, the other is listed, and the medium of the first is to be read: the list is accepted. */
  lemma {:induction false} MissingIsAccepted()
    ensures var lyt := [Extent(1, 0, 4, "A")];
      Sorted(lyt) && !HasIdx(lyt, 0) && Accepted(lyt, [0], 1, 1)
  {
    var lyt := [Extent(1, 0, 4, "A")];
    assert lyt[0].layoutIdx == 1;
    assert HasIdx(lyt, 1) && !HasIdx(lyt, 0);
    assert CountIn([0], 0, 2) == 1 + CountIn([0][1..], 0, 2);
    assert Kept(lyt, [0], 1, 2) == 1 + Kept(lyt, [0], 2, 2);
    assert SplitCount(lyt, 2) == 1 && SplitAccepted(lyt, [0], 0, 1, 1);
  }

  /** Both checks of the rebuilder there: the first one passes and the second one dereferences the missing extent. */
  method MissingExtent() returns (accepted: bool, ok: Option<bool>)
    ensures accepted && ok == None
  {
    hide Sorted, Accepted, HasIdx;
    MissingIsAccepted();
    var lyt := [Extent(1, 0, 4, "A")];
    accepted := ValidateExtentList(lyt, [0], 1, 1);
    ok := ValidateMediaRead(lyt, Some("A"), [0], 2);
  }

  // ---------------------------------------------------------------- acceptance

  function Indexes(extents: seq<Extent>): set<int> {
    set k | 0 <= k < |extents| :: extents[k].layoutIdx
  }

  lemma {:induction false} SourceIndexes(extents: seq<Extent>, e: Extent, n: nat)
    requires n > 0 && Sorted(extents)
    ensures |Indexes(Sources(extents, e, n))| == |Sources(extents, e, n)|
  {
    if extents != [] {
      var last := |extents| - 1;
      SourceIndexes(extents[..last], e, n);
      var before, x := Sources(extents[..last], e, n), extents[last];
      SourcesAre(extents[..last], e, n);
      assert x.layoutIdx !in Indexes(before) by {
        forall k | 0 <= k < |before|
          ensures before[k].layoutIdx != x.layoutIdx
        {
          assert before[k] in extents[..last];
        }
      }
      IndexesNext(before, x);
      assert before + [] == before;
    }
  }

  lemma {:induction false} IndexesNext(extents: seq<Extent>, x: Extent)
    ensures Indexes(extents + [x]) == Indexes(extents) + {x.layoutIdx}
  {
    forall i | i in Indexes(extents)
      ensures i in Indexes(extents + [x])
    {
      var k :| 0 <= k < |extents| && extents[k].layoutIdx == i;
      assert (extents + [x])[k].layoutIdx == i;
    }
    assert (extents + [x])[|extents|] == x;
  }

  /** One index of the range is listed: the others are at most all the others. */
  lemma {:induction false} KeptBound(lyt: seq<Extent>, idx: int, lo: int, hi: int)
    requires lo <= hi
    ensures Kept(lyt, [idx], lo, hi) <= hi - lo - if lo <= idx < hi then 1 else 0
    decreases hi - lo
  {
    if lo < hi {
      KeptBound(lyt, idx, lo + 1, hi);
    }
  }

  /** Listing an index outside of a split leaves the split whole. */
  lemma {:induction false} KeptElsewhere(lyt: seq<Extent>, idx: int, lo: int, hi: int)
    requires !(lo <= idx < hi)
    ensures Kept(lyt, [idx], lo, hi) == Present(lyt, lo, hi)
    decreases hi - lo
  {
    if lo < hi {
      KeptElsewhere(lyt, idx, lo + 1, hi);
    }
  }

  lemma {:induction false} CountOfOne(idx: int, lo: int, hi: int)
    ensures CountIn([idx], lo, hi) == if lo <= idx < hi then 1 else 0
  {
    assert [idx][1..] == [];
  }

  /** The sources of an extent are kept in its split when it is to be rebuilt. */
  lemma {:induction false} SourcesAreKept(lyt: seq<Extent>, j: nat, n: nat)
    requires n > 0 && Sorted(lyt) && j < |lyt|
    ensures var s := lyt[j].layoutIdx / n;
      Kept(lyt, [lyt[j].layoutIdx], s * n, (s + 1) * n) >= |Sources(lyt, lyt[j], n)|
  {
    hide Kept, Sources, KeptSet, Indexes;
    var e := lyt[j];
    var lo, hi := e.layoutIdx / n * n, (e.layoutIdx / n + 1) * n;
    SourceIndexes(lyt, e, n);
    KeptSetSize(lyt, [e.layoutIdx], lo, hi);
    SourcesInKept(lyt, e, n, lo, hi);
    SubsetSize(Indexes(Sources(lyt, e, n)), KeptSet(lyt, [e.layoutIdx], lo, hi));
  }

  lemma {:induction false} SourcesInKept(lyt: seq<Extent>, e: Extent, n: nat, lo: int, hi: int)
    requires n > 0 && Sorted(lyt) && e in lyt && lo == e.layoutIdx / n * n && hi == (e.layoutIdx / n + 1) * n
    ensures Indexes(Sources(lyt, e, n)) <= KeptSet(lyt, [e.layoutIdx], lo, hi)
  {
    hide Sources, Sorted, HasIdx;
    var avail := Sources(lyt, e, n);
    SourcesAre(lyt, e, n);
    forall k | 0 <= k < |avail|
      ensures avail[k].layoutIdx in KeptSet(lyt, [e.layoutIdx], lo, hi)
    {
      assert avail[k] in avail && IsSource(avail[k], e, n);
      OneExtent(lyt, avail[k], e);
      SplitRange(avail[k].layoutIdx, e.layoutIdx / n, n);
    }
  }

  lemma {:induction false} OneExtent(lyt: seq<Extent>, x: Extent, e: Extent)
    requires Sorted(lyt) && x in lyt && e in lyt
    ensures HasIdx(lyt, x.layoutIdx) && (x.layoutIdx == e.layoutIdx ==> x == e)
  {
    var i :| 0 <= i < |lyt| && lyt[i] == x;
    var j :| 0 <= j < |lyt| && lyt[j] == e;
  }

  /** Every split has as many extents as data extents. */
  ghost predicate AllReadable(lyt: seq<Extent>, d: nat, n: nat)
    requires n > 0 && |lyt| > 0
  {
    forall s: nat :: s < SplitCount(lyt, n) ==> Present(lyt, s * n, (s + 1) * n) >= d
  }

  /** The list that the scheduler asks for is accepted. */
  lemma {:induction false} ListAccepted(lyt: seq<Extent>, j: nat, d: nat, p: nat)
    requires d + p > 0 && Sorted(lyt) && j < |lyt| && AllReadable(lyt, d, d + p)
    requires |Sources(lyt, lyt[j], d + p)| >= d
    ensures p > 0 && Accepted(lyt, [lyt[j].layoutIdx], d, p)
  {
    hide Kept, Present, CountIn, Sources;
    var n, idx := d + p, lyt[j].layoutIdx;
    var own := idx / n;
    SourcesAreKept(lyt, j, n);
    SplitRange(idx, own, n);
    KeptBound(lyt, idx, own * n, (own + 1) * n);
    assert (own + 1) * n - own * n == n;
    forall s: nat | s < SplitCount(lyt, n)
      ensures SplitAccepted(lyt, [idx], s, d, p)
    {
      SplitRange(idx, s, n);
      CountOfOne(idx, s * n, (s + 1) * n);
      if s != own {
        KeptElsewhere(lyt, idx, s * n, (s + 1) * n);
      }
    }
  }

  /** With one parity extent a medium is never chosen: the sources are just enough. */
  lemma {:induction false} OneParityNoChoice(lyt: seq<Extent>, j: nat, d: nat)
    requires Sorted(lyt) && j < |lyt| && |Sources(lyt, lyt[j], d + 1)| >= d
    ensures |Sources(lyt, lyt[j], d + 1)| == d
  {
    hide Kept, Sources;
    var n, idx := d + 1, lyt[j].layoutIdx;
    var own := idx / n;
    SourcesAreKept(lyt, j, n);
    SplitRange(idx, own, n);
    KeptBound(lyt, idx, own * n, (own + 1) * n);
    assert (own + 1) * n - own * n == n;
  }

  /** On a chosen medium the split has one extent to read. */
  lemma {:induction false} ReadableOnMedium(lyt: seq<Extent>, e: Extent, x: Extent, n: nat)
    requires n > 0 && Sorted(lyt) && DistinctInSplits(lyt, n) && e in lyt && x in lyt && IsSource(x, e, n)
    ensures Readable(lyt, [e.layoutIdx], [x.medium], e.layoutIdx / n, n) == {x.layoutIdx}
  {
    OneExtent(lyt, x, e);
    var i :| 0 <= i < |lyt| && lyt[i] == x;
    assert CanRead(lyt[i], [e.layoutIdx], [x.medium]);
    forall k | 0 <= k < |lyt| && lyt[k].layoutIdx / n == e.layoutIdx / n && CanRead(lyt[k], [e.layoutIdx], [x.medium])
      ensures k == i
    {
    }
  }

  /**
   The rebuilder accepts to rebuild the extent at `j`, reading from a chosen medium or not, and then has enough extents
   to read from unless a medium was chosen for a split of several data extents.
   */
  ghost predicate Served(lyt: seq<Extent>, j: nat, d: nat, p: nat, only: Option<Medium>)
    requires d + p > 0 && j < |lyt|
  {
    var n, idx := d + p, lyt[j].layoutIdx;
    && Accepted(lyt, [idx], d, p)
    && MediumAccepted(lyt, lyt[j], only, n)
    && (|Readable(lyt, [idx], AsList(only), idx / n, n)| >= d <==> only.None? || d <= 1)
  }

  lemma {:induction false} RequestServed(lyt: seq<Extent>, j: nat, d: nat, p: nat, avail: seq<Extent>,
                                         only: Option<Medium>)
    requires d + p > 0 && Sorted(lyt) && DistinctInSplits(lyt, d + p) && j < |lyt| && AllReadable(lyt, d, d + p)
    requires avail == Sources(lyt, lyt[j], d + p) && |avail| >= d
    requires only.None? || exists k :: 0 <= k < |avail| && only.value == avail[k].medium
    ensures Served(lyt, j, d, p, only)
  {
    hide Sources, Accepted, Readable, AllReadable, DistinctInSplits, Sorted;
    var n, e := d + p, lyt[j];
    ListAccepted(lyt, j, d, p);
    OwnSplit(lyt, j, n);
    if only.None? {
      AcceptedIsReadable(lyt, [e.layoutIdx], d, p, e.layoutIdx / n);
    } else {
      var k :| 0 <= k < |avail| && only.value == avail[k].medium;
      SourcesAre(lyt, e, n);
      assert avail[k] in avail && e in lyt;
      ReadableOnMedium(lyt, e, avail[k], n);
    }
  }

  /** Every item of the scheduler is served; a medium is chosen only when there are several parity extents. */
  lemma {:induction false} ItemServed(layouts: seq<Layout>, frequency: map<Medium, nat>, x: Place, item: Item, key: Key)
    requires WellFormed(layouts) && AllDistinct(layouts) && Assigned(layouts, frequency, x, item, key)
    requires Sorted(layouts[x.0].extents)
    requires AllReadable(layouts[x.0].extents, layouts[x.0].info.value.d,
                         layouts[x.0].info.value.d + layouts[x.0].info.value.p)
    ensures Served(layouts[x.0].extents, x.1, layouts[x.0].info.value.d, layouts[x.0].info.value.p, item.only)
    ensures layouts[x.0].info.value.p == 1 ==> item.only.None?
  {
    hide Sources, Served, AllReadable, DistinctInSplits, Sorted, MostFrequent;
    var lyt, info := layouts[x.0].extents, layouts[x.0].info.value;
    var avail := Sources(lyt, lyt[x.1], info.d + info.p);
    RequestServed(lyt, x.1, info.d, info.p, avail, item.only);
    if info.p == 1 {
      OneParityNoChoice(lyt, x.1, info.d);
    }
  }

  /** The layouts are sorted, and every split keeps enough extents to be read. */
  ghost predicate Intact(layouts: seq<Layout>)
    requires WellFormed(layouts)
  {
    forall i :: 0 <= i < |layouts| && layouts[i].info.Some? && |layouts[i].extents| > 0 ==>
      && Sorted(layouts[i].extents)
      && AllReadable(layouts[i].extents, layouts[i].info.value.d, layouts[i].info.value.d + layouts[i].info.value.p)
  }

  /** Every request of a run is served, whatever groups were made and in whatever order they were taken. */
  lemma {:induction false} RunServed(layouts: seq<Layout>, med: Medium, run: Schedule, x: Item)
    requires WellFormed(layouts) && AllDistinct(layouts) && Intact(layouts) && Scheduled(layouts, med, run)
    requires x in Concat(run.groups, run.keys)
    ensures x.layout < |layouts| && layouts[x.layout].info.Some? && x.at < |layouts[x.layout].extents|
    ensures var l := layouts[x.layout]; Served(l.extents, x.at, l.info.value.d, l.info.value.p, x.only)
  {
    hide Scheduled, AllDistinct, Served, AllReadable, Sorted, Sources, MostFrequent, Concat;
    EmittedAssigned(layouts, med, run, x);
    ItemServed(layouts, run.frequency, (x.layout, x.at), x, run.keyOf[x]);
  }

  lemma {:induction false} OwnSplit(lyt: seq<Extent>, j: nat, n: nat)
    requires n > 0 && Sorted(lyt) && j < |lyt|
    ensures lyt[j].layoutIdx / n < SplitCount(lyt, n)
  {
    var last := lyt[|lyt| - 1].layoutIdx;
    SplitRange(last, lyt[j].layoutIdx / n, n);
    SplitRange(lyt[j].layoutIdx, lyt[j].layoutIdx / n, n);
  }

  // ---------------------------------------------------------------- the media of a group

  /** The media of the extents that have these layout indexes. */
  function MediaAt(lyt: seq<Extent>, indexes: set<int>): set<Medium> {
    set i | 0 <= i < |lyt| && lyt[i].layoutIdx in indexes :: lyt[i].medium
  }

  /** The sources of an extent are the extents that its rebuild may read when no medium is chosen. */
  lemma {:induction false} SourcesAreReadable(lyt: seq<Extent>, e: Extent, n: nat)
    requires n > 0 && Sorted(lyt) && DistinctInSplits(lyt, n) && e in lyt
    ensures Indexes(Sources(lyt, e, n)) == Readable(lyt, [e.layoutIdx], [], e.layoutIdx / n, n)
    ensures |Readable(lyt, [e.layoutIdx], [], e.layoutIdx / n, n)| == |Sources(lyt, e, n)|
  {
    hide Sources, Sorted, DistinctInSplits;
    var avail, all := Sources(lyt, e, n), Readable(lyt, [e.layoutIdx], [], e.layoutIdx / n, n);
    SourcesAre(lyt, e, n);
    forall k | 0 <= k < |avail|
      ensures avail[k].layoutIdx in all
    {
      assert avail[k] in avail;
      var i :| 0 <= i < |lyt| && lyt[i] == avail[k];
      OneExtent(lyt, lyt[i], e);
      assert CanRead(lyt[i], [e.layoutIdx], []);
    }
    forall i | 0 <= i < |lyt| && lyt[i].layoutIdx / n == e.layoutIdx / n && lyt[i].layoutIdx != e.layoutIdx
      ensures lyt[i].layoutIdx in Indexes(avail)
    {
      OtherMedium(lyt, i, e, n);
      assert lyt[i] in avail;
    }
    assert Indexes(avail) == all;
    SourceIndexes(lyt, e, n);
  }

  lemma {:induction false} OtherMedium(lyt: seq<Extent>, i: nat, e: Extent, n: nat)
    requires n > 0 && DistinctInSplits(lyt, n) && e in lyt && i < |lyt|
    requires lyt[i].layoutIdx / n == e.layoutIdx / n && lyt[i].layoutIdx != e.layoutIdx
    ensures IsSource(lyt[i], e, n)
  {
    var j :| 0 <= j < |lyt| && lyt[j] == e;
  }

  /** The media of these sources are the media of their indexes. */
  lemma {:induction false} MediaOfSources(lyt: seq<Extent>, avail: seq<Extent>)
    requires Sorted(lyt) && forall x :: x in avail ==> x in lyt
    ensures MediaAt(lyt, Indexes(avail)) == MediaOf(Media(avail))
  {
    hide Sorted;
    forall m: Medium | m in MediaAt(lyt, Indexes(avail))
      ensures m in MediaOf(Media(avail))
    {
      var i :| 0 <= i < |lyt| && lyt[i].layoutIdx in Indexes(avail) && lyt[i].medium == m;
      var k :| 0 <= k < |avail| && avail[k].layoutIdx == lyt[i].layoutIdx;
      OneExtent(lyt, lyt[i], avail[k]);
      assert Media(avail)[k] == m;
    }
    forall m: Medium | m in MediaOf(Media(avail))
      ensures m in MediaAt(lyt, Indexes(avail))
    {
      var k :| 0 <= k < |avail| && Media(avail)[k] == m;
      assert avail[k] in avail;
      var i :| 0 <= i < |lyt| && lyt[i] == avail[k];
      assert avail[k].layoutIdx in Indexes(avail);
    }
  }

  lemma {:induction false} MediaOfOne(lyt: seq<Extent>, x: Extent)
    requires Sorted(lyt) && x in lyt
    ensures MediaAt(lyt, {x.layoutIdx}) == {x.medium}
  {
    MediaOfSources(lyt, [x]);
    assert Indexes([x]) == {x.layoutIdx} by {
      assert [x][0].layoutIdx == x.layoutIdx;
    }
    assert Media([x]) == [x.medium];
  }

  lemma {:induction false} KeyMedia(media: seq<Medium>)
    ensures MediaOf(SortMedia(media)) == MediaOf(media)
  {
    SortFacts(media);
    forall m: Medium
      ensures m in SortMedia(media) <==> m in media
    {
      assert m in SortMedia(media) <==> m in multiset(SortMedia(media));
      assert m in media <==> m in multiset(media);
    }
  }

  /** An extent of the split is on medium `m`, not the one of `e`, and no other such medium is needed more often. */
  ghost predicate MostNeeded(lyt: seq<Extent>, e: Extent, n: nat, frequency: map<Medium, nat>, m: Medium)
    requires n > 0
  {
    && m != e.medium && InSameSplit(lyt, m, e.layoutIdx, n)
    && forall i :: 0 <= i < |lyt| && lyt[i].layoutIdx / n == e.layoutIdx / n && lyt[i].medium != e.medium ==>
         Lookup(frequency, lyt[i].medium) <= Lookup(frequency, m)
  }

  lemma {:induction false} FrequentIsMostNeeded(lyt: seq<Extent>, e: Extent, n: nat, frequency: map<Medium, nat>)
    requires n > 0 && |Sources(lyt, e, n)| > 0
    ensures var avail := Sources(lyt, e, n); MostNeeded(lyt, e, n, frequency,
      avail[MostFrequent(frequency, avail)].medium)
  {
    hide Sources;
    SourcesAre(lyt, e, n);
    var avail := Sources(lyt, e, n);
    var x := avail[MostFrequent(frequency, avail)];
    assert x in avail;
    forall i | 0 <= i < |lyt| && IsSource(lyt[i], e, n)
      ensures Lookup(frequency, lyt[i].medium) <= Lookup(frequency, x.medium)
    {
      assert lyt[i] in avail;
    }
  }

  /**
   The key of an item lists the media that its rebuild reads, and nothing else. A medium is chosen exactly when more
   extents are left than are needed; it is then the whole key, and the one that is needed most.
   */
  ghost predicate KeyIsReadMedia(lyt: seq<Extent>, j: nat, info: Info, frequency: map<Medium, nat>,
                                 only: Option<Medium>, key: Key)
    requires info.d + info.p > 0 && j < |lyt|
  {
    var n, e := info.d + info.p, lyt[j];
    var split := e.layoutIdx / n;
    && MediaOf(key) == MediaAt(lyt, Readable(lyt, [e.layoutIdx], AsList(only), split, n))
    && (only.Some? <==> |Readable(lyt, [e.layoutIdx], [], split, n)| > info.d)
    && (only.Some? ==> key == [only.value] && MostNeeded(lyt, e, n, frequency, only.value))
  }

  lemma {:induction false} KeyIsRead(layouts: seq<Layout>, frequency: map<Medium, nat>, x: Place, item: Item, key: Key)
    requires WellFormed(layouts) && AllDistinct(layouts) && Assigned(layouts, frequency, x, item, key)
    requires Sorted(layouts[x.0].extents)
    ensures KeyIsReadMedia(layouts[x.0].extents, x.1, layouts[x.0].info.value, frequency, item.only, key)
  {
    hide Sources, Sorted, DistinctInSplits, MostFrequent, Readable, MediaAt, MediaOf, SortMedia, MostNeeded;
    var lyt, info := layouts[x.0].extents, layouts[x.0].info.value;
    var n, e := info.d + info.p, lyt[x.1];
    var avail := Sources(lyt, e, n);
    SourcesAre(lyt, e, n);
    SourcesAreReadable(lyt, e, n);
    if |avail| == info.d {
      MediaOfSources(lyt, avail);
      KeyMedia(Media(avail));
    } else {
      FrequentIsMostNeeded(lyt, e, n, frequency);
      var source := avail[MostFrequent(frequency, avail)];
      assert source in avail;
      ReadableOnMedium(lyt, e, source, n);
      MediaOfOne(lyt, source);
      KeyOfOne(source.medium);
    }
  }

  lemma {:induction false} KeyOfOne(m: Medium)
    ensures SortMedia([m]) == [m] && MediaOf([m]) == {m}
  {
    assert [m][1..] == [];
  }

  /** In every run, the key of a group is the set of media that each of its extents is read from. */
  lemma {:induction false} RunKeyIsRead(layouts: seq<Layout>, med: Medium, run: Schedule, k: Key, x: Item)
    requires WellFormed(layouts) && AllDistinct(layouts) && Intact(layouts) && Scheduled(layouts, med, run)
    requires k in run.groups && x in run.groups[k]
    ensures x.layout < |layouts| && layouts[x.layout].info.Some? && x.at < |layouts[x.layout].extents|
    ensures var l := layouts[x.layout]; KeyIsReadMedia(l.extents, x.at, l.info.value, run.frequency, x.only, k)
  {
    hide AllDistinct, Sorted, AllReadable, IsFrequency, Greedy, OldestFirst, KeyIsReadMedia, SortMedia, Sources;
    GroupIsKey(run.groups, run.keyOf, k, x);
    assert Assigned(layouts, run.frequency, (x.layout, x.at), x, k);
    KeyIsRead(layouts, run.frequency, (x.layout, x.at), x, k);
  }

  lemma {:induction false} EnoughSources(lyt: seq<Extent>, j: nat, d: nat, p: nat)
    requires d + p > 0 && Sorted(lyt) && DistinctInSplits(lyt, d + p) && j < |lyt| && AllReadable(lyt, d, d + p)
    ensures |Sources(lyt, lyt[j], d + p)| >= d <==> Accepted(lyt, [lyt[j].layoutIdx], d, p)
  {
    hide Sources, Accepted, AllReadable, Sorted, DistinctInSplits, Readable;
    var e := lyt[j];
    if |Sources(lyt, e, d + p)| >= d {
      ListAccepted(lyt, j, d, p);
    }
    if Accepted(lyt, [e.layoutIdx], d, p) {
      OwnSplit(lyt, j, d + p);
      AcceptedIsReadable(lyt, [e.layoutIdx], d, p, e.layoutIdx / (d + p));
      SourcesAreReadable(lyt, e, d + p);
    }
  }

  /** The scheduler takes an extent exactly when the rebuilder would accept to rebuild it alone. */
  lemma {:induction false} EnoughIffAccepted(layouts: seq<Layout>, x: Place)
    requires WellFormed(layouts) && AllDistinct(layouts) && Intact(layouts)
    requires IsPlace(layouts, x) && layouts[x.0].info.Some?
    ensures var l := layouts[x.0];
      Enough(layouts, x) <==> Accepted(l.extents, [l.extents[x.1].layoutIdx], l.info.value.d, l.info.value.p)
  {
    hide Sources, Accepted, AllReadable, Sorted, DistinctInSplits;
    EnoughSources(layouts[x.0].extents, x.1, layouts[x.0].info.value.d, layouts[x.0].info.value.p);
  }
}
