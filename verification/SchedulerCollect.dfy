/**
 The extents on a lost medium that can be rebuilt, the extents each of them can be
 rebuilt from, and how often each medium could be read for that.
 */
module SchedulerCollect {
  import opened Basics
  import opened SplitSizing
  import opened SplitPlan
  import opened SchedulerScore

  /** Data and parity extents in a split. */
  datatype Info = Info(d: nat, p: nat)

  /** The layout of a copy; `info` is missing when the number of its replicas cannot be read. */
  datatype Layout = Layout(info: Option<Info>, extents: seq<Extent>, created: seq<Time>)

  predicate WellFormed(layouts: seq<Layout>) {
    forall i :: 0 <= i < |layouts| ==>
      |layouts[i].created| == |layouts[i].extents| &&
      (layouts[i].info.Some? ==> layouts[i].info.value.d + layouts[i].info.value.p > 0)
  }

  // ---------------------------------------------------------------- sources

  predicate IsSource(x: Extent, e: Extent, n: nat)
    requires n > 0
  {
    x.layoutIdx / n == e.layoutIdx / n && x.medium != e.medium
  }

  /** The extents of the split of `e` on other media. */
  function Sources(extents: seq<Extent>, e: Extent, n: nat): seq<Extent>
    requires n > 0
  {
    if extents == [] then [] else
      var last := |extents| - 1;
      Sources(extents[..last], e, n) + if IsSource(extents[last], e, n) then [extents[last]] else []
  }

  method ExtentsToRebuildFrom(extents: seq<Extent>, e: Extent, n: nat) returns (avail: seq<Extent>)
    requires n > 0
    ensures avail == Sources(extents, e, n)
  {
    hide IsSource;
    avail := [];
    var split := e.layoutIdx / n;
    var i := 0;
    while i < |extents|
      invariant 0 <= i <= |extents| && avail == Sources(extents[..i], e, n)
    {
      assert extents[..i + 1][..i] == extents[..i];
      OtherSplit(extents[i], e, split, n);
      var x := extents[i];
      i := i + 1;
      if x.layoutIdx < split * n || x.layoutIdx >= (split + 1) * n {
        continue;
      }
      if e.medium == x.medium {
        continue;
      }
      avail := avail + [x];
    }
    assert extents[..i] == extents;
  }

  lemma {:induction false} OtherSplit(x: Extent, e: Extent, split: nat, n: nat)
    requires n > 0 && split == e.layoutIdx / n
    ensures IsSource(x, e, n) <==> split * n <= x.layoutIdx < (split + 1) * n && x.medium != e.medium
  {
    SplitRange(x.layoutIdx, split, n);
  }

  // ---------------------------------------------------------------- collection

  /** An extent of a layout, by position. */
  type Place = (nat, nat)

  predicate IsPlace(layouts: seq<Layout>, x: Place) {
    x.0 < |layouts| && x.1 < |layouts[x.0].extents|
  }

  predicate OnMedium(layouts: seq<Layout>, med: Medium, x: Place) {
    IsPlace(layouts, x) && layouts[x.0].extents[x.1].medium == med
  }

  predicate Known(layouts: seq<Layout>, found: seq<Place>) {
    forall x: Place :: x in found ==> IsPlace(layouts, x)
  }

  function SourcesOf(layouts: seq<Layout>, x: Place): seq<Extent>
    requires WellFormed(layouts) && IsPlace(layouts, x)
  {
    var l := layouts[x.0];
    if l.info.None? then [] else Sources(l.extents, l.extents[x.1], l.info.value.d + l.info.value.p)
  }

  /** As many sources as the split has data extents. */
  predicate Enough(layouts: seq<Layout>, x: Place)
    requires WellFormed(layouts) && IsPlace(layouts, x)
  {
    layouts[x.0].info.Some? && |SourcesOf(layouts, x)| >= layouts[x.0].info.value.d
  }

  predicate Before(x: Place, i: nat, j: nat) {
    x.0 < i || (x.0 == i && x.1 < j)
  }

  /** Among the places before (i, j), `found` lists those to rebuild, once each; `skipped` tells if others were left. */
  ghost predicate Collected(layouts: seq<Layout>, med: Medium, i: nat, j: nat, found: seq<Place>, skipped: bool)
    requires WellFormed(layouts)
  {
    && NoDup(found)
    && (forall x: Place :: x in found <==> Before(x, i, j) && OnMedium(layouts, med, x) && Enough(layouts, x))
    && (skipped <==> exists x: Place :: Before(x, i, j) && OnMedium(layouts, med, x) && !Enough(layouts, x))
  }

  lemma {:induction false} CollectedNone(layouts: seq<Layout>, med: Medium)
    requires WellFormed(layouts)
    ensures Collected(layouts, med, 0, 0, [], false)
  {
  }

  lemma {:induction false} CollectedNext(layouts: seq<Layout>, med: Medium, i: nat, j: nat,
                                         found: seq<Place>, skipped: bool)
    requires WellFormed(layouts) && IsPlace(layouts, (i, j)) && Collected(layouts, med, i, j, found, skipped)
    ensures !OnMedium(layouts, med, (i, j)) ==> Collected(layouts, med, i, j + 1, found, skipped)
    ensures OnMedium(layouts, med, (i, j)) && Enough(layouts, (i, j)) ==>
      Collected(layouts, med, i, j + 1, found + [(i, j)], skipped)
    ensures OnMedium(layouts, med, (i, j)) && !Enough(layouts, (i, j)) ==>
      Collected(layouts, med, i, j + 1, found, true)
  {
    hide Enough, OnMedium;
    assert forall x: Place :: Before(x, i, j + 1) <==> Before(x, i, j) || x == (i, j);
    if OnMedium(layouts, med, (i, j)) && !Enough(layouts, (i, j)) {
      assert Before((i, j), i, j + 1);
    }
  }

  lemma {:induction false} CollectedLayout(layouts: seq<Layout>, med: Medium, i: nat, found: seq<Place>, skipped: bool)
    requires WellFormed(layouts) && i < |layouts|
    requires Collected(layouts, med, i, |layouts[i].extents|, found, skipped)
    ensures Collected(layouts, med, i + 1, 0, found, skipped)
  {
    hide Enough;
    forall x: Place
      ensures Before(x, i + 1, 0) && OnMedium(layouts, med, x)
         <==> Before(x, i, |layouts[i].extents|) && OnMedium(layouts, med, x)
    {
    }
  }

  // ---------------------------------------------------------------- frequency

  /** How many sources of the collected extents are on this medium. */
  function Frequency(layouts: seq<Layout>, found: seq<Place>, m: Medium): nat
    requires WellFormed(layouts) && Known(layouts, found)
  {
    if found == [] then 0 else
      var last := |found| - 1;
      Frequency(layouts, found[..last], m) + multiset(Media(SourcesOf(layouts, found[last])))[m]
  }

  ghost predicate IsFrequency(layouts: seq<Layout>, found: seq<Place>, frequency: map<Medium, nat>)
    requires WellFormed(layouts) && Known(layouts, found)
  {
    forall m: Medium :: Lookup(frequency, m) == Frequency(layouts, found, m)
  }

  method ComputeFrequency(avail: seq<Extent>, before: map<Medium, nat>) returns (frequency: map<Medium, nat>)
    ensures forall m: Medium :: Lookup(frequency, m) == Lookup(before, m) + multiset(Media(avail))[m]
  {
    frequency := before;
    var i := 0;
    while i < |avail|
      invariant 0 <= i <= |avail|
      invariant forall m: Medium :: Lookup(frequency, m) == Lookup(before, m) + multiset(Media(avail)[..i])[m]
    {
      var m := avail[i].medium;
      frequency := frequency[m := Lookup(frequency, m) + 1];
      assert Media(avail)[..i + 1] == Media(avail)[..i] + [m];
      i := i + 1;
    }
    assert Media(avail)[..i] == Media(avail);
  }

  lemma {:induction false} FrequencyNext(layouts: seq<Layout>, found: seq<Place>, x: Place, before: map<Medium, nat>,
                                         frequency: map<Medium, nat>)
    requires WellFormed(layouts) && Known(layouts, found) && IsPlace(layouts, x)
    requires IsFrequency(layouts, found, before)
    requires forall m: Medium :: Lookup(frequency, m) == Lookup(before, m) + multiset(Media(SourcesOf(layouts, x)))[m]
    ensures IsFrequency(layouts, found + [x], frequency)
  {
    hide SourcesOf, Media, Lookup;
    forall m: Medium
      ensures Lookup(frequency, m) == Frequency(layouts, found + [x], m)
    {
      assert (found + [x])[..|found|] == found;
    }
  }

  /** The collected extents make every medium of their sources frequent. */
  lemma {:induction false} SourceIsFrequent(layouts: seq<Layout>, found: seq<Place>, x: Place, k: nat)
    requires WellFormed(layouts) && Known(layouts, found) && x in found
    requires k < |SourcesOf(layouts, x)|
    ensures Frequency(layouts, found, SourcesOf(layouts, x)[k].medium) > 0
    decreases |found|
  {
    hide SourcesOf;
    var last, m := |found| - 1, SourcesOf(layouts, x)[k].medium;
    if x == found[last] {
      assert Media(SourcesOf(layouts, x))[k] == m;
    } else {
      assert x in found[..last];
      SourceIsFrequent(layouts, found[..last], x, k);
    }
  }

  // ---------------------------------------------------------------- the two loops

  /** The extents of layout `i` on the medium. */
  method CollectLayout(layouts: seq<Layout>, med: Medium, i: nat, found0: seq<Place>, frequency0: map<Medium, nat>,
                       skipped0: bool)
    returns (rc: int, found: seq<Place>, frequency: map<Medium, nat>, skipped: bool)
    requires WellFormed(layouts) && i < |layouts| && Collected(layouts, med, i, 0, found0, skipped0)
    requires Known(layouts, found0) && IsFrequency(layouts, found0, frequency0)
    ensures rc == 0 || rc == -EINVAL
    ensures rc == 0 <==> forall j :: OnMedium(layouts, med, (i, j)) ==> layouts[i].info.Some?
    ensures rc == 0 ==> Collected(layouts, med, i + 1, 0, found, skipped)
    ensures rc == 0 ==> Known(layouts, found) && IsFrequency(layouts, found, frequency)
  {
    hide Collected, IsFrequency, Known, Enough;
    rc, found, frequency, skipped := 0, found0, frequency0, skipped0;
    var extents := layouts[i].extents;
    var j := 0;
    while j < |extents|
      invariant 0 <= j <= |extents| && rc == 0
      invariant Known(layouts, found) && IsFrequency(layouts, found, frequency)
      invariant forall k :: 0 <= k < j && OnMedium(layouts, med, (i, k)) ==> layouts[i].info.Some?
      invariant Collected(layouts, med, i, j, found, skipped)
    {
      CollectedNext(layouts, med, i, j, found, skipped);
      j := j + 1;
      if med != extents[j - 1].medium {
        continue;
      }
      assert OnMedium(layouts, med, (i, j - 1));
      if layouts[i].info.None? {
        rc := -EINVAL;
        return;
      }
      var info := layouts[i].info.value;
      var avail := ExtentsToRebuildFrom(extents, extents[j - 1], info.d + info.p);
      EnoughIs(layouts, (i, j - 1), avail);
      if |avail| < info.d {
        skipped := true;
        continue;
      }
      ghost var before := frequency;
      frequency := ComputeFrequency(avail, frequency);
      KnownNext(layouts, found, (i, j - 1), before, frequency);
      found := found + [(i, j - 1)];
    }
    CollectedLayout(layouts, med, i, found, skipped);
  }

  lemma {:induction false} EnoughIs(layouts: seq<Layout>, x: Place, avail: seq<Extent>)
    requires WellFormed(layouts) && IsPlace(layouts, x) && layouts[x.0].info.Some?
    requires var info := layouts[x.0].info.value;
      avail == Sources(layouts[x.0].extents, layouts[x.0].extents[x.1], info.d + info.p)
    ensures avail == SourcesOf(layouts, x) && (Enough(layouts, x) <==> |avail| >= layouts[x.0].info.value.d)
  {
  }

  lemma {:induction false} KnownNext(layouts: seq<Layout>, found: seq<Place>, x: Place, before: map<Medium, nat>,
                                     frequency: map<Medium, nat>)
    requires WellFormed(layouts) && Known(layouts, found) && IsPlace(layouts, x) && IsFrequency(layouts, found, before)
    requires forall m: Medium :: Lookup(frequency, m) == Lookup(before, m) + multiset(Media(SourcesOf(layouts, x)))[m]
    ensures Known(layouts, found + [x]) && IsFrequency(layouts, found + [x], frequency)
  {
    hide IsFrequency, SourcesOf, Media, Lookup;
    FrequencyNext(layouts, found, x, before, frequency);
  }

  /** The extents on the medium that can be rebuilt, and the frequency of the media to read them from. */
  method Collect(layouts: seq<Layout>, med: Medium, skipped0: bool)
    returns (rc: int, found: seq<Place>, frequency: map<Medium, nat>, skipped: bool)
    requires WellFormed(layouts)
    ensures rc == 0 || rc == -EINVAL
    ensures rc == 0 <==> forall x: Place :: OnMedium(layouts, med, x) ==> layouts[x.0].info.Some?
    ensures rc == 0 ==> Known(layouts, found) && IsFrequency(layouts, found, frequency) && NoDup(found)
    ensures rc == 0 ==> forall x: Place :: x in found <==> OnMedium(layouts, med, x) && Enough(layouts, x)
    ensures rc == 0 ==> (skipped <==> skipped0 || exists x: Place :: OnMedium(layouts, med, x) && !Enough(layouts, x))
  {
    hide Collected, IsFrequency, Enough;
    rc, found, frequency := 0, [], map[];
    var left := false;
    skipped := skipped0;
    CollectedNone(layouts, med);
    NothingFrequent(layouts);
    var i := 0;
    while i < |layouts|
      invariant 0 <= i <= |layouts| && rc == 0
      invariant Collected(layouts, med, i, 0, found, left)
      invariant Known(layouts, found) && IsFrequency(layouts, found, frequency)
      invariant forall x: Place :: x.0 < i && OnMedium(layouts, med, x) ==> layouts[x.0].info.Some?
    {
      rc, found, frequency, left := CollectLayout(layouts, med, i, found, frequency, left);
      if rc != 0 {
        return;
      }
      i := i + 1;
    }
    CollectedAll(layouts, med, found, left);
    skipped := skipped0 || left;
  }

  lemma {:induction false} NothingFrequent(layouts: seq<Layout>)
    requires WellFormed(layouts)
    ensures Known(layouts, []) && IsFrequency(layouts, [], map[])
  {
  }

  lemma {:induction false} CollectedAll(layouts: seq<Layout>, med: Medium, found: seq<Place>, skipped: bool)
    requires WellFormed(layouts) && Collected(layouts, med, |layouts|, 0, found, skipped)
    ensures NoDup(found) && forall x: Place :: x in found <==> OnMedium(layouts, med, x) && Enough(layouts, x)
    ensures skipped <==> exists x: Place :: OnMedium(layouts, med, x) && !Enough(layouts, x)
  {
    hide Enough;
    assert forall x: Place :: OnMedium(layouts, med, x) ==> Before(x, |layouts|, 0);
  }
}
