/**
 Grouping of the collected extents by the media they will be read from, and the order
 of the extents inside a group.
 */
module SchedulerGroups {
  import opened Basics
  import opened SplitSizing
  import opened SchedulerScore
  import opened SchedulerSelect
  import opened SchedulerCollect
  import opened GroupKeys

  // ---------------------------------------------------------------- choice of a medium

  /** Position of the first source on a medium of the highest frequency. */
  function MostFrequent(frequency: map<Medium, nat>, avail: seq<Extent>): (k: nat)
    requires |avail| > 0
    ensures k < |avail|
    ensures forall i :: 0 <= i < |avail| ==> Lookup(frequency, avail[i].medium) <= Lookup(frequency, avail[k].medium)
    ensures forall i :: 0 <= i < k ==> Lookup(frequency, avail[i].medium) < Lookup(frequency, avail[k].medium)
  {
    var last := |avail| - 1;
    if last == 0 then 0 else
      var k := MostFrequent(frequency, avail[..last]);
      if Lookup(frequency, avail[last].medium) > Lookup(frequency, avail[k].medium) then last else k
  }

  /** The choice fails only if no source has been counted. */
  method ChooseMostFrequent(frequency: map<Medium, nat>, avail: seq<Extent>) returns (best: Option<nat>)
    ensures best.None? <==> forall i :: 0 <= i < |avail| ==> Lookup(frequency, avail[i].medium) == 0
    ensures best.Some? ==> |avail| > 0 && best.value == MostFrequent(frequency, avail)
  {
    best := None;
    var maxFreq, i := 0, 0;
    while i < |avail|
      invariant 0 <= i <= |avail|
      invariant best.None? ==> maxFreq == 0
      invariant best.Some? ==> best.value < i && maxFreq == Lookup(frequency, avail[best.value].medium) > 0
      invariant forall k :: 0 <= k < i ==> Lookup(frequency, avail[k].medium) <= maxFreq
      invariant best.Some? ==> forall k :: 0 <= k < best.value ==> Lookup(frequency, avail[k].medium) < maxFreq
    {
      var freq := Lookup(frequency, avail[i].medium);
      if freq > maxFreq {
        maxFreq, best := freq, Some(i);
      }
      i := i + 1;
    }
    if best.Some? {
      assert best.value == MostFrequent(frequency, avail);
    }
  }

  /** The media to read an extent from: all of the sources when there are just enough, or the most frequent one. */
  function Chosen(frequency: map<Medium, nat>, avail: seq<Extent>, d: nat): seq<Medium>
    requires |avail| >= d
  {
    if |avail| == d then Media(avail) else [avail[MostFrequent(frequency, avail)].medium]
  }

  function ItemFor(x: Place, frequency: map<Medium, nat>, avail: seq<Extent>, d: nat): Item
    requires |avail| >= d
  {
    Item(x.0, x.1, if |avail| == d then None else Some(avail[MostFrequent(frequency, avail)].medium))
  }

  // ---------------------------------------------------------------- groups

  /** Every extent is once in the group of its key, and nowhere else. */
  ghost predicate Grouped(pending: map<Key, seq<Item>>, keyOf: map<Item, Key>) {
    && (forall x :: x in keyOf ==> keyOf[x] in pending)
    && (forall k, x :: k in pending ==> multiset(pending[k])[x] == if x in keyOf && keyOf[x] == k then 1 else 0)
  }

  function AppendTo(pending: map<Key, seq<Item>>, key: Key, x: Item): map<Key, seq<Item>> {
    pending[key := (if key in pending then pending[key] else []) + [x]]
  }

  lemma {:induction false} GroupedNext(pending: map<Key, seq<Item>>, keyOf: map<Item, Key>, key: Key, x: Item)
    requires Grouped(pending, keyOf) && x !in keyOf
    ensures Grouped(AppendTo(pending, key, x), keyOf[x := key])
  {
    var more, keys := AppendTo(pending, key, x), keyOf[x := key];
    forall k, y | k in more
      ensures multiset(more[k])[y] == if y in keys && keys[y] == k then 1 else 0
    {
      if k != key {
        assert more[k] == pending[k];
      } else if key !in pending {
        assert more[k] == [x];
        assert y in keyOf && keyOf[y] == key ==> key in pending;
      }
    }
  }

  /** The item and the key of a collected extent. */
  ghost predicate Assigned(layouts: seq<Layout>, frequency: map<Medium, nat>, x: Place, item: Item, key: Key)
    requires WellFormed(layouts)
  {
    && IsPlace(layouts, x) && Enough(layouts, x)
    && var avail, d := SourcesOf(layouts, x), layouts[x.0].info.value.d;
       item == ItemFor(x, frequency, avail, d) && key == SortMedia(Chosen(frequency, avail, d))
  }

  /** The groups hold one item for each of these extents, under the key of its media. */
  ghost predicate GroupedBy(layouts: seq<Layout>, frequency: map<Medium, nat>, found: seq<Place>,
                            pending: map<Key, seq<Item>>, keyOf: map<Item, Key>)
    requires WellFormed(layouts)
  {
    && Grouped(pending, keyOf)
    && (forall x: Item :: x in keyOf ==> (x.layout, x.at) in found)
    && (forall x: Item :: x in keyOf ==> Assigned(layouts, frequency, (x.layout, x.at), x, keyOf[x]))
    && (forall y: Place :: y in found ==> exists x: Item :: x in keyOf && (x.layout, x.at) == y)
  }

  lemma {:induction false} GroupedByNext(layouts: seq<Layout>, frequency: map<Medium, nat>, found: seq<Place>,
                                         pending: map<Key, seq<Item>>, keyOf: map<Item, Key>,
                                         y: Place, item: Item, key: Key)
    requires WellFormed(layouts) && GroupedBy(layouts, frequency, found, pending, keyOf) && y !in found
    requires (item.layout, item.at) == y && Assigned(layouts, frequency, y, item, key)
    ensures GroupedBy(layouts, frequency, found + [y], AppendTo(pending, key, item), keyOf[item := key])
  {
    hide Assigned, Grouped, AppendTo;
    assert item !in keyOf;
    GroupedNext(pending, keyOf, key, item);
    var keys := keyOf[item := key];
    forall z: Place | z in found + [y]
      ensures exists x: Item :: x in keys && (x.layout, x.at) == z
    {
      if z in found {
        var x: Item :| x in keyOf && (x.layout, x.at) == z;
        assert x in keys;
      } else {
        assert item in keys;
      }
    }
  }

  lemma {:induction false} GroupedByNone(layouts: seq<Layout>, frequency: map<Medium, nat>)
    requires WellFormed(layouts)
    ensures GroupedBy(layouts, frequency, [], map[], map[])
  {
  }

  /** The media of the sources of every extent are distinct. */
  predicate SourcesSpread(layouts: seq<Layout>, found: seq<Place>)
    requires WellFormed(layouts) && Known(layouts, found)
  {
    forall i :: 0 <= i < |found| ==> NoDup(Media(SourcesOf(layouts, found[i])))
  }

  /** The extents to rebuild that have a source on this medium. */
  function Readers(layouts: seq<Layout>, found: seq<Place>, m: Medium): set<Place>
    requires WellFormed(layouts) && Known(layouts, found)
  {
    set x | x in found && m in Media(SourcesOf(layouts, x))
  }

  lemma {:induction false} CountOnce(media: seq<Medium>, m: Medium)
    requires NoDup(media)
    ensures multiset(media)[m] == if m in media then 1 else 0
  {
    NoDupCount(media);
    assert m in media <==> multiset(media)[m] > 0;
  }

  /** The frequency of a medium is the number of extents to rebuild that could be read from it. */
  lemma {:induction false} FrequencyIs(layouts: seq<Layout>, found: seq<Place>, m: Medium)
    requires WellFormed(layouts) && Known(layouts, found) && NoDup(found) && SourcesSpread(layouts, found)
    ensures Frequency(layouts, found, m) == |Readers(layouts, found, m)|
  {
    hide SourcesOf, Media;
    if found != [] {
      var last := |found| - 1;
      var before, x := found[..last], found[last];
      FrequencyIs(layouts, before, m);
      CountOnce(Media(SourcesOf(layouts, x)), m);
      assert found == before + [x];
      var readers := Readers(layouts, before, m);
      assert x !in readers;
      assert Readers(layouts, found, m) == if m in Media(SourcesOf(layouts, x)) then readers + {x} else readers;
    } else {
      assert Readers(layouts, found, m) == {};
    }
  }

  /** Groups the extents; each of them can be read since its sources have been counted. */
  method GroupExtents(layouts: seq<Layout>, found: seq<Place>, frequency: map<Medium, nat>)
    returns (pending: map<Key, seq<Item>>, ghost keyOf: map<Item, Key>)
    requires WellFormed(layouts) && Known(layouts, found) && NoDup(found) && IsFrequency(layouts, found, frequency)
    requires forall i :: 0 <= i < |found| ==> Enough(layouts, found[i])
    requires SourcesSpread(layouts, found)
    ensures GroupedBy(layouts, frequency, found, pending, keyOf) && AllNoDup(pending.Keys)
  {
    hide GroupedBy, IsFrequency, AppendTo, Sources;
    pending, keyOf := map[], map[];
    GroupedByNone(layouts, frequency);
    var i := 0;
    while i < |found|
      invariant 0 <= i <= |found|
      invariant GroupedBy(layouts, frequency, found[..i], pending, keyOf) && AllNoDup(pending.Keys)
    {
      var item, key := Prepare(layouts, found, frequency, found[i]);
      GroupedByNext(layouts, frequency, found[..i], pending, keyOf, found[i], item, key);
      assert found[..i + 1] == found[..i] + [found[i]];
      KeysAfter(pending, key, item);
      pending := AppendTo(pending, key, item);
      keyOf := keyOf[item := key];
      i := i + 1;
    }
    assert found[..i] == found;
  }

  lemma {:induction false} KeysAfter(pending: map<Key, seq<Item>>, key: Key, item: Item)
    ensures AppendTo(pending, key, item).Keys == pending.Keys + {key}
  {
  }

  /** The item and the key of one extent. */
  method Prepare(layouts: seq<Layout>, ghost found: seq<Place>, frequency: map<Medium, nat>, x: Place)
    returns (item: Item, key: Key)
    requires WellFormed(layouts) && Known(layouts, found) && IsFrequency(layouts, found, frequency)
    requires x in found && IsPlace(layouts, x) && Enough(layouts, x)
    requires NoDup(Media(SourcesOf(layouts, x)))
    ensures (item.layout, item.at) == x && Assigned(layouts, frequency, x, item, key) && NoDup(key)
  {
    hide Sources, IsFrequency;
    var d := layouts[x.0].info.value.d;
    var avail := SourcesOf(layouts, x);
    if d == |avail| {
      item, key := Item(x.0, x.1, None), SortMedia(Media(avail));
      SortKeepsNoDup(Media(avail));
    } else {
      var best := ChooseMostFrequent(frequency, avail);
      FrequentEnough(layouts, found, frequency, x);
      var m := avail[best.value].medium;
      item, key := Item(x.0, x.1, Some(m)), SortMedia([m]);
      SortKeepsNoDup([m]);
    }
  }

  lemma {:induction false} FrequentEnough(layouts: seq<Layout>, found: seq<Place>, frequency: map<Medium, nat>,
                                          x: Place)
    requires WellFormed(layouts) && Known(layouts, found) && IsFrequency(layouts, found, frequency)
    requires x in found && |SourcesOf(layouts, x)| > 0
    ensures Lookup(frequency, SourcesOf(layouts, x)[0].medium) > 0
  {
    SourceIsFrequent(layouts, found, x, 0);
  }

  /** Two extents share a group exactly when they are read from the same media. */
  lemma {:induction false} SameGroupIff(layouts: seq<Layout>, frequency: map<Medium, nat>, found: seq<Place>,
                                        pending: map<Key, seq<Item>>, keyOf: map<Item, Key>, x: Item, y: Item)
    requires WellFormed(layouts) && GroupedBy(layouts, frequency, found, pending, keyOf) && x in keyOf && y in keyOf
    ensures Assigned(layouts, frequency, (x.layout, x.at), x, keyOf[x])
    ensures Assigned(layouts, frequency, (y.layout, y.at), y, keyOf[y])
    ensures var mx := Chosen(frequency, SourcesOf(layouts, (x.layout, x.at)), layouts[x.layout].info.value.d);
      var my := Chosen(frequency, SourcesOf(layouts, (y.layout, y.at)), layouts[y.layout].info.value.d);
      (exists k :: k in pending && x in pending[k] && y in pending[k]) <==> multiset(mx) == multiset(my)
  {
    hide Sources, SortMedia, Chosen;
    SameKeyIff(Chosen(frequency, SourcesOf(layouts, (x.layout, x.at)), layouts[x.layout].info.value.d),
               Chosen(frequency, SourcesOf(layouts, (y.layout, y.at)), layouts[y.layout].info.value.d));
    InOneGroup(pending, keyOf, x, y);
  }

  lemma {:induction false} InOneGroup(pending: map<Key, seq<Item>>, keyOf: map<Item, Key>, x: Item, y: Item)
    requires Grouped(pending, keyOf) && x in keyOf && y in keyOf
    ensures (exists k :: k in pending && x in pending[k] && y in pending[k]) <==> keyOf[x] == keyOf[y]
  {
    forall k, z | k in pending && z in keyOf
      ensures z in pending[k] <==> keyOf[z] == k
    {
      assert z in pending[k] <==> multiset(pending[k])[z] > 0;
    }
  }
}
