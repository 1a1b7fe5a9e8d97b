/**
 A whole run of the scheduler over a lost medium: every extent that can be rebuilt is
 handed out once, group after group, the oldest first inside a group.
 */
module SchedulerRun {
  import opened Basics
  import opened SplitSizing
  import opened SchedulerScore
  import opened SchedulerSelect
  import opened SchedulerCollect
  import opened SchedulerGroups
  import opened GroupKeys

  // ---------------------------------------------------------------- order inside a group

  predicate NotAfter(a: Time, b: Time) {
    a.sec < b.sec || (a.sec == b.sec && a.usec <= b.usec)
  }

  function Created(layouts: seq<Layout>, x: Item): Time {
    if x.layout < |layouts| && x.at < |layouts[x.layout].created| then layouts[x.layout].created[x.at] else Time(0, 0)
  }

  predicate OldestFirst(layouts: seq<Layout>, items: seq<Item>) {
    forall i, j :: 0 <= i < j < |items| ==> NotAfter(Created(layouts, items[i]), Created(layouts, items[j]))
  }

  function InsertItem(layouts: seq<Layout>, x: Item, items: seq<Item>): seq<Item> {
    if items == [] || NotAfter(Created(layouts, x), Created(layouts, items[0])) then [x] + items
    else [items[0]] + InsertItem(layouts, x, items[1..])
  }

  /** The items in the order of their creation times; those of one time keep their order. */
  function SortItems(layouts: seq<Layout>, items: seq<Item>): seq<Item> {
    if items == [] then [] else InsertItem(layouts, items[0], SortItems(layouts, items[1..]))
  }

  lemma {:induction false} NotAfterIs(a: Time, b: Time)
    requires Normal(a) && Normal(b)
    ensures NotAfter(a, b) <==> Micros(a) <= Micros(b)
  {
  }

  /** The times never decrease from the first item to the last. */
  lemma {:induction false} OldestFirstIs(layouts: seq<Layout>, items: seq<Item>)
    requires forall i :: 0 <= i < |items| ==> Normal(Created(layouts, items[i]))
    ensures OldestFirst(layouts, items) <==>
      forall i, j :: 0 <= i < j < |items| ==> Micros(Created(layouts, items[i])) <= Micros(Created(layouts, items[j]))
  {
    hide Created, NotAfter, Micros, Normal;
    forall i, j | 0 <= i < j < |items|
      ensures NotAfter(Created(layouts, items[i]), Created(layouts, items[j])) <==>
        Micros(Created(layouts, items[i])) <= Micros(Created(layouts, items[j]))
    {
      NotAfterIs(Created(layouts, items[i]), Created(layouts, items[j]));
    }
  }

  lemma {:induction false} NotAfterTotal(a: Time, b: Time)
    ensures NotAfter(a, b) || NotAfter(b, a)
  {
  }

  lemma {:induction false} NotAfterTransitive(a: Time, b: Time, c: Time)
    requires NotAfter(a, b) && NotAfter(b, c)
    ensures NotAfter(a, c)
  {
  }

  lemma {:induction false} InsertItemFacts(layouts: seq<Layout>, x: Item, items: seq<Item>)
    requires OldestFirst(layouts, items)
    ensures var r := InsertItem(layouts, x, items);
      OldestFirst(layouts, r) && multiset(r) == multiset(items) + multiset{x}
  {
    hide Created, NotAfter;
    if items != [] {
      assert items == [items[0]] + items[1..];
      NotAfterTotal(Created(layouts, x), Created(layouts, items[0]));
      if NotAfter(Created(layouts, x), Created(layouts, items[0])) {
        forall i | 0 <= i < |items|
          ensures NotAfter(Created(layouts, x), Created(layouts, items[i]))
        {
          if i > 0 {
            NotAfterTransitive(Created(layouts, x), Created(layouts, items[0]), Created(layouts, items[i]));
          }
        }
      } else {
        var rest := InsertItem(layouts, x, items[1..]);
        InsertItemFacts(layouts, x, items[1..]);
        forall i | 0 <= i < |rest|
          ensures NotAfter(Created(layouts, items[0]), Created(layouts, rest[i]))
        {
          assert rest[i] in multiset(rest);
        }
      }
    }
  }

  lemma {:induction false} SortItemsFacts(layouts: seq<Layout>, items: seq<Item>)
    ensures OldestFirst(layouts, SortItems(layouts, items)) && multiset(SortItems(layouts, items)) == multiset(items)
  {
    hide Created, OldestFirst, InsertItem;
    if items != [] {
      SortItemsFacts(layouts, items[1..]);
      InsertItemFacts(layouts, items[0], SortItems(layouts, items[1..]));
      assert items == [items[0]] + items[1..];
    } else {
      NothingToSort(layouts);
    }
  }

  lemma {:induction false} NothingToSort(layouts: seq<Layout>)
    ensures OldestFirst(layouts, [])
  {
  }

  /** The same groups, each in the order of creation times. */
  ghost predicate SortedFrom(layouts: seq<Layout>, groups: map<Key, seq<Item>>, sorted: map<Key, seq<Item>>) {
    && sorted.Keys == groups.Keys
    && forall k :: k in groups ==> OldestFirst(layouts, sorted[k]) && multiset(sorted[k]) == multiset(groups[k])
  }

  method SortByCreationTime(layouts: seq<Layout>, groups: map<Key, seq<Item>>) returns (sorted: map<Key, seq<Item>>)
    ensures SortedFrom(layouts, groups, sorted)
  {
    hide OldestFirst;
    sorted := groups;
    var todo := groups.Keys;
    while todo != {}
      invariant todo <= groups.Keys == sorted.Keys
      invariant forall k :: k in groups && k !in todo ==>
        OldestFirst(layouts, sorted[k]) && multiset(sorted[k]) == multiset(groups[k])
      invariant forall k :: k in todo ==> sorted[k] == groups[k]
      decreases |todo|
    {
      var key :| key in todo;
      todo := todo - {key};
      SortItemsFacts(layouts, groups[key]);
      sorted := sorted[key := SortItems(layouts, sorted[key])];
    }
  }

  lemma {:induction false} SortingKeepsGroups(layouts: seq<Layout>, groups: map<Key, seq<Item>>,
                                              sorted: map<Key, seq<Item>>, keyOf: map<Item, Key>)
    requires Grouped(groups, keyOf) && SortedFrom(layouts, groups, sorted)
    ensures Grouped(sorted, keyOf)
  {
    hide OldestFirst;
  }

  // ---------------------------------------------------------------- run

  /** The items of these groups, one group after the other. */
  function Concat(groups: map<Key, seq<Item>>, keys: seq<Key>): seq<Item>
    requires forall k :: k in keys ==> k in groups
  {
    if keys == [] then [] else
      var last := |keys| - 1;
      Concat(groups, keys[..last]) + groups[keys[last]]
  }

  function Rest(groups: map<Key, seq<Item>>, keys: seq<Key>): map<Key, seq<Item>> {
    groups - (set k | k in keys)
  }

  function Previous(keys: seq<Key>): Option<Key> {
    if keys == [] then None else Some(keys[|keys| - 1])
  }

  /** Each group was the one to take after those before it. */
  ghost predicate Greedy(groups: map<Key, seq<Item>>, keys: seq<Key>) {
    && NoDup(keys) && (forall k :: k in keys ==> k in groups)
    && forall i :: 0 <= i < |keys| ==> Follows(Previous(keys[..i]), Rest(groups, keys[..i]), keys[i])
  }

  lemma {:induction false} GreedyNext(groups: map<Key, seq<Item>>, keys: seq<Key>, key: Key)
    requires Greedy(groups, keys) && key in Rest(groups, keys) && Follows(Previous(keys), Rest(groups, keys), key)
    ensures Greedy(groups, keys + [key])
    ensures Concat(groups, keys + [key]) == Concat(groups, keys) + groups[key]
    ensures Rest(groups, keys + [key]) == Rest(groups, keys) - {key}
  {
    hide Follows;
    var more := keys + [key];
    assert more[..|keys|] == keys;
    forall i | 0 <= i < |more|
      ensures Follows(Previous(more[..i]), Rest(groups, more[..i]), more[i])
    {
      if i < |keys| {
        assert more[..i] == keys[..i];
      }
    }
  }

  lemma {:induction false} GreedyNone(groups: map<Key, seq<Item>>)
    ensures Greedy(groups, []) && Concat(groups, []) == [] && Rest(groups, []) == groups && Previous([]) == None
  {
  }

  /** The groups that were handed out have each of their items once. */
  lemma {:induction false} ConcatCounts(groups: map<Key, seq<Item>>, keyOf: map<Item, Key>, keys: seq<Key>, x: Item)
    requires Grouped(groups, keyOf) && NoDup(keys) && forall k :: k in keys ==> k in groups
    ensures multiset(Concat(groups, keys))[x] == if x in keyOf && keyOf[x] in keys then 1 else 0
    decreases |keys|
  {
    if keys != [] {
      var last := |keys| - 1;
      ConcatCounts(groups, keyOf, keys[..last], x);
      assert keys == keys[..last] + [keys[last]];
      assert multiset(groups[keys[last]])[x] == if x in keyOf && keyOf[x] == keys[last] then 1 else 0;
    }
  }

  /** Rebuilds the items of one group; stops at the first one that cannot be rebuilt. */
  method RebuildGroup(items: seq<Item>, answers: nat -> int, emitted0: seq<Item>) returns (rc: int, emitted: seq<Item>)
    ensures rc == 0 ==> emitted == emitted0 + items
    ensures forall i :: |emitted0| <= i < |emitted| - 1 ==> answers(i) == 0
    ensures rc != 0 ==> |emitted| > |emitted0| && emitted <= emitted0 + items
    ensures |emitted| > |emitted0| ==> rc == answers(|emitted| - 1)
  {
    rc, emitted := 0, emitted0;
    var j := 0;
    while j < |items|
      invariant 0 <= j <= |items| && rc == 0 && emitted == emitted0 + items[..j]
      invariant |emitted| > |emitted0| ==> answers(|emitted| - 1) == 0
      invariant forall i :: |emitted0| <= i < |emitted| ==> answers(i) == 0
    {
      rc := answers(|emitted|);
      emitted := emitted + [items[j]];
      assert emitted == emitted0 + items[..j + 1];
      if rc != 0 {
        return;
      }
      j := j + 1;
    }
    assert items[..j] == items;
  }

  /** Hands out all groups; `answers` are the results of the rebuilds, in turn. */
  method RunGroups(groups: map<Key, seq<Item>>, answers: nat -> int)
    returns (rc: int, emitted: seq<Item>, ghost keys: seq<Key>)
    requires AllNoDup(groups.Keys)
    ensures Greedy(groups, keys)
    ensures rc == 0 ==> emitted == Concat(groups, keys) && forall k :: k in groups ==> k in keys
    ensures rc != 0 ==> emitted != [] && emitted <= Concat(groups, keys)
    ensures forall i :: 0 <= i < |emitted| - 1 ==> answers(i) == 0
    ensures emitted != [] ==> rc == answers(|emitted| - 1)
  {
    hide RunAt, Follows, AllNoDup, NoDup, Greedy, Concat, Scheduler.Valid;
    var sched := new Scheduler(groups);
    rc, emitted, keys := 0, [], [];
    RunStarts(groups);
    while true
      invariant fresh(sched) && sched.Valid() && rc == 0
      invariant RunAt(groups, keys, emitted, sched.curr, sched.pending)
      invariant forall i :: 0 <= i < |emitted| ==> answers(i) == 0
      decreases |sched.pending|
    {
      ghost var curr, pending := sched.curr, sched.pending;
      var more, items := sched.Next();
      if !more {
        break;
      }
      RunNext(groups, keys, emitted, curr, pending, sched.curr.value);
      keys := keys + [sched.curr.value];
      RunKnown(groups, keys, emitted + items, sched.curr, sched.pending);
      rc, emitted := RebuildGroup(items, answers, emitted);
      if rc != 0 {
        return;
      }
    }
    RunKnown(groups, keys, emitted, sched.curr, sched.pending);
  }

  /** These groups have been handed out in turn, and `pending` is left. */
  ghost predicate RunAt(groups: map<Key, seq<Item>>, keys: seq<Key>, emitted: seq<Item>, curr: Option<Key>,
                        pending: map<Key, seq<Item>>)
  {
    Greedy(groups, keys) && emitted == Concat(groups, keys) && curr == Previous(keys) && pending == Rest(groups, keys)
  }

  lemma {:induction false} RunStarts(groups: map<Key, seq<Item>>)
    ensures RunAt(groups, [], [], None, groups)
  {
    GreedyNone(groups);
  }

  lemma {:induction false} RunNext(groups: map<Key, seq<Item>>, keys: seq<Key>, emitted: seq<Item>, curr: Option<Key>,
                                   pending: map<Key, seq<Item>>, key: Key)
    requires RunAt(groups, keys, emitted, curr, pending) && key in pending && Follows(curr, pending, key)
    ensures RunAt(groups, keys + [key], emitted + pending[key], Some(key), pending - {key})
    ensures |pending - {key}| < |pending|
  {
    hide Follows, Greedy, Concat;
    GreedyNext(groups, keys, key);
    assert pending.Keys == (pending - {key}).Keys + {key};
  }

  lemma {:induction false} RunKnown(groups: map<Key, seq<Item>>, keys: seq<Key>, emitted: seq<Item>, curr: Option<Key>,
                                    pending: map<Key, seq<Item>>)
    requires RunAt(groups, keys, emitted, curr, pending)
    ensures Greedy(groups, keys) && (forall k :: k in keys ==> k in groups) && emitted == Concat(groups, keys)
    ensures pending == map[] ==> forall k :: k in groups ==> k in keys
  {
    hide Follows;
    if pending == map[] {
      forall k | k in groups
        ensures k in keys
      {
        assert k !in Rest(groups, keys);
      }
    }
  }

  // ---------------------------------------------------------------- a lost medium

  /** The media are distinct inside each split. */
  predicate DistinctInSplits(extents: seq<Extent>, n: nat)
    requires n > 0
  {
    forall i, j :: 0 <= i < j < |extents| && extents[i].layoutIdx / n == extents[j].layoutIdx / n ==>
      extents[i].medium != extents[j].medium
  }

  predicate AllDistinct(layouts: seq<Layout>)
    requires WellFormed(layouts)
  {
    forall i :: 0 <= i < |layouts| && layouts[i].info.Some? ==>
      DistinctInSplits(layouts[i].extents, layouts[i].info.value.d + layouts[i].info.value.p)
  }

  lemma {:induction false} SourcesDistinct(extents: seq<Extent>, e: Extent, n: nat)
    requires n > 0 && DistinctInSplits(extents, n)
    ensures NoDup(Media(Sources(extents, e, n)))
  {
    if extents != [] {
      var last := |extents| - 1;
      SourcesDistinct(extents[..last], e, n);
      SourcesAre(extents[..last], e, n);
      var before, x := Sources(extents[..last], e, n), extents[last];
      forall k | 0 <= k < |before| && IsSource(x, e, n)
        ensures before[k].medium != x.medium
      {
        assert before[k] in extents[..last];
      }
      assert Media(before + [x]) == Media(before) + [x.medium];
      assert before + [] == before;
    }
  }

  lemma {:induction false} SourcesAre(extents: seq<Extent>, e: Extent, n: nat)
    requires n > 0
    ensures forall x :: x in Sources(extents, e, n) <==> x in extents && IsSource(x, e, n)
  {
    hide IsSource;
    if extents != [] {
      var last := |extents| - 1;
      SourcesAre(extents[..last], e, n);
      assert extents == extents[..last] + [extents[last]];
    }
  }

  lemma {:induction false} FoundSpread(layouts: seq<Layout>, found: seq<Place>)
    requires WellFormed(layouts) && AllDistinct(layouts) && Known(layouts, found)
    requires forall i :: 0 <= i < |found| ==> Enough(layouts, found[i])
    ensures SourcesSpread(layouts, found)
  {
    hide Sources;
    forall i | 0 <= i < |found|
      ensures NoDup(Media(SourcesOf(layouts, found[i])))
    {
      assert found[i] in found && IsPlace(layouts, found[i]);
      var l := layouts[found[i].0];
      SourcesDistinct(l.extents, l.extents[found[i].1], l.info.value.d + l.info.value.p);
    }
  }

  function Places(items: seq<Item>): seq<Place> {
    seq(|items|, i requires 0 <= i < |items| => (items[i].layout, items[i].at))
  }

  lemma {:induction false} AtMostOnce(items: seq<Item>, i: nat, j: nat)
    requires i < j < |items| && items[i] == items[j]
    ensures multiset(items)[items[i]] >= 2
  {
    assert items == items[..j] + items[j..];
    assert items[i] in items[..j] && items[j] in items[j..];
  }

  /** All groups handed out means all places, once each. */
  lemma {:induction false} AllPlaces(layouts: seq<Layout>, frequency: map<Medium, nat>, found: seq<Place>,
                                     groups: map<Key, seq<Item>>, keyOf: map<Item, Key>, keys: seq<Key>)
    requires WellFormed(layouts) && GroupedBy(layouts, frequency, found, groups, keyOf)
    requires NoDup(keys) && (forall k :: k in keys ==> k in groups) && forall k :: k in groups ==> k in keys
    ensures NoDup(Places(Concat(groups, keys)))
    ensures forall y: Place :: y in Places(Concat(groups, keys)) <==> y in found
  {
    hide Concat, Grouped, Assigned;
    var items := Concat(groups, keys);
    var places := Places(items);
    GroupedFacts(groups, keyOf);
    forall x: Item
      ensures multiset(items)[x] == if x in keyOf then 1 else 0
    {
      ConcatCounts(groups, keyOf, keys, x);
    }
    forall i | 0 <= i < |items|
      ensures items[i] in keyOf
    {
      assert multiset(items)[items[i]] > 0;
    }
    forall i, j | 0 <= i < j < |items|
      ensures places[i] != places[j]
    {
      if places[i] == places[j] {
        SamePlace(layouts, frequency, items[i], keyOf[items[i]], items[j], keyOf[items[j]]);
        AtMostOnce(items, i, j);
      }
    }
    forall y: Place | y in found
      ensures y in places
    {
      var x: Item :| x in keyOf && (x.layout, x.at) == y;
      assert multiset(items)[x] > 0;
      var i :| 0 <= i < |items| && items[i] == x;
      assert places[i] == y;
    }
  }

  lemma {:induction false} SamePlace(layouts: seq<Layout>, frequency: map<Medium, nat>, x: Item, k: Key, y: Item,
                                     l: Key)
    requires WellFormed(layouts) && (x.layout, x.at) == (y.layout, y.at)
    requires Assigned(layouts, frequency, (x.layout, x.at), x, k)
    requires Assigned(layouts, frequency, (y.layout, y.at), y, l)
    ensures x == y
  {
    hide SourcesOf, Chosen, ItemFor;
  }

  lemma {:induction false} GroupedFacts(groups: map<Key, seq<Item>>, keyOf: map<Item, Key>)
    requires Grouped(groups, keyOf)
    ensures forall x :: x in keyOf ==> keyOf[x] in groups
  {
  }

  /**
   What a run goes by: the extents to rebuild, how often each medium is needed to read them, their groups with the key
   of each item, and the order in which the groups are taken.
   */
  datatype Schedule = Schedule(found: seq<Place>, frequency: map<Medium, nat>, groups: map<Key, seq<Item>>,
                               keyOf: map<Item, Key>, keys: seq<Key>)

  /**
   All extents of the medium that can be rebuilt are grouped by the media they are read from, the oldest first, and each
   group is the one to take after those before it.
   */
  ghost predicate Scheduled(layouts: seq<Layout>, med: Medium, run: Schedule)
    requires WellFormed(layouts)
  {
    && NoDup(run.found) && (forall x: Place :: x in run.found <==> OnMedium(layouts, med, x) && Enough(layouts, x))
    && Known(layouts, run.found) && IsFrequency(layouts, run.found, run.frequency)
    && GroupedBy(layouts, run.frequency, run.found, run.groups, run.keyOf)
    && (forall k :: k in run.groups ==> OldestFirst(layouts, run.groups[k])) && Greedy(run.groups, run.keys)
  }

  /** An item of a group that was taken has its key among those of the run. */
  lemma {:induction false} ConcatKnown(groups: map<Key, seq<Item>>, keyOf: map<Item, Key>, keys: seq<Key>, x: Item)
    requires Grouped(groups, keyOf) && (forall k :: k in keys ==> k in groups) && x in Concat(groups, keys)
    ensures x in keyOf && keyOf[x] in keys
    decreases |keys|
  {
    var last := |keys| - 1;
    if x in groups[keys[last]] {
      assert multiset(groups[keys[last]])[x] > 0;
    } else {
      ConcatKnown(groups, keyOf, keys[..last], x);
    }
  }

  /** Every item handed out is the one of its extent, under the key of the media that the extent is read from. */
  lemma {:induction false} EmittedAssigned(layouts: seq<Layout>, med: Medium, run: Schedule, x: Item)
    requires WellFormed(layouts) && Scheduled(layouts, med, run) && x in Concat(run.groups, run.keys)
    ensures x in run.keyOf && run.keyOf[x] in run.keys
    ensures Assigned(layouts, run.frequency, (x.layout, x.at), x, run.keyOf[x])
  {
    hide Grouped, Assigned, Concat, Follows, OldestFirst, IsFrequency, Known, Enough;
    ConcatKnown(run.groups, run.keyOf, run.keys, x);
  }

  /** In a run, a medium is as frequent as there are extents to rebuild that could be read from it. */
  lemma {:induction false} RunFrequency(layouts: seq<Layout>, med: Medium, run: Schedule, m: Medium)
    requires WellFormed(layouts) && AllDistinct(layouts) && Scheduled(layouts, med, run)
    ensures Lookup(run.frequency, m) == |Readers(layouts, run.found, m)|
  {
    hide AllDistinct, GroupedBy, Greedy, OldestFirst, Frequency, Readers, SourcesSpread, Enough;
    FoundSpread(layouts, run.found);
    FrequencyIs(layouts, run.found, m);
  }

  /** The media that an extent is read from. */
  ghost function ReadFrom(layouts: seq<Layout>, frequency: map<Medium, nat>, x: Place): seq<Medium>
    requires WellFormed(layouts)
  {
    if IsPlace(layouts, x) && Enough(layouts, x)
    then Chosen(frequency, SourcesOf(layouts, x), layouts[x.0].info.value.d) else []
  }

  /** Two extents of a run are handed out in one group exactly when they are read from the same media. */
  lemma {:induction false} TogetherIff(layouts: seq<Layout>, med: Medium, run: Schedule, x: Item, y: Item, k: Key)
    requires WellFormed(layouts) && Scheduled(layouts, med, run) && k in run.keys && k in run.groups
    requires x in run.groups[k] && y in Concat(run.groups, run.keys)
    ensures y in run.groups[k] <==>
      multiset(ReadFrom(layouts, run.frequency, (x.layout, x.at))) ==
        multiset(ReadFrom(layouts, run.frequency, (y.layout, y.at)))
  {
    hide Concat, Assigned, Greedy, IsFrequency, Known, OldestFirst, Enough, SourcesOf, Chosen, Grouped, ReadFrom;
    EmittedAssigned(layouts, med, run, y);
    GroupIsKey(run.groups, run.keyOf, k, x);
    InGroupIff(run.groups, run.keyOf, k, y);
    KeyOfMedia(layouts, run.frequency, x, k);
    KeyOfMedia(layouts, run.frequency, y, run.keyOf[y]);
    SameKeyIff(ReadFrom(layouts, run.frequency, (x.layout, x.at)), ReadFrom(layouts, run.frequency, (y.layout, y.at)));
  }

  lemma {:induction false} KeyOfMedia(layouts: seq<Layout>, frequency: map<Medium, nat>, x: Item, k: Key)
    requires WellFormed(layouts) && Assigned(layouts, frequency, (x.layout, x.at), x, k)
    ensures k == SortMedia(ReadFrom(layouts, frequency, (x.layout, x.at)))
  {
    hide SortMedia, Chosen, ItemFor, SourcesOf;
  }

  lemma {:induction false} InGroupIff(groups: map<Key, seq<Item>>, keyOf: map<Item, Key>, k: Key, x: Item)
    requires Grouped(groups, keyOf) && k in groups && x in keyOf
    ensures x in groups[k] <==> keyOf[x] == k
  {
    assert x in groups[k] <==> multiset(groups[k])[x] > 0;
  }

  lemma {:induction false} GroupIsKey(groups: map<Key, seq<Item>>, keyOf: map<Item, Key>, k: Key, x: Item)
    requires Grouped(groups, keyOf) && k in groups && x in groups[k]
    ensures x in keyOf && keyOf[x] == k
  {
    assert multiset(groups[k])[x] > 0;
  }

  lemma {:induction false} ScheduledIs(layouts: seq<Layout>, med: Medium, run: Schedule, pending: map<Key, seq<Item>>)
    requires WellFormed(layouts) && NoDup(run.found) && Known(layouts, run.found)
    requires forall x: Place :: x in run.found <==> OnMedium(layouts, med, x) && Enough(layouts, x)
    requires IsFrequency(layouts, run.found, run.frequency)
    requires GroupedBy(layouts, run.frequency, run.found, run.groups, run.keyOf) && Greedy(run.groups, run.keys)
    requires SortedFrom(layouts, pending, run.groups)
    ensures Scheduled(layouts, med, run)
  {
    hide NoDup, Known, Enough, IsFrequency, GroupedBy, Greedy, OldestFirst;
  }

  /**
   Rebuilds the extents of a medium, group by group up to the first failure. Without one, each extent that has enough
   sources is rebuilt once, and the others are reported as missing data.
   */
  method RebuildMedium(layouts: seq<Layout>, med: Medium, answers: nat -> int)
    returns (rc: int, emitted: seq<Item>, ghost run: Schedule)
    requires WellFormed(layouts) && AllDistinct(layouts)
    ensures (exists x: Place :: OnMedium(layouts, med, x) && layouts[x.0].info.None?) <==>
      rc == -EINVAL && emitted == []
    ensures rc != -EINVAL || emitted != [] ==>
      Scheduled(layouts, med, run) && emitted <= Concat(run.groups, run.keys)
    ensures rc != -EINVAL || emitted != [] ==>
      forall i :: 0 <= i < |emitted| - 1 ==> answers(i) == 0
    ensures rc != -EINVAL || emitted != [] ==>
      if emitted != [] && answers(|emitted| - 1) != 0 then rc == answers(|emitted| - 1)
      else
        && emitted == Concat(run.groups, run.keys) && (forall k :: k in run.groups ==> k in run.keys)
        && NoDup(Places(emitted))
        && (forall x: Place :: x in Places(emitted) <==> OnMedium(layouts, med, x) && Enough(layouts, x))
        && rc == if exists x: Place :: OnMedium(layouts, med, x) && !Enough(layouts, x) then -ENODATA else 0
  {
    hide AllDistinct, IsFrequency, Enough, GroupedBy, Greedy, Concat, SourcesSpread, SortedFrom, AllNoDup, Scheduled;
    emitted, run := [], Schedule([], map[], map[], map[], []);
    var found, frequency, skipped;
    rc, found, frequency, skipped := Collect(layouts, med, false);
    if rc != 0 {
      return;
    }
    FoundSpread(layouts, found);
    var pending, keyOf := GroupExtents(layouts, found, frequency);
    var sorted := SortByCreationTime(layouts, pending);
    SortedGroups(layouts, frequency, found, pending, sorted, keyOf);
    ghost var keys;
    rc, emitted, keys := RunGroups(sorted, answers);
    run := Schedule(found, frequency, sorted, keyOf, keys);
    ScheduledIs(layouts, med, run, pending);
    if rc == 0 {
      RunIsWhole(layouts, frequency, found, sorted, keyOf, keys);
      rc := if skipped then -ENODATA else 0;
    }
  }

  lemma {:induction false} SortedGroups(layouts: seq<Layout>, frequency: map<Medium, nat>, found: seq<Place>,
                                        groups: map<Key, seq<Item>>, sorted: map<Key, seq<Item>>,
                                        keyOf: map<Item, Key>)
    requires WellFormed(layouts) && GroupedBy(layouts, frequency, found, groups, keyOf)
    requires SortedFrom(layouts, groups, sorted) && AllNoDup(groups.Keys)
    ensures GroupedBy(layouts, frequency, found, sorted, keyOf) && AllNoDup(sorted.Keys)
  {
    hide Grouped, Assigned, OldestFirst;
    SortingKeepsGroups(layouts, groups, sorted, keyOf);
  }

  lemma {:induction false} RunIsWhole(layouts: seq<Layout>, frequency: map<Medium, nat>, found: seq<Place>,
                                      groups: map<Key, seq<Item>>, keyOf: map<Item, Key>, keys: seq<Key>)
    requires WellFormed(layouts) && GroupedBy(layouts, frequency, found, groups, keyOf)
    requires Greedy(groups, keys) && forall k :: k in groups ==> k in keys
    ensures forall k :: k in keys ==> k in groups
    ensures NoDup(Places(Concat(groups, keys)))
    ensures forall y: Place :: y in Places(Concat(groups, keys)) <==> y in found
  {
    hide GroupedBy, Follows, Concat;
    AllPlaces(layouts, frequency, found, groups, keyOf, keys);
  }
}
