/**
 The order in which the scheduler takes the pending groups: the best one to start
 with, then the best one to continue with from the media that are mounted.
 */
module SchedulerSelect {
  import opened Basics
  import opened SchedulerScore

  /** An extent to rebuild, at position `at` of a layout, and the medium to read it from when one was chosen. */
  datatype Item = Item(layout: nat, at: nat, only: Option<Medium>)

  datatype Candidate = Candidate(key: Key, cost: int, futureScore: nat, degree: nat, weight: nat)

  predicate BetterStart(c: Candidate, best: Candidate) {
    c.degree < best.degree || (c.degree == best.degree && c.weight > best.weight)
  }

  predicate BetterNext(c: Candidate, best: Candidate) {
    || c.cost < best.cost
    || (c.cost == best.cost && c.futureScore > best.futureScore)
    || (c.cost == best.cost && c.futureScore == best.futureScore && c.degree < best.degree)
    || (c.cost == best.cost && c.futureScore == best.futureScore && c.degree == best.degree && c.weight > best.weight)
  }

  predicate Better(start: bool, c: Candidate, best: Candidate) {
    if start then BetterStart(c, best) else BetterNext(c, best)
  }

  /** What rates the group `key` while the drives hold the media of `cur`. */
  function Rated(cur: Option<Key>, pending: map<Key, seq<Item>>, key: Key): Candidate
    requires key in pending
  {
    Candidate(key, Cost(cur, key), LinkCount(pending.Keys, key), Degree(pending.Keys, key), |pending[key]|)
  }

  /** The group may be taken: an isolated group does not start a run while some groups are linked. */
  ghost predicate Eligible(start: bool, pending: set<Key>, key: Key) {
    key in pending && (start && SomeShare(pending) ==> LinkCount(pending, key) > 0)
  }

  /** No eligible group is better than this one. */
  ghost predicate IsBest(start: bool, cur: Option<Key>, pending: map<Key, seq<Item>>, key: Key) {
    && Eligible(start, pending.Keys, key)
    && forall k :: Eligible(start, pending.Keys, k) ==> !Better(start, Rated(cur, pending, k), Rated(cur, pending, key))
  }

  /** No group seen so far is eligible, or the best of those is kept. */
  ghost predicate BestOf(start: bool, cur: Option<Key>, pending: map<Key, seq<Item>>, seen: set<Key>,
                         best: Option<Candidate>)
  {
    match best
    case None => forall k :: k in seen ==> !Eligible(start, pending.Keys, k)
    case Some(b) =>
      && b.key in seen && Eligible(start, pending.Keys, b.key) && b == Rated(cur, pending, b.key)
      && forall k :: k in seen && Eligible(start, pending.Keys, k) ==> !Better(start, Rated(cur, pending, k), b)
  }

  lemma {:induction false} BestOfNone(start: bool, cur: Option<Key>, pending: map<Key, seq<Item>>)
    ensures BestOf(start, cur, pending, {}, None)
  {
  }

  lemma {:induction false} BestOfMore(start: bool, cur: Option<Key>, pending: map<Key, seq<Item>>, seen: set<Key>,
                                      best: Option<Candidate>, key: Key)
    requires key in pending && BestOf(start, cur, pending, seen, best)
    ensures !Eligible(start, pending.Keys, key) ==> BestOf(start, cur, pending, seen + {key}, best)
    ensures var c := Rated(cur, pending, key);
      Eligible(start, pending.Keys, key) ==>
        BestOf(start, cur, pending, seen + {key}, if best.None? || Better(start, c, best.value) then Some(c) else best)
  {
    hide LinkCount, Cost, Eligible;
  }

  lemma {:induction false} Skipped(start: bool, cur: Option<Key>, pending: map<Key, seq<Item>>, key: Key, linked: bool)
    requires key in pending && AllNoDup(pending.Keys) && (linked <==> start && SomeShare(pending.Keys))
    ensures Eligible(start, pending.Keys, key) <==> !(linked && Rated(cur, pending, key).degree == 0)
  {
    hide LinkCount, Degree, Cost, SomeShare;
    DegreeIsLinks(pending.Keys, key, |key|);
  }

  /** Some group is always eligible while any is pending. */
  lemma {:induction false} SomeEligible(start: bool, pending: set<Key>)
    requires pending != {}
    ensures exists k :: k in pending && Eligible(start, pending, k)
  {
    LinkedIffShared(pending);
    if SomeShare(pending) {
      var k :| k in pending && LinkCount(pending, k) > 0;
      assert Eligible(start, pending, k);
    } else {
      var k :| k in pending;
      assert Eligible(start, pending, k);
    }
  }

  lemma {:induction false} BestOfAll(start: bool, cur: Option<Key>, pending: map<Key, seq<Item>>,
                                     best: Option<Candidate>)
    requires BestOf(start, cur, pending, pending.Keys, best)
    ensures best.None? <==> pending == map[]
    ensures best.Some? ==> IsBest(start, cur, pending, best.value.key)
  {
    hide LinkCount, Cost, SomeShare, Better;
    if pending.Keys != {} {
      SomeEligible(start, pending.Keys);
    }
  }

  // ---------------------------------------------------------------- the rule, in the terms of the groups

  /** Another pending group needs a medium of this one. */
  ghost predicate Linked(pending: set<Key>, key: Key) {
    exists k, m: Medium :: k in pending && k != key && m in k && m in key
  }

  lemma {:induction false} LinkedIsCounted(pending: set<Key>, key: Key)
    ensures Linked(pending, key) <==> LinkCount(pending, key) > 0
  {
    if Linked(pending, key) {
      var k, m: Medium :| k in pending && k != key && m in k && m in key;
      assert (k, m) in Links(pending, key, key);
    }
    if LinkCount(pending, key) > 0 {
      var link :| link in Links(pending, key, key);
      assert link.0 in pending && link.0 != key && link.1 in link.0 && link.1 in key;
    }
  }

  /** The group may start a run: it is linked, or no pending group is. */
  ghost predicate MayStart(pending: set<Key>, key: Key) {
    key in pending && (Linked(pending, key) || forall k :: k in pending ==> !Linked(pending, k))
  }

  /** Of the groups that may start a run, none has fewer links, and none that has as many has more extents. */
  ghost predicate LeastLinked(pending: map<Key, seq<Item>>, key: Key) {
    && MayStart(pending.Keys, key)
    && forall k :: MayStart(pending.Keys, k) ==>
         var links, other := LinkCount(pending.Keys, key), LinkCount(pending.Keys, k);
         links < other || (links == other && |pending[key]| >= |pending[k]|)
  }

  /**
   No pending group takes fewer mounts and unmounts; none that takes as many has more links, and none that has as many
   of both has more extents.
   */
  ghost predicate Cheapest(cur: Option<Key>, pending: map<Key, seq<Item>>, key: Key) {
    && key in pending
    && forall k :: k in pending ==>
         var cost, other := Cost(cur, key), Cost(cur, k);
         cost < other || (cost == other && NotLess(pending, key, k))
  }

  /** Among the groups of one cost: more links, or as many and at least as many extents. */
  ghost predicate NotLess(pending: map<Key, seq<Item>>, key: Key, k: Key)
    requires key in pending && k in pending
  {
    var links, other := LinkCount(pending.Keys, key), LinkCount(pending.Keys, k);
    links > other || (links == other && |pending[key]| >= |pending[k]|)
  }

  lemma {:induction false} EligibleIsMayStart(pending: set<Key>, key: Key)
    ensures Eligible(true, pending, key) <==> MayStart(pending, key)
  {
    hide Linked, LinkCount, SomeShare;
    LinkedIsCounted(pending, key);
    LinkedIffShared(pending);
    forall k | k in pending
      ensures Linked(pending, k) <==> LinkCount(pending, k) > 0
    {
      LinkedIsCounted(pending, k);
    }
  }

  /** The best group to start with is the least linked one: few links first, then many extents. */
  lemma {:induction false} BestToStart(cur: Option<Key>, pending: map<Key, seq<Item>>, key: Key)
    requires AllNoDup(pending.Keys)
    ensures IsBest(true, cur, pending, key) <==> LeastLinked(pending, key)
  {
    hide LinkCount, Degree, Cost, SomeShare, NoDup, MayStart, Eligible;
    forall k
      ensures Eligible(true, pending.Keys, k) <==> MayStart(pending.Keys, k)
      ensures MayStart(pending.Keys, k) ==> k in pending && Degree(pending.Keys, k) == LinkCount(pending.Keys, k)
    {
      EligibleIsMayStart(pending.Keys, k);
      MayStartIsPending(pending.Keys, k);
      if k in pending {
        DegreeIsLinks(pending.Keys, k, |k|);
      }
    }
  }

  lemma {:induction false} MayStartIsPending(pending: set<Key>, key: Key)
    ensures MayStart(pending, key) ==> key in pending
  {
  }

  /** The best group to continue with is the cheapest one: few mounts first, then many links, then many extents. */
  lemma {:induction false} BestToContinue(cur: Option<Key>, pending: map<Key, seq<Item>>, key: Key)
    requires AllNoDup(pending.Keys)
    ensures IsBest(false, cur, pending, key) <==> Cheapest(cur, pending, key)
  {
    hide LinkCount, Degree, Cost, SomeShare, NoDup;
    forall k | k in pending
      ensures Eligible(false, pending.Keys, k) && Degree(pending.Keys, k) == LinkCount(pending.Keys, k)
    {
      DegreeIsLinks(pending.Keys, k, |k|);
    }
  }

  /** The best group among the pending ones, whatever the order in which the table lists them. */
  method FindBestGroup(start: bool, cur: Option<Key>, pending: map<Key, seq<Item>>) returns (best: Option<Candidate>)
    requires AllNoDup(pending.Keys) && (cur.Some? ==> NoDup(cur.value))
    ensures best.None? <==> pending == map[]
    ensures best.Some? ==> IsBest(start, cur, pending, best.value.key)
    ensures best.Some? && start ==> LeastLinked(pending, best.value.key)
    ensures best.Some? && !start ==> Cheapest(cur, pending, best.value.key)
  {
    hide LeastLinked, Cheapest, Better, IsUsage, IsBest, BestOf, NoDup, AllNoDup, Eligible, Rated, LinkCount, SomeShare;
    var usage := BuildMediaUsage(pending.Keys);
    var hasNonIsolated := false;
    if start {
      hasNonIsolated := HasNonIsolatedGroup(usage, pending.Keys);
    }
    best := None;
    var todo := pending.Keys;
    ghost var seen := {};
    BestOfNone(start, cur, pending);
    while todo != {}
      invariant todo <= pending.Keys && seen == pending.Keys - todo
      invariant BestOf(start, cur, pending, seen, best)
      decreases |todo|
    {
      var key :| key in todo;
      BestOfMore(start, cur, pending, seen, best, key);
      Skipped(start, cur, pending, key, hasNonIsolated);
      todo, seen := todo - {key}, seen + {key};
      assert seen == pending.Keys - todo;
      var candidate := InitCandidate(cur, usage, pending, key);
      if hasNonIsolated && candidate.degree == 0 {
        continue;
      }
      if best.None? || Better(start, candidate, best.value) {
        best := Some(candidate);
      }
    }
    assert seen == pending.Keys;
    BestOfAll(start, cur, pending, best);
    if best.Some? {
      if start {
        BestToStart(cur, pending, best.value.key);
      } else {
        BestToContinue(cur, pending, best.value.key);
      }
    }
  }

  method InitCandidate(cur: Option<Key>, usage: map<Medium, nat>, pending: map<Key, seq<Item>>, key: Key)
    returns (candidate: Candidate)
    requires AllNoDup(pending.Keys) && (cur.Some? ==> NoDup(cur.value)) && IsUsage(usage, pending.Keys)
    requires key in pending
    ensures candidate == Rated(cur, pending, key)
  {
    var cost := CandidateCost(cur, key);
    var score := FutureScore(pending.Keys, key);
    var degree := OverlapDegree(usage, pending.Keys, key);
    candidate := Candidate(key, cost, score, degree, |pending[key]|);
  }

  /** The degree never decides between two groups to continue with: it equals the future score. */
  lemma {:induction false} DegreeNeverDecides(cur: Option<Key>, pending: map<Key, seq<Item>>, a: Key, b: Key)
    requires a in pending && b in pending && NoDup(a) && NoDup(b)
    ensures var c, d := Rated(cur, pending, a), Rated(cur, pending, b);
      BetterNext(c, d) <==>
        || c.cost < d.cost
        || (c.cost == d.cost && c.futureScore > d.futureScore)
        || (c.cost == d.cost && c.futureScore == d.futureScore && c.weight > d.weight)
  {
    hide LinkCount, Degree, Cost;
    DegreeIsLinks(pending.Keys, a, |a|);
    DegreeIsLinks(pending.Keys, b, |b|);
  }

  // ---------------------------------------------------------------- reuse of mounted media

  function Reused(cur: Key, key: Key): nat {
    |MediaOf(cur) * MediaOf(key)|
  }

  lemma {:induction false} CostOf(cur: Key, key: Key)
    requires NoDup(cur) && NoDup(key)
    ensures Cost(Some(cur), key) == |cur| + |key| - 2 * Reused(cur, key)
  {
    TransitionIs(cur, key, Reused(cur, key));
  }

  // ---------------------------------------------------------------- scheduler

  class Scheduler {
    /** The media of the group being rebuilt. */
    var curr: Option<Key>
    var currItems: seq<Item>
    var pending: map<Key, seq<Item>>

    ghost predicate Valid()
      reads this
    {
      AllNoDup(pending.Keys) && (curr.Some? ==> NoDup(curr.value))
    }

    constructor (groups: map<Key, seq<Item>>)
      requires AllNoDup(groups.Keys)
      ensures Valid() && curr == None && currItems == [] && pending == groups
    {
      curr, currItems, pending := None, [], groups;
    }

    method SelectGroup(key: Key) returns (out: seq<Item>)
      requires Valid() && key in pending
      modifies this
      ensures Valid() && curr == Some(key) && currItems == out == old(pending)[key]
      ensures pending == old(pending) - {key}
    {
      out := pending[key];
      pending := pending - {key};
      curr, currItems := Some(key), out;
    }

    method ChooseStartGroup() returns (ok: bool, out: seq<Item>)
      requires Valid()
      modifies this
      ensures Valid() && (ok <==> old(pending) != map[])
      ensures ok ==>
        && curr.Some? && curr.value in old(pending) && IsBest(true, old(curr), old(pending), curr.value)
        && currItems == out == old(pending)[curr.value] && pending == old(pending) - {curr.value}
      ensures !ok ==> unchanged(this)
    {
      hide IsBest, AllNoDup, NoDup;
      var best := FindBestGroup(true, curr, pending);
      if best.None? {
        return false, [];
      }
      BestIsPending(true, curr, pending, best.value.key);
      out := SelectGroup(best.value.key);
      ok := true;
    }

    /** Continues with the group that costs least when it reuses a mounted medium, and starts again otherwise. */
    method ChooseNextGroup() returns (ok: bool, out: seq<Item>)
      requires Valid() && curr.Some?
      modifies this
      ensures Valid() && (ok <==> old(pending) != map[])
      ensures ok ==>
        && curr.Some? && curr.value in old(pending) && Continues(old(curr).value, old(pending), curr.value)
        && currItems == out == old(pending)[curr.value] && pending == old(pending) - {curr.value}
      ensures !ok ==> unchanged(this)
    {
      hide IsBest, AllNoDup, NoDup, Reused;
      var best := FindBestGroup(false, curr, pending);
      if best.None? {
        return false, [];
      }
      BestIsPending(false, curr, pending, best.value.key);
      var mounted := CountMounted(curr, best.value.key);
      ReusedIs(curr.value, best.value.key);
      if mounted == 0 {
        ok, out := ChooseStartGroup();
        return;
      }
      out := SelectGroup(best.value.key);
      ok := true;
    }

    /** The next group to rebuild, if any. */
    method Next() returns (ok: bool, out: seq<Item>)
      requires Valid()
      modifies this
      ensures Valid() && (ok <==> old(pending) != map[])
      ensures ok ==>
        && curr.Some? && curr.value in old(pending) && Follows(old(curr), old(pending), curr.value)
        && currItems == out == old(pending)[curr.value] && pending == old(pending) - {curr.value}
      ensures !ok ==> unchanged(this)
    {
      hide IsBest, AllNoDup, NoDup, Continues;
      if |pending| == 0 {
        return false, [];
      }
      if curr.None? {
        ok, out := ChooseStartGroup();
      } else {
        ok, out := ChooseNextGroup();
      }
    }
  }

  lemma {:induction false} BestIsPending(start: bool, cur: Option<Key>, pending: map<Key, seq<Item>>, key: Key)
    requires IsBest(start, cur, pending, key) && AllNoDup(pending.Keys)
    ensures key in pending && NoDup(key)
  {
  }

  lemma {:induction false} ReusedIs(cur: Key, key: Key)
    ensures Reused(cur, key) == |MediaOf(cur) * MediaOf(key)|
  {
  }

  /**
   The group that follows `cur`: the best one to continue with, or, if that one reuses none of the mounted media, the
   best one to start with.
   */
  ghost predicate Continues(cur: Key, pending: map<Key, seq<Item>>, key: Key) {
    exists best: Key {:trigger IsBest(false, Some(cur), pending, best)} :: IsBest(false, Some(cur), pending, best) &&
      if Reused(cur, best) > 0 then key == best else IsBest(true, Some(cur), pending, key)
  }

  lemma {:induction false} ReusedSome(a: set<Medium>, b: set<Medium>)
    ensures |a * b| > 0 <==> !(a !! b)
  {
    if !(a !! b) {
      var m :| m in a && m in b;
      assert m in a * b;
    }
    assert a !! b ==> a * b == {};
  }

  /**
   A cheapest group is the one to continue with when some of its media are mounted; when none is, the run starts again
   with a least linked group.
   */
  lemma {:induction false} ContinuesIs(cur: Key, pending: map<Key, seq<Item>>, key: Key)
    requires AllNoDup(pending.Keys)
    ensures Continues(cur, pending, key) <==>
      exists best: Key :: Cheapest(Some(cur), pending, best) &&
        if MediaOf(cur) !! MediaOf(best) then LeastLinked(pending, key) else key == best
  {
    hide IsBest, Cheapest, LeastLinked, AllNoDup, MediaOf;
    forall best: Key
      ensures IsBest(false, Some(cur), pending, best) <==> Cheapest(Some(cur), pending, best)
      ensures Reused(cur, best) > 0 <==> !(MediaOf(cur) !! MediaOf(best))
    {
      BestToContinue(Some(cur), pending, best);
      ReusedSome(MediaOf(cur), MediaOf(best));
    }
    BestToStart(Some(cur), pending, key);
  }

  ghost predicate Follows(cur: Option<Key>, pending: map<Key, seq<Item>>, key: Key) {
    if cur.None? then IsBest(true, cur, pending, key) else Continues(cur.value, pending, key)
  }
}
