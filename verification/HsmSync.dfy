/**
 Grouped synchronisation: objects are queued by grouping as they are found, and
 synchronised one grouping after the other.
 */
module HsmSync {
  import opened Basics

  datatype Object = Object(oid: string, uuid: string, version: int, grouping: Option<string>)

  /** What identifies an object in the table of its grouping. */
  type Id = (string, string, int)

  function IdOf(x: Object): Id {
    (x.oid, x.uuid, x.version)
  }

  const NO_GROUPING: string := "NGRP"

  function NameOf(x: Object): string {
    if x.grouping.None? then NO_GROUPING else x.grouping.value
  }

  // ---------------------------------------------------------------- grouping of a list

  /** The grouping of the object at `i` is not one of an earlier object. */
  predicate NewName(added: seq<Object>, i: nat)
    requires i < |added|
  {
    forall j :: 0 <= j < i ==> NameOf(added[j]) != NameOf(added[i])
  }

  /** The object at `i` is not found earlier in its grouping. */
  predicate NewObject(added: seq<Object>, i: nat)
    requires i < |added|
  {
    forall j :: 0 <= j < i ==> NameOf(added[j]) != NameOf(added[i]) || IdOf(added[j]) != IdOf(added[i])
  }

  /** The groupings of the first `n` objects, as they first appear. */
  function Names(added: seq<Object>, n: nat): seq<string>
    requires n <= |added|
  {
    if n == 0 then [] else Names(added, n - 1) + if NewName(added, n - 1) then [NameOf(added[n - 1])] else []
  }

  /** The objects of a grouping among the first `n`, without duplicates, as they first appear. */
  function Members(added: seq<Object>, g: string, n: nat): seq<Object>
    requires n <= |added|
  {
    if n == 0 then [] else
      Members(added, g, n - 1) + if NameOf(added[n - 1]) == g && NewObject(added, n - 1) then [added[n - 1]] else []
  }

  /** The members of these groupings, one grouping after the other. */
  function InTurn(added: seq<Object>, names: seq<string>): seq<Object> {
    if names == [] then [] else
      var last := |names| - 1;
      InTurn(added, names[..last]) + Members(added, names[last], |added|)
  }

  lemma {:induction false} NamesOfPrefix(added: seq<Object>, x: Object, n: nat)
    requires n <= |added|
    ensures Names(added + [x], n) == Names(added, n)
  {
    if n > 0 {
      NamesOfPrefix(added, x, n - 1);
      assert forall j :: 0 <= j < n ==> (added + [x])[j] == added[j];
    }
  }

  lemma {:induction false} MembersOfPrefix(added: seq<Object>, x: Object, g: string, n: nat)
    requires n <= |added|
    ensures Members(added + [x], g, n) == Members(added, g, n)
  {
    if n > 0 {
      MembersOfPrefix(added, x, g, n - 1);
      assert forall j :: 0 <= j < n ==> (added + [x])[j] == added[j];
    }
  }

  lemma {:induction false} NamesAre(added: seq<Object>, n: nat)
    requires n <= |added|
    ensures forall g :: g in Names(added, n) <==> exists j :: 0 <= j < n && NameOf(added[j]) == g
  {
    if n > 0 {
      NamesAre(added, n - 1);
    }
  }

  /** Of objects with one identity and grouping, the members have the first one. */
  lemma {:induction false} MembersAre(added: seq<Object>, g: string, n: nat, id: Id)
    requires n <= |added|
    ensures (exists y :: y in Members(added, g, n) && IdOf(y) == id)
       <==> (exists j :: 0 <= j < n && NameOf(added[j]) == g && IdOf(added[j]) == id)
  {
    if n > 0 {
      MembersAre(added, g, n - 1, id);
      var x := added[n - 1];
      if NameOf(x) == g && IdOf(x) == id {
        if NewObject(added, n - 1) {
          assert x in Members(added, g, n);
        } else {
          var j :| 0 <= j < n - 1 && NameOf(added[j]) == NameOf(x) && IdOf(added[j]) == IdOf(x);
          var y :| y in Members(added, g, n - 1) && IdOf(y) == id;
          assert y in Members(added, g, n);
        }
      }
      if exists j :: 0 <= j < n - 1 && NameOf(added[j]) == g && IdOf(added[j]) == id {
        var y :| y in Members(added, g, n - 1) && IdOf(y) == id;
        assert y in Members(added, g, n);
      }
    }
  }

  // ---------------------------------------------------------------- queues and tables

  /** Queues and tables hold the same elements: those of the naive grouping of what was added. */
  ghost predicate Holds(queue: seq<string>, objects: map<string, seq<Object>>, tables: map<string, set<Id>>,
                        added: seq<Object>)
  {
    queue == Names(added, |added|) && Filed(queue, objects, tables, added)
  }

  /** The groupings of the queue have their members. */
  ghost predicate Filed(queue: seq<string>, objects: map<string, seq<Object>>, tables: map<string, set<Id>>,
                        added: seq<Object>)
  {
    && (forall g :: g in objects <==> g in queue) && (forall g :: g in tables <==> g in queue)
    && (forall g :: g in objects ==> objects[g] == Members(added, g, |added|))
    && (forall g :: g in objects && g in tables ==> tables[g] == Ids(objects[g]))
  }

  /** The state once the grouping of the object exists. */
  ghost predicate Opened(queue: seq<string>, objects: map<string, seq<Object>>, tables: map<string, set<Id>>,
                         added: seq<Object>, x: Object)
  {
    queue == Names(added + [x], |added| + 1) && NameOf(x) in queue && Filed(queue, objects, tables, added)
  }

  lemma {:induction false} OpenGrouping(queue: seq<string>, objects: map<string, seq<Object>>,
                                        tables: map<string, set<Id>>, added: seq<Object>, x: Object)
    requires Holds(queue, objects, tables, added)
    ensures NameOf(x) in objects ==> NameOf(x) in tables && Opened(queue, objects, tables, added, x)
    ensures NameOf(x) !in objects ==>
      Opened(queue + [NameOf(x)], objects[NameOf(x) := []], tables[NameOf(x) := {}], added, x)
  {
    hide Names, Members, Ids, NameOf, IdOf;
    AddFacts(added, x);
    if NameOf(x) !in objects {
      NoMember(added, NameOf(x));
    }
  }

  lemma {:induction false} AddToGrouping(queue: seq<string>, objects: map<string, seq<Object>>,
                                         tables: map<string, set<Id>>, added: seq<Object>, x: Object)
    requires Opened(queue, objects, tables, added, x)
    ensures NameOf(x) in objects && NameOf(x) in tables
    ensures IdOf(x) in tables[NameOf(x)] ==> Holds(queue, objects, tables, added + [x])
    ensures IdOf(x) !in tables[NameOf(x)] ==>
      Holds(queue, objects[NameOf(x) := objects[NameOf(x)] + [x]],
            tables[NameOf(x) := tables[NameOf(x)] + {IdOf(x)}], added + [x])
  {
    hide Names, Members, Ids, NameOf, IdOf;
    AddFacts(added, x);
    IdsNext(objects[NameOf(x)], x);
  }

  class SyncQueue {
    /** Groupings in the order of the queue, and the table of the groupings. */
    var queue: seq<string>
    var objects: map<string, seq<Object>>
    var tables: map<string, set<Id>>
    /** All the objects that were added. */
    ghost var added: seq<Object>

    /** Queues and tables hold the same elements: those of the naive grouping of what was added. */
    ghost predicate Valid()
      reads this
    {
      Holds(queue, objects, tables, added)
    }

    constructor ()
      ensures Valid() && added == []
    {
      queue, objects, tables, added := [], map[], map[], [];
    }

    /** Queues an object unless its grouping has it already. */
    method Add(x: Object)
      requires Valid()
      modifies this
      ensures Valid() && added == old(added) + [x]
    {
      hide Holds, NameOf, IdOf;
      var name := NameOf(x);
      OpenGrouping(queue, objects, tables, added, x);
      if name !in objects {
        queue := queue + [name];
        objects, tables := objects[name := []], tables[name := {}];
      }
      AddToGrouping(queue, objects, tables, added, x);
      if IdOf(x) !in tables[name] {
        objects := objects[name := objects[name] + [x]];
        tables := tables[name := tables[name] + {IdOf(x)}];
      }
      added := added + [x];
    }
  }

  function Ids(objects: seq<Object>): set<Id> {
    set i | 0 <= i < |objects| :: IdOf(objects[i])
  }

  lemma {:induction false} NoMember(added: seq<Object>, g: string)
    requires g !in Names(added, |added|)
    ensures Members(added, g, |added|) == [] && Ids([]) == {}
  {
    NamesAre(added, |added|);
    NoMemberAmong(added, g, |added|);
  }

  lemma {:induction false} NoMemberAmong(added: seq<Object>, g: string, n: nat)
    requires n <= |added| && forall j :: 0 <= j < n ==> NameOf(added[j]) != g
    ensures Members(added, g, n) == []
  {
    if n > 0 {
      NoMemberAmong(added, g, n - 1);
    }
  }

  lemma {:induction false} NameIsNew(added: seq<Object>, x: Object)
    ensures NewName(added + [x], |added|) <==> NameOf(x) !in Names(added, |added|)
  {
    NamesAre(added, |added|);
    assert forall j :: 0 <= j < |added| ==> (added + [x])[j] == added[j];
  }

  lemma {:induction false} ObjectIsNew(added: seq<Object>, x: Object)
    ensures NewObject(added + [x], |added|) <==> IdOf(x) !in Ids(Members(added, NameOf(x), |added|))
  {
    hide Members;
    var members := Members(added, NameOf(x), |added|);
    MembersAre(added, NameOf(x), |added|, IdOf(x));
    assert forall j :: 0 <= j < |added| ==> (added + [x])[j] == added[j];
    assert IdOf(x) in Ids(members) <==> exists y :: y in members && IdOf(y) == IdOf(x);
  }

  /** What one more object changes in the naive grouping. */
  lemma {:induction false} AddFacts(added: seq<Object>, x: Object)
    ensures var more, n := added + [x], |added|;
      && Names(more, n + 1) == Names(added, n) + (if NameOf(x) in Names(added, n) then [] else [NameOf(x)])
      && (forall g :: g != NameOf(x) ==> Members(more, g, n + 1) == Members(added, g, n))
      && Members(more, NameOf(x), n + 1)
         == Members(added, NameOf(x), n) + if IdOf(x) in Ids(Members(added, NameOf(x), n)) then [] else [x]
  {
    var more, n := added + [x], |added|;
    NamesOfPrefix(added, x, n);
    NameIsNew(added, x);
    ObjectIsNew(added, x);
    forall g
      ensures Members(more, g, n) == Members(added, g, n)
    {
      MembersOfPrefix(added, x, g, n);
    }
    assert more[n] == x;
  }

  lemma {:induction false} IdsNext(objects: seq<Object>, x: Object)
    ensures Ids(objects + [x]) == Ids(objects) + {IdOf(x)}
  {
    var more := objects + [x];
    forall id | id in Ids(objects)
      ensures id in Ids(more)
    {
      var i :| 0 <= i < |objects| && IdOf(objects[i]) == id;
      assert more[i] == objects[i];
    }
    assert more[|objects|] == x;
  }

  // ---------------------------------------------------------------- walk

  /** Synchronises what is queued; `answers` are the results in turn, and the first failure is the result. */
  method SyncAll(q: SyncQueue, answers: nat -> int) returns (rc: int, synced: seq<Object>)
    requires q.Valid()
    ensures synced == InTurn(q.added, q.queue)
    ensures rc == 0 <==> forall i :: 0 <= i < |synced| ==> answers(i) == 0
    ensures rc != 0 ==> FirstFailure(answers, |synced|, rc)
  {
    hide Names, Members;
    rc, synced := 0, [];
    var i := 0;
    while i < |q.queue|
      invariant 0 <= i <= |q.queue| && synced == InTurn(q.added, q.queue[..i])
      invariant rc == 0 <==> forall k :: 0 <= k < |synced| ==> answers(k) == 0
      invariant rc != 0 ==> FirstFailure(answers, |synced|, rc)
    {
      assert q.queue[..i + 1][..i] == q.queue[..i];
      rc, synced := SyncGrouping(q.objects[q.queue[i]], answers, rc, synced);
      i := i + 1;
    }
    assert q.queue[..i] == q.queue;
  }

  ghost predicate FirstFailure(answers: nat -> int, n: nat, rc: int) {
    exists k: nat :: k < n && answers(k) == rc != 0 && forall j: nat :: j < k ==> answers(j) == 0
  }

  method SyncGrouping(objects: seq<Object>, answers: nat -> int, rc0: int, synced0: seq<Object>)
    returns (rc: int, synced: seq<Object>)
    requires rc0 == 0 <==> forall k :: 0 <= k < |synced0| ==> answers(k) == 0
    requires rc0 != 0 ==> FirstFailure(answers, |synced0|, rc0)
    ensures synced == synced0 + objects
    ensures rc == 0 <==> forall k :: 0 <= k < |synced| ==> answers(k) == 0
    ensures rc != 0 ==> FirstFailure(answers, |synced|, rc)
  {
    rc, synced := rc0, synced0;
    var i := 0;
    while i < |objects|
      invariant 0 <= i <= |objects| && synced == synced0 + objects[..i]
      invariant rc == 0 <==> forall k :: 0 <= k < |synced| ==> answers(k) == 0
      invariant rc != 0 ==> FirstFailure(answers, |synced|, rc)
    {
      var answer := answers(|synced|);
      if answer != 0 && rc == 0 {
        rc := answer;
      }
      synced := synced + [objects[i]];
      i := i + 1;
    }
  }

  // ---------------------------------------------------------------- nothing lost, nothing twice

  /** One version of one object, in one grouping. */
  predicate Same(x: Object, y: Object) {
    x.oid == y.oid && x.uuid == y.uuid && x.version == y.version && NameOf(x) == NameOf(y)
  }

  /** Every version of every added object is synchronised, in the grouping that it was added with. */
  lemma {:induction false} EveryObjectSynced(added: seq<Object>, i: nat)
    requires i < |added|
    ensures exists y :: y in InTurn(added, Names(added, |added|)) && Same(y, added[i])
  {
    hide Names, Members;
    var g, n := NameOf(added[i]), |added|;
    NamesAre(added, n);
    MembersAre(added, g, n, IdOf(added[i]));
    var y :| y in Members(added, g, n) && IdOf(y) == IdOf(added[i]);
    MembersNamed(added, g, n);
    InTurnHas(added, Names(added, n), g, y);
  }

  lemma {:induction false} MembersNamed(added: seq<Object>, g: string, n: nat)
    requires n <= |added|
    ensures forall y :: y in Members(added, g, n) ==> NameOf(y) == g
  {
    if n > 0 {
      MembersNamed(added, g, n - 1);
    }
  }

  lemma {:induction false} InTurnHas(added: seq<Object>, names: seq<string>, g: string, y: Object)
    requires g in names && y in Members(added, g, |added|)
    ensures y in InTurn(added, names)
    decreases |names|
  {
    hide Members;
    var last := |names| - 1;
    if g != names[last] {
      assert g in names[..last];
      InTurnHas(added, names[..last], g, y);
    }
  }

  /** No two of these objects have one identity and grouping. */
  predicate AllDifferent(objects: seq<Object>) {
    forall i, j :: 0 <= i < j < |objects| ==> !Same(objects[i], objects[j])
  }

  lemma {:induction false} MembersDiffer(added: seq<Object>, g: string, n: nat)
    requires n <= |added|
    ensures AllDifferent(Members(added, g, n))
  {
    if n > 0 {
      MembersDiffer(added, g, n - 1);
      var before, x := Members(added, g, n - 1), added[n - 1];
      if NameOf(x) == g && NewObject(added, n - 1) {
        MembersAre(added, g, n - 1, IdOf(x));
        forall i | 0 <= i < |before|
          ensures !Same(before[i], x)
        {
          assert before[i] in before;
        }
      }
    }
  }

  lemma {:induction false} NamesDiffer(added: seq<Object>, n: nat)
    requires n <= |added|
    ensures NoDup(Names(added, n))
  {
    if n > 0 {
      NamesDiffer(added, n - 1);
      NamesAre(added, n - 1);
      var before := Names(added, n - 1);
      if NewName(added, n - 1) {
        forall i | 0 <= i < |before|
          ensures before[i] != NameOf(added[n - 1])
        {
          assert before[i] in before;
        }
      }
    }
  }

  /** Nothing is synchronised twice for a grouping. */
  lemma {:induction false} NothingTwice(added: seq<Object>)
    ensures AllDifferent(InTurn(added, Names(added, |added|)))
  {
    NamesDiffer(added, |added|);
    InTurnDiffers(added, Names(added, |added|));
  }

  lemma {:induction false} InTurnDiffers(added: seq<Object>, names: seq<string>)
    requires NoDup(names)
    ensures AllDifferent(InTurn(added, names))
    ensures forall y :: y in InTurn(added, names) ==> NameOf(y) in names
    decreases |names|
  {
    hide Members;
    if names != [] {
      var last := |names| - 1;
      InTurnDiffers(added, names[..last]);
      var before, members := InTurn(added, names[..last]), Members(added, names[last], |added|);
      MembersDiffer(added, names[last], |added|);
      MembersNamed(added, names[last], |added|);
      forall i, j | 0 <= i < |before| && 0 <= j < |members|
        ensures !Same(before[i], members[j])
      {
        assert before[i] in before && members[j] in members;
      }
    }
  }
}
