/**
 What the choice of groups achieves: mounted media are reused when the sizes of the
 groups allow it, and the cost of a run is the number of mounts and unmounts it takes.
 */
module SchedulerReuse {
  import opened Basics
  import opened SchedulerScore
  import opened SchedulerSelect

  lemma {:induction false} BestIsCheapest(cur: Key, pending: map<Key, seq<Item>>, best: Key, other: Key)
    requires NoDup(cur) && AllNoDup(pending.Keys) && IsBest(false, Some(cur), pending, best) && other in pending
    ensures best in pending && |best| - 2 * Reused(cur, best) <= |other| - 2 * Reused(cur, other)
  {
    CostOf(cur, best);
    CostOf(cur, other);
    assert Eligible(false, pending.Keys, other);
  }

  /** With groups whose sizes differ by at most one, a group that reuses a medium comes next if there is one. */
  lemma {:induction false} NextReuses(cur: Key, pending: map<Key, seq<Item>>, key: Key, other: Key)
    requires NoDup(cur) && AllNoDup(pending.Keys) && Continues(cur, pending, key)
    requires forall a, b :: a in pending && b in pending ==> |a| <= |b| + 1
    requires other in pending && Reused(cur, other) > 0
    ensures Reused(cur, key) > 0
  {
    hide IsBest, Reused;
    var best :| IsBest(false, Some(cur), pending, best) &&
      if Reused(cur, best) > 0 then key == best else IsBest(true, Some(cur), pending, key);
    BestIsCheapest(cur, pending, best, other);
  }

  /** With groups of one size, the next group reuses as many mounted media as any group would. */
  lemma {:induction false} NextReusesMost(cur: Key, pending: map<Key, seq<Item>>, key: Key, other: Key)
    requires NoDup(cur) && AllNoDup(pending.Keys) && Continues(cur, pending, key)
    requires forall a, b :: a in pending && b in pending ==> |a| == |b|
    requires other in pending
    ensures Reused(cur, other) <= Reused(cur, key)
  {
    hide IsBest, Reused;
    var best :| IsBest(false, Some(cur), pending, best) &&
      if Reused(cur, best) > 0 then key == best else IsBest(true, Some(cur), pending, key);
    BestIsCheapest(cur, pending, best, other);
  }

  // ---------------------------------------------------------------- sizes that allow no reuse

  function Name(i: nat): (m: Medium)
    ensures |m| == i
  {
    seq(i, _ => 'm')
  }

  function Names(lo: nat, count: nat): Key {
    seq(count, i requires 0 <= i => Name(lo + i))
  }

  lemma {:induction false} NamesDiffer(lo: nat, count: nat)
    ensures NoDup(Names(lo, count))
    ensures forall m :: m in Names(lo, count) ==> lo <= |m| < lo + count
  {
    var k := Names(lo, count);
    assert forall i :: 0 <= i < |k| ==> k[i] == Name(lo + i);
  }

  /** The drives hold one medium, a small group needs other media, a large one needs that medium and others. */
  function Small(a: nat): Key {
    Names(1, a)
  }

  function Large(a: nat, b: nat): Key
    requires b > 0
  {
    [Name(0)] + Names(a + 1, b - 1)
  }

  lemma {:induction false} SmallAndLarge(a: nat, b: nat)
    requires 0 < a < b
    ensures var small, large := Small(a), Large(a, b);
      && NoDup(small) && NoDup(large) && |small| == a && |large| == b
      && MediaOf(small) !! MediaOf(large) && Name(0) !in small && Name(0) in large
  {
    NamesDiffer(1, a);
    NamesDiffer(a + 1, b - 1);
    var large, rest := Large(a, b), Names(a + 1, b - 1);
    assert |Name(0)| == 0 && Name(0) !in rest;
    assert large[0] == Name(0);
    forall i, j | 0 <= i < j < |large|
      ensures large[i] != large[j]
    {
      assert large[j] == rest[j - 1] && (i > 0 ==> large[i] == rest[i - 1]);
    }
    forall m | m in large
      ensures m !in Small(a)
    {
      assert m == Name(0) || m in rest;
    }
  }

  function TwoGroups(a: nat, b: nat): map<Key, seq<Item>>
    requires b > 0
  {
    map[Small(a) := [Item(0, 0, None), Item(1, 0, None)], Large(a, b) := [Item(2, 0, None)]]
  }

  lemma {:induction false} NoLinks(pending: map<Key, seq<Item>>, small: Key, large: Key)
    requires pending.Keys == {small, large} && MediaOf(small) !! MediaOf(large)
    ensures LinkCount(pending.Keys, small) == LinkCount(pending.Keys, large) == 0 && !SomeShare(pending.Keys)
  {
    forall k, m: Medium | k in pending.Keys && m in k
      ensures m in small ==> m !in large
    {
      assert m in small ==> m in MediaOf(small);
      assert m in large ==> m in MediaOf(large);
    }
    assert Links(pending.Keys, small, small) == {};
    assert Links(pending.Keys, large, large) == {};
    LinkedIffShared(pending.Keys);
  }

  /** The small group costs less or, at equal cost and links, has more extents: it is the only best group. */
  lemma {:induction false} SmallIsBest(a: nat, b: nat, start: bool, key: Key)
    requires 0 < a && a + 2 <= b
    ensures IsBest(start, Some([Name(0)]), TwoGroups(a, b), key) <==> key == Small(a)
    ensures Reused([Name(0)], Small(a)) == 0 && Reused([Name(0)], Large(a, b)) == 1
  {
    hide Small, Large, Name, LinkCount, SomeShare, Cost, IsBest;
    var cur, small, large, pending := [Name(0)], Small(a), Large(a, b), TwoGroups(a, b);
    SmallAndLarge(a, b);
    NoLinks(pending, small, large);
    CostOf(cur, small);
    CostOf(cur, large);
    assert MediaOf(cur) * MediaOf(small) == {};
    assert MediaOf(cur) * MediaOf(large) == {Name(0)};
    BestOfTwo(Some(cur), pending, small, large, start, key);
  }

  lemma {:induction false} BestOfTwo(cur: Option<Key>, pending: map<Key, seq<Item>>, small: Key, large: Key,
                                     start: bool, key: Key)
    requires pending.Keys == {small, large} && |pending[small]| > |pending[large]|
    requires LinkCount(pending.Keys, small) == LinkCount(pending.Keys, large) == 0 && !SomeShare(pending.Keys)
    requires Cost(cur, small) <= Cost(cur, large) && NoDup(small) && NoDup(large)
    ensures IsBest(start, cur, pending, key) <==> key == small
  {
    hide LinkCount, Degree, SomeShare, Cost;
    DegreeIsLinks(pending.Keys, small, |small|);
    DegreeIsLinks(pending.Keys, large, |large|);
    assert forall k :: Eligible(start, pending.Keys, k) <==> k == small || k == large;
    var s, l := Rated(cur, pending, small), Rated(cur, pending, large);
    assert Better(start, s, l) && !Better(start, l, s) && !Better(start, s, s);
  }

  /** The sizes of the pending groups lie between `a` and `b`, and `other` would reuse a mounted medium. */
  ghost predicate Possible(a: nat, b: nat, cur: Key, pending: map<Key, seq<Item>>, other: Key) {
    && NoDup(cur) && AllNoDup(pending.Keys) && (forall k :: k in pending ==> a <= |k| <= b)
    && other in pending && Reused(cur, other) > 0
  }

  /** Every group whose size lies between `a` and `b` that follows another reuses a mounted medium if one can. */
  ghost predicate AlwaysReuses(a: nat, b: nat) {
    forall cur, pending: map<Key, seq<Item>>, key, other ::
      Possible(a, b, cur, pending, other) && Continues(cur, pending, key) ==> Reused(cur, key) > 0
  }

  /**
   Reuse is guaranteed exactly when the sizes of the groups differ by at most one, as with copies of one extent, or
   splits of two data extents and one parity extent.
   */
  lemma {:induction false} ReuseIff(a: nat, b: nat)
    requires 0 < a <= b
    ensures AlwaysReuses(a, b) <==> b <= a + 1
  {
    hide Reused, Continues, NoDup, AllNoDup;
    if b <= a + 1 {
      forall cur, pending: map<Key, seq<Item>>, key, other |
        Possible(a, b, cur, pending, other) && Continues(cur, pending, key)
        ensures Reused(cur, key) > 0
      {
        NextReuses(cur, pending, key, other);
      }
    } else {
      NoReuse(a, b);
    }
  }

  lemma {:induction false} NoReuse(a: nat, b: nat)
    requires 0 < a && a + 2 <= b
    ensures !AlwaysReuses(a, b)
  {
    hide Small, Large, Name, Reused, IsBest;
    var cur, pending, small, large := [Name(0)], TwoGroups(a, b), Small(a), Large(a, b);
    SmallIsBest(a, b, false, small);
    SmallIsBest(a, b, true, small);
    SmallAndLarge(a, b);
    assert Continues(cur, pending, small);
    assert Possible(a, b, cur, pending, large);
  }

  // ---------------------------------------------------------------- mounts

  datatype Op = Mount(m: Medium) | Unmount(m: Medium)

  function Apply(mounted: set<Medium>, op: Op): set<Medium> {
    match op
    case Mount(m) => mounted + {m}
    case Unmount(m) => mounted - {m}
  }

  /** The media mounted after these operations. */
  function After(mounted: set<Medium>, ops: seq<Op>): set<Medium>
    decreases |ops|
  {
    if ops == [] then mounted else After(Apply(mounted, ops[0]), ops[1..])
  }

  lemma {:induction false} OneOpOneStep(mounted: set<Medium>, op: Op, goal: set<Medium>)
    ensures Transition(mounted, goal) <= 1 + Transition(Apply(mounted, op), goal)
  {
    var next := Apply(mounted, op);
    SubsetSize(mounted - goal, (next - goal) + {op.m});
    SubsetSize(goal - mounted, (goal - next) + {op.m});
    if op.m in goal {
      SubsetSize(mounted - goal, next - goal);
    } else {
      SubsetSize(goal - mounted, goal - next);
    }
  }

  /** Going from one set of mounted media to another takes at least as many operations as the transition costs. */
  lemma {:induction false} TransitionIsLeast(mounted: set<Medium>, ops: seq<Op>)
    ensures |ops| >= Transition(mounted, After(mounted, ops))
    decreases |ops|
  {
    if ops != [] {
      TransitionIsLeast(Apply(mounted, ops[0]), ops[1..]);
      OneOpOneStep(mounted, ops[0], After(mounted, ops));
    } else {
      assert mounted - mounted == {};
    }
  }

  /** And it takes no more. */
  lemma {:induction false} TransitionSuffices(mounted: set<Medium>, goal: set<Medium>) returns (ops: seq<Op>)
    ensures After(mounted, ops) == goal && |ops| == Transition(mounted, goal)
    decreases Transition(mounted, goal)
  {
    ops := [];
    if m :| m in mounted - goal {
      assert mounted - goal == (mounted - {m} - goal) + {m} && goal - (mounted - {m}) == goal - mounted;
      var rest := TransitionSuffices(mounted - {m}, goal);
      ops := [Unmount(m)] + rest;
      assert ops[1..] == rest;
    } else if m :| m in goal - mounted {
      assert goal - mounted == (goal - (mounted + {m})) + {m} && (mounted + {m}) - goal == mounted - goal;
      var rest := TransitionSuffices(mounted + {m}, goal);
      ops := [Mount(m)] + rest;
      assert ops[1..] == rest;
    } else {
      assert mounted == goal && mounted - goal == {} && goal - mounted == {};
    }
  }

  /** What the groups of a run cost, taken one after the other. */
  function RunCost(cur: Option<Key>, keys: seq<Key>): nat
    decreases |keys|
  {
    if keys == [] then 0 else Cost(cur, keys[0]) + RunCost(Some(keys[0]), keys[1..])
  }

  function Mounted(cur: Option<Key>): set<Medium> {
    if cur.None? then {} else MediaOf(cur.value)
  }

  /** The operations bring the drives to exactly the media of each group in turn. */
  predicate Serves(mounted: set<Medium>, ops: seq<seq<Op>>, keys: seq<Key>)
    decreases |keys|
  {
    |ops| == |keys| &&
    (keys == [] || (After(mounted, ops[0]) == MediaOf(keys[0]) && Serves(MediaOf(keys[0]), ops[1..], keys[1..])))
  }

  function Operations(ops: seq<seq<Op>>): nat {
    if ops == [] then 0 else |ops[0]| + Operations(ops[1..])
  }

  /** The cost of a run is the least number of mounts and unmounts that serve its groups in turn. */
  lemma {:induction false} RunCostIsLeast(cur: Option<Key>, ops: seq<seq<Op>>, keys: seq<Key>)
    requires Serves(Mounted(cur), ops, keys)
    ensures Operations(ops) >= RunCost(cur, keys)
    decreases |keys|
  {
    if keys != [] {
      TransitionIsLeast(Mounted(cur), ops[0]);
      RunCostIsLeast(Some(keys[0]), ops[1..], keys[1..]);
    }
  }

  lemma {:induction false} RunCostSuffices(cur: Option<Key>, keys: seq<Key>) returns (ops: seq<seq<Op>>)
    ensures Serves(Mounted(cur), ops, keys) && Operations(ops) == RunCost(cur, keys)
    decreases |keys|
  {
    ops := [];
    if keys != [] {
      var first := TransitionSuffices(Mounted(cur), MediaOf(keys[0]));
      var rest := RunCostSuffices(Some(keys[0]), keys[1..]);
      ops := [first] + rest;
      assert ops[1..] == rest;
    }
  }
}
