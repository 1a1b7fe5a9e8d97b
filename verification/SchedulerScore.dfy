/**
 How the rebuild scheduler rates the groups of extents that wait to be rebuilt. A
 group is known by its key: the media that must be mounted together to rebuild it.
 */
module SchedulerScore {
  import opened Basics

  type Key = seq<Medium>

  predicate AllNoDup(pending: set<Key>) {
    forall k :: k in pending ==> NoDup(k)
  }

  function MediaOf(k: Key): set<Medium> {
    set m | m in k
  }

  lemma {:induction false} NoDupSize(k: Key)
    requires NoDup(k)
    ensures |MediaOf(k)| == |k|
  {
    if k != [] {
      var last := |k| - 1;
      NoDupSize(k[..last]);
      assert k == k[..last] + [k[last]];
      assert MediaOf(k) == MediaOf(k[..last]) + {k[last]};
    }
  }

  lemma {:induction false} SubsetSize<T>(a: set<T>, b: set<T>)
    requires a <= b
    ensures |a| <= |b|
  {
    assert b == a + (b - a);
  }

  // ---------------------------------------------------------------- links between groups

  /** The pairs of another pending group and a medium, among `media`, that it needs too. */
  function Links(pending: set<Key>, key: Key, media: seq<Medium>): set<(Key, Medium)> {
    set k, m | k in pending && m in media && k != key && m in k :: (k, m)
  }

  /** How many times the media of this group are needed by other pending groups. */
  function LinkCount(pending: set<Key>, key: Key): nat {
    |Links(pending, key, key)|
  }

  /** The pending groups that need this medium. */
  function Users(pending: set<Key>, m: Medium): set<Key> {
    set k | k in pending && m in k
  }

  /** The links of `key` with one group, on these media. */
  function LinksWith(k: Key, media: seq<Medium>): set<(Key, Medium)> {
    set m | m in media && m in k :: (k, m)
  }

  lemma {:induction false} LinksWithMore(k: Key, media: seq<Medium>, m: Medium)
    requires m !in media
    ensures |LinksWith(k, media + [m])| == |LinksWith(k, media)| + if m in k then 1 else 0
  {
    var a, b := LinksWith(k, media), LinksWith(k, media + [m]);
    assert (k, m) !in a;
    if m in k {
      assert b == a + {(k, m)};
    } else {
      assert b == a;
    }
  }

  lemma {:induction false} LinksNextGroup(done: set<Key>, k: Key, key: Key, media: seq<Medium>)
    requires k !in done && k != key
    ensures |Links(done + {k}, key, media)| == |Links(done, key, media)| + |LinksWith(k, media)|
  {
    var a, b := Links(done, key, media), LinksWith(k, media);
    assert Links(done + {k}, key, media) == a + b;
    assert a !! b;
  }

  lemma {:induction false} LinksSkipItself(done: set<Key>, key: Key, media: seq<Medium>)
    ensures Links(done + {key}, key, media) == Links(done, key, media)
  {
  }

  /** The users of a medium of the group, other than the group itself, are its links on that medium. */
  lemma {:induction false} LinksNextMedium(pending: set<Key>, key: Key, media: seq<Medium>, m: Medium)
    requires m !in media && key in pending && m in key
    ensures |Links(pending, key, media + [m])| == |Links(pending, key, media)| + |Users(pending, m)| - 1
  {
    var a, others := Links(pending, key, media), Users(pending, m) - {key};
    var b := set k | k in others :: (k, m);
    assert Links(pending, key, media + [m]) == a + b;
    assert a !! b;
    PairsSize(others, m);
    assert Users(pending, m) == others + {key};
  }

  lemma {:induction false} PairsSize(keys: set<Key>, m: Medium)
    ensures |set k | k in keys :: (k, m)| == |keys|
  {
    var pairs := set k | k in keys :: (k, m);
    if keys != {} {
      var k :| k in keys;
      PairsSize(keys - {k}, m);
      assert pairs == (set k' | k' in keys - {k} :: (k', m)) + {(k, m)};
    } else {
      assert pairs == {};
    }
  }

  // ---------------------------------------------------------------- the scores

  method KeyHasMedium(key: Key, m: Medium) returns (has: bool)
    ensures has <==> m in key
  {
    has := false;
    var i := 0;
    while i < |key|
      invariant 0 <= i <= |key| && !has && m !in key[..i]
    {
      if key[i] == m {
        return true;
      }
      i := i + 1;
    }
    assert key[..i] == key;
  }

  /** How often the media of the candidate are needed by the other pending groups, by comparing all of them. */
  method FutureScore(pending: set<Key>, candidate: Key) returns (score: nat)
    requires NoDup(candidate)
    ensures score == LinkCount(pending, candidate)
  {
    hide Links, LinksWith;
    score := 0;
    var todo, done := pending, {};
    LinksOfNone(candidate, candidate);
    while todo != {}
      invariant todo !! done && todo + done == pending
      invariant score == |Links(done, candidate, candidate)|
      decreases |todo|
    {
      var key :| key in todo;
      todo, done := todo - {key}, done + {key};
      if key == candidate {
        LinksSkipItself(done - {key}, key, key);
        assert done - {key} + {key} == done;
        continue;
      }
      LinksNextGroup(done - {key}, key, candidate, candidate);
      assert done - {key} + {key} == done;
      var more := CountLinks(key, candidate);
      score := score + more;
    }
    assert done == pending;
  }

  lemma {:induction false} LinksOfNone(key: Key, media: seq<Medium>)
    ensures Links({}, key, media) == {}
  {
  }

  method CountLinks(key: Key, candidate: Key) returns (count: nat)
    requires NoDup(candidate)
    ensures count == |LinksWith(key, candidate)|
  {
    count := 0;
    var i := 0;
    assert LinksWith(key, []) == {};
    while i < |candidate|
      invariant 0 <= i <= |candidate| && count == |LinksWith(key, candidate[..i])|
    {
      var has := KeyHasMedium(key, candidate[i]);
      LinksWithMore(key, candidate[..i], candidate[i]);
      assert candidate[..i + 1] == candidate[..i] + [candidate[i]];
      if has {
        count := count + 1;
      }
      i := i + 1;
    }
    assert candidate[..i] == candidate;
  }

  /** A missing entry of the usage table reads as 0. */
  function Lookup(usage: map<Medium, nat>, m: Medium): nat {
    if m in usage then usage[m] else 0
  }

  /** The usage table counts the users of every medium. */
  ghost predicate IsUsage(usage: map<Medium, nat>, pending: set<Key>) {
    forall m: Medium :: Lookup(usage, m) == |Users(pending, m)|
  }

  lemma {:induction false} UsersNextGroup(done: set<Key>, k: Key, m: Medium)
    requires k !in done
    ensures |Users(done + {k}, m)| == |Users(done, m)| + if m in k then 1 else 0
  {
    var a := Users(done, m);
    assert Users(done + {k}, m) == if m in k then a + {k} else a;
  }

  /** The table of how many pending groups need each medium. */
  method BuildMediaUsage(pending: set<Key>) returns (usage: map<Medium, nat>)
    requires AllNoDup(pending)
    ensures IsUsage(usage, pending)
  {
    usage := map[];
    var todo, done := pending, {};
    assert forall m: Medium :: Users({}, m) == {};
    while todo != {}
      invariant todo !! done && todo + done == pending
      invariant IsUsage(usage, done)
      decreases |todo|
    {
      var key :| key in todo;
      usage := AddUsage(usage, done, key);
      todo, done := todo - {key}, done + {key};
    }
    assert done == pending;
  }

  method AddUsage(before: map<Medium, nat>, done: set<Key>, key: Key) returns (usage: map<Medium, nat>)
    requires NoDup(key) && key !in done && IsUsage(before, done)
    ensures IsUsage(usage, done + {key})
  {
    hide Users;
    usage := before;
    var i := 0;
    while i < |key|
      invariant 0 <= i <= |key|
      invariant forall m: Medium :: Lookup(usage, m) == |Users(done, m)| + if m in key[..i] then 1 else 0
    {
      var m := key[i];
      usage := usage[m := Lookup(usage, m) + 1];
      assert key[..i + 1] == key[..i] + [m];
      i := i + 1;
    }
    forall m: Medium
      ensures Lookup(usage, m) == |Users(done + {key}, m)|
    {
      UsersNextGroup(done, key, m);
      assert key[..i] == key;
    }
  }

  /** The users of these media, one less for each medium that has some. */
  function Degree(pending: set<Key>, media: seq<Medium>): nat {
    if media == [] then 0 else
      var last := |media| - 1;
      var users := |Users(pending, media[last])|;
      Degree(pending, media[..last]) + if users > 0 then users - 1 else 0
  }

  /** The connectivity of a group, by the usage table. */
  method OverlapDegree(usage: map<Medium, nat>, ghost pending: set<Key>, key: Key) returns (degree: nat)
    requires IsUsage(usage, pending)
    ensures degree == Degree(pending, key)
    ensures NoDup(key) && key in pending ==> degree == LinkCount(pending, key)
  {
    hide Users;
    degree := 0;
    var i := 0;
    while i < |key|
      invariant 0 <= i <= |key| && degree == Degree(pending, key[..i])
    {
      var count := Lookup(usage, key[i]);
      assert key[..i + 1][..i] == key[..i];
      if count > 0 {
        degree := degree + count - 1;
      }
      i := i + 1;
    }
    assert key[..i] == key;
    if NoDup(key) && key in pending {
      DegreeIsLinks(pending, key, |key|);
    }
  }

  /** The degree of a pending group is the number of its links: both ways of counting agree. */
  lemma {:induction false} DegreeIsLinks(pending: set<Key>, key: Key, i: nat)
    requires NoDup(key) && key in pending && i <= |key|
    ensures Degree(pending, key[..i]) == |Links(pending, key, key[..i])|
    ensures i == |key| ==> Degree(pending, key) == LinkCount(pending, key)
  {
    hide Links, Users;
    if i == 0 {
      LinksOnNone(pending, key);
    } else {
      DegreeIsLinks(pending, key, i - 1);
      LinksNextMedium(pending, key, key[..i - 1], key[i - 1]);
      UsedByItself(pending, key, key[i - 1]);
      assert key[..i] == key[..i - 1] + [key[i - 1]] && key[..i][..i - 1] == key[..i - 1];
    }
    assert key[..|key|] == key;
  }

  lemma {:induction false} LinksOnNone(pending: set<Key>, key: Key)
    ensures |Links(pending, key, key[..0])| == 0
  {
  }

  lemma {:induction false} UsedByItself(pending: set<Key>, key: Key, m: Medium)
    requires key in pending && m in key
    ensures |Users(pending, m)| > 0
  {
    assert key in Users(pending, m);
  }

  /** Two pending groups need a common medium. */
  ghost predicate SomeShare(pending: set<Key>) {
    exists a, b, m: Medium :: a in pending && b in pending && a != b && m in a && m in b
  }

  lemma {:induction false} LinkedIffShared(pending: set<Key>)
    ensures (exists k :: k in pending && LinkCount(pending, k) > 0) <==> SomeShare(pending)
  {
    if SomeShare(pending) {
      var a, b, m: Medium :| a in pending && b in pending && a != b && m in a && m in b;
      assert (b, m) in Links(pending, a, a);
    }
    if k :| k in pending && LinkCount(pending, k) > 0 {
      var link :| link in Links(pending, k, k);
      assert link.0 in pending && link.0 != k && link.1 in k && link.1 in link.0;
    }
  }

  /** Some pending group is linked: exactly when two of them need a common medium. */
  method HasNonIsolatedGroup(usage: map<Medium, nat>, pending: set<Key>) returns (linked: bool)
    requires AllNoDup(pending) && IsUsage(usage, pending)
    ensures linked <==> exists k :: k in pending && LinkCount(pending, k) > 0
    ensures linked <==> SomeShare(pending)
  {
    hide LinkCount, IsUsage, SomeShare;
    LinkedIffShared(pending);
    var todo := pending;
    while todo != {}
      invariant todo <= pending && forall k :: k in pending && k !in todo ==> LinkCount(pending, k) == 0
      decreases |todo|
    {
      var key :| key in todo;
      todo := todo - {key};
      var degree := OverlapDegree(usage, pending, key);
      if degree > 0 {
        return true;
      }
    }
    return false;
  }

  // ---------------------------------------------------------------- cost

  /** The mounts and unmounts that bring the drives from the media of one group to those of another. */
  function Transition(cur: set<Medium>, next: set<Medium>): nat {
    |cur - next| + |next - cur|
  }

  lemma {:induction false} TransitionIs(cur: Key, next: Key, shared: nat)
    requires NoDup(cur) && NoDup(next) && shared == |MediaOf(cur) * MediaOf(next)|
    ensures Transition(MediaOf(cur), MediaOf(next)) == |cur| + |next| - 2 * shared
  {
    NoDupSize(cur);
    NoDupSize(next);
    var a, b := MediaOf(cur), MediaOf(next);
    assert a == (a - b) + a * b && b == (b - a) + a * b;
  }

  /** How many media of the candidate are mounted. */
  method CountMounted(cur: Option<Key>, candidate: Key) returns (count: nat)
    requires NoDup(candidate)
    ensures count == if cur.None? then 0 else |MediaOf(cur.value) * MediaOf(candidate)|
  {
    hide MediaOf;
    count := 0;
    if cur.None? {
      return;
    }
    var i := 0;
    MountedNone(cur.value, candidate);
    while i < |candidate|
      invariant 0 <= i <= |candidate| && count == |MediaOf(cur.value) * MediaOf(candidate[..i])|
    {
      var has := KeyHasMedium(cur.value, candidate[i]);
      MountedNext(cur.value, candidate[..i], candidate[i]);
      assert candidate[..i + 1] == candidate[..i] + [candidate[i]];
      if has {
        count := count + 1;
      }
      i := i + 1;
    }
    assert candidate[..i] == candidate;
  }

  lemma {:induction false} MountedNone(cur: Key, candidate: Key)
    ensures |MediaOf(cur) * MediaOf(candidate[..0])| == 0
  {
    assert MediaOf(cur) * MediaOf(candidate[..0]) == {};
  }

  lemma {:induction false} MountedNext(cur: Key, media: seq<Medium>, m: Medium)
    requires m !in media
    ensures |MediaOf(cur) * MediaOf(media + [m])| == |MediaOf(cur) * MediaOf(media)| + if m in cur then 1 else 0
  {
    var a := MediaOf(cur) * MediaOf(media);
    assert MediaOf(media + [m]) == MediaOf(media) + {m};
    assert MediaOf(cur) * MediaOf(media + [m]) == if m in cur then a + {m} else a;
  }

  /** The cost of a candidate: the mounts and unmounts it takes, no drive holding anything without a current group. */
  function Cost(cur: Option<Key>, candidate: Key): nat {
    Transition(if cur.None? then {} else MediaOf(cur.value), MediaOf(candidate))
  }

  method CandidateCost(cur: Option<Key>, candidate: Key) returns (cost: int)
    requires NoDup(candidate) && (cur.Some? ==> NoDup(cur.value))
    ensures cost == Cost(cur, candidate)
  {
    var mounted := CountMounted(cur, candidate);
    if cur.None? {
      NoDupSize(candidate);
      assert MediaOf(candidate) - {} == MediaOf(candidate) && {} - MediaOf(candidate) == {};
      return |candidate|;
    }
    TransitionIs(cur.value, candidate, mounted);
    cost := |cur.value| + |candidate| - 2 * mounted;
  }
}
