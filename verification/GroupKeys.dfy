/**
 Keys of the groups of extents to rebuild: the media that a group needs, in the order
 of their names, so that equal collections of media make equal keys.
 */
module GroupKeys {
  import opened Basics
  import opened SchedulerScore

  /** Order of two names, character by character. */
  predicate Leq(a: Medium, b: Medium) {
    a == [] || (b != [] && (a[0] < b[0] || (a[0] == b[0] && Leq(a[1..], b[1..]))))
  }

  /** The names differ first at `i`, where the character of `a` is the smaller one. */
  predicate LessAt(a: Medium, b: Medium, i: nat) {
    i < |a| && i < |b| && a[..i] == b[..i] && a[i] < b[i]
  }

  /** The order of a dictionary: `a` begins `b`, or is smaller at the first difference. */
  lemma {:induction false} LeqIs(a: Medium, b: Medium)
    ensures Leq(a, b) <==> a <= b || exists i: nat :: LessAt(a, b, i)
  {
    if a != [] && b != [] {
      var x, y := a[1..], b[1..];
      LeqIs(x, y);
      assert a == [a[0]] + x && b == [b[0]] + y;
      if a[0] < b[0] {
        assert LessAt(a, b, 0);
      }
      if i: nat :| LessAt(x, y, i) && a[0] == b[0] {
        assert a[..i + 1] == [a[0]] + x[..i] && b[..i + 1] == [b[0]] + y[..i];
        assert LessAt(a, b, i + 1);
      }
      if i: nat :| LessAt(a, b, i) && i > 0 {
        assert a[..i][0] == a[0] && b[..i][0] == b[0];
        assert x[..i - 1] == a[..i][1..] && y[..i - 1] == b[..i][1..];
        assert LessAt(x, y, i - 1);
      }
    }
  }

  lemma {:induction false} LeqTotal(a: Medium, b: Medium)
    ensures Leq(a, b) || Leq(b, a)
    ensures Leq(a, b) && Leq(b, a) ==> a == b
  {
    if a != [] && b != [] && a[0] == b[0] {
      LeqTotal(a[1..], b[1..]);
      assert a == [a[0]] + a[1..] && b == [b[0]] + b[1..];
    }
  }

  lemma {:induction false} LeqTransitive(a: Medium, b: Medium, c: Medium)
    requires Leq(a, b) && Leq(b, c)
    ensures Leq(a, c)
  {
    if a != [] && a[0] == b[0] == c[0] {
      LeqTransitive(a[1..], b[1..], c[1..]);
    }
  }

  predicate InOrder(k: Key) {
    forall i, j :: 0 <= i < j < |k| ==> Leq(k[i], k[j])
  }

  function Insert(m: Medium, k: Key): Key {
    if k == [] || Leq(m, k[0]) then [m] + k else [k[0]] + Insert(m, k[1..])
  }

  /** The media in the order of their names. */
  function SortMedia(media: seq<Medium>): Key {
    if media == [] then [] else Insert(media[0], SortMedia(media[1..]))
  }

  lemma {:induction false} InsertFacts(m: Medium, k: Key)
    requires InOrder(k)
    ensures InOrder(Insert(m, k)) && multiset(Insert(m, k)) == multiset(k) + multiset{m}
  {
    hide Leq;
    if k != [] {
      assert k == [k[0]] + k[1..];
      if Leq(m, k[0]) {
        forall i | 0 <= i < |k|
          ensures Leq(m, k[i])
        {
          if i > 0 { LeqTransitive(m, k[0], k[i]); }
        }
      } else {
        LeqTotal(m, k[0]);
        var rest := Insert(m, k[1..]);
        InsertFacts(m, k[1..]);
        forall i | 0 <= i < |rest|
          ensures Leq(k[0], rest[i])
        {
          assert rest[i] in multiset(rest);
        }
      }
    }
  }

  lemma {:induction false} SortFacts(media: seq<Medium>)
    ensures InOrder(SortMedia(media)) && multiset(SortMedia(media)) == multiset(media)
  {
    if media != [] {
      SortFacts(media[1..]);
      InsertFacts(media[0], SortMedia(media[1..]));
      assert media == [media[0]] + media[1..];
    }
  }

  lemma {:induction false} FirstIsFirst(a: Key, b: Key)
    requires a != [] && InOrder(a) && InOrder(b) && multiset(a) == multiset(b)
    ensures b != [] && Leq(b[0], a[0])
  {
    assert a[0] in multiset(b);
    var i :| 0 <= i < |b| && b[i] == a[0];
    LeqTotal(b[0], b[0]);
  }

  lemma {:induction false} Tail(k: Key)
    requires k != [] && InOrder(k)
    ensures InOrder(k[1..]) && k == [k[0]] + k[1..] && multiset(k[1..]) == multiset(k) - multiset{k[0]}
  {
    hide Leq;
    assert k == [k[0]] + k[1..];
  }

  /** One order only: any way to sort the media gives the same key. */
  lemma {:induction false} OneOrder(a: Key, b: Key)
    requires InOrder(a) && InOrder(b) && multiset(a) == multiset(b)
    ensures a == b
  {
    hide Leq, InOrder;
    if a != [] {
      FirstIsFirst(a, b);
      FirstIsFirst(b, a);
      LeqTotal(a[0], b[0]);
      Tail(a);
      Tail(b);
      OneOrder(a[1..], b[1..]);
    } else {
      assert |multiset(b)| == |b|;
    }
  }

  /** Two collections of media make the same key exactly when they are equal, counting repetitions. */
  lemma {:induction false} SameKeyIff(a: seq<Medium>, b: seq<Medium>)
    ensures SortMedia(a) == SortMedia(b) <==> multiset(a) == multiset(b)
  {
    SortFacts(a);
    SortFacts(b);
    if multiset(a) == multiset(b) {
      OneOrder(SortMedia(a), SortMedia(b));
    }
  }

  lemma {:induction false} NoDupCount(s: seq<Medium>)
    ensures NoDup(s) <==> forall m: Medium :: multiset(s)[m] <= 1
  {
    if s != [] {
      var first, rest := s[0], s[1..];
      NoDupCount(rest);
      assert s == [first] + rest;
      assert multiset(s) == multiset(rest)[first := multiset(rest)[first] + 1];
      assert first in rest <==> multiset(rest)[first] > 0;
      if NoDup(s) {
        assert first !in rest;
        forall i, j | 0 <= i < j < |rest|
          ensures rest[i] != rest[j]
        {
          assert rest[i] == s[i + 1] && rest[j] == s[j + 1];
        }
      }
      if forall m: Medium :: multiset(s)[m] <= 1 {
        assert multiset(s)[first] <= 1;
        forall m: Medium
          ensures multiset(rest)[m] <= 1
        {
          assert multiset(s)[m] <= 1;
        }
        forall i, j | 0 <= i < j < |s|
          ensures s[i] != s[j]
        {
          assert s[j] == rest[j - 1] && (i > 0 ==> s[i] == rest[i - 1]);
        }
      }
    }
  }

  lemma {:induction false} SortKeepsNoDup(media: seq<Medium>)
    requires NoDup(media)
    ensures NoDup(SortMedia(media))
  {
    SortFacts(media);
    NoDupCount(media);
    NoDupCount(SortMedia(media));
  }
}
