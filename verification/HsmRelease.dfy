/**
 Release of copies from a full directory: how many bytes must be freed, and which
 copies are released for that, the oldest first. Fill rates are exact reals.
 */
module HsmRelease {
  import opened Basics

  /** Space of a directory, in bytes. */
  datatype Dir = Dir(used: nat, avail: nat)

  /** Fill rates, in percents. */
  datatype Thresholds = Thresholds(higher: nat, lower: nat, specificHigher: nat, specificLower: nat)

  /**
   An extent of the directory. It belongs to as many layouts of the source copy as `layouts` has entries; an entry
   tells if the copy can be released, which needs the source copy, a destination copy and the object to be found.
   An extent whose layouts could not be listed has none.
   */
  datatype Ext = Ext(size: nat, sync: bool, created: Time, layouts: seq<bool>)

  function Capacity(d: Dir): real {
    d.used as real + d.avail as real
  }

  function Bytes(percent: nat, d: Dir): real {
    percent as real * Capacity(d) / 100.0
  }

  predicate InRange(t: Thresholds) {
    1 <= t.higher <= 100 && t.lower <= 99 && 1 <= t.specificHigher <= 100 && t.specificLower <= 99
  }

  // ---------------------------------------------------------------- candidates

  /** The extent may be released: synchronised, and not created after the limit. */
  predicate Selectable(e: Ext, limit: Time) {
    e.sync && (e.created.sec < limit.sec || (e.created.sec == limit.sec && e.created.usec <= limit.usec))
  }

  /** The sizes freed by the copies of one extent that can be released. */
  function CopiesOf(size: nat, layouts: seq<bool>): seq<nat> {
    if layouts == [] then [] else
      var last := |layouts| - 1;
      CopiesOf(size, layouts[..last]) + if layouts[last] then [size] else []
  }

  function CandidatesOf(e: Ext, limit: Time): seq<nat> {
    if Selectable(e, limit) then CopiesOf(e.size, e.layouts) else []
  }

  /** The sizes freed by all copies that can be released, in the order of the extents. */
  function Candidates(extents: seq<Ext>, limit: Time): seq<nat> {
    if extents == [] then [] else
      var last := |extents| - 1;
      Candidates(extents[..last], limit) + CandidatesOf(extents[last], limit)
  }

  /** The bytes accounted for the first `n` candidates, `answers` telling which releases succeed. */
  function Freed(candidates: seq<nat>, answers: nat -> bool, n: nat): nat
    requires n <= |candidates|
  {
    if n == 0 then 0 else Freed(candidates, answers, n - 1) + if answers(n - 1) then candidates[n - 1] else 0
  }

  lemma {:induction false} FreedOfPrefix(a: seq<nat>, b: seq<nat>, answers: nat -> bool, n: nat)
    requires n <= |a|
    ensures Freed(a + b, answers, n) == Freed(a, answers, n)
  {
    if n > 0 {
      FreedOfPrefix(a, b, answers, n - 1);
    }
  }

  /** The first `n` candidates are the shortest beginning that frees the budget, or all candidates. */
  ghost predicate Shortest(candidates: seq<nat>, answers: nat -> bool, budget: int, n: nat) {
    && n <= |candidates|
    && (n == |candidates| || Freed(candidates, answers, n) >= budget)
    && forall k: nat :: k < n ==> Freed(candidates, answers, k) < budget
  }

  /** What is accounted beyond the budget is less than the size of the last release. */
  lemma {:induction false} Overshoot(candidates: seq<nat>, answers: nat -> bool, budget: int, n: nat)
    requires Shortest(candidates, answers, budget, n) && n > 0
    ensures Freed(candidates, answers, n) - budget < candidates[n - 1]
    ensures Freed(candidates, answers, n) >= budget && budget > 0 ==> answers(n - 1)
  {
    assert Freed(candidates, answers, n - 1) < budget;
  }

  // ---------------------------------------------------------------- bytes on the directory

  /** Positions of the extents that the candidates are made of. */
  function Positions(extents: seq<Ext>, limit: Time): seq<nat> {
    if extents == [] then [] else
      var last := |extents| - 1;
      Positions(extents[..last], limit) + seq(|CandidatesOf(extents[last], limit)|, _ => last)
  }

  /** Each extent belongs to one copy at most. */
  predicate OneLayout(extents: seq<Ext>) {
    forall i :: 0 <= i < |extents| ==> |extents[i].layouts| <= 1
  }

  lemma {:induction false} CopiesOfSize(size: nat, layouts: seq<bool>)
    ensures forall i :: 0 <= i < |CopiesOf(size, layouts)| ==> CopiesOf(size, layouts)[i] == size
  {
    if layouts != [] {
      CopiesOfSize(size, layouts[..|layouts| - 1]);
    }
  }

  lemma {:induction false} PositionsAre(extents: seq<Ext>, limit: Time)
    ensures var ps, all := Positions(extents, limit), Candidates(extents, limit);
      && |ps| == |all| && (forall i :: 0 <= i < |ps| ==> ps[i] < |extents| && all[i] == extents[ps[i]].size)
      && (OneLayout(extents) ==> NoDup(ps))
  {
    hide CopiesOf;
    if extents != [] {
      var last := |extents| - 1;
      PositionsAre(extents[..last], limit);
      CopiesOfSize(extents[last].size, extents[last].layouts);
      if OneLayout(extents) {
        AtMostOne(extents[last], limit);
      }
    }
  }

  lemma {:induction false} CopiesCount(size: nat, layouts: seq<bool>)
    ensures |CopiesOf(size, layouts)| == multiset(layouts)[true]
  {
    if layouts != [] {
      var last := |layouts| - 1;
      CopiesCount(size, layouts[..last]);
      assert layouts == layouts[..last] + [layouts[last]];
    }
  }

  /** How many copies of the extent can be released: none if it is not synchronised or was created after the limit. */
  function Releasable(e: Ext, limit: Time): nat {
    if e.sync && Micros(e.created) <= Micros(limit) then multiset(e.layouts)[true] else 0
  }

  lemma {:induction false} CandidatesCount(e: Ext, limit: Time)
    requires Normal(e.created) && Normal(limit)
    ensures |CandidatesOf(e, limit)| == Releasable(e, limit)
  {
    hide CopiesOf;
    CopiesCount(e.size, e.layouts);
  }

  lemma {:induction false} Repeated(p: nat, n: nat)
    ensures multiset(seq(n, _ => p)) == multiset{}[p := n]
  {
    if n > 0 {
      Repeated(p, n - 1);
      assert seq(n, _ => p) == seq(n - 1, _ => p) + [p];
    } else {
      assert seq(n, _ => p) == [];
    }
  }

  /** Each extent makes one candidate for each of its copies that can be released. */
  lemma {:induction false} PositionsExactly(extents: seq<Ext>, limit: Time, p: nat)
    requires Normal(limit) && forall i :: 0 <= i < |extents| ==> Normal(extents[i].created)
    ensures multiset(Positions(extents, limit))[p] == if p < |extents| then Releasable(extents[p], limit) else 0
  {
    hide CandidatesOf, Releasable, Normal;
    if extents != [] {
      var last := |extents| - 1;
      PositionsExactly(extents[..last], limit, p);
      CandidatesCount(extents[last], limit);
      Repeated(last, |CandidatesOf(extents[last], limit)|);
    }
  }

  /** The candidates are in the order of the extents, the oldest first. */
  lemma {:induction false} PositionsInOrder(extents: seq<Ext>, limit: Time, i: nat, j: nat)
    requires i < j < |Positions(extents, limit)|
    ensures Positions(extents, limit)[i] <= Positions(extents, limit)[j]
  {
    hide CandidatesOf;
    if extents != [] {
      var last := |extents| - 1;
      var before := Positions(extents[..last], limit);
      PositionsAre(extents[..last], limit);
      if j < |before| {
        PositionsInOrder(extents[..last], limit, i, j);
      }
    }
  }

  /** The size of the extents at these positions. */
  function SizeAt(extents: seq<Ext>, ps: set<nat>): nat {
    if extents == [] then 0 else
      var last := |extents| - 1;
      SizeAt(extents[..last], ps) + if last in ps then extents[last].size else 0
  }

  lemma {:induction false} SizeOfMore(extents: seq<Ext>, ps: set<nat>, p: nat)
    requires p < |extents| && p !in ps
    ensures SizeAt(extents, ps + {p}) == SizeAt(extents, ps) + extents[p].size
  {
    var last := |extents| - 1;
    if p < last {
      SizeOfMore(extents[..last], ps, p);
    } else {
      SizeBefore(extents[..last], ps, p);
    }
  }

  lemma {:induction false} SizeBefore(extents: seq<Ext>, ps: set<nat>, p: nat)
    requires p >= |extents|
    ensures SizeAt(extents, ps + {p}) == SizeAt(extents, ps)
  {
    if extents != [] {
      SizeBefore(extents[..|extents| - 1], ps, p);
    }
  }

  /** More positions have at least the size, and the same size exactly if the others are empty. */
  lemma {:induction false} SizeOfSubset(extents: seq<Ext>, ps: set<nat>, qs: set<nat>)
    requires ps <= qs
    ensures SizeAt(extents, ps) <= SizeAt(extents, qs)
    ensures SizeAt(extents, ps) == SizeAt(extents, qs) <==>
      forall p :: 0 <= p < |extents| && p in qs && p !in ps ==> extents[p].size == 0
  {
    if extents != [] {
      SizeOfSubset(extents[..|extents| - 1], ps, qs);
    }
  }

  /** The extents that the first `n` releases succeeded for. */
  function Succeeded(ps: seq<nat>, answers: nat -> bool, n: nat): set<nat>
    requires n <= |ps|
  {
    set i | 0 <= i < n && answers(i) :: ps[i]
  }

  /** The extents of the released copies, `copyOf` telling the copy of each extent of the directory. */
  function Gone(copyOf: seq<nat>, released: set<nat>): set<nat> {
    set p | 0 <= p < |copyOf| && exists r :: r in released && r < |copyOf| && copyOf[r] == copyOf[p]
  }

  /**
   What the first `n` releases take off the directory: all the extents of a released copy, be they candidates or not,
   once.
   */
  function TakenOff(extents: seq<Ext>, copyOf: seq<nat>, limit: Time, answers: nat -> bool, n: nat): nat
    requires |copyOf| == |extents| && n <= |Positions(extents, limit)|
  {
    SizeAt(extents, Gone(copyOf, Succeeded(Positions(extents, limit), answers, n)))
  }

  /** The accounted bytes are those of the extents that releases succeeded for. */
  lemma {:induction false} FreedIsSize(extents: seq<Ext>, limit: Time, answers: nat -> bool, n: nat)
    requires OneLayout(extents) && n <= |Candidates(extents, limit)|
    ensures n <= |Positions(extents, limit)|
    ensures Freed(Candidates(extents, limit), answers, n) ==
      SizeAt(extents, Succeeded(Positions(extents, limit), answers, n))
    decreases n
  {
    hide Candidates, Positions;
    PositionsAre(extents, limit);
    var ps := Positions(extents, limit);
    if n == 0 {
      NothingAt(extents);
      assert Succeeded(ps, answers, 0) == {};
    } else {
      FreedIsSize(extents, limit, answers, n - 1);
      var before := Succeeded(ps, answers, n - 1);
      if answers(n - 1) {
        assert Succeeded(ps, answers, n) == before + {ps[n - 1]};
        SizeOfMore(extents, before, ps[n - 1]);
      } else {
        assert Succeeded(ps, answers, n) == before;
      }
    }
  }

  lemma {:induction false} NothingAt(extents: seq<Ext>)
    ensures SizeAt(extents, {}) == 0
  {
    if extents != [] {
      NothingAt(extents[..|extents| - 1]);
    }
  }

  /**
   The directory loses at least the accounted bytes, so that it ends at most as full as the accounts say. It loses no
   more exactly if the released copies have no other bytes on the directory.
   */
  lemma {:induction false} FreesAtLeast(extents: seq<Ext>, copyOf: seq<nat>, limit: Time, answers: nat -> bool, n: nat)
    requires OneLayout(extents) && |copyOf| == |extents| && n <= |Candidates(extents, limit)|
    ensures n <= |Positions(extents, limit)|
    ensures var taken, freed := TakenOff(extents, copyOf, limit, answers, n),
      Freed(Candidates(extents, limit), answers, n);
      && freed <= taken
      && (freed == taken <==>
            var done := Succeeded(Positions(extents, limit), answers, n);
            forall p :: 0 <= p < |extents| && p in Gone(copyOf, done) && p !in done ==> extents[p].size == 0)
  {
    hide Candidates, Positions, Freed, SizeAt;
    PositionsAre(extents, limit);
    FreedIsSize(extents, limit, answers, n);
    var done := Succeeded(Positions(extents, limit), answers, n);
    forall p | p in done
      ensures p in Gone(copyOf, done)
    {
      assert p < |copyOf| && copyOf[p] == copyOf[p];
    }
    SizeOfSubset(extents, done, Gone(copyOf, done));
  }

  /**
   The directory too loses less than the last release beyond the budget, if the released copies have no other bytes.
   */
  lemma {:induction false} OvershootOnDir(extents: seq<Ext>, copyOf: seq<nat>, limit: Time, answers: nat -> bool,
                                          budget: int, n: nat)
    requires OneLayout(extents) && |copyOf| == |extents| && n > 0
    requires Shortest(Candidates(extents, limit), answers, budget, n)
    ensures n <= |Positions(extents, limit)|
    ensures var done := Succeeded(Positions(extents, limit), answers, n);
      (forall p :: 0 <= p < |extents| && p in Gone(copyOf, done) && p !in done ==> extents[p].size == 0) ==>
        TakenOff(extents, copyOf, limit, answers, n) - budget < Candidates(extents, limit)[n - 1]
  {
    hide Candidates, Positions, TakenOff;
    FreesAtLeast(extents, copyOf, limit, answers, n);
    Overshoot(Candidates(extents, limit), answers, budget, n);
  }

  /** A synchronised extent of one copy that can be released. */
  function Old(size: nat): Ext {
    Ext(size, true, Time(0, 0), [true])
  }

  lemma {:induction false} TwoOld(a: nat, b: nat, limit: Time)
    requires limit.sec > 0
    ensures var extents := [Old(a), Old(b)];
      OneLayout(extents) && Candidates(extents, limit) == [a, b] && Positions(extents, limit) == [0, 1]
    ensures SizeAt([Old(a), Old(b)], {0, 1}) == a + b
  {
    var none: seq<Ext> := [];
    var extents := [Old(a), Old(b)];
    OldIsCandidate(a, limit);
    OldIsCandidate(b, limit);
    CandidateAfter(none, Old(a), limit);
    CandidateAfter([Old(a)], Old(b), limit);
    assert none + [Old(a)] == [Old(a)] && [Old(a)] + [Old(b)] == extents;
    assert extents[..1] == [Old(a)] && extents[..1][..0] == [];
    assert SizeAt(extents[..1], {0, 1}) == a;
  }

  lemma {:induction false} OldIsCandidate(size: nat, limit: Time)
    requires limit.sec > 0
    ensures CandidatesOf(Old(size), limit) == [size]
  {
    assert [true][..0] == [] && CopiesOf(size, [true][..0]) == [];
  }

  /** A copy with extents of one and of a hundred bytes, and one byte to free: all of the copy goes. */
  lemma {:induction false} WholeCopyGoes()
    ensures var extents, limit, answers := [Old(1), Old(100)], Time(1, 0), (k: nat) => k == 0;
      && OneLayout(extents) && Candidates(extents, limit) == [1, 100] && Shortest([1, 100], answers, 1, 1)
      && |Positions(extents, limit)| == 2 && TakenOff(extents, [7, 7], limit, answers, 1) == 101
  {
    hide Candidates, Positions, SizeAt, OneLayout, Old;
    var answers := (k: nat) => k == 0;
    TwoOld(1, 100, Time(1, 0));
    assert Freed([1, 100], answers, 1) == 1;
    var done := Succeeded([0, 1], answers, 1);
    assert 0 in done;
    assert Gone([7, 7], done) == {0, 1};
  }

  lemma {:induction false} CandidateAfter(extents: seq<Ext>, e: Ext, limit: Time)
    ensures Candidates(extents + [e], limit) == Candidates(extents, limit) + CandidatesOf(e, limit)
    ensures Positions(extents + [e], limit) ==
      Positions(extents, limit) + seq(|CandidatesOf(e, limit)|, _ => |extents|)
  {
    assert (extents + [e])[..|extents|] == extents;
  }

  // ---------------------------------------------------------------- general threshold

  /** The extents before `j` were scanned whole, each of them while the budget was not freed yet. */
  ghost predicate Scanned(extents: seq<Ext>, limit: Time, answers: nat -> bool, budget: int, j: nat, n: nat) {
    && j <= |extents| && n == |Candidates(extents[..j], limit)|
    && forall i: nat :: i < j ==>
         var before := Candidates(extents[..i], limit);
         Freed(before, answers, |before|) < budget
  }

  lemma {:induction false} CandidatesNext(extents: seq<Ext>, limit: Time, j: nat)
    requires j < |extents|
    ensures Candidates(extents[..j + 1], limit) == Candidates(extents[..j], limit) + CandidatesOf(extents[j], limit)
  {
    assert extents[..j + 1][..j] == extents[..j];
  }

  lemma {:induction false} FreedNext(a: seq<nat>, x: nat, answers: nat -> bool)
    ensures Freed(a + [x], answers, |a| + 1) == Freed(a, answers, |a|) + if answers(|a|) then x else 0
  {
    FreedOfPrefix(a, [x], answers, |a|);
  }

  /** The releases of one extent, layout after layout; `first` releases were tried before. */
  method ReleaseExtent(size: nat, layouts: seq<bool>, answers: nat -> bool, first: nat, left0: int,
                       ghost before: seq<nat>)
    returns (left: int, n: nat)
    requires first == |before|
    ensures var all := before + CopiesOf(size, layouts);
      n == |all| && left + Freed(all, answers, n) == left0 + Freed(before, answers, first)
  {
    hide Freed;
    left, n := left0, first;
    ghost var all := before;
    var k := 0;
    assert before + [] == before;
    while k < |layouts|
      invariant 0 <= k <= |layouts| && all == before + CopiesOf(size, layouts[..k]) && n == |all|
      invariant left + Freed(all, answers, n) == left0 + Freed(before, answers, first)
    {
      assert layouts[..k + 1][..k] == layouts[..k];
      if layouts[k] {
        FreedNext(all, size, answers);
        if answers(n) {
          left := left - size;
        }
        n := n + 1;
        all := all + [size];
      }
      assert all == before + CopiesOf(size, layouts[..k + 1]);
      k := k + 1;
    }
    assert layouts[..k] == layouts;
  }

  /** Releases the copies of the extents in turn, checking the budget before each extent. */
  method ReleaseOldest(extents: seq<Ext>, limit: Time, answers: nat -> bool, budget: int)
    returns (n: nat, left: int, j: nat)
    requires forall i :: 0 <= i < |extents| ==> Selectable(extents[i], limit)
    ensures Scanned(extents, limit, answers, budget, j, n) && (j == |extents| || left <= 0)
    ensures left == budget - Freed(Candidates(extents[..j], limit), answers, n)
  {
    hide Freed, Candidates, CopiesOf;
    n, left, j := 0, budget, 0;
    NoCandidates(extents, limit, answers);
    while j < |extents|
      invariant Scanned(extents, limit, answers, budget, j, n)
      invariant left == budget - Freed(Candidates(extents[..j], limit), answers, n)
    {
      if left <= 0 {
        return;
      }
      ghost var before := Candidates(extents[..j], limit);
      CandidatesNext(extents, limit, j);
      left, n := ReleaseExtent(extents[j].size, extents[j].layouts, answers, n, left, before);
      j := j + 1;
    }
  }

  lemma {:induction false} NoCandidates(extents: seq<Ext>, limit: Time, answers: nat -> bool)
    ensures Candidates(extents[..0], limit) == [] && Freed([], answers, 0) == 0
  {
  }

  /** With one layout for each extent, the releases are the shortest beginning that frees the budget. */
  lemma {:induction false} ScannedIsShortest(extents: seq<Ext>, limit: Time, answers: nat -> bool, budget: int, j: nat,
                                             n: nat)
    requires Scanned(extents, limit, answers, budget, j, n)
    requires OneLayout(extents)
    requires j == |extents| || Freed(Candidates(extents[..j], limit), answers, n) >= budget
    ensures Shortest(Candidates(extents, limit), answers, budget, n)
  {
    hide Freed, Candidates;
    var all := Candidates(extents, limit);
    CandidatesPrefix(extents, limit, answers, j);
    assert j == |extents| ==> extents[..j] == extents;
    forall k: nat | k < n
      ensures Freed(all, answers, k) < budget
    {
      var i := ScannedAt(extents, limit, j, k);
      CandidatesPrefix(extents, limit, answers, i);
    }
  }

  /** Some extent was scanned when exactly `k` releases had been tried. */
  lemma {:induction false} ScannedAt(extents: seq<Ext>, limit: Time, j: nat, k: nat) returns (i: nat)
    requires j <= |extents| && k < |Candidates(extents[..j], limit)|
    requires OneLayout(extents)
    ensures i < j && |Candidates(extents[..i], limit)| == k
    decreases j
  {
    assert j > 0;
    i := j - 1;
    CandidatesNext(extents, limit, i);
    AtMostOne(extents[i], limit);
    if |Candidates(extents[..i], limit)| != k {
      i := ScannedAt(extents, limit, j - 1, k);
    }
  }

  lemma {:induction false} AtMostOne(e: Ext, limit: Time)
    requires |e.layouts| <= 1
    ensures |CandidatesOf(e, limit)| <= 1
  {
    if |e.layouts| == 1 {
      assert CopiesOf(e.size, e.layouts[..0]) == [];
    }
  }

  lemma {:induction false} CandidatesPrefix(extents: seq<Ext>, limit: Time, answers: nat -> bool, j: nat)
    requires j <= |extents|
    ensures var before, all := Candidates(extents[..j], limit), Candidates(extents, limit);
      && |before| <= |all| && all[..|before|] == before
      && Freed(all, answers, |before|) == Freed(before, answers, |before|)
    decreases |extents| - j
  {
    hide Candidates, CandidatesOf, Freed;
    if j < |extents| {
      CandidatesPrefix(extents, limit, answers, j + 1);
      CandidatesNext(extents, limit, j);
      var before, all := Candidates(extents[..j], limit), Candidates(extents, limit);
      assert all == before + all[|before|..];
      FreedOfPrefix(before, all[|before|..], answers, |before|);
    } else {
      assert extents[..j] == extents;
      var all := Candidates(extents, limit);
      assert all[..|all|] == all;
    }
  }

  // ---------------------------------------------------------------- specific threshold

  /** The space occupied by the extents of the source copy. */
  function SourceUse(extents: seq<Ext>): nat {
    if extents == [] then 0 else
      var last := |extents| - 1;
      SourceUse(extents[..last]) + if extents[last].layouts != [] then extents[last].size else 0
  }

  /** The extents of the source copy. */
  function OfSource(extents: seq<Ext>): set<nat> {
    set p | 0 <= p < |extents| && extents[p].layouts != []
  }

  lemma {:induction false} SourceUseIs(extents: seq<Ext>)
    ensures SourceUse(extents) == SizeAt(extents, OfSource(extents))
  {
    if extents != [] {
      var last := |extents| - 1;
      SourceUseIs(extents[..last]);
      var before := OfSource(extents[..last]);
      if extents[last].layouts != [] {
        SizeBefore(extents[..last], before, last);
        assert OfSource(extents) == before + {last};
      } else {
        assert OfSource(extents) == before;
      }
    }
  }

  /** Adds up the space of the source copy; whether the limit was ever crossed is whether the total crosses it. */
  method ScanSource(extents: seq<Ext>, limit: Time, higher: real)
    returns (used: nat, crossed: bool, candidates: seq<nat>)
    requires higher > 0.0
    ensures used == SourceUse(extents) && candidates == Candidates(extents, limit)
    ensures crossed <==> used as real >= higher
  {
    hide CopiesOf, Candidates;
    used, crossed, candidates := 0, false, [];
    NoCandidates(extents, limit, _ => true);
    var j := 0;
    while j < |extents|
      invariant 0 <= j <= |extents|
      invariant used == SourceUse(extents[..j]) && candidates == Candidates(extents[..j], limit)
      invariant crossed <==> used as real >= higher
    {
      assert extents[..j + 1][..j] == extents[..j];
      CandidatesNext(extents, limit, j);
      var e := extents[j];
      j := j + 1;
      if |e.layouts| > 0 {
        used := used + e.size;
        if used as real >= higher {
          crossed := true;
        }
      }
      if !e.sync || e.created.sec > limit.sec || (e.created.sec == limit.sec && e.created.usec > limit.usec) {
        continue;
      }
      var more := CollectCopies(e.size, e.layouts);
      candidates := candidates + more;
    }
    assert extents[..j] == extents;
  }

  method CollectCopies(size: nat, layouts: seq<bool>) returns (copies: seq<nat>)
    ensures copies == CopiesOf(size, layouts)
  {
    copies := [];
    var k := 0;
    while k < |layouts|
      invariant 0 <= k <= |layouts| && copies == CopiesOf(size, layouts[..k])
    {
      assert layouts[..k + 1][..k] == layouts[..k];
      if layouts[k] {
        copies := copies + [size];
      }
      k := k + 1;
    }
    assert layouts[..k] == layouts;
  }

  method ReleaseCandidates(candidates: seq<nat>, answers: nat -> bool, budget: int) returns (n: nat)
    ensures Shortest(candidates, answers, budget, n)
  {
    var left := budget;
    n := 0;
    while n < |candidates| && left > 0
      invariant n <= |candidates| && left == budget - Freed(candidates, answers, n)
      invariant forall k: nat :: k < n ==> Freed(candidates, answers, k) < budget
    {
      if answers(n) {
        left := left - candidates[n];
      }
      n := n + 1;
    }
  }

  // ---------------------------------------------------------------- a directory

  /** The fill rate reaches the higher threshold; a directory without space has no fill rate. */
  predicate Full(d: Dir, t: Thresholds) {
    Capacity(d) > 0.0 && d.used as real / Capacity(d) * 100.0 >= t.higher as real
  }

  predicate UsesSpecific(t: Thresholds) {
    t.specificHigher < t.higher && t.specificLower <= t.specificHigher
  }

  lemma {:induction false} FullMeans(d: Dir, t: Thresholds)
    requires InRange(t)
    ensures Full(d, t) ==> d.used as real >= Bytes(t.higher, d)
    ensures t.lower <= t.higher ==> Bytes(t.lower, d) <= Bytes(t.higher, d)
    ensures Capacity(d) > 0.0 ==> Bytes(t.specificHigher, d) > 0.0
    ensures Bytes(t.specificLower, d) >= 0.0 && Bytes(t.lower, d) >= 0.0
  {
    hide Bytes, Capacity;
    if Full(d, t) {
      FullBytes(d, t.higher);
    }
    if t.lower <= t.higher {
      BytesMonotone(t.lower, t.higher, d);
    }
    BytesMonotone(0, t.specificLower, d);
    BytesMonotone(0, t.lower, d);
    BytesMonotone(1, t.specificHigher, d);
    BytesOfOne(d);
  }

  lemma {:induction false} FullBytes(d: Dir, percent: nat)
    requires Capacity(d) > 0.0 && d.used as real / Capacity(d) * 100.0 >= percent as real
    ensures d.used as real >= Bytes(percent, d)
  {
    hide Capacity;
    Rate(d.used as real, Capacity(d), percent as real);
  }

  lemma {:induction false} BytesMonotone(p: nat, q: nat, d: Dir)
    requires p <= q
    ensures Bytes(p, d) <= Bytes(q, d)
  {
    MulMonotone(p as real, q as real, Capacity(d));
  }

  lemma {:induction false} BytesOfOne(d: Dir)
    ensures Bytes(0, d) == 0.0 && (Capacity(d) > 0.0 ==> Bytes(1, d) > 0.0)
  {
  }

  lemma {:induction false} MulMonotone(a: real, b: real, c: real)
    requires a <= b && c >= 0.0
    ensures a * c <= b * c
  {
  }

  lemma {:induction false} Rate(used: real, capacity: real, percent: real)
    requires capacity > 0.0 && used / capacity * 100.0 >= percent
    ensures used >= percent * capacity / 100.0
  {
    var q := used / capacity;
    assert used == q * capacity;
    assert q >= percent / 100.0;
    MulMonotone(percent / 100.0, q, capacity);
  }

  /** A number of bytes is at most a percentage of the directory exactly if its rate is at most the percentage. */
  lemma {:induction false} BytesIsRate(x: real, percent: nat, d: Dir)
    requires Capacity(d) > 0.0
    ensures x <= Bytes(percent, d) <==> x / Capacity(d) * 100.0 <= percent as real
    ensures x < Bytes(percent, d) <==> x / Capacity(d) * 100.0 < percent as real
  {
    var c, q := Capacity(d), x / Capacity(d);
    assert x == q * c;
    var b := percent as real / 100.0;
    assert Bytes(percent, d) == b * c;
    MulOrder(q, b, c);
  }

  lemma {:induction false} MulOrder(a: real, b: real, c: real)
    requires c > 0.0
    ensures a * c <= b * c <==> a <= b
    ensures a * c < b * c <==> a < b
  {
    if a < b {
      assert (b - a) * c > 0.0;
    } else if a > b {
      assert (a - b) * c > 0.0;
    }
  }

  // ---------------------------------------------------------------- fill rates at the end

  /** The fill rate of the directory without `freed` bytes, and one byte less, is below the lower threshold. */
  ghost predicate GeneralDone(d: Dir, t: Thresholds, freed: nat)
    requires d.used + d.avail > 0
  {
    (d.used as real - freed as real - 1.0) / (d.used + d.avail) as real * 100.0 < t.lower as real
  }

  /** The part of the directory that the source copy occupies, without `freed` bytes, is at the lower threshold. */
  ghost predicate SpecificDone(d: Dir, t: Thresholds, sourceUse: nat, freed: nat)
    requires d.used + d.avail > 0
  {
    (sourceUse as real - freed as real) / (d.used + d.avail) as real * 100.0 <= t.specificLower as real
  }

  lemma {:induction false} GeneralBudgetIs(d: Dir, t: Thresholds, freed: nat)
    requires d.used + d.avail > 0
    ensures freed >= GeneralBudget(d, t) <==> GeneralDone(d, t, freed)
  {
    hide Bytes;
    assert Capacity(d) == (d.used + d.avail) as real;
    BytesIsRate(d.used as real - freed as real - 1.0, t.lower, d);
    FloorAtMost(d.used as real - Bytes(t.lower, d), freed);
  }

  lemma {:induction false} FloorAtMost(x: real, n: int)
    ensures n >= x.Floor <==> n as real + 1.0 > x
    ensures n <= x.Floor <==> n as real <= x
  {
  }

  lemma {:induction false} SpecificBudgetIs(d: Dir, t: Thresholds, sourceUse: nat, freed: nat)
    requires d.used + d.avail > 0
    ensures freed >= SpecificBudget(d, t, sourceUse) <==> SpecificDone(d, t, sourceUse, freed)
  {
    hide Bytes;
    assert Capacity(d) == (d.used + d.avail) as real;
    BytesIsRate(sourceUse as real - freed as real, t.specificLower, d);
    FloorAtMost(Bytes(t.specificLower, d), sourceUse - freed);
  }

  /** The `n` releases end as soon as the fill rate is below the lower threshold, or with the last candidate. */
  ghost predicate GeneralUntil(d: Dir, t: Thresholds, candidates: seq<nat>, answers: nat -> bool, n: nat)
    requires d.used + d.avail > 0
  {
    && n <= |candidates|
    && (n == |candidates| || GeneralDone(d, t, Freed(candidates, answers, n)))
    && forall k: nat :: k < n ==> !GeneralDone(d, t, Freed(candidates, answers, k))
  }

  /** The shortest beginning that frees the budget ends as soon as the fill rate asks for it. */
  lemma {:induction false} GeneralShortestIs(d: Dir, t: Thresholds, candidates: seq<nat>, answers: nat -> bool, n: nat)
    requires d.used + d.avail > 0
    ensures Shortest(candidates, answers, GeneralBudget(d, t), n) <==> GeneralUntil(d, t, candidates, answers, n)
  {
    hide Freed, GeneralDone, GeneralBudget;
    if n <= |candidates| {
      forall k: nat | k <= n
        ensures Freed(candidates, answers, k) >= GeneralBudget(d, t) <==>
          GeneralDone(d, t, Freed(candidates, answers, k))
      {
        GeneralBudgetIs(d, t, Freed(candidates, answers, k));
      }
    }
  }

  /** The `n` releases end as soon as the source copy is at the lower threshold, or with the last candidate. */
  ghost predicate SpecificUntil(d: Dir, t: Thresholds, sourceUse: nat, candidates: seq<nat>, answers: nat -> bool,
                                n: nat)
    requires d.used + d.avail > 0
  {
    && n <= |candidates|
    && (n == |candidates| || SpecificDone(d, t, sourceUse, Freed(candidates, answers, n)))
    && forall k: nat :: k < n ==> !SpecificDone(d, t, sourceUse, Freed(candidates, answers, k))
  }

  /** The same for the part of the directory that the source copy occupies. */
  lemma {:induction false} SpecificShortestIs(d: Dir, t: Thresholds, sourceUse: nat, candidates: seq<nat>,
                                              answers: nat -> bool, n: nat)
    requires d.used + d.avail > 0
    ensures Shortest(candidates, answers, SpecificBudget(d, t, sourceUse), n) <==>
      SpecificUntil(d, t, sourceUse, candidates, answers, n)
  {
    hide Freed, SpecificDone, SpecificBudget;
    if n <= |candidates| {
      forall k: nat | k <= n
        ensures Freed(candidates, answers, k) >= SpecificBudget(d, t, sourceUse) <==>
          SpecificDone(d, t, sourceUse, Freed(candidates, answers, k))
      {
        SpecificBudgetIs(d, t, sourceUse, Freed(candidates, answers, k));
      }
    }
  }

  /** The thresholds that make copies be released, as fill rates; nothing is released from a directory without space. */
  lemma {:induction false} ModeIs(d: Dir, t: Thresholds, sourceUse: nat)
    ensures ModeOf(d, t, sourceUse) != Nothing ==> t.lower <= t.higher && d.used + d.avail > 0
    ensures t.lower <= t.higher && d.used + d.avail > 0 ==>
      var capacity := (d.used + d.avail) as real;
      var rate, sourceRate := d.used as real / capacity * 100.0, sourceUse as real / capacity * 100.0;
      && (ModeOf(d, t, sourceUse) == General <==> rate >= t.higher as real)
      && (ModeOf(d, t, sourceUse) == Specific <==>
            && rate < t.higher as real && sourceRate >= t.specificHigher as real
            && t.specificLower <= t.specificHigher < t.higher)
  {
    hide Bytes;
    if d.used + d.avail > 0 {
      BytesIsRate(sourceUse as real, t.specificHigher, d);
    }
  }

  /** The extents that the database lists for a general release. */
  function OldEnough(extents: seq<Ext>, limit: Time): seq<Ext> {
    if extents == [] then [] else
      var last := |extents| - 1;
      OldEnough(extents[..last], limit) + if Selectable(extents[last], limit) then [extents[last]] else []
  }

  lemma {:induction false} OldEnoughFacts(extents: seq<Ext>, limit: Time)
    ensures forall i :: 0 <= i < |OldEnough(extents, limit)| ==> Selectable(OldEnough(extents, limit)[i], limit)
    ensures Candidates(OldEnough(extents, limit), limit) == Candidates(extents, limit)
  {
    if extents != [] {
      var last := |extents| - 1;
      var before := OldEnough(extents[..last], limit);
      OldEnoughFacts(extents[..last], limit);
      if Selectable(extents[last], limit) {
        assert (before + [extents[last]])[..|before|] == before;
      } else {
        assert before + [] == before;
      }
    }
  }

  datatype Mode = Nothing | General | Specific

  /** Which threshold makes copies be released from a directory. */
  function ModeOf(d: Dir, t: Thresholds, sourceUse: nat): Mode {
    if t.lower > t.higher then Nothing
    else if Full(d, t) then General
    else if UsesSpecific(t) && Capacity(d) > 0.0 && sourceUse as real >= Bytes(t.specificHigher, d) then Specific
    else Nothing
  }

  function GeneralBudget(d: Dir, t: Thresholds): int {
    (d.used as real - Bytes(t.lower, d)).Floor
  }

  function SpecificBudget(d: Dir, t: Thresholds, sourceUse: nat): int {
    sourceUse - Bytes(t.specificLower, d).Floor
  }

  /**
   Releases copies from a directory whose extents are listed from the oldest on, `copyOf` telling the copy of each. In
   the end all candidates were tried or the fill rate is at the lower threshold: within a byte for the general one,
   whose budget is truncated. That holds of the accounts and, with one copy for each extent, of the directory itself.
   */
  method ReleaseDir(d: Dir, t: Thresholds, extents: seq<Ext>, limit: Time, answers: nat -> bool, ghost copyOf: seq<nat>)
    returns (n: nat)
    requires InRange(t) && |copyOf| == |extents|
    ensures ModeOf(d, t, SourceUse(extents)) != Nothing ==> d.used + d.avail > 0
    ensures var all, mode := Candidates(extents, limit), ModeOf(d, t, SourceUse(extents));
      && n <= |all|
      && (mode == Nothing ==> n == 0)
      && (mode == General ==> n == |all| || GeneralDone(d, t, Freed(all, answers, n)))
      && (mode == General && OneLayout(extents) ==>
            Shortest(all, answers, GeneralBudget(d, t), n) && GeneralUntil(d, t, all, answers, n))
      && (mode == Specific ==>
            && Shortest(all, answers, SpecificBudget(d, t, SourceUse(extents)), n)
            && SpecificUntil(d, t, SourceUse(extents), all, answers, n))
    ensures OneLayout(extents) ==>
      var all, mode := Candidates(extents, limit), ModeOf(d, t, SourceUse(extents));
      && n <= |Positions(extents, limit)|
      && var taken := TakenOff(extents, copyOf, limit, answers, n);
         && (mode == General ==> n == |all| || GeneralDone(d, t, taken))
         && (mode == Specific ==> n == |all| || SpecificDone(d, t, SourceUse(extents), taken))
  {
    hide TakenOff, Positions, OneLayout, Candidates, Freed, SourceUse, Full, Bytes, Capacity, Scanned, Shortest,
      GeneralDone, SpecificDone, GeneralBudget, SpecificBudget, GeneralUntil, SpecificUntil;
    n := 0;
    FullMeans(d, t);
    ModeIs(d, t, SourceUse(extents));
    if t.lower > t.higher {
      return;
    }
    if Full(d, t) {
      n := ReleaseGeneral(d, t, extents, limit, answers);
      GeneralBudgetIs(d, t, Freed(Candidates(extents, limit), answers, n));
      GeneralShortestIs(d, t, Candidates(extents, limit), answers, n);
      if OneLayout(extents) {
        FreesAtLeast(extents, copyOf, limit, answers, n);
        GeneralBudgetIs(d, t, TakenOff(extents, copyOf, limit, answers, n));
      }
      return;
    }
    if !UsesSpecific(t) || Capacity(d) <= 0.0 {
      return;
    }
    var used, crossed, candidates := ScanSource(extents, limit, Bytes(t.specificHigher, d));
    if crossed {
      n := ReleaseCandidates(candidates, answers, SpecificBudget(d, t, used));
      ShortestIs(candidates, answers, SpecificBudget(d, t, used), n);
      SpecificBudgetIs(d, t, used, Freed(candidates, answers, n));
      SpecificShortestIs(d, t, used, candidates, answers, n);
      if OneLayout(extents) {
        FreesAtLeast(extents, copyOf, limit, answers, n);
        SpecificBudgetIs(d, t, used, TakenOff(extents, copyOf, limit, answers, n));
      }
    }
  }

  lemma {:induction false} ShortestIs(candidates: seq<nat>, answers: nat -> bool, budget: int, n: nat)
    requires Shortest(candidates, answers, budget, n)
    ensures n <= |candidates| && (n == |candidates| || Freed(candidates, answers, n) >= budget)
  {
  }

  /** The releases of a full directory. */
  method ReleaseGeneral(d: Dir, t: Thresholds, extents: seq<Ext>, limit: Time, answers: nat -> bool) returns (n: nat)
    ensures var all := Candidates(extents, limit);
      && n <= |all|
      && (n == |all| || Freed(all, answers, n) >= GeneralBudget(d, t))
      && (OneLayout(extents) ==>
           Shortest(all, answers, GeneralBudget(d, t), n))
  {
    hide Candidates, Freed, Bytes, Shortest, OldEnough;
    var listed := OldEnough(extents, limit);
    OldEnoughFacts(extents, limit);
    var budget := (d.used as real - Bytes(t.lower, d)).Floor;
    var left, j;
    n, left, j := ReleaseOldest(listed, limit, answers, budget);
    CandidatesPrefix(listed, limit, answers, j);
    if j == |listed| {
      assert listed[..j] == listed;
    }
    if OneLayout(extents) {
      OneLayoutEach(extents, limit);
      ScannedIsShortest(listed, limit, answers, budget, j, n);
    }
  }

  lemma {:induction false} OneLayoutEach(extents: seq<Ext>, limit: Time)
    requires OneLayout(extents)
    ensures OneLayout(OldEnough(extents, limit))
  {
    if extents != [] {
      OneLayoutEach(extents[..|extents| - 1], limit);
    }
  }

  /** The budgets are not negative, so that their integer parts are what the conversion to a size gives. */
  lemma {:induction false} BudgetsAreSizes(d: Dir, t: Thresholds, sourceUse: nat)
    requires InRange(t)
    ensures ModeOf(d, t, sourceUse) == General ==> GeneralBudget(d, t) >= 0
    ensures ModeOf(d, t, sourceUse) == Specific ==> SpecificBudget(d, t, sourceUse) >= 0
    ensures Bytes(t.specificLower, d).Floor >= 0
  {
    hide Bytes, Full, Capacity;
    FullMeans(d, t);
    if UsesSpecific(t) {
      BytesMonotone(t.specificLower, t.specificHigher, d);
    }
  }
}
