/**
 How an encoder knows that what it wrote has been flushed. Each target counts,
 for every medium it wrote on, the releases that are still to be acknowledged,
 and its layout is filled once as many releases were acknowledged as extents
 were written.
 */
module ReleaseAccounting {
  import opened Basics

  /**
   The output of one target: the media of its written extents, the media still to be released with their
   reference counts, the number of acknowledged releases. A settled target has its layout filled.
   */
  datatype Target = Target(written: seq<Medium>, toRelease: map<Medium, nat>, released: nat,
                           allWritten: bool, settled: bool, layout: seq<Medium>)

  const NewTarget := Target([], map[], 0, false, false, [])

  function Refs(t: Target, m: Medium): nat {
    if m in t.toRelease then t.toRelease[m] else 0
  }

  function AddExtent(t: Target, m: Medium): Target {
    t.(written := t.written + [m], toRelease := t.toRelease[m := Refs(t, m) + 1])
  }

  function Acknowledge(t: Target, m: Medium): Target {
    if m !in t.toRelease then t else
      t.(released := t.released + 1,
         toRelease := if t.toRelease[m] <= 1 then t.toRelease - {m} else t.toRelease[m := t.toRelease[m] - 1])
  }

  function Fill(t: Target): Target {
    t.(layout := t.written, written := [], released := 0, settled := true)
  }

  /** The test made on each target when a full release is acknowledged. */
  predicate Complete(t: Target) {
    t.allWritten && |t.written| > 0 && |t.written| == t.released
  }

  // ---------------------------------------------------------------- counting

  /** What `acks`, the acknowledgements accepted so far, and the reference counts say of the written extents. */
  ghost predicate Balanced(t: Target, acks: multiset<Medium>) {
    && (forall m :: m in t.toRelease ==> t.toRelease[m] > 0)
    && (!t.settled ==> |acks| == t.released && forall m :: multiset(t.written)[m] == acks[m] + Refs(t, m))
  }

  function AcksAfter(t: Target, acks: multiset<Medium>, m: Medium): multiset<Medium> {
    if m in t.toRelease then acks + multiset{m} else acks
  }

  lemma {:induction false} AddExtentIs(t: Target, m: Medium)
    ensures AddExtent(t, m)
         == t.(written := t.written + [m],
           toRelease := t.toRelease[m := if m in t.toRelease then t.toRelease[m] + 1 else 1])
  {
  }

  lemma {:induction false} AddKeeps(t: Target, acks: multiset<Medium>, m: Medium)
    requires Balanced(t, acks)
    ensures Balanced(AddExtent(t, m), acks)
  {
  }

  lemma {:induction false} AcknowledgeKeeps(t: Target, acks: multiset<Medium>, m: Medium)
    requires Balanced(t, acks)
    ensures Balanced(Acknowledge(t, m), AcksAfter(t, acks, m))
  {
  }

  function AcknowledgeAll(t: Target, media: seq<Medium>): Target
    decreases |media|
  {
    if media == [] then t else AcknowledgeAll(Acknowledge(t, media[0]), media[1..])
  }

  function AcksAfterAll(t: Target, acks: multiset<Medium>, media: seq<Medium>): multiset<Medium>
    decreases |media|
  {
    if media == [] then acks
    else AcksAfterAll(Acknowledge(t, media[0]), AcksAfter(t, acks, media[0]), media[1..])
  }

  /**
   Acknowledging a list of media takes each reference count down by the occurrences of its medium, to zero at least.
   */
  lemma {:induction false} AcknowledgeAllKeeps(t: Target, acks: multiset<Medium>, media: seq<Medium>)
    requires Balanced(t, acks)
    ensures var r := AcknowledgeAll(t, media);
      && Balanced(r, AcksAfterAll(t, acks, media))
      && r == t.(toRelease := r.toRelease, released := r.released)
      && forall m :: Refs(r, m) == if Refs(t, m) <= multiset(media)[m] then 0 else Refs(t, m) - multiset(media)[m]
    decreases |media|
  {
    hide Balanced;
    if media != [] {
      var m, rest := media[0], media[1..];
      assert media == [m] + rest;
      AcknowledgeKeeps(t, acks, m);
      AcknowledgeOne(t, acks, m);
      AcknowledgeAllKeeps(Acknowledge(t, m), AcksAfter(t, acks, m), rest);
    }
  }

  lemma {:induction false} AcknowledgeOne(t: Target, acks: multiset<Medium>, m: Medium)
    requires Balanced(t, acks)
    ensures var r := Acknowledge(t, m);
      && r == t.(toRelease := r.toRelease, released := r.released)
      && forall x :: Refs(r, x) == if x == m && Refs(t, m) > 0 then Refs(t, m) - 1 else Refs(t, x)
  {
  }

  lemma {:induction false} SubBagSameSize(a: multiset<Medium>, b: multiset<Medium>)
    requires a <= b && |a| == |b|
    ensures a == b
  {
    assert b == a + (b - a);
  }

  /** A target is complete only when every release of every medium it wrote on was acknowledged. */
  lemma {:induction false} CompleteIsAcknowledged(t: Target, acks: multiset<Medium>)
    requires Balanced(t, acks) && !t.settled && |t.written| == t.released
    ensures t.toRelease == map[] && multiset(t.written) == acks
  {
    SubBagSameSize(acks, multiset(t.written));
    assert forall m :: m in t.toRelease ==> Refs(t, m) > 0;
    assert forall m :: Refs(t, m) == 0;
    assert t.toRelease.Keys == {};
  }
}
