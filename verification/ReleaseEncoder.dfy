/**
 The encoder of several targets: what it does when extents are written and when
 release responses arrive, each target going through a run of its own.
 */
module ReleaseEncoder {
  import opened Basics
  import opened ReleaseAccounting
  import opened ReleaseRuns

  /** The target `t` is at `s` in its run and, if its writes were `sound`, its extents are covered. */
  ghost predicate At(t: Target, s: State, sound: bool, sent: multiset<Medium>, acked: multiset<Medium>) {
    && s.target == t && s.sent == sent && s.acked == acked && Counted(s)
    && (sound && !t.settled ==> Covered(s))
  }

  lemma {:induction false} AtStep(t: Target, s: State, sound: bool, sent: multiset<Medium>, acked: multiset<Medium>,
                                  e: Event)
    requires At(t, s, sound, sent, acked) && !e.Response? && (e.Write? ==> !t.settled)
    ensures var r := Step(s, e); At(r.target, r, sound && (e.Write? ==> WriteOk(s, e.medium)), r.sent, acked)
  {
    hide Counted, Covered;
    StepKeeps(s, e);
    if sound && !t.settled {
      if e.Write? {
        WriteCovers(s, e.medium);
      } else {
        OthersCover(s, e);
      }
    }
  }

  lemma {:induction false} AtAcknowledged(t: Target, s: State, sound: bool, sent: multiset<Medium>,
                                          acked: multiset<Medium>, m: Medium)
    requires At(t, s, sound, sent, acked)
    ensures var r := Acknowledged(s, [m]);
      r.target == Acknowledge(t, m) && At(r.target, r, sound, sent, acked + multiset{m})
  {
    AcknowledgedKeeps(s, [m]);
    assert [m][1..] == [];
    assert AcknowledgeAll(t, [m]) == Acknowledge(t, m);
  }

  lemma {:induction false} AcknowledgedSplits(s: State, media: seq<Medium>)
    requires media != []
    ensures Acknowledged(s, media) == Acknowledged(Acknowledged(s, [media[0]]), media[1..])
  {
    var m, rest := media[0], media[1..];
    assert media == [m] + rest && [m][1..] == [];
    assert AcknowledgeAll(s.target, [m]) == Acknowledge(s.target, m);
    assert AcksAfterAll(s.target, s.acks, [m]) == AcksAfter(s.target, s.acks, m);
    assert s.acked + multiset(media) == s.acked + multiset([m]) + multiset(rest);
  }

  lemma {:induction false} NothingAcknowledged(s: State)
    ensures Acknowledged(s, []) == s
  {
  }

  lemma {:induction false} AtSettled(t: Target, s: State, sound: bool, sent: multiset<Medium>, acked: multiset<Medium>,
                                     media: seq<Medium>)
    requires At(t, s, sound, sent, acked)
    ensures s.target == t && AcknowledgeAll(t, media).settled == t.settled
  {
    AcknowledgeAllKeeps(t, s.acks, media);
  }

  /**
   The layout of a target was filled, with all its extents, exactly if its last byte was written, it has an extent, and
   each medium was acknowledged as often as the target wrote on it.
   */
  predicate FilledWhenDue(before: Target, after: Target, acks: multiset<Medium>) {
    && (after.settled <==> before.allWritten && before.written != [] && acks == multiset(before.written))
    && after.layout == (if after.settled then before.written else before.layout)
  }

  lemma {:induction false} AtSettles(t: Target, s: State, sound: bool, sent: multiset<Medium>, acked: multiset<Medium>,
                                     media: seq<Medium>)
    requires At(t, s, sound, sent, acked) && !t.settled
    ensures var r := Step(s, Response(media)); FilledWhenDue(t, r.target, r.acks)
  {
    hide Step;
    SettlesIff(s, media);
  }

  lemma {:induction false} AtAnyFill(t: Target, s: State, sound: bool, sent: multiset<Medium>, acked: multiset<Medium>)
    requires At(t, s, sound, sent, acked)
    ensures At(Fill(t), s.(target := Fill(t)), sound, sent, acked) && s.(target := t) == s
  {
  }

  ghost function Retarget(states: seq<State>, targets: seq<Target>): seq<State>
    requires |states| == |targets|
  {
    seq(|states|, k requires 0 <= k < |states| => states[k].(target := targets[k]))
  }

  /** A target that becomes complete has nothing to release and, its writes being sound, only flushed extents. */
  lemma {:induction false} AtFilled(t: Target, s: State, sound: bool, sent: multiset<Medium>, acked: multiset<Medium>)
    requires At(t, s, sound, sent, acked)
    ensures var r := FillIfComplete(t);
      && At(r, s.(target := r), sound, sent, acked)
      && (r.settled && !t.settled ==>
            r.toRelease == map[] && multiset(r.layout) == s.acks && (sound ==> AllFlushed(s.(target := r))))
  {
    hide Covered;
    if !t.settled && Complete(t) {
      CompleteIsAcknowledged(t, s.acks);
      if sound {
        CompleteIsFlushed(s);
      }
    }
  }

  /** Where every target is. */
  ghost predicate AllAt(targets: seq<Target>, states: seq<State>, sound: seq<bool>, sent: multiset<Medium>,
                        acked: multiset<Medium>)
    requires |states| == |sound| == |targets|
  {
    forall i :: 0 <= i < |targets| ==> At(targets[i], states[i], sound[i], sent, acked)
  }

  class Encoder {
    var targets: seq<Target>
    /** Where each target is in its run, and whether all its writes were sound. */
    ghost var states: seq<State>
    ghost var sound: seq<bool>
    /** Releases sent to the daemon, and acknowledged by it. */
    ghost var sent: multiset<Medium>
    ghost var acked: multiset<Medium>

    ghost predicate Valid()
      reads this
    {
      && |states| == |sound| == |targets|
      && (forall i :: 0 <= i < |targets| ==> states[i].target == targets[i])
      && AllAt(targets, states, sound, sent, acked)
    }

    constructor (n: nat)
      ensures Valid() && |targets| == n && sent == acked == multiset{}
      ensures forall i :: 0 <= i < n ==> targets[i] == NewTarget && states[i] == Initial && sound[i]
    {
      targets, states, sound := seq(n, _ => NewTarget), seq(n, _ => Initial), seq(n, _ => true);
      sent, acked := multiset{}, multiset{};
    }

    /** An extent of target `i` has been written on `m`. */
    method AddWrittenExtent(i: nat, m: Medium)
      requires Valid() && i < |targets| && !targets[i].settled
      modifies `targets, `states, `sound
      ensures Valid() && targets == old(targets)[i := AddExtent(old(targets)[i], m)]
      ensures states == old(states)[i := Step(old(states)[i], Write(m))]
      ensures sound == old(sound)[i := old(sound)[i] && WriteOk(old(states)[i], m)]
    {
      hide Counted, Covered, AddExtent;
      var t := targets[i];
      AtStep(t, states[i], sound[i], sent, acked, Write(m));
      AddExtentIs(t, m);
      targets := targets[i := t.(written := t.written + [m],
                                 toRelease := t.toRelease[m := if m in t.toRelease then t.toRelease[m] + 1 else 1])];
      sound := sound[i := sound[i] && WriteOk(states[i], m)];
      states := states[i := Step(states[i], Write(m))];
    }

    /** The last byte of target `i` has been written. */
    method MarkAllWritten(i: nat)
      requires Valid() && i < |targets|
      modifies `targets, `states
      ensures Valid() && targets == old(targets)[i := old(targets)[i].(allWritten := true)]
      ensures states == old(states)[i := Step(old(states)[i], EndOfData)]
    {
      hide Counted, Covered;
      AtStep(targets[i], states[i], sound[i], sent, acked, EndOfData);
      targets := targets[i := targets[i].(allWritten := true)];
      states := states[i := Step(states[i], EndOfData)];
    }

    /** A release request for `media` is sent to the daemon. */
    method SendRelease(media: seq<Medium>)
      requires Valid()
      modifies `states, `sent
      ensures Valid() && sent == old(sent) + multiset(media) && |states| == |old(states)|
      ensures forall i :: 0 <= i < |states| ==> states[i] == Step(old(states)[i], Send(media))
    {
      hide Counted, Covered;
      forall i | 0 <= i < |targets|
        ensures At(targets[i], Step(states[i], Send(media)), sound[i], sent + multiset(media), acked)
      {
        AtStep(targets[i], states[i], sound[i], sent, acked, Send(media));
      }
      states := seq(|states|, i requires 0 <= i < |old(states)| => Step(old(states)[i], Send(media)));
      sent := sent + multiset(media);
    }

    /** The daemon acknowledges a release of `m`: every target that has `m` to release counts it. */
    method MarkReleased(m: Medium) returns (found: bool)
      requires Valid()
      modifies `targets, `states, `acked
      ensures Valid() && targets == AcknowledgeEach(old(targets), m)
      ensures found <==> exists i :: 0 <= i < |targets| && m in old(targets)[i].toRelease
      ensures acked == old(acked) + multiset{m} && |states| == |old(states)|
      ensures forall i :: 0 <= i < |states| ==> states[i] == Acknowledged(old(states)[i], [m])
    {
      hide At, Acknowledge, Acknowledged;
      found := false;
      var j := 0;
      while j < |targets|
        modifies `targets
        invariant 0 <= j <= |targets| == |old(targets)|
        invariant forall i :: j <= i < |targets| ==> targets[i] == old(targets)[i]
        invariant forall i :: 0 <= i < j ==> targets[i] == Acknowledge(old(targets)[i], m)
        invariant found <==> exists i :: 0 <= i < j && m in old(targets)[i].toRelease
      {
        var t := targets[j];
        if m in t.toRelease {
          found := true;
        }
        targets := targets[j := Acknowledge(t, m)];
        j := j + 1;
      }
      forall i | 0 <= i < |targets|
        ensures At(targets[i], Acknowledged(states[i], [m]), sound[i], sent, acked + multiset{m})
        ensures Acknowledged(states[i], [m]).target == targets[i]
      {
        AtAcknowledged(old(targets)[i], states[i], sound[i], sent, acked, m);
      }
      states := seq(|states|, i requires 0 <= i < |old(states)| => Acknowledged(old(states)[i], [m]));
      acked := acked + multiset{m};
    }

    /** Marks each listed medium as released. */
    method MarkAllReleased(media: seq<Medium>) returns (rc: int)
      requires Valid()
      modifies `targets, `states, `acked
      ensures Valid() && |states| == |old(states)|
      ensures forall i :: 0 <= i < |states| ==> states[i] == Acknowledged(old(states)[i], media)
      ensures rc == if AllKnown(old(targets), media) then 0 else -EINVAL
    {
      hide At, Encoder.Valid, AllKnown, Acknowledged;
      rc := 0;
      var k := 0;
      NothingUnknown(targets);
      while k < |media|
        invariant 0 <= k <= |media| && Valid() && |states| == |old(states)| && (rc == 0 || rc == -EINVAL)
        invariant forall i :: 0 <= i < |states| ==>
          Acknowledged(states[i], media[k..]) == Acknowledged(old(states)[i], media)
        invariant rc == 0 && AllKnown(targets, media[k..]) <==> AllKnown(old(targets), media)
      {
        assert media[k..][0] == media[k] && media[k..][1..] == media[k + 1..];
        label Before:
        var found := MarkReleased(media[k]);
        forall i | 0 <= i < |states|
          ensures Acknowledged(states[i], media[k + 1..]) == Acknowledged(old@Before(states)[i], media[k..])
        {
          AcknowledgedSplits(old@Before(states)[i], media[k..]);
        }
        AllKnownStep(old@Before(targets), media[k..]);
        if !found {
          rc := -EINVAL;
        }
        k := k + 1;
      }
      NothingUnknown(targets);
      forall i | 0 <= i < |states|
        ensures Acknowledged(states[i], media[k..]) == states[i]
      {
        NothingAcknowledged(states[i]);
      }
    }

    /**
     Fills the layout of every target that is complete: every release of its media was acknowledged and, if its writes
     were sound, all its extents are flushed.
     */
    method FillComplete() returns (done: bool)
      requires Valid()
      modifies `targets, `states
      ensures Valid() && |targets| == |old(targets)|
      ensures forall i :: 0 <= i < |targets| ==>
        targets[i] == FillIfComplete(old(targets)[i]) && states[i] == old(states)[i].(target := targets[i])
      ensures forall i :: 0 <= i < |targets| && targets[i].settled && !old(targets)[i].settled ==>
        && targets[i].toRelease == map[] && multiset(targets[i].layout) == states[i].acks
        && (sound[i] ==> AllFlushed(states[i]))
      ensures done <==> forall i :: 0 <= i < |targets| ==> targets[i].settled
    {
      hide At, AllFlushed;
      done := true;
      var i := 0;
      while i < |targets|
        modifies `targets
        invariant 0 <= i <= |targets| == |old(targets)|
        invariant forall k :: i <= k < |targets| ==> targets[k] == old(targets)[k]
        invariant forall k :: 0 <= k < i ==> targets[k] == FillIfComplete(old(targets)[k])
        invariant done <==> forall k :: 0 <= k < i ==> targets[k].settled
      {
        var t := targets[i];
        if !t.settled && t.allWritten && |t.written| > 0 && |t.written| == t.released {
          targets := targets[i := Fill(t)];
        }
        done := done && targets[i].settled;
        i := i + 1;
      }
      forall k | 0 <= k < |targets|
        ensures At(targets[k], states[k].(target := targets[k]), sound[k], sent, acked)
        ensures targets[k].settled && !old(targets)[k].settled ==>
          && targets[k].toRelease == map[] && multiset(targets[k].layout) == states[k].acks
          && (sound[k] ==> AllFlushed(states[k].(target := targets[k])))
      {
        AtFilled(old(targets)[k], states[k], sound[k], sent, acked);
      }
      states := Retarget(states, targets);
    }

    /** A full release response: every listed medium was released. */
    method HandleRelease(media: seq<Medium>) returns (rc: int, done: bool)
      requires Valid()
      modifies `targets, `states, `acked
      ensures Valid() && |states| == |old(states)|
      ensures forall i :: 0 <= i < |states| ==> states[i] == Step(old(states)[i], Response(media))
      ensures forall i :: 0 <= i < |targets| && !old(targets)[i].settled ==>
        FilledWhenDue(old(targets)[i], targets[i], states[i].acks)
      ensures forall i :: 0 <= i < |targets| && targets[i].settled && !old(targets)[i].settled ==>
        && targets[i].toRelease == map[] && multiset(targets[i].layout) == states[i].acks
        && (sound[i] ==> AllFlushed(states[i]))
      ensures done <==> forall i :: 0 <= i < |targets| ==> targets[i].settled
      ensures rc == if done || AllKnown(old(targets), media) then 0 else -EINVAL
    {
      hide AllKnown, AcknowledgeAll, AcksAfterAll, AllFlushed, Counted, Covered, FilledWhenDue;
      rc := MarkAllReleased(media);
      forall i | 0 <= i < |targets|
        ensures targets[i].settled == old(targets)[i].settled
      {
        AtSettled(old(targets)[i], old(states)[i], old(sound)[i], old(sent), old(acked), media);
      }
      forall i | 0 <= i < |old(targets)| && !old(targets)[i].settled
        ensures var r := Step(old(states)[i], Response(media)); FilledWhenDue(old(targets)[i], r.target, r.acks)
      {
        AtSettles(old(targets)[i], old(states)[i], old(sound)[i], old(sent), old(acked), media);
      }
      done := FillComplete();
      if done {
        rc := 0;
      }
    }

    /** A partial release response: the targets before the current one are flushed and filled. */
    method HandlePartialRelease(current: nat)
      requires Valid() && current <= |targets|
      modifies `targets, `states
      ensures Valid() && |targets| == |old(targets)|
      ensures forall i :: 0 <= i < |targets| ==>
        targets[i] == if i < current && !old(targets)[i].settled then Fill(old(targets)[i]) else old(targets)[i]
    {
      hide At;
      var i := 0;
      while i < current
        modifies `targets
        invariant 0 <= i <= current && |targets| == |old(targets)|
        invariant forall k :: i <= k < |targets| ==> targets[k] == old(targets)[k]
        invariant forall k :: 0 <= k < i ==>
          targets[k] == if !old(targets)[k].settled then Fill(old(targets)[k]) else old(targets)[k]
      {
        if !targets[i].settled {
          targets := targets[i := Fill(targets[i])];
        }
        i := i + 1;
      }
      forall k | 0 <= k < |targets|
        ensures At(targets[k], states[k].(target := targets[k]), sound[k], sent, acked)
      {
        AtAnyFill(old(targets)[k], states[k], sound[k], sent, acked);
      }
      states := Retarget(states, targets);
    }
  }

  function AcknowledgeEach(targets: seq<Target>, m: Medium): seq<Target> {
    seq(|targets|, i requires 0 <= i < |targets| => Acknowledge(targets[i], m))
  }

  /** Every acknowledged medium was to be released by some target when its turn came. */
  ghost predicate AllKnown(targets: seq<Target>, media: seq<Medium>)
    decreases |media|
  {
    media == [] ||
    ((exists i :: 0 <= i < |targets| && media[0] in targets[i].toRelease)
     && AllKnown(AcknowledgeEach(targets, media[0]), media[1..]))
  }

  lemma {:induction false} AllKnownStep(targets: seq<Target>, media: seq<Medium>)
    requires media != []
    ensures AllKnown(targets, media) <==>
      (exists i :: 0 <= i < |targets| && media[0] in targets[i].toRelease)
      && AllKnown(AcknowledgeEach(targets, media[0]), media[1..])
  {
  }

  lemma {:induction false} NothingUnknown(targets: seq<Target>)
    ensures AllKnown(targets, [])
  {
  }

  // ---------------------------------------------------------------- examples

  lemma {:induction false} AcknowledgeM(t: Target, refs: nat)
    requires t.toRelease == map["M" := refs] && refs > 0
    ensures AcknowledgeAll(t, ["M"]) ==
      t.(released := t.released + 1, toRelease := if refs == 1 then map[] else map["M" := refs - 1])
  {
    assert ["M"][1..] == [];
    assert map["M" := refs] - {"M"} == map[];
    assert map["M" := refs]["M" := refs - 1] == map["M" := refs - 1];
  }

  /** A target with two splits on "M", each released after it was written, up to the releases. */
  function TwoSplitsSent(): State {
    Step(Step(Step(Step(Step(Initial, Write("M")), Send(["M"])), Write("M")), EndOfData), Send(["M"]))
  }

  lemma {:induction false} TwoSplitsRun()
    ensures WriteOk(Initial, "M") && !Step(Initial, Write("M")).target.settled
    ensures WriteOk(Step(Step(Initial, Write("M")), Send(["M"])), "M")
    ensures var s := Step(TwoSplitsSent(), Response(["M"]));
      !s.target.settled
      && Step(s, Response(["M"])).target.settled && Step(s, Response(["M"])).target.layout == ["M", "M"]
  {
    hide AcknowledgeAll;
    var s := Step(Step(Initial, Write("M")), Send(["M"]));
    assert s.target == Target(["M"], map["M" := 1], 0, false, false, []) && s.sent == multiset{"M"};
    s := TwoSplitsSent();
    assert s.target == Target(["M", "M"], map["M" := 2], 0, true, false, []);
    AcknowledgeM(s.target, 2);
    s := Step(s, Response(["M"]));
    assert s.target == Target(["M", "M"], map["M" := 1], 1, true, false, []);
    AcknowledgeM(s.target, 1);
  }

  /** An encoder of one target with two splits on "M", each released after it was written. */
  method WriteTwoSplits() returns (e: Encoder)
    ensures fresh(e) && e.Valid() && |e.targets| == 1 && e.sound == [true] && e.states == [TwoSplitsSent()]
  {
    hide AllAt, AllKnown, Step, WriteOk;
    TwoSplitsRun();
    e := new Encoder(1);
    e.AddWrittenExtent(0, "M");
    e.SendRelease(["M"]);
    assert !e.targets[0].settled;
    e.AddWrittenExtent(0, "M");
    e.MarkAllWritten(0);
    e.SendRelease(["M"]);
  }

  /**
   Two splits on one medium, each released after it was written: both extents are flushed when the layout is filled.
   */
  method TwoSplits() returns (e: Encoder)
    ensures e.Valid() && |e.targets| == 1 && e.sound == [true]
    ensures e.targets[0].settled && e.targets[0].layout == ["M", "M"] && AllFlushed(e.states[0])
  {
    hide AllAt, AllKnown, Step, WriteOk, AllFlushed, FilledWhenDue;
    TwoSplitsRun();
    e := WriteTwoSplits();
    var rc, done := e.HandleRelease(["M"]);
    rc, done := e.HandleRelease(["M"]);
  }

  /** A target on "M" with its release sent, and one written after that release was sent. */
  function FirstSent(): State {
    Step(Step(Step(Initial, Write("M")), EndOfData), Send(["M"]))
  }

  function SecondWritten(): State {
    Step(Step(Step(Initial, Send(["M"])), Write("M")), EndOfData)
  }

  lemma {:induction false} EarlyFillRun()
    ensures WriteOk(Initial, "M") && !WriteOk(Step(Initial, Send(["M"])), "M")
    ensures !Step(Initial, Send(["M"])).target.settled && !FirstSent().target.settled && !SecondWritten().target.settled
    ensures var s := Step(FirstSent(), Response(["M"])); s.target.settled && s.target.layout == ["M"]
    ensures var s := Step(SecondWritten(), Response(["M"]));
      s.target.settled && s.target.layout == ["M"] && !AllFlushed(s)
  {
    hide AcknowledgeAll;
    var s, r := FirstSent(), SecondWritten();
    assert s.target == r.target == Target(["M"], map["M" := 1], 0, true, false, []);
    AcknowledgeM(s.target, 1);
    assert r.stamps == [("M", 1)];
    var last := Step(r, Response(["M"]));
    assert !Flushed(last.stamps[0], last.acked);
  }

  /**
   Two targets on one medium, the second written while the release of the first is still to be acknowledged: that
   acknowledgement fills both layouts, and the extent of the second is not flushed.
   */
  method EarlyFill() returns (e: Encoder, done: bool)
    ensures e.Valid() && |e.targets| == 2 && e.sound == [true, false] && done
    ensures e.targets[0].settled && e.targets[0].layout == ["M"] && AllFlushed(e.states[0])
    ensures e.targets[1].settled && e.targets[1].layout == ["M"] && !AllFlushed(e.states[1])
  {
    hide AllAt, AllKnown, Step, WriteOk, AllFlushed, FilledWhenDue;
    EarlyFillRun();
    e := new Encoder(2);
    e.AddWrittenExtent(0, "M");
    e.MarkAllWritten(0);
    e.SendRelease(["M"]);
    e.AddWrittenExtent(1, "M");
    e.MarkAllWritten(1);
    assert e.states[0] == FirstSent() && e.states[1] == SecondWritten();
    var rc;
    rc, done := e.HandleRelease(["M"]);
  }
}
