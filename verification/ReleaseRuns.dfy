/**
 The runs of one target of an encoder: extents written, releases sent and
 acknowledged, and the layout filled. A release flushes what was written on its
 medium before it was sent, so that an extent is flushed once the first release
 sent after it is acknowledged.
 */
module ReleaseRuns {
  import opened Basics
  import opened ReleaseAccounting

  /** An extent: its medium and how many releases of that medium had been sent when it was written. */
  type Stamp = (Medium, nat)

  /**
   A target, the acknowledgements it accepted, its extents, and all releases sent to and acknowledged by the daemon.
   */
  datatype State = State(target: Target, acks: multiset<Medium>, stamps: seq<Stamp>, sent: multiset<Medium>,
                         acked: multiset<Medium>)

  const Initial := State(NewTarget, multiset{}, [], multiset{}, multiset{})

  datatype Event = Write(medium: Medium) | EndOfData | Send(media: seq<Medium>) | Response(media: seq<Medium>)

  /** The daemon acknowledges only what was sent, and nothing is written after the last byte. */
  predicate Enabled(s: State, e: Event) {
    match e
    case Write(_) => !s.target.settled && !s.target.allWritten
    case EndOfData => !s.target.settled && !s.target.allWritten
    case Send(media) => media != []
    case Response(media) => media != [] && s.acked + multiset(media) <= s.sent
  }

  function FillIfComplete(t: Target): Target {
    if !t.settled && Complete(t) then Fill(t) else t
  }

  function Step(s: State, e: Event): State {
    match e
    case Write(m) => s.(target := AddExtent(s.target, m), stamps := s.stamps + [(m, s.sent[m])])
    case EndOfData => s.(target := s.target.(allWritten := true))
    case Send(media) => s.(sent := s.sent + multiset(media))
    case Response(media) =>
      State(FillIfComplete(AcknowledgeAll(s.target, media)), AcksAfterAll(s.target, s.acks, media), s.stamps, s.sent,
            s.acked + multiset(media))
  }

  predicate Possible(s: State, es: seq<Event>)
    decreases |es|
  {
    es == [] || (Enabled(s, es[0]) && Possible(Step(s, es[0]), es[1..]))
  }

  function Run(s: State, es: seq<Event>): State
    decreases |es|
  {
    if es == [] then s else Run(Step(s, es[0]), es[1..])
  }

  // ---------------------------------------------------------------- flushing

  /** The first release of its medium after it was written has been acknowledged. */
  predicate Flushed(e: Stamp, acked: multiset<Medium>) {
    e.1 < acked[e.0]
  }

  predicate AllFlushed(s: State) {
    forall k :: 0 <= k < |s.stamps| ==> Flushed(s.stamps[k], s.acked)
  }

  /** What the target itself knows of its extents. */
  ghost predicate Counted(s: State) {
    && Balanced(s.target, s.acks)
    && (!s.target.settled ==>
          |s.stamps| == |s.target.written| && forall k :: 0 <= k < |s.stamps| ==> s.stamps[k].0 == s.target.written[k])
  }

  /** The acknowledgements that the target will have seen of `m` once it has no more to wait for. */
  function Awaited(s: State, m: Medium): nat {
    s.acked[m] + if s.target.settled then 0 else Refs(s.target, m)
  }

  /** Every extent is flushed by the acknowledgements that the target waits for. */
  predicate Covered(s: State) {
    forall k :: 0 <= k < |s.stamps| ==> s.stamps[k].1 < Awaited(s, s.stamps[k].0)
  }

  /** The releases of `m` sent before a write on it are no more than the acknowledgements the target waits for. */
  predicate WriteOk(s: State, m: Medium) {
    s.sent[m] <= Awaited(s, m)
  }

  lemma {:induction false} StepKeeps(s: State, e: Event)
    requires Counted(s) && (e.Write? ==> !s.target.settled)
    ensures Counted(Step(s, e))
    ensures s.acked <= s.sent && Enabled(s, e) ==> Step(s, e).acked <= Step(s, e).sent
  {
    match e
    case Write(m) => AddKeeps(s.target, s.acks, m);
    case EndOfData => assert forall m :: Refs(Step(s, e).target, m) == Refs(s.target, m);
    case Send(_) =>
    case Response(media) => AcknowledgeAllKeeps(s.target, s.acks, media);
  }

  /** A write keeps every extent covered if and only if it comes when no more releases were sent than are waited for. */
  lemma {:induction false} WriteCovers(s: State, m: Medium)
    requires Covered(s) && !s.target.settled
    ensures Covered(Step(s, Write(m))) <==> WriteOk(s, m)
  {
    var r := Step(s, Write(m));
    assert r.stamps[|s.stamps|] == (m, s.sent[m]);
    assert forall x :: Awaited(r, x) == Awaited(s, x) + if x == m then 1 else 0;
    assert forall k :: 0 <= k < |s.stamps| ==> r.stamps[k] == s.stamps[k];
  }

  /** A complete target has nothing left to wait for. */
  lemma {:induction false} CompleteAwaits(s: State, m: Medium)
    requires Counted(s) && !s.target.settled && Complete(s.target)
    ensures Refs(s.target, m) == 0
  {
    CompleteIsAcknowledged(s.target, s.acks);
  }

  /** Covered extents are all flushed when the target is complete. */
  lemma {:induction false} CompleteIsFlushed(s: State)
    requires Counted(s) && Covered(s) && !s.target.settled && Complete(s.target)
    ensures AllFlushed(s)
  {
    forall k | 0 <= k < |s.stamps|
      ensures Flushed(s.stamps[k], s.acked)
    {
      CompleteAwaits(s, s.stamps[k].0);
    }
  }

  /** The state between the acknowledgement of a response and the test for completeness. */
  function Acknowledged(s: State, media: seq<Medium>): State {
    State(AcknowledgeAll(s.target, media), AcksAfterAll(s.target, s.acks, media), s.stamps, s.sent,
          s.acked + multiset(media))
  }

  lemma {:induction false} AcknowledgedKeeps(s: State, media: seq<Medium>)
    requires Counted(s)
    ensures Counted(Acknowledged(s, media)) && forall m :: Awaited(Acknowledged(s, media), m) >= Awaited(s, m)
    ensures Covered(s) ==> Covered(Acknowledged(s, media))
  {
    AcknowledgeAllKeeps(s.target, s.acks, media);
  }

  /** Only a write can leave an extent uncovered. */
  lemma {:induction false} OthersCover(s: State, e: Event)
    requires Counted(s) && Covered(s) && !e.Write?
    ensures Covered(Step(s, e))
  {
    match e
    case EndOfData => assert forall m :: Awaited(Step(s, e), m) == Awaited(s, m);
    case Send(_) => assert forall m :: Awaited(Step(s, e), m) == Awaited(s, m);
    case Response(media) =>
      AcknowledgedKeeps(s, media);
      var r := Acknowledged(s, media);
      if !r.target.settled && Complete(r.target) {
        CompleteIsFlushed(r);
      }
  }

  // ---------------------------------------------------------------- every continuation

  /** The layout is filled with flushed extents, if it is filled. */
  predicate Safe(s: State) {
    s.target.settled ==> AllFlushed(s)
  }

  predicate NoWrites(es: seq<Event>) {
    forall i :: 0 <= i < |es| ==> !es[i].Write?
  }

  /** If nothing more is written, the layout will be filled with flushed extents, whatever releases come when. */
  ghost predicate SafeFrom(s: State) {
    forall es :: Possible(s, es) && NoWrites(es) ==> Safe(Run(s, es))
  }

  lemma {:induction false} CoveredIsSafe(s: State, es: seq<Event>)
    requires Counted(s) && Covered(s) && Possible(s, es) && NoWrites(es)
    ensures Safe(Run(s, es))
    decreases |es|
  {
    hide Counted, Covered, Step;
    if es == [] {
      NowSafe(s);
    } else {
      StepKeeps(s, es[0]);
      OthersCover(s, es[0]);
      CoveredIsSafe(Step(s, es[0]), es[1..]);
    }
  }

  lemma {:induction false} NowSafe(s: State)
    requires Covered(s)
    ensures Safe(s)
  {
  }

  /** The elements of a bag, in some order. */
  lemma {:induction false} Listing(bag: multiset<Medium>) returns (media: seq<Medium>)
    ensures multiset(media) == bag
    decreases |bag|
  {
    if bag == multiset{} {
      media := [];
    } else {
      var m :| m in bag;
      var rest := Listing(bag - multiset{m});
      media := [m] + rest;
      assert multiset([m] + rest) == multiset{m} + multiset(rest);
    }
  }

  /** The media that an unsettled target waits for. */
  function Todo(s: State): multiset<Medium> {
    multiset(s.target.written) - s.acks
  }

  lemma {:induction false} TodoIsAwaited(s: State, m: Medium)
    requires Counted(s) && !s.target.settled
    ensures Awaited(s, m) == s.acked[m] + Todo(s)[m] && Todo(s)[m] == Refs(s.target, m)
  {
  }

  /** A target that waits for nothing has counted as many releases as it has extents. */
  lemma {:induction false} NothingAwaited(t: Target, acks: multiset<Medium>)
    requires Balanced(t, acks) && !t.settled && forall m :: Refs(t, m) == 0
    ensures |t.written| == t.released
  {
    assert multiset(t.written) == acks;
    assert |multiset(t.written)| == |t.written|;
  }

  /** The acknowledgement of all that the target waits for, and of a release of another target on `z`. */
  lemma {:induction false} DrainFills(s: State, media: seq<Medium>, z: Medium)
    requires Counted(s) && !s.target.settled && s.target.allWritten && |s.target.written| > 0
    requires multiset(media) == Todo(s)
    ensures var r := Step(s, Response(media + [z]));
      r.target.settled && r.stamps == s.stamps && forall m :: m != z ==> r.acked[m] == Awaited(s, m)
  {
    hide Balanced, AcknowledgeAll, AcksAfterAll, Refs, Todo;
    var all := media + [z];
    AcknowledgeAllKeeps(s.target, s.acks, all);
    assert multiset(all) == multiset(media) + multiset{z};
    forall m
      ensures Refs(AcknowledgeAll(s.target, all), m) == 0 && Awaited(s, m) == s.acked[m] + multiset(media)[m]
    {
      TodoIsAwaited(s, m);
    }
    NothingAwaited(AcknowledgeAll(s.target, all), AcksAfterAll(s.target, s.acks, all));
  }

  /** Sends the releases that are missing for all that is waited for, and one of another target. */
  lemma {:induction false} SendMissing(s: State, missing: seq<Medium>, media: seq<Medium>, z: Medium)
    requires s.acked <= s.sent && multiset(media) == Todo(s) && multiset(missing) == Todo(s) - (s.sent - s.acked)
    ensures s.acked + multiset(media + [z]) <= Step(s, Send(missing + [z])).sent
  {
    hide Todo;
    assert multiset(missing + [z]) == multiset(missing) + multiset{z};
    assert multiset(media + [z]) == multiset(media) + multiset{z};
    var todo := Todo(s);
    assert s.acked + todo <= s.sent + (todo - (s.sent - s.acked));
  }

  /** An uncovered extent: a run without writes that fills the layout before it is flushed. */
  lemma {:induction false} UncoveredIsUnsafe(s: State, k: nat) returns (es: seq<Event>)
    requires Counted(s) && s.acked <= s.sent && !s.target.settled
    requires k < |s.stamps| && s.stamps[k].1 >= Awaited(s, s.stamps[k].0)
    ensures Possible(s, es) && NoWrites(es) && !Safe(Run(s, es))
  {
    hide Possible, Run, Counted, Todo, AcknowledgeAll, AcksAfterAll, Awaited, Safe, FillIfComplete, NoWrites;
    var m := s.stamps[k].0;
    var z := m + "'";
    var media := Listing(Todo(s));
    var missing := Listing(Todo(s) - (s.sent - s.acked));
    SendMissing(s, missing, media, z);
    var send, respond := Send(missing + [z]), Response(media + [z]);
    var s1 := Step(s, send);
    StepKeeps(s, send);
    if s1.target.allWritten {
      FillsUnflushed(s, s1, k, media, z);
      TwoEvents(s, send, respond);
      es := [send, respond];
    } else {
      var s2 := Step(s1, EndOfData);
      StepKeeps(s1, EndOfData);
      FillsUnflushed(s, s2, k, media, z);
      ThreeEvents(s, send, EndOfData, respond);
      es := [send, EndOfData, respond];
    }
  }

  lemma {:induction false} FillsUnflushed(s: State, r: State, k: nat, media: seq<Medium>, z: Medium)
    requires Counted(s) && Counted(r) && !s.target.settled && r.target == s.target.(allWritten := true)
    requires r.stamps == s.stamps && r.acks == s.acks && r.acked == s.acked && multiset(media) == Todo(s)
    requires k < |s.stamps| && s.stamps[k].1 >= Awaited(s, s.stamps[k].0) && s.stamps[k].0 != z
    ensures !Safe(Step(r, Response(media + [z])))
  {
    hide Step;
    var m := s.stamps[k].0;
    assert |r.target.written| == |r.stamps| > 0;
    DrainFills(r, media, z);
    assert Refs(r.target, m) == Refs(s.target, m);
    var last := Step(r, Response(media + [z]));
    assert last.stamps[k] == s.stamps[k];
    assert !Flushed(last.stamps[k], last.acked);
  }

  lemma {:induction false} OneEvent(s: State, e: Event, es: seq<Event>)
    ensures Possible(s, [e] + es) <==> Enabled(s, e) && Possible(Step(s, e), es)
    ensures Run(s, [e] + es) == Run(Step(s, e), es)
  {
    hide Enabled, Step;
    assert ([e] + es)[1..] == es;
  }

  lemma {:induction false} TwoEvents(s: State, e: Event, f: Event)
    ensures Possible(s, [e, f]) <==> Enabled(s, e) && Enabled(Step(s, e), f)
    ensures Run(s, [e, f]) == Step(Step(s, e), f) && (!e.Write? && !f.Write? ==> NoWrites([e, f]))
  {
    hide Enabled, Step;
    assert [e, f] == [e] + [f] && [f] == [f] + [];
    OneEvent(s, e, [f]);
    OneEvent(Step(s, e), f, []);
  }

  lemma {:induction false} ThreeEvents(s: State, e: Event, f: Event, g: Event)
    ensures Possible(s, [e, f, g]) <==> Enabled(s, e) && Enabled(Step(s, e), f) && Enabled(Step(Step(s, e), f), g)
    ensures Run(s, [e, f, g]) == Step(Step(Step(s, e), f), g)
    ensures !e.Write? && !f.Write? && !g.Write? ==> NoWrites([e, f, g])
  {
    hide Enabled, Step;
    assert [e, f, g] == [e] + [f, g];
    OneEvent(s, e, [f, g]);
    TwoEvents(Step(s, e), f, g);
  }

  /**
   Once nothing more is written, the layout is sure to be filled with flushed extents exactly when all are covered.
   */
  lemma {:induction false} SafeIffCovered(s: State)
    requires Counted(s) && s.acked <= s.sent
    ensures SafeFrom(s) <==> Covered(s)
  {
    hide Counted, Possible, Run;
    if Covered(s) {
      forall es | Possible(s, es) && NoWrites(es)
        ensures Safe(Run(s, es))
      {
        CoveredIsSafe(s, es);
      }
    } else {
      var k :| 0 <= k < |s.stamps| && s.stamps[k].1 >= Awaited(s, s.stamps[k].0);
      if s.target.settled {
        NoEvents(s);
        assert !Flushed(s.stamps[k], s.acked);
      } else {
        var es := UncoveredIsUnsafe(s, k);
      }
    }
  }

  lemma {:induction false} NoEvents(s: State)
    ensures Possible(s, []) && Run(s, []) == s
  {
  }

  // ---------------------------------------------------------------- whole runs

  /** Every write of the run comes when no more releases of its medium were sent than the target waits for. */
  predicate WritesOk(s: State, es: seq<Event>)
    decreases |es|
  {
    es == [] || ((es[0].Write? ==> WriteOk(s, es[0].medium)) && WritesOk(Step(s, es[0]), es[1..]))
  }

  /** Wherever the run stops writing, its layout is sure to be filled with flushed extents. */
  ghost predicate AlwaysSafe(s: State, es: seq<Event>)
    decreases |es|
  {
    SafeFrom(s) && (es == [] || AlwaysSafe(Step(s, es[0]), es[1..]))
  }

  lemma {:induction false} AlwaysSafeFrom(s: State, es: seq<Event>)
    requires Counted(s) && Covered(s) && s.acked <= s.sent && Possible(s, es)
    ensures AlwaysSafe(s, es) <==> WritesOk(s, es)
    decreases |es|
  {
    hide Counted, Covered, Step, SafeFrom, WriteOk;
    SafeIffCovered(s);
    if es != [] {
      var e, next := es[0], Step(s, es[0]);
      StepKeeps(s, e);
      if e.Write? {
        WriteCovers(s, e.medium);
      } else {
        OthersCover(s, e);
      }
      if Covered(next) {
        AlwaysSafeFrom(next, es[1..]);
      } else {
        SafeIffCovered(next);
      }
    }
  }

  /** The exact condition for the layout of a new target never to be filled before its extents are flushed. */
  lemma {:induction false} AlwaysSafeIff(es: seq<Event>)
    requires Possible(Initial, es)
    ensures AlwaysSafe(Initial, es) <==> WritesOk(Initial, es)
  {
    AlwaysSafeFrom(Initial, es);
  }

  // ---------------------------------------------------------------- what fills a layout

  /** The media of the extents written in a run. */
  function WritesOf(es: seq<Event>): seq<Medium> {
    if es == [] then [] else (if es[0].Write? then [es[0].medium] else []) + WritesOf(es[1..])
  }

  lemma {:induction false} AcknowledgedTarget(t: Target, media: seq<Medium>)
    ensures var r := AcknowledgeAll(t, media); r == t.(toRelease := r.toRelease, released := r.released)
    decreases |media|
  {
    if media != [] {
      AcknowledgedTarget(Acknowledge(t, media[0]), media[1..]);
    }
  }

  /** What a target holds: the extents of its layout once it is settled, those written so far before. */
  function Extents(t: Target): seq<Medium> {
    if t.settled then t.layout else t.written
  }

  lemma {:induction false} ExtentsStep(s: State, e: Event)
    requires Enabled(s, e) && (s.target.settled ==> s.target.allWritten)
    ensures var r := Step(s, e);
      && (r.target.settled ==> r.target.allWritten) && (s.target.settled ==> r.target.settled)
      && (r.target.allWritten <==> s.target.allWritten || e.EndOfData?)
      && Extents(r.target) == Extents(s.target) + if e.Write? then [e.medium] else []
  {
    hide AcknowledgeAll, AcksAfterAll;
    assert Extents(s.target) + [] == Extents(s.target);
    if e.Response? {
      AcknowledgedTarget(s.target, e.media);
    }
  }

  lemma {:induction false} ExtentsOfRun(s: State, es: seq<Event>)
    requires Possible(s, es) && (s.target.settled ==> s.target.allWritten)
    ensures var r := Run(s, es);
      && (r.target.settled ==> r.target.allWritten) && (r.target.allWritten <==> s.target.allWritten || EndOfData in es)
      && Extents(r.target) == Extents(s.target) + WritesOf(es)
    decreases |es|
  {
    hide Step, Enabled, Extents;
    if es == [] {
      assert Extents(s.target) + [] == Extents(s.target);
    } else {
      var e := es[0];
      ExtentsStep(s, e);
      ExtentsOfRun(Step(s, e), es[1..]);
      assert es == [e] + es[1..];
      var one := if e.Write? then [e.medium] else [];
      assert Extents(s.target) + (one + WritesOf(es[1..])) == (Extents(s.target) + one) + WritesOf(es[1..]);
    }
  }

  /** A layout is filled only after the last byte was written, and then with every extent of the run, in order. */
  lemma {:induction false} FilledWithAll(es: seq<Event>)
    requires Possible(Initial, es) && Run(Initial, es).target.settled
    ensures EndOfData in es && Run(Initial, es).target.layout == WritesOf(es)
  {
    ExtentsOfRun(Initial, es);
    assert [] + WritesOf(es) == WritesOf(es);
  }

  /**
   A response settles a target exactly if its last byte was written, it has an extent, and each medium was acknowledged
   as often as the target wrote on it. It counts each acknowledged medium, up to the extents written on it.
   */
  lemma {:induction false} SettlesIff(s: State, media: seq<Medium>)
    requires Counted(s) && !s.target.settled
    ensures var r := Step(s, Response(media));
      && (r.target.settled <==>
            s.target.allWritten && s.target.written != [] && r.acks == multiset(s.target.written))
      && r.target.layout == (if r.target.settled then s.target.written else s.target.layout)
      && r.target.written == (if r.target.settled then [] else s.target.written)
      && forall m :: r.acks[m] ==
                     var all, seen := multiset(s.target.written)[m], s.acks[m] + multiset(media)[m];
                     if seen <= all then seen else all
  {
    hide AcknowledgeAll, AcksAfterAll;
    AcknowledgeAllKeeps(s.target, s.acks, media);
    var t, acks := AcknowledgeAll(s.target, media), AcksAfterAll(s.target, s.acks, media);
    if |t.written| == t.released {
      CompleteIsAcknowledged(t, acks);
    }
    if acks == multiset(t.written) {
      assert |multiset(t.written)| == |t.written|;
    }
  }
}
