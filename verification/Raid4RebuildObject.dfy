/**
 A whole object that has lost an extent in some of its splits: the rebuild goes
 through these splits with one buffer, and the object is stored as before.
 */
module Raid4RebuildObject {
  import opened Basics
  import opened Raid4Stripes
  import opened Raid4Batches
  import opened Raid4Recovery
  import opened Raid4Rebuild
  import opened Raid4Object
  import opened Raid4Buffer
  import opened Raid4Transfer
  import opened Raid4Restore
  import opened SplitSizing
  import opened SplitPlan
  import opened RebuildSeek
  import opened RebuildList
  import opened RebuildSplit
  import RebuildRun

  // ---------------------------------------------------------------- when every extent comes back

  /** Where a split of the object is stored. */
  lemma {:induction false} StoredAt(x: seq<Byte>, plan: seq<Split>, s: nat, room: nat, chunk: nat)
    requires room > 0 && chunk > 0 && |x| == PlanBytes(plan) && s < |plan|
    ensures var at, n := PlanBytes(plan[..s]), Bytes(plan[s], 2);
      && at + n <= |x|
      && StoreObject(x, plan, room, chunk)[s] == SplitStored(x[at..at + n], plan[s].offset, room, chunk)
    decreases s
  {
    hide SplitStored, StoreObject, PlanBytes, Bytes;
    var m, n := Bytes(plan[0], 2), Bytes(plan[s], 2);
    PlanBytesStep(plan);
    StoredFirst(x, plan, room, chunk);
    if s == 0 {
      NoBytesBefore(plan);
    } else {
      StoredAt(x[m..], plan[1..], s - 1, room, chunk);
      PlanBytesStep(plan[..s]);
      assert plan[..s][1..] == plan[1..][..s - 1];
      var at := PlanBytes(plan[1..][..s - 1]);
      assert x[m..][at..at + n] == x[m + at..m + at + n];
    }
  }

  lemma {:induction false} NoBytesBefore(plan: seq<Split>)
    ensures PlanBytes(plan[..0]) == 0
  {
  }

  lemma {:induction false} StoredFirst(x: seq<Byte>, plan: seq<Split>, room: nat, chunk: nat)
    requires room > 0 && chunk > 0 && |x| == PlanBytes(plan) && plan != []
    ensures var m := Bytes(plan[0], 2);
      && m <= |x| && |x[m..]| == PlanBytes(plan[1..])
      && StoreObject(x, plan, room, chunk)
         == [SplitStored(x[0..m], plan[0].offset, room, chunk)] + StoreObject(x[m..], plan[1..], room, chunk)
  {
    hide SplitStored;
    var m := Bytes(plan[0], 2);
    assert x[0..m] == x[..m];
  }

  /** Whatever the object holds, a lost extent of any of its splits is rebuilt byte for byte. */
  ghost predicate ObjectRestores(plan: seq<Split>, room: nat, getRoom: nat, chunk: nat)
    requires Buffers(room, getRoom, chunk)
  {
    forall x: seq<Byte>, s: nat, k: nat | |x| == PlanBytes(plan) && s < |plan| && k < 3 ::
      ExtentRestored(StoreObject(x, plan, room, chunk)[s], k, Bytes(plan[s], 2), getRoom, chunk)
  }

  predicate ExtentRestored(w: Stored, k: nat, n: nat, getRoom: nat, chunk: nat)
    requires k < 3 && getRoom > 0 && chunk > 0
  {
    RebuiltFrom(k, w, n, BufferBatches(0, n, getRoom), chunk) == Some(ExtentBytes(w, k))
  }

  lemma {:induction false} KeptSplitRestores(y: seq<Byte>, offset: nat, k: nat, room: nat, getRoom: nat, chunk: nat)
    requires Buffers(room, getRoom, chunk) && StripesKept(offset, |y|, room, chunk) && k < 3
    ensures ExtentRestored(SplitStored(y, offset, room, chunk), k, |y|, getRoom, chunk)
  {
    hide Written, RebuiltFrom, AllAligned, BufferBatches, StripesKept;
    var written := BufferBatches(offset, |y|, room);
    BuffersAlignedIff(offset, |y|, room, chunk);
    GetsAligned(|y|, getRoom, chunk);
    RestoresIffAligned(written, chunk);
    assert RestoresAny(written, chunk);
  }

  lemma {:induction false} CutSplitLoses(offset: nat, n: nat, room: nat, getRoom: nat, chunk: nat)
    returns (y: seq<Byte>)
    requires Buffers(room, getRoom, chunk) && !StripesKept(offset, n, room, chunk)
    ensures |y| == n && !ExtentRestored(SplitStored(y, offset, room, chunk), 2, n, getRoom, chunk)
  {
    hide Written, RebuiltFrom, AllAligned, BufferBatches, StripesKept, WrongParity;
    var written := BufferBatches(offset, n, room);
    BuffersAlignedIff(offset, n, room, chunk);
    GetsAligned(n, getRoom, chunk);
    y := MisalignedParity(written, chunk);
    WrittenLengths(y, written, chunk);
    WrongParityReplaced(Written(y, written, chunk), n, BufferBatches(0, n, getRoom), chunk);
  }

  /**
   Every lost extent of every object is rebuilt byte for byte if and only if no refill of the put buffer cut a stripe.
   */
  lemma {:induction false} ObjectRestoresIff(plan: seq<Split>, room: nat, getRoom: nat, chunk: nat)
    requires Buffers(room, getRoom, chunk)
    ensures ObjectRestores(plan, room, getRoom, chunk) <==> AllStripesKept(plan, room, chunk)
  {
    hide SplitStored, ExtentRestored, StripesKept, StoreObject, PlanBytes;
    if AllStripesKept(plan, room, chunk) {
      forall x: seq<Byte>, s: nat, k: nat | |x| == PlanBytes(plan) && s < |plan| && k < 3
        ensures ExtentRestored(StoreObject(x, plan, room, chunk)[s], k, Bytes(plan[s], 2), getRoom, chunk)
      {
        StoredAt(x, plan, s, room, chunk);
        var at, n := PlanBytes(plan[..s]), Bytes(plan[s], 2);
        KeptSplitRestores(x[at..at + n], plan[s].offset, k, room, getRoom, chunk);
      }
    } else {
      var s :| 0 <= s < |plan| && !StripesKept(plan[s].offset, Bytes(plan[s], 2), room, chunk);
      var y := CutSplitLoses(plan[s].offset, Bytes(plan[s], 2), room, getRoom, chunk);
      var x := Around(plan, s, y);
      StoredAt(x, plan, s, room, chunk);
      assert !ExtentRestored(StoreObject(x, plan, room, chunk)[s], 2, Bytes(plan[s], 2), getRoom, chunk);
    }
  }

  /** An object with these bytes in split `s`. */
  lemma {:induction false} Around(plan: seq<Split>, s: nat, y: seq<Byte>) returns (x: seq<Byte>)
    requires s < |plan| && |y| == Bytes(plan[s], 2)
    ensures |x| == PlanBytes(plan)
    ensures var at := PlanBytes(plan[..s]); at + |y| <= |x| && x[at..at + |y|] == y
    decreases s
  {
    if s == 0 {
      x := y + seq(PlanBytes(plan[1..]), _ => 0);
    } else {
      var rest := Around(plan[1..], s - 1, y);
      var m := Bytes(plan[0], 2);
      x := seq(m, _ => 0) + rest;
      assert plan[..s][1..] == plan[1..][..s - 1];
      var at := PlanBytes(plan[1..][..s - 1]);
      assert x[m + at..m + at + |y|] == rest[at..at + |y|];
    }
  }

  // ---------------------------------------------------------------- the splits of a rebuild

  /** Extent `k` of split `s` is lost. */
  predicate Lost(lyt: seq<Extent>, s: nat, k: nat) {
    !HasIdx(lyt, 3 * s + k)
  }

  /** Split `s` has lost one extent at most. */
  ghost predicate OneLost(lyt: seq<Extent>, s: nat) {
    forall k: nat, l: nat | k < 3 && l < 3 :: Lost(lyt, s, k) && Lost(lyt, s, l) ==> k == l
  }

  /** The media hold `left` of the split `whole`: nothing of a lost extent. */
  ghost predicate LeftOf(lyt: seq<Extent>, whole: Stored, left: Stored, s: nat) {
    forall k: nat | k < 3 :: ExtentBytes(left, k) == if Lost(lyt, s, k) then [] else ExtentBytes(whole, k)
  }

  /** Split `s` after its rebuild: the lost extent is what a rebuild gives, the others are as before. */
  ghost predicate SplitRestored(lyt: seq<Extent>, left: Stored, now: Stored, s: nat, n: nat, room: nat, chunk: nat)
    requires room > 0 && chunk > 0
  {
    forall k: nat | k < 3 ::
      if Lost(lyt, s, k) then RebuiltFrom(k, left, n, BufferBatches(0, n, room), chunk) == Some(ExtentBytes(now, k))
      else ExtentBytes(now, k) == ExtentBytes(left, k)
  }

  function PutBack(s: Stored, k: nat, bytes: seq<Byte>): Stored {
    if k == 0 then s.(data0 := bytes) else if k == 1 then s.(data1 := bytes) else s.(parity := bytes)
  }

  /** A split that has lost one extent has one slot to rebuild. */
  lemma {:induction false} OneSlot(lyt: seq<Extent>, s: nat, k: nat)
    requires OneLost(lyt, s) && k < 3 && Lost(lyt, s, k)
    ensures Slots(lyt, [], s * 3, (s + 1) * 3) == [3 * s + k]
  {
    hide HasIdx;
    var lo := 3 * s;
    assert forall l: nat | l < 3 && l != k :: !Lost(lyt, s, l);
    assert Lost(lyt, s, 0) <==> k == 0;
    assert Lost(lyt, s, 1) <==> k == 1;
    assert Lost(lyt, s, 2) <==> k == 2;
    SlotsStep(lyt, [], lo, lo + 3);
    SlotsStep(lyt, [], lo + 1, lo + 3);
    SlotsStep(lyt, [], lo + 2, lo + 3);
    SlotsStep(lyt, [], lo + 3, lo + 3);
  }

  /** Rebuilds the lost extent `k` of split `s` on a medium of the allocation. */
  method RebuildLost(buff: array<Byte>, lyt: seq<Extent>, left: Stored, s: nat, size: nat, media: seq<Medium>,
                     chunk: nat, ghost plan: seq<Split>, ghost lost: nat)
    returns (now: Option<Stored>, extents: seq<Extent>)
    requires Buffers(buff.Length, buff.Length, chunk) && Tiles(plan, 0, size, chunk, 2) && Survives(lyt, plan, 2, 3)
    requires s < |plan| && |media| > 0 && OneLost(lyt, s) && lost < 3 && Lost(lyt, s, lost)
    modifies buff
    ensures |extents| == 1 && extents[0].layoutIdx == 3 * s + lost && extents[0].medium == media[0]
    ensures FromPlan(extents[0], plan, 2, 3)
    ensures var n := Bytes(plan[s], 2);
      match RebuiltFrom(lost, left, n, BufferBatches(0, n, buff.Length), chunk)
      case None => now == None
      case Some(bytes) => now == Some(PutBack(left, lost, bytes))
  {
    hide Slots, Tiles, Survives, FirstFrom, FromPlan, RebuiltFrom, BufferBatches, PutBack, RebuildSplitSize;
    OneSlot(lyt, s, lost);
    RebuildInvertsWrite(lyt, plan, size, chunk, 2, 3, s);
    extents := ExtentsOfSplit(lyt, [], s, media, size, 2, 3, plan, chunk);
    var found, offset := FirstExtentOffset(lyt, s * 3);
    var n := GetCurrentSplitSize(lyt, s, offset, size, 3);
    var k := extents[0].layoutIdx % 3;
    var bytes := RebuildExtent(buff, k, left, n, chunk);
    now := if bytes.None? then None else Some(PutBack(left, k, bytes.value));
  }

  lemma {:induction false} PutBackIs(lyt: seq<Extent>, left: Stored, s: nat, n: nat, room: nat, chunk: nat, k: nat,
                                     bytes: seq<Byte>)
    requires room > 0 && chunk > 0 && OneLost(lyt, s) && k < 3 && Lost(lyt, s, k)
    requires RebuiltFrom(k, left, n, BufferBatches(0, n, room), chunk) == Some(bytes)
    ensures SplitRestored(lyt, left, PutBack(left, k, bytes), s, n, room, chunk)
  {
    hide RebuiltFrom, BufferBatches, Lost;
  }

  // ---------------------------------------------------------------- the whole object

  /** Split `s` has work to do exactly if it has lost an extent. */
  lemma {:induction false} WorkIffLost(lyt: seq<Extent>, s: nat) returns (k: nat)
    ensures k <= 3 && (Work(lyt, [], s, 3) > 0 <==> k < 3) && (k < 3 ==> Lost(lyt, s, k))
    ensures k == 3 ==> forall l: nat | l < 3 :: !Lost(lyt, s, l)
  {
    hide HasIdx;
    var lo := 3 * s;
    assert Present(lyt, lo, lo + 3) == (if HasIdx(lyt, lo) then 1 else 0) + Present(lyt, lo + 1, lo + 3);
    assert Present(lyt, lo + 1, lo + 3) == (if HasIdx(lyt, lo + 1) then 1 else 0) + Present(lyt, lo + 2, lo + 3);
    assert Present(lyt, lo + 2, lo + 3) == if HasIdx(lyt, lo + 2) then 1 else 0;
    k := if !HasIdx(lyt, lo) then 0 else if !HasIdx(lyt, lo + 1) then 1 else if !HasIdx(lyt, lo + 2) then 2 else 3;
  }

  /** The rebuild of an object: what it takes and what is promised of it. */
  ghost predicate Rebuildable(lyt: seq<Extent>, left: seq<Stored>, size: nat, plan: seq<Split>, room: nat, chunk: nat) {
    && Buffers(room, room, chunk) && Tiles(plan, 0, size, chunk, 2) && Survives(lyt, plan, 2, 3)
    && |left| == |plan| && forall s: nat | s < |plan| :: OneLost(lyt, s)
  }

  /** The first `j` visited splits are rebuilt, each with a new extent, and the others are as before. */
  ghost predicate RebuiltUpTo(lyt: seq<Extent>, left: seq<Stored>, now: seq<Stored>, extents: seq<Extent>,
                              visited: seq<nat>, j: nat, plan: seq<Split>, room: nat, chunk: nat)
    requires room > 0 && chunk > 0
  {
    && |now| == |left| == |plan| && j <= |visited| && |extents| == j
    && (forall s: nat | s < |plan| && s !in visited[..j] :: now[s] == left[s])
    && (forall s: nat | s < |plan| && s in visited[..j] ::
          SplitRestored(lyt, left[s], now[s], s, Bytes(plan[s], 2), room, chunk))
    && forall i | 0 <= i < j :: NewExtent(lyt, extents[i], visited[i], plan)
  }

  /** A new extent of split `s`: the one that was lost, as the writer made it. */
  ghost predicate NewExtent(lyt: seq<Extent>, e: Extent, s: nat, plan: seq<Split>) {
    e.layoutIdx / 3 == s && !HasIdx(lyt, e.layoutIdx) && FromPlan(e, plan, 2, 3)
  }

  lemma {:induction false} RebuiltOneMore(lyt: seq<Extent>, left: seq<Stored>, now: seq<Stored>, extents: seq<Extent>,
                                          visited: seq<nat>, j: nat, plan: seq<Split>, room: nat, chunk: nat,
                                          split: Stored, e: Extent)
    requires room > 0 && chunk > 0 && RebuiltUpTo(lyt, left, now, extents, visited, j, plan, room, chunk)
    requires j < |visited| && visited[j] < |plan| && NewExtent(lyt, e, visited[j], plan)
    requires SplitRestored(lyt, left[visited[j]], split, visited[j], Bytes(plan[visited[j]], 2), room, chunk)
    ensures RebuiltUpTo(lyt, left, now[visited[j] := split], extents + [e], visited, j + 1, plan, room, chunk)
  {
    hide SplitRestored, NewExtent, Bytes;
    assert visited[..j + 1] == visited[..j] + [visited[j]];
  }

  /** What a rebuild leaves when it ends well. */
  ghost predicate AllRestored(lyt: seq<Extent>, left: seq<Stored>, now: seq<Stored>, extents: seq<Extent>,
                              plan: seq<Split>, room: nat, chunk: nat)
    requires room > 0 && chunk > 0
  {
    && |now| == |left| == |plan|
    && (forall s: nat | s < |plan| :: SplitRestored(lyt, left[s], now[s], s, Bytes(plan[s], 2), room, chunk))
    && (forall i | 0 <= i < |extents| :: NewExtent(lyt, extents[i], extents[i].layoutIdx / 3, plan))
    && forall s: nat, k: nat | s < |plan| && k < 3 && Lost(lyt, s, k) ::
         exists i :: 0 <= i < |extents| && extents[i].layoutIdx == 3 * s + k
  }

  lemma {:induction false} RebuiltAllOf(lyt: seq<Extent>, left: seq<Stored>, now: seq<Stored>, extents: seq<Extent>,
                                        visited: seq<nat>, size: nat, plan: seq<Split>, room: nat, chunk: nat)
    requires Rebuildable(lyt, left, size, plan, room, chunk) && |lyt| > 0 && SplitCount(lyt, 3) == |plan|
    requires visited == Visits(lyt, [], 0, 3)
    requires RebuiltUpTo(lyt, left, now, extents, visited, |visited|, plan, room, chunk)
    ensures AllRestored(lyt, left, now, extents, plan, room, chunk)
  {
    hide Visits, Work, RebuiltFrom, BufferBatches, Bytes, FromPlan, Tiles, Survives, SplitCount;
    VisitsAreWork(lyt, [], 0, 3);
    assert visited[..|visited|] == visited;
    forall s: nat | s < |plan|
      ensures SplitRestored(lyt, left[s], now[s], s, Bytes(plan[s], 2), room, chunk)
      ensures forall k: nat | k < 3 && Lost(lyt, s, k) ::
        exists i :: 0 <= i < |extents| && extents[i].layoutIdx == 3 * s + k
    {
      var k := WorkIffLost(lyt, s);
      if k < 3 {
        var i :| 0 <= i < |visited| && visited[i] == s;
        assert NewExtent(lyt, extents[i], s, plan);
        OnlyLost(lyt, s, k, extents[i].layoutIdx);
      }
    }
  }

  lemma {:induction false} OnlyLost(lyt: seq<Extent>, s: nat, k: nat, idx: nat)
    requires OneLost(lyt, s) && k < 3 && Lost(lyt, s, k) && idx / 3 == s && !HasIdx(lyt, idx)
    ensures idx == 3 * s + k && forall l: nat | l < 3 && Lost(lyt, s, l) :: l == k
  {
    hide HasIdx;
    assert Lost(lyt, s, idx % 3);
  }

  predicate NotRebuilt(left: Stored, k: nat, n: nat, room: nat, chunk: nat)
    requires k < 3 && room > 0 && chunk > 0
  {
    RebuiltFrom(k, left, n, BufferBatches(0, n, room), chunk) == None
  }

  /** Rebuilds every lost extent of the object, split after split, through one buffer. */
  method RebuildObject(lyt: seq<Extent>, left: seq<Stored>, size: nat, media: nat -> seq<Medium>, room: nat, chunk: nat,
                       ghost plan: seq<Split>)
    returns (now: Option<seq<Stored>>, extents: seq<Extent>)
    requires Rebuildable(lyt, left, size, plan, room, chunk) && forall s :: |media(s)| > 0
    ensures now.Some? ==> AllRestored(lyt, left, now.value, extents, plan, room, chunk)
    ensures now.None? ==> exists s: nat, k: nat | s < |plan| && k < 3 ::
      Lost(lyt, s, k) && NotRebuilt(left[s], k, Bytes(plan[s], 2), room, chunk)
  {
    hide Visits, Work, RebuiltFrom, BufferBatches, Bytes, FromPlan, Tiles, Survives, SplitCount, RebuiltUpTo,
      AllRestored, OneLost, SplitRestored, PutBack, HasIdx, Lost;
    RebuildRun.TilesNonEmpty(plan, size, chunk, 2);
    RebuildRun.PlanIsCounted(lyt, plan, 2, 3);
    RebuildRun.SurvivesSorted(lyt, plan, 2, 3);
    VisitsAreWork(lyt, [], 0, 3);
    var visited, _ := RebuildRun.WriterRun(lyt, [], 3);
    var buff := new Byte[room];
    var stored, j := left, 0;
    extents := [];
    NothingRestored(lyt, left, visited, plan, room, chunk);
    while j < |visited|
      invariant 0 <= j <= |visited| && |stored| == |plan|
      invariant RebuiltUpTo(lyt, left, stored, extents, visited, j, plan, room, chunk)
    {
      var s := visited[j];
      assert s in visited;
      ghost var k := WorkIffLost(lyt, s);
      var split, more := RebuildLost(buff, lyt, left[s], s, size, media(s), chunk, plan, k);
      if split.None? {
        assert NotRebuilt(left[s], k, Bytes(plan[s], 2), room, chunk);
        return None, extents;
      }
      ghost var n := Bytes(plan[s], 2);
      PutBackIs(lyt, left[s], s, n, room, chunk, k, RebuiltFrom(k, left[s], n, BufferBatches(0, n, room), chunk).value);
      IsNewExtent(lyt, more[0], s, k, plan);
      RebuiltOneMore(lyt, left, stored, extents, visited, j, plan, room, chunk, split.value, more[0]);
      assert more == [more[0]];
      stored, extents, j := stored[s := split.value], extents + more, j + 1;
    }
    RebuiltAllOf(lyt, left, stored, extents, visited, size, plan, room, chunk);
    now := Some(stored);
  }

  lemma {:induction false} NothingRestored(lyt: seq<Extent>, left: seq<Stored>, visited: seq<nat>, plan: seq<Split>,
                                           room: nat, chunk: nat)
    requires room > 0 && chunk > 0 && |left| == |plan|
    ensures RebuiltUpTo(lyt, left, left, [], visited, 0, plan, room, chunk)
  {
  }

  lemma {:induction false} IsNewExtent(lyt: seq<Extent>, e: Extent, s: nat, k: nat, plan: seq<Split>)
    requires k < 3 && Lost(lyt, s, k) && e.layoutIdx == 3 * s + k && FromPlan(e, plan, 2, 3)
    ensures NewExtent(lyt, e, s, plan)
  {
  }

  /** A rebuild reads nothing of the extent that was lost. */
  lemma {:induction false} LostIsNotRead(lyt: seq<Extent>, whole: Stored, left: Stored, s: nat, k: nat, n: nat,
                                         room: nat, chunk: nat)
    requires room > 0 && chunk > 0 && LeftOf(lyt, whole, left, s) && OneLost(lyt, s) && k < 3 && Lost(lyt, s, k)
    ensures var batches := BufferBatches(0, n, room);
      RebuiltFrom(k, left, n, batches, chunk) == RebuiltFrom(k, whole, n, batches, chunk)
  {
    hide BufferBatches, ReadBatches, RebuiltAll, Lost;
    forall l: nat | l < 3 && l != k
      ensures ExtentBytes(left, l) == ExtentBytes(whole, l)
    {
    }
    assert ExtentBytes(left, 0) == left.data0 && ExtentBytes(left, 1) == left.data1;
    assert ExtentBytes(left, 2) == left.parity;
    assert ExtentBytes(whole, 0) == whole.data0 && ExtentBytes(whole, 1) == whole.data1;
    assert ExtentBytes(whole, 2) == whole.parity;
  }

  /** A split whose extents can all be rebuilt is whole again. */
  lemma {:induction false} SplitIsWhole(lyt: seq<Extent>, whole: Stored, left: Stored, now: Stored, s: nat, n: nat,
                                        room: nat, chunk: nat)
    requires room > 0 && chunk > 0 && LeftOf(lyt, whole, left, s) && OneLost(lyt, s)
    requires SplitRestored(lyt, left, now, s, n, room, chunk)
    requires forall k: nat | k < 3 :: ExtentRestored(whole, k, n, room, chunk)
    ensures now == whole
  {
    hide BufferBatches, RebuiltFrom, Lost, OneLost;
    forall k: nat | k < 3
      ensures ExtentBytes(now, k) == ExtentBytes(whole, k)
    {
      assert ExtentRestored(whole, k, n, room, chunk);
      if Lost(lyt, s, k) {
        LostIsNotRead(lyt, whole, left, s, k, n, room, chunk);
      }
    }
    assert ExtentBytes(now, 0) == ExtentBytes(whole, 0) && ExtentBytes(now, 1) == ExtentBytes(whole, 1);
    assert ExtentBytes(now, 2) == ExtentBytes(whole, 2);
  }

  /** What the media hold of the split `s` once its lost extents are gone. */
  function Leave(lyt: seq<Extent>, whole: Stored, s: nat): (left: Stored)
    ensures LeftOf(lyt, whole, left, s)
  {
    Stored(if Lost(lyt, s, 0) then [] else whole.data0, if Lost(lyt, s, 1) then [] else whole.data1,
           if Lost(lyt, s, 2) then [] else whole.parity)
  }

  function LeaveAll(lyt: seq<Extent>, whole: seq<Stored>): seq<Stored> {
    seq(|whole|, s requires 0 <= s < |whole| => Leave(lyt, whole[s], s))
  }

  /** When every extent of the object can be rebuilt, a rebuild ends well with the whole object. */
  lemma {:induction false} ObjectIsWhole(x: seq<Byte>, lyt: seq<Extent>, now: Option<seq<Stored>>, extents: seq<Extent>,
                                         plan: seq<Split>, room: nat, getRoom: nat, chunk: nat)
    requires Buffers(room, getRoom, chunk) && |x| == PlanBytes(plan) && ObjectRestores(plan, room, getRoom, chunk)
    requires forall s: nat | s < |plan| :: OneLost(lyt, s)
    requires now.Some? ==>
      AllRestored(lyt, LeaveAll(lyt, StoreObject(x, plan, room, chunk)), now.value, extents, plan, getRoom, chunk)
    requires var left := LeaveAll(lyt, StoreObject(x, plan, room, chunk));
      now.None? ==> exists s: nat, k: nat | s < |plan| && k < 3 ::
        Lost(lyt, s, k) && NotRebuilt(left[s], k, Bytes(plan[s], 2), getRoom, chunk)
    ensures now == Some(StoreObject(x, plan, room, chunk))
  {
    hide StoreObject, ExtentRestored, SplitRestored, Leave, OneLost, Lost, LeftOf, PlanBytes, Bytes;
    var whole := StoreObject(x, plan, room, chunk);
    if now.None? {
      var s: nat, k: nat :| s < |plan| && k < 3 && Lost(lyt, s, k)
        && NotRebuilt(Leave(lyt, whole[s], s), k, Bytes(plan[s], 2), getRoom, chunk);
      LostIsNotRead(lyt, whole[s], Leave(lyt, whole[s], s), s, k, Bytes(plan[s], 2), getRoom, chunk);
      RestoredIsSome(whole[s], k, Bytes(plan[s], 2), getRoom, chunk);
      assert false;
    } else {
      forall s: nat | s < |plan|
        ensures now.value[s] == whole[s]
      {
        SplitIsWhole(lyt, whole[s], Leave(lyt, whole[s], s), now.value[s], s, Bytes(plan[s], 2), getRoom, chunk);
      }
      assert now.value == whole;
    }
  }

  lemma {:induction false} RestoredIsSome(w: Stored, k: nat, n: nat, room: nat, chunk: nat)
    requires k < 3 && room > 0 && chunk > 0 && ExtentRestored(w, k, n, room, chunk)
    ensures RebuiltFrom(k, w, n, BufferBatches(0, n, room), chunk).Some?
  {
  }

  /**
   A put of any object, the loss of one extent at most of each split, and a rebuild, each through its buffer. The object
   is stored as before, the lost extents being new ones as the writer made them, if no refill of the put buffer cut a
   stripe; otherwise the put goes past its buffer.
   */
  method PutThenRebuild(x: seq<Byte>, grants: Grants, lyt: seq<Extent>, media: nat -> seq<Medium>, room: nat,
                        getRoom: nat, chunk: nat)
    returns (now: Option<seq<Stored>>, extents: seq<Extent>)
    requires Buffers(room, getRoom, chunk) && Positive(grants) && forall s :: |media(s)| > 0
    requires var plan := Plan(|x|, grants, chunk, 2);
      Survives(lyt, plan, 2, 3) && forall s: nat | s < |plan| :: OneLost(lyt, s)
    ensures var plan := Plan(|x|, grants, chunk, 2);
      if AllStripesKept(plan, room, chunk) then
        && |x| == PlanBytes(plan) && now == Some(StoreObject(x, plan, room, chunk))
        && AllRestored(lyt, LeaveAll(lyt, now.value), now.value, extents, plan, getRoom, chunk)
      else now == None
  {
    hide PlanFrom, Tiles, AllFit, AllStripesKept, StoreObject, ObjectRestores, AllRestored, Survives, OneLost,
      PlanBytes, Leave, Lost, NotRebuilt;
    var plan := Plan(|x|, grants, chunk, 2);
    PlanTiles(|x|, 0, 0, grants, chunk, 2);
    TilesBytes(plan, 0, |x|, chunk);
    ObjectFitsIff(plan, |x|, room, chunk);
    var stored := PutObject(x, plan, room, chunk);
    if stored.None? {
      return None, [];
    }
    now, extents := RebuildObject(lyt, LeaveAll(lyt, stored.value), |x|, media, getRoom, chunk, plan);
    ObjectRestoresIff(plan, room, getRoom, chunk);
    ObjectIsWhole(x, lyt, now, extents, plan, room, getRoom, chunk);
  }
}
