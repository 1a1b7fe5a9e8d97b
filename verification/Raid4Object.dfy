/**
 A whole object written in RAID4 through a transfer buffer of `room` bytes, a
 multiple of the stripe. The buffer is refilled when it is empty, wherever the
 splits end, so its boundaries fall at the multiples of `room` in the object.
 */
module Raid4Object {
  import opened Basics
  import opened Arithmetic
  import opened Raid4Stripes
  import opened Raid4Batches
  import opened Raid4Read
  import opened Raid4Recovery
  import opened SplitSizing
  import opened SplitPlan

  /** The batches that `n` bytes at `offset` of the object are written in. */
  function BufferBatches(offset: nat, n: nat, room: nat): (batches: seq<nat>)
    requires room > 0
    ensures Total(batches) == n
    decreases n
  {
    if n == 0 then [] else
      var first := Min(n, room - offset % room);
      [first] + BufferBatches(offset + first, n - first, room)
  }

  /** No refill of the buffer cuts a stripe of the split of `n` bytes at `offset`. */
  predicate StripesKept(offset: nat, n: nat, room: nat, chunk: nat)
    requires room > 0 && chunk > 0
  {
    offset % (2 * chunk) == 0 || offset % room + n <= room
  }

  /** `room` bytes are whole stripes. */
  lemma {:induction false} RoomMod(offset: nat, room: nat, m: nat)
    requires m > 0 && room > 0 && room % m == 0
    ensures (offset % room) % m == offset % m
    ensures (room - offset % room) % m == 0 <==> offset % m == 0
    ensures (offset + (room - offset % room)) % m == 0
  {
    var k, q, x := room / m, offset / room, offset % room;
    assert room == k * m && offset == q * room + x;
    assert q * room == (q * k) * m;
    ModShift(x, q * k, m);
    MultipleMinus(x, k, m);
    assert offset + (room - x) == (q + 1) * room == ((q + 1) * k) * m;
    MultipleMinus(0, (q + 1) * k, m);
  }

  lemma {:induction false} MultipleMinus(x: int, k: int, m: nat)
    requires m > 0
    ensures (k * m - x) % m == 0 <==> x % m == 0
  {
    var u, v := x / m, x % m;
    assert k * m - x == -v + (k - u) * m by {
      assert (k - u) * m == k * m - u * m;
    }
    ModShift(-v, k - u, m);
    if v == 0 { DivModUnique(0, m, 0, 0); } else { DivModUnique(-v, m, -1, m - v); }
  }

  lemma {:induction false} AlignedBuffers(offset: nat, n: nat, room: nat, chunk: nat)
    requires chunk > 0 && room > 0 && room % (2 * chunk) == 0 && offset % (2 * chunk) == 0
    ensures AllAligned(BufferBatches(offset, n, room), n, chunk)
    decreases n
  {
    if n > 0 {
      var first := Min(n, room - offset % room);
      var rest := BufferBatches(offset + first, n - first, room);
      assert BufferBatches(offset, n, room)[1..] == rest;
      RoomMod(offset, room, 2 * chunk);
      WholeStripesIsMultiple(first, chunk);
      if first < n {
        AlignedBuffers(offset + first, n - first, room, chunk);
      } else {
        NothingIsAligned(rest, chunk);
      }
    }
  }

  /** The batches of a split are aligned if and only if no refill of the buffer cuts a stripe of it. */
  lemma {:induction false} BuffersAlignedIff(offset: nat, n: nat, room: nat, chunk: nat)
    requires chunk > 0 && room > 0 && room % (2 * chunk) == 0
    ensures AllAligned(BufferBatches(offset, n, room), n, chunk) <==> StripesKept(offset, n, room, chunk)
  {
    if offset % (2 * chunk) == 0 {
      AlignedBuffers(offset, n, room, chunk);
    } else if n > 0 {
      var first := Min(n, room - offset % room);
      var rest := BufferBatches(offset + first, n - first, room);
      assert BufferBatches(offset, n, room)[1..] == rest;
      RoomMod(offset, room, 2 * chunk);
      WholeStripesIsMultiple(first, chunk);
      if first == n {
        NothingIsAligned(rest, chunk);
      }
    }
  }

  // ---------------------------------------------------------------- the object

  /** Bytes of the splits of `plan`, with two data extents each. */
  function PlanBytes(plan: seq<Split>): nat {
    if plan == [] then 0 else Bytes(plan[0], 2) + PlanBytes(plan[1..])
  }

  /** The extents of one split of the object, its bytes being `x`. */
  function SplitStored(x: seq<Byte>, offset: nat, room: nat, chunk: nat): Stored
    requires room > 0 && chunk > 0
  {
    Written(x, BufferBatches(offset, |x|, room), chunk)
  }

  /** The extents of all splits of the object `x`, written through a buffer of `room` bytes. */
  function StoreObject(x: seq<Byte>, plan: seq<Split>, room: nat, chunk: nat): (stored: seq<Stored>)
    requires room > 0 && chunk > 0 && |x| == PlanBytes(plan)
    ensures |stored| == |plan|
    decreases |plan|
  {
    if plan == [] then [] else
      var n := Bytes(plan[0], 2);
      [SplitStored(x[..n], plan[0].offset, room, chunk)] + StoreObject(x[n..], plan[1..], room, chunk)
  }

  /**
   Reads all splits back through a buffer of `room` bytes, each split having lost the extent that its pair leaves out.
   The buffer is empty whenever a read starts.
   */
  function ReadStored(stored: seq<Stored>, plan: seq<Split>, pairs: seq<Pair>, room: nat, chunk: nat): Option<seq<Byte>>
    requires room > 0 && chunk > 0 && |stored| == |pairs| == |plan|
    decreases |plan|
  {
    if plan == [] then Some([]) else
      match ReadSplit(pairs[0], stored[0], BufferBatches(0, Bytes(plan[0], 2), room), chunk)
      case None => None
      case Some(y) =>
        match ReadStored(stored[1..], plan[1..], pairs[1..], room, chunk)
        case None => None
        case Some(more) => Some(y + more)
  }

  /** A put buffer of `room` bytes and a get buffer of `getRoom` bytes, both of whole stripes. */
  predicate Buffers(room: nat, getRoom: nat, chunk: nat) {
    chunk > 0 && room > 0 && getRoom > 0 && room % (2 * chunk) == 0 && getRoom % (2 * chunk) == 0
  }

  /** What a get gives for the object `x`. */
  function ReadObject(x: seq<Byte>, plan: seq<Split>, pairs: seq<Pair>, room: nat, getRoom: nat,
                      chunk: nat): Option<seq<Byte>>
    requires Buffers(room, getRoom, chunk) && |x| == PlanBytes(plan) && |pairs| == |plan|
  {
    ReadStored(StoreObject(x, plan, room, chunk), plan, pairs, getRoom, chunk)
  }

  lemma {:induction false} ObjectStep(x: seq<Byte>, plan: seq<Split>, pairs: seq<Pair>, room: nat, getRoom: nat,
                                      chunk: nat)
    requires Buffers(room, getRoom, chunk) && |x| == PlanBytes(plan) && |pairs| == |plan| > 0
    ensures var n := Bytes(plan[0], 2);
      && |x[n..]| == PlanBytes(plan[1..])
      && var first := ReadSplit(pairs[0], SplitStored(x[..n], plan[0].offset, room, chunk),
           BufferBatches(0, n, getRoom), chunk);
         var rest := ReadObject(x[n..], plan[1..], pairs[1..], room, getRoom, chunk);
         ReadObject(x, plan, pairs, room, getRoom, chunk) ==
           if first.None? || rest.None? then None else Some(first.value + rest.value)
  {
    hide ReadSplit, SplitStored, BufferBatches;
    var n := Bytes(plan[0], 2);
    var stored := StoreObject(x, plan, room, chunk);
    assert stored[1..] == StoreObject(x[n..], plan[1..], room, chunk);
  }

  lemma {:induction false} ReadLength(pair: Pair, f: seq<Byte>, g: seq<Byte>, batches: seq<nat>, chunk: nat)
    requires chunk > 0
    ensures ReadBatches(pair, f, g, batches, chunk).Some? ==>
      |ReadBatches(pair, f, g, batches, chunk).value| == Total(batches)
    decreases |batches|
  {
    hide Fetch, FetchCuts;
    if batches != [] && batches[0] <= 2 * |f| {
      var cuts := FetchCuts(batches[0], |f|, chunk);
      if Sum1(cuts) <= |g| {
        FetchLength(pair, f, g, cuts);
        ReadLength(pair, f[Sum0(cuts)..], g[Sum1(cuts)..], batches[1..], chunk);
      }
    }
  }

  predicate AllStripesKept(plan: seq<Split>, room: nat, chunk: nat)
    requires room > 0 && chunk > 0
  {
    forall k :: 0 <= k < |plan| ==> StripesKept(plan[k].offset, Bytes(plan[k], 2), room, chunk)
  }

  /** The reads of a split, which start at its first byte, are aligned. */
  lemma {:induction false} GetsAligned(n: nat, getRoom: nat, chunk: nat)
    requires chunk > 0 && getRoom > 0 && getRoom % (2 * chunk) == 0
    ensures AllAligned(BufferBatches(0, n, getRoom), n, chunk)
  {
    DivModUnique(0, 2 * chunk, 0, 0);
    AlignedBuffers(0, n, getRoom, chunk);
  }

  /** With every stripe kept, any object is read back whatever extent each split has lost. */
  lemma {:induction false} ObjectReadBack(x: seq<Byte>, plan: seq<Split>, pairs: seq<Pair>, room: nat, getRoom: nat,
                                          chunk: nat)
    requires Buffers(room, getRoom, chunk) && |x| == PlanBytes(plan) && |pairs| == |plan|
    requires AllStripesKept(plan, room, chunk)
    ensures ReadObject(x, plan, pairs, room, getRoom, chunk) == Some(x)
    decreases |plan|
  {
    hide ReadSplit, Written, StripesKept, AllAligned, BufferBatches;
    if plan != [] {
      var n, offset := Bytes(plan[0], 2), plan[0].offset;
      BuffersAlignedIff(offset, n, room, chunk);
      SurvivesIffAligned(BufferBatches(offset, n, room), chunk);
      GetsAligned(n, getRoom, chunk);
      assert ReadSplit(pairs[0], SplitStored(x[..n], offset, room, chunk), BufferBatches(0, n, getRoom), chunk) ==
        Some(x[..n]);
      ObjectStep(x, plan, pairs, room, getRoom, chunk);
      ObjectReadBack(x[n..], plan[1..], pairs[1..], room, getRoom, chunk);
      assert x[..n] + x[n..] == x;
    }
  }

  /** If a refill of the buffer cuts a stripe, some object cannot be read back once a split has lost its extent 0. */
  lemma {:induction false} ObjectLost(plan: seq<Split>, room: nat, getRoom: nat, chunk: nat)
    returns (x: seq<Byte>, pairs: seq<Pair>)
    requires Buffers(room, getRoom, chunk) && !AllStripesKept(plan, room, chunk)
    ensures |x| == PlanBytes(plan) && |pairs| == |plan|
    ensures ReadObject(x, plan, pairs, room, getRoom, chunk) != Some(x)
    decreases |plan|
  {
    hide ReadBatches, Written, StripesKept, AllAligned, BufferBatches, PlanBytes, ReadObject;
    var n, offset := Bytes(plan[0], 2), plan[0].offset;
    PlanBytesStep(plan);
    GetsAligned(n, getRoom, chunk);
    if StripesKept(offset, n, room, chunk) {
      var y, p := ObjectLost(plan[1..], room, getRoom, chunk);
      x, pairs := seq(n, _ => 0) + y, [Data01] + p;
      assert x[n..] == y && pairs[1..] == p;
    } else {
      BuffersAlignedIff(offset, n, room, chunk);
      var y := MisalignedContent(BufferBatches(offset, n, room), chunk);
      MisalignedLoses(BufferBatches(offset, n, room), y, BufferBatches(0, n, getRoom), chunk);
      x, pairs := y + seq(PlanBytes(plan[1..]), _ => 0), seq(|plan|, _ => Data1Parity);
      assert x[..n] == y;
    }
    ObjectStep(x, plan, pairs, room, getRoom, chunk);
    var s := SplitStored(x[..n], offset, room, chunk);
    var r := ReadSplit(pairs[0], s, BufferBatches(0, n, getRoom), chunk);
    ReadLength(pairs[0], First(pairs[0], s), Second(pairs[0], s), BufferBatches(0, n, getRoom), chunk);
    var more := ReadObject(x[n..], plan[1..], pairs[1..], room, getRoom, chunk);
    if r.Some? && more.Some? {
      assert (r.value + more.value)[..n] == r.value && (r.value + more.value)[n..] == more.value;
    }
  }

  lemma {:induction false} PlanBytesStep(plan: seq<Split>)
    requires plan != []
    ensures PlanBytes(plan) == Bytes(plan[0], 2) + PlanBytes(plan[1..])
  {
  }

  /**
   Every object survives the loss of one extent of each split if and only if no refill of the buffer cuts a stripe.
   */
  lemma {:induction false} ObjectSurvivesIff(plan: seq<Split>, room: nat, getRoom: nat, chunk: nat)
    requires Buffers(room, getRoom, chunk)
    ensures (forall x: seq<Byte>, pairs: seq<Pair> :: |x| == PlanBytes(plan) && |pairs| == |plan| ==>
               ReadObject(x, plan, pairs, room, getRoom, chunk) == Some(x))
       <==> AllStripesKept(plan, room, chunk)
  {
    hide ReadObject, AllStripesKept;
    if AllStripesKept(plan, room, chunk) {
      forall x: seq<Byte>, pairs: seq<Pair> | |x| == PlanBytes(plan) && |pairs| == |plan|
        ensures ReadObject(x, plan, pairs, room, getRoom, chunk) == Some(x)
      {
        ObjectReadBack(x, plan, pairs, room, getRoom, chunk);
      }
    } else {
      var x, pairs := ObjectLost(plan, room, getRoom, chunk);
    }
  }

  /** A split that does not end the object is made of whole stripes when every medium grants a chunk or more. */
  lemma {:induction false} WideSplit(size: nat, offset: nat, grants: seq<nat>, chunk: nat)
    requires chunk > 0 && offset <= size && forall i :: 0 <= i < |grants| ==> grants[i] >= chunk
    ensures var s := SplitAt(size, offset, grants, chunk, 2);
      s.offset + Bytes(s, 2) < size ==> Bytes(s, 2) % (2 * chunk) == 0
  {
    hide SplitAt;
    var s := SplitAt(size, offset, grants, chunk, 2);
    SplitFacts(size, offset, grants, chunk, 2);
    WideExtents(size, offset, grants, chunk);
    if s.offset + Bytes(s, 2) < size {
      if s.q == chunk { DivModUnique(s.q, chunk, 1, 0); }
      assert s.q == s.q / chunk * chunk;
      DivModUnique(Bytes(s, 2), 2 * chunk, s.q / chunk, 0);
    }
  }

  lemma {:induction false} WideExtents(size: nat, offset: nat, grants: seq<nat>, chunk: nat)
    requires chunk > 0 && offset <= size && forall i :: 0 <= i < |grants| ==> grants[i] >= chunk
    ensures var s := SplitAt(size, offset, grants, chunk, 2);
      offset + Bytes(s, 2) < size ==> s.q >= chunk
  {
    hide ChunkAligned;
    var remaining := size - offset;
    var even := Split(offset, remaining / 2, remaining % 2);
    var t := Granted(even, grants);
    ChunkedExtent(t, size, chunk);
    assert Bytes(even, 2) == remaining;
  }

  lemma {:induction false} ChunkedExtent(t: Split, size: nat, chunk: nat)
    requires chunk > 0
    ensures t.q >= chunk ==> ChunkAligned(t, size, chunk, 2).q >= chunk
    ensures t.offset + Bytes(t, 2) == size ==> ChunkAligned(t, size, chunk, 2) == t
    ensures t.q < chunk ==> ChunkAligned(t, size, chunk, 2) == t
  {
    if t.q >= chunk {
      ChunkFloor(t.q, chunk);
    }
  }

  /** When every medium grants a chunk or more, every split starts on a stripe of the object. */
  lemma {:induction false} WideGrantsKeepStripes(size: nat, offset: nat, k: nat, grants: Grants, chunk: nat, room: nat)
    requires chunk > 0 && room > 0 && offset <= size && offset % (2 * chunk) == 0
    requires forall k, i :: 0 <= i < |grants(k)| ==> grants(k)[i] >= chunk
    ensures AllStripesKept(PlanFrom(size, offset, k, grants, chunk, 2), room, chunk)
    decreases size - offset
  {
    hide SplitAt;
    SplitFacts(size, offset, grants(k), chunk, 2);
    var s := SplitAt(size, offset, grants(k), chunk, 2);
    var next := offset + Bytes(s, 2);
    if offset < next < size {
      WideSplit(size, offset, grants(k), chunk);
      MultiplesAdd(offset, Bytes(s, 2), 2 * chunk);
      WideGrantsKeepStripes(size, next, k + 1, grants, chunk, room);
    }
  }

  lemma {:induction false} MultiplesAdd(a: nat, b: nat, m: nat)
    requires m > 0 && a % m == 0 && b % m == 0
    ensures (a + b) % m == 0
  {
    assert b == b / m * m;
    ModShift(a, b / m, m);
  }

  /** The sizes given to the data extents of a split are the halves of its bytes. */
  lemma {:induction false} HalvesAreSizes(s: Split)
    requires s.r < 2
    ensures ExtentSize(s.q, s.r, 2, 0) == ExtentSize(s.q, s.r, 2, 2) == Bytes(s, 2) - Bytes(s, 2) / 2
    ensures ExtentSize(s.q, s.r, 2, 1) == Bytes(s, 2) / 2
  {
  }

  lemma {:induction false} TilesBytes(plan: seq<Split>, offset: nat, size: nat, chunk: nat)
    requires chunk > 0 && Tiles(plan, offset, size, chunk, 2)
    ensures offset + PlanBytes(plan) == size
    decreases |plan|
  {
    if |plan| == 1 {
      assert plan[1..] == [];
    } else {
      assert Tiles(plan[1..], plan[1].offset, size, chunk, 2);
      TilesBytes(plan[1..], plan[1].offset, size, chunk);
    }
  }

  /** Splits of grants of a chunk or more make up the object and keep every stripe. */
  lemma {:induction false} WidePlan(size: nat, grants: Grants, room: nat, chunk: nat)
    requires chunk > 0 && room > 0 && forall k, i :: 0 <= i < |grants(k)| ==> grants(k)[i] >= chunk
    ensures var plan := Plan(size, grants, chunk, 2);
      Tiles(plan, 0, size, chunk, 2) && PlanBytes(plan) == size && AllStripesKept(plan, room, chunk)
  {
    hide PlanFrom, AllStripesKept, Tiles;
    PlanTiles(size, 0, 0, grants, chunk, 2);
    TilesBytes(Plan(size, grants, chunk, 2), 0, size, chunk);
    DivModUnique(0, 2 * chunk, 0, 0);
    WideGrantsKeepStripes(size, 0, 0, grants, chunk, room);
  }

  /** A first allocation of three bytes on each medium, with chunks of four: the second split starts inside a stripe. */
  lemma {:induction false} NarrowGrantCutsStripe()
    ensures var grants := (k: nat) => if k == 0 then [3, 3, 3] else [100, 100, 100];
      var plan := Plan(20, grants, 4, 2);
      Positive(grants) && |plan| > 1 && plan[1] == Split(6, 7, 0) && !AllStripesKept(plan, 8, 4)
  {
    var grants := (k: nat) => if k == 0 then [3, 3, 3] else [100, 100, 100];
    var s := SplitAt(20, 0, grants(0), 4, 2);
    assert Granted(Split(0, 10, 0), [3, 3, 3]) == Split(0, 3, 0);
    assert s == Split(0, 3, 0);
    assert Granted(Split(6, 7, 0), [100, 100, 100]) == Split(6, 7, 0);
    assert SplitAt(20, 6, grants(1), 4, 2) == Split(6, 7, 0);
    var plan := Plan(20, grants, 4, 2);
    assert plan[1] == Split(6, 7, 0);
    assert !StripesKept(plan[1].offset, Bytes(plan[1], 2), 8, 4);
  }
}
