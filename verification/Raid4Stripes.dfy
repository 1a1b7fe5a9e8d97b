/**
 The byte layout of one RAID4 split: two data extents cut in chunks, one parity
 extent. `Striped` says what the three extents of a split should hold; the rest
 of the module proves when the buffered writer really stores that, and that the
 reader gets the split back from any two extents.
 */
module Raid4Stripes {
  import opened Arithmetic

  type Byte = bv8

  // ---------------------------------------------------------------- layout

  /** The three extents of a split. */
  datatype Stored = Stored(data0: seq<Byte>, data1: seq<Byte>, parity: seq<Byte>)

  const Empty := Stored([], [], [])

  function Append(s: Stored, t: Stored): Stored {
    Stored(s.data0 + t.data0, s.data1 + t.data1, s.parity + t.parity)
  }

  /** Byte-wise parity of `d0` with `d1`, `d1` being cut or padded with zeros to the length of `d0`. */
  function ParityChunk(d0: seq<Byte>, d1: seq<Byte>): (r: seq<Byte>)
    ensures |r| == |d0|
    ensures forall j :: 0 <= j < |r| ==> r[j] == d0[j] ^ (if j < |d1| then d1[j] else 0)
  {
    seq(|d0|, j requires 0 <= j < |d0| => d0[j] ^ (if j < |d1| then d1[j] else 0))
  }

  /** A stripe: `a` bytes for extent 0, the next `b` for extent 1, and their parity. */
  function Stripe(x: seq<Byte>, a: nat, b: nat): Stored
    requires a + b <= |x|
  {
    Stored(x[..a], x[a..a + b], ParityChunk(x[..a], x[a..a + b]))
  }

  /** How many bytes each stripe gives to extent 0 and to extent 1. */
  datatype Cuts = End | Next(a: nat, b: nat, more: Cuts)

  predicate Covers(cuts: Cuts, n: nat) {
    match cuts
    case End => n == 0
    case Next(a, b, more) => a + b <= n && Covers(more, n - a - b)
  }

  /** Bytes given to extent 0. */
  function Sum0(c: Cuts): nat {
    match c
    case End => 0
    case Next(a, b, more) => a + Sum0(more)
  }

  /** Bytes given to extent 1. */
  function Sum1(c: Cuts): nat {
    match c
    case End => 0
    case Next(a, b, more) => b + Sum1(more)
  }

  /** The extents holding `x` cut as told. */
  function Store(x: seq<Byte>, cuts: Cuts): Stored
    requires Covers(cuts, |x|)
    decreases cuts
  {
    match cuts
    case End => Empty
    case Next(a, b, more) => Append(Stripe(x, a, b), Store(x[a + b..], more))
  }

  /** Two chunks for each stripe; the last one, when short, is shared in halves. */
  function Regular(n: nat, chunk: nat): (cuts: Cuts)
    requires chunk > 0
    ensures Covers(cuts, n)
  {
    if n == 0 then End
    else if n < 2 * chunk then Next(n - n / 2, n / 2, End)
    else Next(chunk, chunk, Regular(n - 2 * chunk, chunk))
  }

  lemma {:induction false} RegularWhole(n: nat, rest: nat, chunk: nat)
    requires chunk > 0 && n == 2 * chunk + rest
    ensures Regular(n, chunk) == Next(chunk, chunk, Regular(rest, chunk))
  {
  }

  /** What the three extents should hold for the split `x`. */
  function Striped(x: seq<Byte>, chunk: nat): Stored
    requires chunk > 0
  {
    Store(x, Regular(|x|, chunk))
  }

  // ---------------------------------------------------------------- stripe loop

  /**
   `left0` and `left1` bytes are still to write in the data extents of a split.
   Extent 0 fills first and is at most one byte longer, and `n` bytes fit.
   */
  predicate Fits(n: nat, left0: nat, left1: nat) {
    left0 <= left1 + 1 && n <= left0 + left1
  }

  /** What one pass of the stripe loop gives to extent 0 when `n` bytes are left in the buffer. */
  function Take0(n: nat, left0: nat, chunk: nat): nat {
    Min(Min(n, left0), chunk)
  }

  /** What the same pass gives to extent 1. */
  function Take1(n: nat, left0: nat, left1: nat, chunk: nat): nat {
    Min(Min(n - Take0(n, left0, chunk), left1), chunk)
  }

  /** The stripes that the stripe loop makes of `n` buffered bytes. */
  function LoopCuts(n: nat, left0: nat, left1: nat, chunk: nat): (cuts: Cuts)
    requires chunk > 0 && Fits(n, left0, left1)
    ensures Covers(cuts, n)
    ensures Sum0(cuts) <= left0 && Sum1(cuts) <= left1 && Sum0(cuts) + Sum1(cuts) == n
    ensures Fits(0, left0 - Sum0(cuts), left1 - Sum1(cuts))
    decreases n
  {
    if n == 0 then End else
      var a, b := Take0(n, left0, chunk), Take1(n, left0, left1, chunk);
      Next(a, b, LoopCuts(n - a - b, left0 - a, left1 - b, chunk))
  }

  /** Highest buffer position, counted from the start of the batch, that writing these stripes touches. */
  function Reach(cuts: Cuts): nat {
    match cuts
    case End => 0
    case Next(a, b, more) =>
      var rest := a + b + Reach(more);
      if rest <= 2 * a then 2 * a else rest
  }

  lemma {:induction false} LoopStep(n: nat, left0: nat, left1: nat, chunk: nat) returns (a: nat, b: nat)
    requires chunk > 0 && Fits(n, left0, left1) && n > 0
    ensures a == Take0(n, left0, chunk) && b == Take1(n, left0, left1, chunk)
    ensures a <= left0 && b <= left1 && 0 < a + b <= n && Fits(n - a - b, left0 - a, left1 - b)
    ensures LoopCuts(n, left0, left1, chunk) == Next(a, b, LoopCuts(n - a - b, left0 - a, left1 - b, chunk))
  {
    a, b := Take0(n, left0, chunk), Take1(n, left0, left1, chunk);
  }

  /** A stripe that is short on extent 1 empties the buffer, so its zero padding overwrites no data. */
  lemma {:induction false} ShortStripeIsLast(n: nat, left0: nat, left1: nat, chunk: nat)
    requires Fits(n, left0, left1)
    ensures var a, b := Take0(n, left0, chunk), Take1(n, left0, left1, chunk);
      b < a ==> a + b == n
  {
  }

  /** XOR of `count` bytes at `data` into the `count` bytes at `dest`, in place. */
  method XorInPlace(buff: array<Byte>, data: nat, dest: nat, count: nat)
    requires data + count <= buff.Length && dest + count <= buff.Length
    requires data + count <= dest || dest + count <= data
    modifies buff
    ensures forall k :: 0 <= k < buff.Length && !(dest <= k < dest + count) ==> buff[k] == old(buff[k])
    ensures buff[dest..dest + count]
         == ParityChunk(old(buff[dest..dest + count]), old(buff[data..data + count]))
  {
    var i := 0;
    while i < count
      invariant 0 <= i <= count
      invariant forall k :: 0 <= k < buff.Length && !(dest <= k < dest + i) ==> buff[k] == old(buff[k])
      invariant forall k :: dest <= k < dest + i ==> buff[k] == old(buff[k]) ^ old(buff[k - dest + data])
    {
      buff[dest + i] := buff[dest + i] ^ buff[data + i];
      i := i + 1;
    }
    ghost var now := buff[dest..dest + count];
    ghost var parity := ParityChunk(old(buff[dest..dest + count]), old(buff[data..data + count]));
    forall j | 0 <= j < count
      ensures now[j] == parity[j]
    {
      assert now[j] == buff[dest + j];
    }
  }

  /** Fills `count` bytes at `from` with zeros. */
  method Zero(buff: array<Byte>, from: nat, count: nat)
    requires from + count <= buff.Length
    modifies buff
    ensures forall k :: 0 <= k < buff.Length ==>
      buff[k] == if from <= k < from + count then 0 else old(buff[k])
  {
    for i := 0 to count
      invariant forall k :: 0 <= k < buff.Length ==>
        buff[k] == if from <= k < from + i then 0 else old(buff[k])
    {
      buff[from + i] := 0;
    }
  }

  /**
   Parity of the stripe `d0`, `d1` buffered at `pos`, computed over the bytes of `d1`. When the padding and the parity
   go past the end of the buffer, the stripe does not fit, and the model stops before that write.
   */
  method ParityInPlace(buff: array<Byte>, pos: nat, a: nat, b: nat, ghost d0: seq<Byte>, ghost d1: seq<Byte>)
    returns (fits: bool)
    requires pos + a + b <= buff.Length && buff[pos..pos + a] == d0 && buff[pos + a..pos + a + b] == d1
    modifies buff
    ensures fits <==> pos + 2 * a <= buff.Length
    ensures forall k :: 0 <= k < buff.Length && !(pos + a <= k < pos + 2 * a) ==> buff[k] == old(buff[k])
    ensures fits ==> buff[pos + a..pos + 2 * a] == ParityChunk(d0, d1)
    ensures !fits ==> forall k :: 0 <= k < buff.Length ==> buff[k] == old(buff[k])
  {
    fits := pos + 2 * a <= buff.Length;
    if !fits {
      return;
    }
    if b < a {
      Zero(buff, pos + a + b, a - b);
    }
    ghost var padded := buff[pos + a..pos + 2 * a];
    assert buff[pos..pos + a] == d0;
    assert forall j :: 0 <= j < |padded| ==> padded[j] == (if j < |d1| then d1[j] else 0);
    XorInPlace(buff, pos, pos + a, a);
    ParityOfPadded(d0, d1, padded);
  }

  lemma {:induction false} ParityOfPadded(d0: seq<Byte>, d1: seq<Byte>, padded: seq<Byte>)
    requires |d0| == |padded| && forall j :: 0 <= j < |padded| ==> padded[j] == (if j < |d1| then d1[j] else 0)
    ensures ParityChunk(padded, d0) == ParityChunk(d0, d1)
  {
    forall j | 0 <= j < |d0|
      ensures ParityChunk(padded, d0)[j] == ParityChunk(d0, d1)[j]
    {
      XorCommutes(padded[j], d0[j]);
    }
  }

  lemma XorCommutes(a: Byte, b: Byte)
    ensures a ^ b == b ^ a
  {
  }

  /** The chunks of a stripe of `a` and `b` bytes of `batch`, buffered from `pos` to `end`. */
  method StripeChunks(buff: array<Byte>, pos: nat, end: nat, a: nat, b: nat, ghost batch: seq<Byte>)
    returns (fits: bool, stripe: Stored)
    requires pos + a + b <= end <= buff.Length && buff[pos..end] == batch
    requires b < a ==> pos + a + b == end
    modifies buff
    ensures fits <==> pos + 2 * a <= buff.Length
    ensures fits ==> stripe == Stripe(batch, a, b)
    ensures buff[pos + (a + b)..end] == batch[a + b..]
    ensures forall k :: 0 <= k < pos ==> buff[k] == old(buff[k])
    ensures forall k :: pos + 2 * a <= k < buff.Length && end <= k ==> buff[k] == old(buff[k])
  {
    stripe := Empty;
    var chunk0, chunk1 := buff[pos..pos + a], buff[pos + a..pos + a + b];
    assert chunk0 == batch[..a];
    forall k | 0 <= k < b
      ensures chunk1[k] == batch[a + k]
    {
      assert batch[a + k] == buff[pos..end][a + k];
    }
    assert chunk1 == batch[a..a + b];
    assert buff[pos + a + b..end] == batch[a + b..];
    fits := ParityInPlace(buff, pos, a, b, chunk0, chunk1);
    assert buff[pos + a + b..end] == old(buff[pos + a + b..end]);
    if fits {
      stripe := Stored(chunk0, chunk1, buff[pos + a..pos + 2 * a]);
    }
  }

  /**
   With `out` written, the stripe loop still has `rest` to write at `pos`; in the end `all` will be written, up to the
   buffer position `top`.
   */
  ghost predicate Pending(out: Stored, rest: seq<Byte>, left0: nat, left1: nat, chunk: nat, pos: nat, top: nat,
                          all: Stored)
  {
    && chunk > 0 && Fits(|rest|, left0, left1)
    && var cuts := LoopCuts(|rest|, left0, left1, chunk);
      pos + Reach(cuts) <= top && Append(out, Store(rest, cuts)) == all
  }

  /** What remains reaches `top` unless the stripes written so far did. */
  ghost predicate ReachesTop(rest: seq<Byte>, left0: nat, left1: nat, chunk: nat, pos: nat, top: nat, room: nat) {
    && chunk > 0 && Fits(|rest|, left0, left1)
    && (top <= room <==> pos + Reach(LoopCuts(|rest|, left0, left1, chunk)) <= room)
  }

  lemma {:induction false} PendingStart(batch: seq<Byte>, size0: nat, size1: nat, chunk: nat, off: nat, room: nat)
    requires chunk > 0 && Fits(|batch|, size0, size1)
    ensures var cuts := LoopCuts(|batch|, size0, size1, chunk);
      && Pending(Empty, batch, size0, size1, chunk, off, off + Reach(cuts), Store(batch, cuts))
      && ReachesTop(batch, size0, size1, chunk, off, off + Reach(cuts), room)
  {
    AppendEmpty(Store(batch, LoopCuts(|batch|, size0, size1, chunk)));
  }

  lemma {:induction false} PendingPass(out: Stored, rest: seq<Byte>, left0: nat, left1: nat, chunk: nat, pos: nat,
                                       top: nat, room: nat, all: Stored, a: nat, b: nat)
    requires Pending(out, rest, left0, left1, chunk, pos, top, all) && rest != []
    requires ReachesTop(rest, left0, left1, chunk, pos, top, room)
    requires a == Take0(|rest|, left0, chunk) && b == Take1(|rest|, left0, left1, chunk)
    ensures a <= left0 && b <= left1 && 0 < a + b <= |rest| && pos + 2 * a <= top
    ensures b < a ==> a + b == |rest|
    ensures Pending(Append(out, Stripe(rest, a, b)), rest[a + b..], left0 - a, left1 - b, chunk,
                    pos + (a + b), top, all)
    ensures pos + 2 * a > room ==> top > room
    ensures pos + 2 * a <= room ==> ReachesTop(rest[a + b..], left0 - a, left1 - b, chunk, pos + (a + b), top, room)
  {
    hide LoopCuts;
    var rest' := rest[a + b..];
    var a', b' := LoopStep(|rest|, left0, left1, chunk);
    assert |rest'| == |rest| - a - b;
    ShortStripeIsLast(|rest|, left0, left1, chunk);
    AppendAssociative(out, Stripe(rest, a, b), Store(rest', LoopCuts(|rest'|, left0 - a, left1 - b, chunk)));
  }

  lemma {:induction false} PendingEnd(out: Stored, rest: seq<Byte>, left0: nat, left1: nat, chunk: nat, pos: nat,
                                      top: nat, room: nat, all: Stored)
    requires Pending(out, rest, left0, left1, chunk, pos, top, all) && rest == [] && pos <= room
    requires ReachesTop(rest, left0, left1, chunk, pos, top, room)
    ensures out == all && top <= room
  {
    AppendEmpty(out);
  }

  /**
   The stripe loop over `batch`, buffered from `off` to `end`: what it appends to the extents, if all it writes stays
   inside the buffer.
   */
  method StripeLoop(buff: array<Byte>, off: nat, end: nat, size0: nat, size1: nat, chunk: nat, ghost batch: seq<Byte>)
    returns (fits: bool, out: Stored)
    requires chunk > 0 && off <= end <= buff.Length && buff[off..end] == batch
    requires Fits(|batch|, size0, size1)
    modifies buff
    ensures fits <==> off + Reach(LoopCuts(|batch|, size0, size1, chunk)) <= buff.Length
    ensures fits ==> out == Store(batch, LoopCuts(|batch|, size0, size1, chunk))
    ensures forall k :: 0 <= k < off ==> buff[k] == old(buff[k])
    ensures forall k :: end <= k < buff.Length && off + Reach(LoopCuts(|batch|, size0, size1, chunk)) <= k ==>
      buff[k] == old(buff[k])
  {
    hide Pending, ReachesTop, LoopCuts, Reach, Store;
    var pos: nat, left0: nat, left1: nat := off, size0, size1;
    ghost var cuts := LoopCuts(|batch|, size0, size1, chunk);
    ghost var rest, top, all := batch, off + Reach(cuts), Store(batch, cuts);
    fits, out := true, Empty;
    PendingStart(batch, size0, size1, chunk, off, buff.Length);
    while pos < end
      invariant off <= pos <= end && buff[pos..end] == rest && fits
      invariant Pending(out, rest, left0, left1, chunk, pos, top, all)
      invariant ReachesTop(rest, left0, left1, chunk, pos, top, buff.Length)
      invariant forall k :: 0 <= k < off ==> buff[k] == old(buff[k])
      invariant forall k :: end <= k < buff.Length && top <= k ==> buff[k] == old(buff[k])
    {
      var a := Min(Min(end - pos, left0), chunk);
      var b := Min(Min(end - pos - a, left1), chunk);
      PendingPass(out, rest, left0, left1, chunk, pos, top, buff.Length, all, a, b);
      var stripe;
      fits, stripe := StripeChunks(buff, pos, end, a, b, rest);
      if !fits {
        return;
      }
      out := Append(out, stripe);
      pos, left0, left1 := pos + (a + b), left0 - a, left1 - b;
      rest := rest[a + b..];
    }
    PendingEnd(out, rest, left0, left1, chunk, pos, top, buff.Length, all);
  }

  lemma {:induction false} AppendEmpty(s: Stored)
    ensures Append(s, Empty) == s && Append(Empty, s) == s
  {
  }

  lemma {:induction false} AppendAssociative(r: Stored, s: Stored, t: Stored)
    ensures Append(r, Append(s, t)) == Append(Append(r, s), t)
  {
    assert r.data0 + (s.data0 + t.data0) == (r.data0 + s.data0) + t.data0;
    assert r.data1 + (s.data1 + t.data1) == (r.data1 + s.data1) + t.data1;
    assert r.parity + (s.parity + t.parity) == (r.parity + s.parity) + t.parity;
  }

  // ---------------------------------------------------------------- aligned batches

  /** `n` bytes are a whole number of stripes. */
  predicate WholeStripes(n: nat, chunk: nat)
    requires chunk > 0
  {
    n == 0 || (2 * chunk <= n && WholeStripes(n - 2 * chunk, chunk))
  }

  lemma {:induction false} WholeStripesIsMultiple(n: nat, chunk: nat)
    requires chunk > 0
    ensures WholeStripes(n, chunk) <==> n % (2 * chunk) == 0
  {
    if n < 2 * chunk {
      DivModUnique(n, 2 * chunk, 0, n);
    } else {
      ModShift(n, -1, 2 * chunk);
      WholeStripesIsMultiple(n - 2 * chunk, chunk);
    }
  }

  /** `n` bytes of a split with `total` bytes left end on a stripe boundary, or end the split. */
  predicate Aligned(n: nat, total: nat, chunk: nat)
    requires chunk > 0
  {
    n <= total && (n == total || WholeStripes(n, chunk))
  }

  lemma {:induction false} WholeTake(n: nat, left0: nat, left1: nat, chunk: nat)
    requires chunk > 0 && left1 <= left0 <= left1 + 1 && 2 * chunk <= n <= left0 + left1
    ensures Take0(n, left0, chunk) == Take1(n, left0, left1, chunk) == chunk
  {
  }

  /** An aligned batch is cut in its own stripes. */
  lemma {:induction false} AlignedIsRegular(n: nat, left0: nat, left1: nat, chunk: nat)
    requires chunk > 0 && left1 <= left0 <= left1 + 1 && Aligned(n, left0 + left1, chunk)
    ensures LoopCuts(n, left0, left1, chunk) == Regular(n, chunk)
    decreases n
  {
    hide LoopCuts;
    if n > 0 {
      var a, b := LoopStep(n, left0, left1, chunk);
      if n < 2 * chunk {
        NothingToCut(left0 - a, left1 - b, chunk);
      } else {
        WholeTake(n, left0, left1, chunk);
        AlignedIsRegular(n - 2 * chunk, left0 - chunk, left1 - chunk, chunk);
      }
    } else {
      NothingToCut(left0, left1, chunk);
    }
  }

  lemma {:induction false} NothingToCut(left0: nat, left1: nat, chunk: nat)
    requires chunk > 0 && Fits(0, left0, left1)
    ensures LoopCuts(0, left0, left1, chunk) == End
  {
  }

  /** An aligned batch stays within its whole stripes in the buffer. */
  lemma {:induction false} RegularReach(n: nat, room: nat, chunk: nat)
    requires chunk > 0 && n <= room && WholeStripes(room, chunk)
    ensures Reach(Regular(n, chunk)) <= room
  {
    if 2 * chunk <= n {
      RegularReach(n - 2 * chunk, room - 2 * chunk, chunk);
    }
  }
}
