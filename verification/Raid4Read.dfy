/**
 Reading a RAID4 split back from any two of its three extents, the third one
 being rebuilt by XOR inside the transfer buffer.
 */
module Raid4Read {
  import opened Arithmetic
  import opened Raid4Stripes

  /** The two extents that the split is read from, in layout order. */
  datatype Pair = Data01 | Data0Parity | Data1Parity

  /** The extent that each stripe is read from first: the parity extent stands in for a missing extent 0. */
  function First(pair: Pair, s: Stored): seq<Byte> {
    if pair.Data1Parity? then s.parity else s.data0
  }

  function Second(pair: Pair, s: Stored): seq<Byte> {
    if pair.Data0Parity? then s.parity else s.data1
  }

  /** The data bytes of a stripe, from the chunks `d` and `e` read for it. */
  function Recover(pair: Pair, d: seq<Byte>, e: seq<Byte>): seq<Byte> {
    match pair
    case Data01 => d + e
    case Data0Parity => d + ParityChunk(e, d)
    case Data1Parity => ParityChunk(d, e) + e
  }

  /** The stripes that the read loop takes for `n` bytes when `left` bytes remain in the first extent. */
  function FetchCuts(n: nat, left: nat, chunk: nat): (cuts: Cuts)
    requires chunk > 0 && n <= 2 * left
    ensures Covers(cuts, n) && Sum0(cuts) <= left && Sum0(cuts) + Sum1(cuts) == n
    decreases n
  {
    if n == 0 then End else
      var a := Min(Min(n, left), chunk);
      var b := Min(a, n - a);
      Next(a, b, FetchCuts(n - a - b, left - a, chunk))
  }

  /** The bytes that the read loop leaves in the buffer, `f` and `g` being what remains of the two extents. */
  function Fetch(pair: Pair, f: seq<Byte>, g: seq<Byte>, cuts: Cuts): seq<Byte>
    requires Sum0(cuts) <= |f| && Sum1(cuts) <= |g|
    decreases cuts
  {
    match cuts
    case End => []
    case Next(a, b, more) => Recover(pair, f[..a], g[..b]) + Fetch(pair, f[a..], g[b..], more)
  }

  // ---------------------------------------------------------------- read loop

  method CopyIn(buff: array<Byte>, at: nat, bytes: seq<Byte>)
    requires at + |bytes| <= buff.Length
    modifies buff
    ensures forall k :: 0 <= k < buff.Length && !(at <= k < at + |bytes|) ==> buff[k] == old(buff[k])
    ensures buff[at..at + |bytes|] == bytes
  {
    for i := 0 to |bytes|
      invariant forall k :: 0 <= k < buff.Length && !(at <= k < at + i) ==> buff[k] == old(buff[k])
      invariant buff[at..at + i] == bytes[..i]
    {
      buff[at + i] := bytes[i];
    }
  }

  /** Rebuilds the chunk of extent 1 over its parity `e`, after the chunk `d` of extent 0. */
  method RecoverSecond(buff: array<Byte>, pos: nat, d: seq<Byte>, e: seq<Byte>)
    requires |e| <= |d| && pos + |d| + |e| <= buff.Length
    requires buff[pos..pos + |d|] == d && buff[pos + |d|..pos + |d| + |e|] == e
    modifies buff
    ensures forall k :: 0 <= k < pos + |d| ==> buff[k] == old(buff[k])
    ensures buff[pos + |d|..pos + |d| + |e|] == ParityChunk(e, d)
  {
    ghost var data := buff[pos..pos + |e|];
    assert data == d[..|e|];
    XorInPlace(buff, pos, pos + |d|, |e|);
    assert ParityChunk(e, data) == ParityChunk(e, d);
  }

  /** Rebuilds the chunk of extent 0 over its parity `d`, before the chunk `e` of extent 1. */
  method RecoverFirst(buff: array<Byte>, pos: nat, d: seq<Byte>, e: seq<Byte>)
    requires |e| <= |d| && pos + 2 * |d| <= buff.Length
    requires buff[pos..pos + |d|] == d && buff[pos + |d|..pos + |d| + |e|] == e
    modifies buff
    ensures forall k :: 0 <= k < pos || pos + |d| <= k < pos + |d| + |e| ==> buff[k] == old(buff[k])
    ensures buff[pos..pos + |d|] == ParityChunk(d, e)
  {
    var a, b := |d|, |e|;
    if b < a {
      Zero(buff, pos + a + b, a - b);
    }
    ghost var padded := buff[pos + a..pos + 2 * a];
    assert buff[pos..pos + a] == d;
    XorInPlace(buff, pos + a, pos, a);
    assert ParityChunk(d, padded) == ParityChunk(d, e);
  }

  /** Reads the chunks `d` and `e` of a stripe at `pos` and puts the data bytes in place. */
  method ReadStripe(buff: array<Byte>, pos: nat, pair: Pair, d: seq<Byte>, e: seq<Byte>, ghost off: nat,
                    ghost done: seq<Byte>)
    requires |e| <= |d| && pos + |d| + |e| <= buff.Length && (pair.Data1Parity? ==> pos + 2 * |d| <= buff.Length)
    requires off <= pos && buff[off..pos] == done
    modifies buff
    ensures forall k :: 0 <= k < off ==> buff[k] == old(buff[k])
    ensures buff[off..pos + (|d| + |e|)] == done + Recover(pair, d, e)
  {
    hide Recover;
    ghost var before := buff[..];
    PutStripe(buff, pos, pair, d, e);
    SlicesJoin(before, buff[..], off, pos, pos + |d| + |e|);
  }

  lemma {:induction false} SlicesJoin(before: seq<Byte>, s: seq<Byte>, off: nat, pos: nat, end: nat)
    requires off <= pos <= end <= |s| == |before| && forall k :: 0 <= k < pos ==> s[k] == before[k]
    ensures s[off..pos] == before[off..pos] && s[off..end] == s[off..pos] + s[pos..end]
  {
  }

  method PutStripe(buff: array<Byte>, pos: nat, pair: Pair, d: seq<Byte>, e: seq<Byte>)
    requires |e| <= |d| && pos + |d| + |e| <= buff.Length && (pair.Data1Parity? ==> pos + 2 * |d| <= buff.Length)
    modifies buff
    ensures forall k :: 0 <= k < pos ==> buff[k] == old(buff[k])
    ensures buff[pos..pos + |d| + |e|] == Recover(pair, d, e)
  {
    CopyIn(buff, pos, d);
    CopyIn(buff, pos + |d|, e);
    assert buff[pos..pos + |d|] == d;
    match pair {
      case Data01 =>
      case Data0Parity => RecoverSecond(buff, pos, d, e);
      case Data1Parity => RecoverFirst(buff, pos, d, e);
    }
    assert buff[pos..pos + |d| + |e|] == buff[pos..pos + |d|] + buff[pos + |d|..pos + |d| + |e|];
  }

  /**
   How a read ends: with all bytes, on an extent with too few bytes, on an exhausted first extent that the loop never
   leaves, or past the end of the buffer.
   */
  datatype Outcome = Done | TooShort | NoProgress | PastBuffer

  /** The end of a read of `n` bytes with `left` and `rest` bytes in the two extents and `room` bytes of buffer. */
  function ReadOutcome(pair: Pair, n: nat, left: nat, rest: nat, chunk: nat, room: nat): Outcome
    requires chunk > 0 && n <= room
  {
    if n == 0 then Done else
      var a := Min(Min(n, left), chunk);
      var b := Min(a, n - a);
      if a == 0 then NoProgress
      else if b > rest then TooShort
      else if pair.Data1Parity? && b < a && 2 * a > room then PastBuffer
      else ReadOutcome(pair, n - a - b, left - a, rest - b, chunk, room - a - b)
  }

  /** The exact condition for a read to end with all its bytes. */
  lemma {:induction false} DoneIff(pair: Pair, n: nat, left: nat, rest: nat, chunk: nat, room: nat)
    requires chunk > 0 && n <= room
    ensures ReadOutcome(pair, n, left, rest, chunk, room) == Done <==>
      && n <= 2 * left && Sum1(FetchCuts(n, left, chunk)) <= rest
      && (pair.Data1Parity? ==> Reach(FetchCuts(n, left, chunk)) <= room)
    decreases n
  {
    hide ReadOutcome, FetchCuts;
    if n > 0 {
      var a := Min(Min(n, left), chunk);
      var b := Min(a, n - a);
      OutcomeStep(pair, n, left, rest, chunk, room, a, b);
      FetchStep(n, left, chunk, a, b);
      if 0 < a && b <= rest {
        DoneIff(pair, n - (a + b), left - a, rest - b, chunk, room - (a + b));
      }
    } else {
      NothingRead(pair, left, rest, chunk, room);
    }
  }

  lemma {:induction false} NothingRead(pair: Pair, left: nat, rest: nat, chunk: nat, room: nat)
    requires chunk > 0
    ensures ReadOutcome(pair, 0, left, rest, chunk, room) == Done && FetchCuts(0, left, chunk) == End
  {
  }

  lemma {:induction false} FetchStep(n: nat, left: nat, chunk: nat, a: nat, b: nat)
    requires chunk > 0 && n > 0 && a == Min(Min(n, left), chunk) && b == Min(a, n - a)
    ensures b <= a && a + b <= n && (n <= 2 * left <==> a > 0 && n - (a + b) <= 2 * (left - a))
    ensures n <= 2 * left ==> FetchCuts(n, left, chunk) == Next(a, b, FetchCuts(n - (a + b), left - a, chunk))
  {
  }

  /** A buffer of whole stripes has room for every read that it is long enough for. */
  lemma {:induction false} FetchReach(n: nat, left: nat, chunk: nat, room: nat)
    requires chunk > 0 && n <= 2 * left && n <= room && WholeStripes(room, chunk)
    ensures Reach(FetchCuts(n, left, chunk)) <= room
    decreases n
  {
    if n > 0 {
      var a := Min(Min(n, left), chunk);
      var b := Min(a, n - a);
      if n >= 2 * chunk {
        FetchReach(n - a - b, left - a, chunk, room - 2 * chunk);
      }
    }
  }

  /** With `done` in the buffer, the read loop still has `n` bytes to read, towards `all`. */
  ghost predicate Fetching(done: seq<Byte>, pair: Pair, f: seq<Byte>, g: seq<Byte>, n: nat, chunk: nat, all: seq<Byte>)
  {
    && chunk > 0 && n <= 2 * |f|
    && var cuts := FetchCuts(n, |f|, chunk);
      Sum1(cuts) <= |g| && done + Fetch(pair, f, g, cuts) == all
  }

  lemma {:induction false} FetchingPass(done: seq<Byte>, pair: Pair, f: seq<Byte>, g: seq<Byte>, n: nat, chunk: nat,
                                        all: seq<Byte>, a: nat, b: nat)
    requires Fetching(done, pair, f, g, n, chunk, all) && n > 0
    requires a == Min(Min(n, |f|), chunk) && b == Min(a, n - a)
    ensures 0 < a <= |f| && b <= |g| && b <= a && a + b <= n
    ensures Fetching(done + Recover(pair, f[..a], g[..b]), pair, f[a..], g[b..], n - (a + b), chunk, all)
  {
    hide FetchCuts, Recover;
    FetchStep(n, |f|, chunk, a, b);
    var cuts := FetchCuts(n, |f|, chunk);
    assert |f[a..]| == |f| - a;
    var r, t := Recover(pair, f[..a], g[..b]), Fetch(pair, f[a..], g[b..], cuts.more);
    assert Fetch(pair, f, g, cuts) == r + t;
    assert done + (r + t) == (done + r) + t;
  }

  lemma {:induction false} FetchingEnd(done: seq<Byte>, pair: Pair, f: seq<Byte>, g: seq<Byte>, chunk: nat,
                                       all: seq<Byte>)
    requires Fetching(done, pair, f, g, 0, chunk, all)
    ensures done == all
  {
    assert done + [] == done;
  }

  lemma {:induction false} FetchingStart(pair: Pair, f: seq<Byte>, g: seq<Byte>, n: nat, chunk: nat, room: nat)
    requires chunk > 0 && n <= room && ReadOutcome(pair, n, |f|, |g|, chunk, room) == Done
    ensures n <= 2 * |f| && Sum1(FetchCuts(n, |f|, chunk)) <= |g|
    ensures Fetching([], pair, f, g, n, chunk, Fetch(pair, f, g, FetchCuts(n, |f|, chunk)))
  {
    DoneIff(pair, n, |f|, |g|, chunk, room);
    var all := Fetch(pair, f, g, FetchCuts(n, |f|, chunk));
    assert [] + all == all;
  }

  /** The rest of a read of `n` bytes of `f` and `g` is a read of `left` bytes of `f1` and `g1`. */
  ghost predicate Follows(f1: seq<Byte>, g1: seq<Byte>, left: nat, f: seq<Byte>, g: seq<Byte>, n: nat, chunk: nat) {
    && chunk > 0 && left <= 2 * |f1| && n <= 2 * |f|
    && var cuts1, cuts := FetchCuts(left, |f1|, chunk), FetchCuts(n, |f|, chunk);
      && Sum1(cuts1) <= |g1| && Sum1(cuts) <= |g|
      && f1[Sum0(cuts1)..] == f[Sum0(cuts)..] && g1[Sum1(cuts1)..] == g[Sum1(cuts)..]
  }

  lemma {:induction false} FollowsPass(f1: seq<Byte>, g1: seq<Byte>, left: nat, f: seq<Byte>, g: seq<Byte>, n: nat,
                                       chunk: nat, a: nat, b: nat)
    requires Follows(f1, g1, left, f, g, n, chunk) && left > 0 && a <= |f1| && b <= |g1|
    requires a == Min(Min(left, |f1|), chunk) && b == Min(a, left - a)
    ensures a + b <= left && Follows(f1[a..], g1[b..], left - (a + b), f, g, n, chunk)
  {
    hide FetchCuts;
    FetchStep(left, |f1|, chunk, a, b);
    var cuts := FetchCuts(left - (a + b), |f1[a..]|, chunk);
    assert f1[a..][Sum0(cuts)..] == f1[a + Sum0(cuts)..];
    assert g1[b..][Sum1(cuts)..] == g1[b + Sum1(cuts)..];
  }

  lemma {:induction false} FollowsEnd(f1: seq<Byte>, g1: seq<Byte>, f: seq<Byte>, g: seq<Byte>, n: nat, chunk: nat)
    requires Follows(f1, g1, 0, f, g, n, chunk)
    ensures var cuts := FetchCuts(n, |f|, chunk);
      Sum1(cuts) <= |g| && f1 == f[Sum0(cuts)..] && g1 == g[Sum1(cuts)..]
  {
  }

  /** The bytes of a read that ends well. */
  ghost function Wanted(pair: Pair, f: seq<Byte>, g: seq<Byte>, n: nat, chunk: nat): seq<Byte>
    requires chunk > 0
  {
    if n <= 2 * |f| && Sum1(FetchCuts(n, |f|, chunk)) <= |g| then Fetch(pair, f, g, FetchCuts(n, |f|, chunk)) else []
  }

  /**
   The read loop for `n` bytes at `off`, from what remains of the two extents: `f` and `g` before the read, `f1` and
   `g1` after it. The model stops where the source would loop for ever or go past the buffer.
   */
  method ReadIntoBuff(buff: array<Byte>, off: nat, n: nat, pair: Pair, f: seq<Byte>, g: seq<Byte>, chunk: nat)
    returns (r: Outcome, f1: seq<Byte>, g1: seq<Byte>)
    requires chunk > 0 && off + n <= buff.Length
    modifies buff
    ensures r == ReadOutcome(pair, n, |f|, |g|, chunk, buff.Length - off)
    ensures r == Done ==> n <= 2 * |f| && Sum1(FetchCuts(n, |f|, chunk)) <= |g|
    ensures r == Done ==> buff[off..off + n] == Fetch(pair, f, g, FetchCuts(n, |f|, chunk))
    ensures r == Done ==> f1 == f[Sum0(FetchCuts(n, |f|, chunk))..] && g1 == g[Sum1(FetchCuts(n, |f|, chunk))..]
    ensures forall k :: 0 <= k < off ==> buff[k] == old(buff[k])
  {
    hide Fetching, Follows, FetchCuts, Fetch, Reach, Sum0, Sum1, Recover, ReadOutcome, Wanted;
    ghost var end := ReadOutcome(pair, n, |f|, |g|, chunk, buff.Length - off);
    ghost var all, done := Wanted(pair, f, g, n, chunk), [];
    var pos, left: nat := off, n;
    f1, g1 := f, g;
    ReadStarts(pair, f, g, n, chunk, buff.Length - off);
    while left > 0
      invariant off <= pos && pos + left == off + n && buff[off..pos] == done
      invariant ReadOutcome(pair, left, |f1|, |g1|, chunk, buff.Length - pos) == end
      invariant end == Done ==> Fetching(done, pair, f1, g1, left, chunk, all) && Follows(f1, g1, left, f, g, n, chunk)
      invariant forall k :: 0 <= k < off ==> buff[k] == old(buff[k])
    {
      var a := Min(Min(left, |f1|), chunk);
      var b := Min(a, left - a);
      OutcomeStep(pair, left, |f1|, |g1|, chunk, buff.Length - pos, a, b);
      if a == 0 {
        return NoProgress, f1, g1;
      }
      if b > |g1| {
        return TooShort, f1, g1;
      }
      if pair.Data1Parity? && b < a && pos + 2 * a > buff.Length {
        return PastBuffer, f1, g1;
      }
      if end == Done {
        FetchingPass(done, pair, f1, g1, left, chunk, all, a, b);
        FollowsPass(f1, g1, left, f, g, n, chunk, a, b);
      }
      var chunk0, chunk1 := f1[..a], g1[..b];
      ReadStripe(buff, pos, pair, chunk0, chunk1, off, done);
      done := done + Recover(pair, chunk0, chunk1);
      f1, g1, pos, left := f1[a..], g1[b..], pos + (a + b), left - (a + b);
    }
    ReadEnds(pair, f1, g1, f, g, n, chunk, buff.Length - off, buff.Length - pos, done);
    FollowsEnd(f1, g1, f, g, n, chunk);
    r := Done;
  }

  lemma {:induction false} ReadStarts(pair: Pair, f: seq<Byte>, g: seq<Byte>, n: nat, chunk: nat, room: nat)
    requires chunk > 0 && n <= room
    ensures ReadOutcome(pair, n, |f|, |g|, chunk, room) == Done ==>
      Fetching([], pair, f, g, n, chunk, Wanted(pair, f, g, n, chunk)) && Follows(f, g, n, f, g, n, chunk)
  {
    if ReadOutcome(pair, n, |f|, |g|, chunk, room) == Done {
      FetchingStart(pair, f, g, n, chunk, room);
    }
  }

  lemma {:induction false} OutcomeStep(pair: Pair, n: nat, left: nat, rest: nat, chunk: nat, room: nat, a: nat, b: nat)
    requires chunk > 0 && 0 < n <= room && a == Min(Min(n, left), chunk) && b == Min(a, n - a)
    ensures b <= a && a + b <= n
    ensures ReadOutcome(pair, n, left, rest, chunk, room) ==
      if a == 0 then NoProgress
      else if b > rest then TooShort
      else if pair.Data1Parity? && b < a && 2 * a > room then PastBuffer
      else ReadOutcome(pair, n - (a + b), left - a, rest - b, chunk, room - (a + b))
  {
  }

  lemma {:induction false} ReadEnds(pair: Pair, f': seq<Byte>, g': seq<Byte>, f: seq<Byte>, g: seq<Byte>, n: nat,
                                    chunk: nat, room: nat, room': nat, done: seq<Byte>)
    requires chunk > 0 && n <= room
    requires ReadOutcome(pair, 0, |f'|, |g'|, chunk, room') == ReadOutcome(pair, n, |f|, |g|, chunk, room)
    requires ReadOutcome(pair, n, |f|, |g|, chunk, room) == Done ==>
      Fetching(done, pair, f', g', 0, chunk, Wanted(pair, f, g, n, chunk))
    ensures ReadOutcome(pair, n, |f|, |g|, chunk, room) == Done
    ensures n <= 2 * |f| && Sum1(FetchCuts(n, |f|, chunk)) <= |g| && done == Fetch(pair, f, g, FetchCuts(n, |f|, chunk))
  {
    hide Fetching;
    DoneIff(pair, n, |f|, |g|, chunk, room);
    FetchingEnd(done, pair, f', g', chunk, Wanted(pair, f, g, n, chunk));
  }

  // ---------------------------------------------------------------- any two extents

  /** Every stripe but the last gives as much to both data extents. */
  predicate Even(cuts: Cuts) {
    cuts.Next? ==> cuts.b <= cuts.a && (cuts.more.End? || cuts.a == cuts.b) && Even(cuts.more)
  }

  lemma {:induction false} RegularIsEven(n: nat, chunk: nat)
    requires chunk > 0
    ensures Even(Regular(n, chunk))
  {
    if 2 * chunk <= n {
      RegularIsEven(n - 2 * chunk, chunk);
    }
  }

  /** The read loop takes the stripes of the layout. */
  lemma {:induction false} FetchIsRegular(n: nat, left: nat, chunk: nat)
    requires chunk > 0 && (WholeStripes(n, chunk) || left == n - n / 2) && n <= 2 * left
    ensures FetchCuts(n, left, chunk) == Regular(n, chunk)
  {
    if 2 * chunk <= n {
      FetchIsRegular(n - 2 * chunk, left - chunk, chunk);
    }
  }

  lemma XorCancels(a: Byte, b: Byte)
    ensures (a ^ b) ^ a == b && (a ^ b) ^ b == a
  {
  }

  /** A stripe is recovered from any two of its chunks; with extent 0 only the parity of extent 1's bytes is read. */
  lemma {:induction false} RecoverStripe(pair: Pair, x: seq<Byte>, a: nat, b: nat)
    requires b <= a && a + b <= |x|
    ensures var s := Stripe(x, a, b);
      Recover(pair, First(pair, s), Second(pair, s)[..b]) == x[..a + b]
  {
    var s := Stripe(x, a, b);
    var d0, d1, p := x[..a], x[a..a + b], s.parity;
    assert d0 + d1 == x[..a + b];
    assert d1[..b] == d1;
    match pair {
      case Data01 =>
      case Data0Parity =>
        forall j | 0 <= j < b
          ensures ParityChunk(p[..b], d0)[j] == d1[j]
        {
          XorCancels(d0[j], d1[j]);
        }
        assert ParityChunk(p[..b], d0) == d1;
      case Data1Parity =>
        forall j | 0 <= j < a
          ensures ParityChunk(p, d1)[j] == d0[j]
        {
          XorCancels(d0[j], if j < b then d1[j] else 0);
        }
        assert ParityChunk(p, d1) == d0;
    }
  }

  /** Any two extents give back the stored bytes, whatever follows them on the media. */
  lemma {:induction false} ReadBack(pair: Pair, x: seq<Byte>, cuts: Cuts, after: Stored)
    requires Covers(cuts, |x|) && Even(cuts)
    ensures var s := Append(Store(x, cuts), after);
      && Sum0(cuts) <= |First(pair, s)| && Sum1(cuts) <= |Second(pair, s)|
      && Fetch(pair, First(pair, s), Second(pair, s), cuts) == x
    decreases cuts
  {
    if cuts.Next? {
      var rest := x[cuts.a + cuts.b..];
      ReadBack(pair, rest, cuts.more, after);
      AppendAssociative(Stripe(x, cuts.a, cuts.b), Store(rest, cuts.more), after);
      ReadStripeThenRest(pair, x, cuts, Append(Store(rest, cuts.more), after));
    }
  }

  /** A stripe comes before what follows it on the media. */
  lemma {:induction false} ReadStripeThenRest(pair: Pair, x: seq<Byte>, cuts: Cuts, tail: Stored)
    requires cuts.Next? && Even(cuts) && cuts.a + cuts.b <= |x|
    requires Sum0(cuts.more) <= |First(pair, tail)| && Sum1(cuts.more) <= |Second(pair, tail)|
    requires Fetch(pair, First(pair, tail), Second(pair, tail), cuts.more) == x[cuts.a + cuts.b..]
    ensures var s := Append(Stripe(x, cuts.a, cuts.b), tail);
      && Sum0(cuts) <= |First(pair, s)| && Sum1(cuts) <= |Second(pair, s)|
      && Fetch(pair, First(pair, s), Second(pair, s), cuts) == x
  {
    var a, b := cuts.a, cuts.b;
    var stripe := Stripe(x, a, b);
    var s := Append(stripe, tail);
    RecoverStripe(pair, x, a, b);
    var f, g := First(pair, s), Second(pair, s);
    assert f[..a] == First(pair, stripe) && f[a..] == First(pair, tail);
    assert g[..b] == Second(pair, stripe)[..b];
    if a == b || !pair.Data0Parity? {
      assert g[b..] == Second(pair, tail);
    }
    assert x == x[..a + b] + x[a + b..];
  }
}
