/**
 How an object is cut into splits of `d` data extents and some parity extents.
 The size of a split is never stored: the writer derives it from the space
 granted on each medium, the reader from the sizes of the extents it was given,
 the rebuilder from the offsets of the extents that are left.
 */
module SplitSizing {
  import opened Basics
  import opened Arithmetic

  datatype Extent = Extent(layoutIdx: nat, offset: nat, size: nat, medium: Medium)

  function Media(extents: seq<Extent>): seq<Medium> {
    seq(|extents|, i requires 0 <= i < |extents| => extents[i].medium)
  }

  /** A split: `q` bytes for each data extent, and `r` more bytes for the first `r` of them. */
  datatype Split = Split(offset: nat, q: nat, r: nat)

  function Bytes(s: Split, d: nat): nat {
    s.q * d + s.r
  }

  /** Size of the extent at index `i` of a split; a parity extent is as long as the longest data extent. */
  function ExtentSize(q: nat, r: nat, d: nat, i: nat): nat {
    if r > 0 && (i < r || d <= i) then q + 1 else q
  }

  // ---------------------------------------------------------------- writer

  /** The even share of `remaining` bytes, cut down to the smallest grant. */
  function Granted(s: Split, grants: seq<nat>): (t: Split)
    ensures t.offset == s.offset && t.q <= s.q && (t.r == s.r || t.r == 0)
    ensures forall i :: 0 <= i < |grants| ==> t.q <= grants[i]
    ensures t.q == s.q || t.q in grants
    ensures t == s <==> (forall i :: 0 <= i < |grants| ==> s.q <= grants[i])
    ensures t != s ==> t.q < s.q && t.r == 0
    decreases |grants|
  {
    if grants == [] then s else
      Granted(if grants[0] < s.q then Split(s.offset, grants[0], 0) else s, grants[1..])
  }

  /** Extents longer than a chunk are cut to whole chunks, unless the split ends the object. */
  function ChunkAligned(s: Split, size: nat, chunk: nat, d: nat): Split
    requires chunk > 0
  {
    if s.q > chunk && size != s.offset + s.q * d + s.r then s.(q := s.q - s.q % chunk) else s
  }

  /** The split that the writer sets up at `offset` of an object of `size` bytes. */
  function SplitAt(size: nat, offset: nat, grants: seq<nat>, chunk: nat, d: nat): Split
    requires d > 0 && chunk > 0 && offset <= size
  {
    var remaining := size - offset;
    ChunkAligned(Granted(Split(offset, remaining / d, remaining % d), grants), size, chunk, d)
  }

  lemma {:induction false} MulMonotone(a: int, b: int, d: int)
    requires a <= b && 0 <= d
    ensures a * d <= b * d
  {
  }

  /** What every split setup keeps, for any grants. */
  lemma {:induction false} SplitFacts(size: nat, offset: nat, grants: seq<nat>, chunk: nat, d: nat)
    requires d > 0 && chunk > 0 && offset <= size
    ensures var s := SplitAt(size, offset, grants, chunk, d);
      && s.offset == offset && s.r < d && Bytes(s, d) <= size - offset
      && (s.r > 0 ==> Bytes(s, d) == size - offset)
      && (Bytes(s, d) < size - offset ==> s.q <= chunk || s.q % chunk == 0)
      && (offset < size && (forall i :: 0 <= i < |grants| ==> grants[i] > 0) ==> Bytes(s, d) > 0)
  {
    var remaining := size - offset;
    var even := Split(offset, remaining / d, remaining % d);
    assert even.q * d + even.r == remaining;
    var t := Granted(even, grants);
    MulMonotone(t.q, even.q, d);
    var s := ChunkAligned(t, size, chunk, d);
    var cut := t.q - t.q % chunk;
    MulMonotone(cut, t.q, d);
    ChunkFloor(t.q, chunk);
    if t != even {
      assert t.r == 0 && t.q + 1 <= even.q;
      MulMonotone(t.q + 1, even.q, d);
      assert (t.q + 1) * d == t.q * d + d;
    }
    if offset < size {
      if s.q > 0 { MulMonotone(1, s.q, d); }
    }
  }

  lemma {:induction false} ChunkFloor(q: nat, chunk: nat)
    requires chunk > 0
    ensures (q - q % chunk) % chunk == 0
    ensures q >= chunk ==> q - q % chunk >= chunk
  {
    ModShift(0, q / chunk, chunk);
    assert q == q / chunk * chunk + q % chunk;
  }

  /** Data extents of `m` bytes fit in the rest of the object, and in every grant. */
  predicate Affordable(m: nat, size: nat, offset: nat, grants: seq<nat>, d: nat) {
    offset + m * d <= size && forall i :: 0 <= i < |grants| ==> m <= grants[i]
  }

  lemma {:induction false} GrantedIsLargest(size: nat, offset: nat, grants: seq<nat>, d: nat)
    requires d > 0 && offset <= size
    ensures var t := Granted(Split(offset, (size - offset) / d, (size - offset) % d), grants);
      Affordable(t.q, size, offset, grants, d) && forall m: nat :: Affordable(m, size, offset, grants, d) ==> m <= t.q
  {
    hide Granted;
    var share := (size - offset) / d;
    var t := Granted(Split(offset, share, (size - offset) % d), grants);
    MulMonotone(t.q, share, d);
    assert share * d <= size - offset;
    forall m: nat | Affordable(m, size, offset, grants, d)
      ensures m <= t.q
    {
      assert (share + 1) * d == share * d + d;
      if m > share {
        MulMonotone(share + 1, m, d);
      }
    }
  }

  lemma {:induction false} ChunkFloorIsLargest(q: nat, m: nat, chunk: nat)
    requires chunk > 0 && m % chunk == 0 && m <= q
    ensures m <= q - q % chunk
  {
    var a, b := m / chunk, q / chunk;
    assert m == a * chunk && q == b * chunk + q % chunk;
    assert (b + 1) * chunk == b * chunk + chunk;
    if a > b {
      MulMonotone(b + 1, a, chunk);
    }
  }

  /**
   How large a split is. It ends the object, with the even share and its remainder, exactly if every grant has room for
   the share. Otherwise its extents are the largest affordable ones or, if these exceed a chunk, the largest affordable
   ones of whole chunks.
   */
  ghost predicate Largest(s: Split, size: nat, grants: seq<nat>, chunk: nat, d: nat)
    requires d > 0 && chunk > 0 && s.offset <= size
  {
    var share, rest := (size - s.offset) / d, (size - s.offset) % d;
    if forall i :: 0 <= i < |grants| ==> share <= grants[i] then s.q == share && s.r == rest
    else
      && s.r == 0 && s.offset + s.q * d < size && Affordable(s.q, size, s.offset, grants, d)
      && (s.q <= chunk || s.q % chunk == 0)
      && (forall m: nat :: Affordable(m, size, s.offset, grants, d) && m % chunk == 0 ==> m <= s.q)
      && (!Affordable(chunk + 1, size, s.offset, grants, d) ==>
            forall m: nat :: Affordable(m, size, s.offset, grants, d) ==> m <= s.q)
  }

  lemma {:induction false} SplitIsLargest(size: nat, offset: nat, grants: seq<nat>, chunk: nat, d: nat)
    requires d > 0 && chunk > 0 && offset <= size
    ensures var s := SplitAt(size, offset, grants, chunk, d);
      s.offset == offset && Largest(s, size, grants, chunk, d)
  {
    hide Granted, Affordable;
    var remaining := size - offset;
    var even := Split(offset, remaining / d, remaining % d);
    assert even.q * d + even.r == remaining;
    var t := Granted(even, grants);
    GrantedIsLargest(size, offset, grants, d);
    var s := SplitAt(size, offset, grants, chunk, d);
    if t != even {
      MulMonotone(t.q + 1, even.q, d);
      assert (t.q + 1) * d == t.q * d + d;
      ChunkFloor(t.q, chunk);
      MulMonotone(s.q, t.q, d);
      LessIsAffordable(t.q, s.q, size, offset, grants, d);
      forall m: nat | Affordable(m, size, offset, grants, d) && m % chunk == 0
        ensures m <= s.q
      {
        ChunkFloorIsLargest(t.q, m, chunk);
      }
      if t.q > chunk {
        LessIsAffordable(t.q, chunk + 1, size, offset, grants, d);
      }
    }
  }

  /** No other split is. */
  lemma {:induction false} LargestIsUnique(s: Split, t: Split, size: nat, grants: seq<nat>, chunk: nat, d: nat)
    requires d > 0 && chunk > 0 && s.offset == t.offset <= size
    requires Largest(s, size, grants, chunk, d) && Largest(t, size, grants, chunk, d)
    ensures s == t
  {
    hide Affordable;
    if Affordable(chunk + 1, size, s.offset, grants, d) {
      LessIsAffordable(chunk + 1, chunk, size, s.offset, grants, d);
      DivModUnique(chunk, chunk, 1, 0);
    }
  }

  lemma {:induction false} LessIsAffordable(q: nat, m: nat, size: nat, offset: nat, grants: seq<nat>, d: nat)
    requires Affordable(q, size, offset, grants, d) && m <= q
    ensures Affordable(m, size, offset, grants, d)
  {
    MulMonotone(m, q, d);
  }

  /** Sizes of the extents from index `i` up to `n`. */
  function SizesFrom(q: nat, r: nat, d: nat, i: nat, n: nat): (z: seq<nat>)
    requires i <= n
    ensures |z| == n - i
    ensures forall k :: 0 <= k < |z| ==> z[k] == ExtentSize(q, r, d, i + k)
    decreases n - i
  {
    if i == n then [] else [ExtentSize(q, r, d, i)] + SizesFrom(q, r, d, i + 1, n)
  }

  /** The data extents of a split hold its bytes. */
  lemma {:induction false} DataSizes(q: nat, r: nat, d: nat, i: nat)
    requires i <= d && r <= d
    ensures Total(SizesFrom(q, r, d, i, d)) == q * (d - i) + (if i < r then r - i else 0)
    decreases d - i
  {
    if i < d {
      DataSizes(q, r, d, i + 1);
      var rest := SizesFrom(q, r, d, i + 1, d);
      assert SizesFrom(q, r, d, i, d)[1..] == rest;
      assert q * (d - i) == q * (d - (i + 1)) + q;
    }
  }

  /** The loop that cuts the even share down to the grants. */
  method ShareGrants(size: nat, offset: nat, grants: seq<nat>, d: nat) returns (q: nat, r: nat)
    requires d > 0 && offset <= size
    ensures Split(offset, q, r) == Granted(Split(offset, (size - offset) / d, (size - offset) % d), grants)
  {
    q, r := (size - offset) / d, (size - offset) % d;
    ghost var even := Split(offset, q, r);
    var i := 0;
    while i < |grants|
      invariant 0 <= i <= |grants|
      invariant Granted(Split(offset, q, r), grants[i..]) == Granted(even, grants)
    {
      assert grants[i..][0] == grants[i] && grants[i..][1..] == grants[i + 1..];
      if grants[i] < q {
        q, r := grants[i], 0;
      }
      i := i + 1;
    }
    assert grants[i..] == [];
  }

  method SumSizes(sizes: seq<nat>) returns (total: nat)
    ensures total == Total(sizes)
  {
    total := 0;
    var i := 0;
    while i < |sizes|
      invariant 0 <= i <= |sizes| && total + Total(sizes[i..]) == Total(sizes)
    {
      assert sizes[i..][0] == sizes[i] && sizes[i..][1..] == sizes[i + 1..];
      total := total + sizes[i];
      i := i + 1;
    }
  }

  /** One split setup of the writer: the split, the sizes of its extents and the bytes of its data extents. */
  method WriterSplitSetup(size: nat, offset: nat, grants: seq<nat>, chunk: nat, d: nat)
    returns (s: Split, sizes: seq<nat>, bytes: nat)
    requires d > 0 && chunk > 0 && offset <= size && d <= |grants|
    ensures s == SplitAt(size, offset, grants, chunk, d)
    ensures s.offset == offset && Largest(s, size, grants, chunk, d)
    ensures sizes == SizesFrom(s.q, s.r, d, 0, |grants|)
    ensures bytes == Bytes(s, d)
  {
    hide Granted, Largest;
    SplitIsLargest(size, offset, grants, chunk, d);
    var q, r := ShareGrants(size, offset, grants, d);
    if q > chunk && size != offset + q * d + r {
      q := q - q % chunk;
    }
    s := Split(offset, q, r);
    SplitFacts(size, offset, grants, chunk, d);
    var filled := SetExtentSizes(q, r, d, seq(|grants|, k => k));
    sizes := filled[..];
    bytes := SumSizes(sizes[..d]);
    assert sizes[..d] == SizesFrom(q, r, d, 0, d);
    DataSizes(q, r, d, 0);
  }

  /** The sizes of the extents at these indexes of a split. */
  method SetExtentSizes(q: nat, r: nat, d: nat, indexes: seq<nat>) returns (sizes: array<nat>)
    ensures fresh(sizes) && sizes.Length == |indexes|
    ensures forall i :: 0 <= i < |indexes| ==> sizes[i] == ExtentSize(q, r, d, indexes[i])
  {
    sizes := new nat[|indexes|];
    var i := 0;
    while i < |indexes|
      invariant 0 <= i <= |indexes|
      invariant forall k :: 0 <= k < i ==> sizes[k] == ExtentSize(q, r, d, indexes[k])
    {
      sizes[i] := q;
      if r > 0 && (indexes[i] < r || indexes[i] >= d) {
        sizes[i] := sizes[i] + 1;
      }
      i := i + 1;
    }
  }

  // ---------------------------------------------------------------- reader

  function SizesAt(q: nat, r: nat, d: nat, indexes: seq<nat>): (z: seq<nat>)
    ensures |z| == |indexes|
  {
    seq(|indexes|, k requires 0 <= k < |indexes| => ExtentSize(q, r, d, indexes[k]))
  }

  /** How many of the indexes are data extents that did not get a byte of the remainder. */
  function Short(r: nat, d: nat, indexes: seq<nat>): set<nat> {
    set i | i in indexes && r <= i < d
  }

  lemma {:induction false} ShortStep(r: nat, d: nat, indexes: seq<nat>)
    requires NoDup(indexes) && indexes != []
    ensures |Short(r, d, indexes)| == |Short(r, d, indexes[1..])| + if r <= indexes[0] < d then 1 else 0
  {
    var i, rest := indexes[0], indexes[1..];
    assert Short(r, d, indexes) == if r <= i < d then {i} + Short(r, d, rest) else Short(r, d, rest);
    assert i !in Short(r, d, rest);
  }

  lemma {:induction false} NoSizes(q: nat, r: nat, d: nat)
    ensures Total(SizesAt(q, r, d, [])) == 0
  {
  }

  lemma {:induction false} SizesStep(q: nat, r: nat, d: nat, indexes: seq<nat>)
    requires indexes != []
    ensures Total(SizesAt(q, r, d, indexes)) == ExtentSize(q, r, d, indexes[0]) + Total(SizesAt(q, r, d, indexes[1..]))
  {
    assert SizesAt(q, r, d, indexes)[1..] == SizesAt(q, r, d, indexes[1..]);
  }

  lemma {:induction false} SizesSum(q: nat, r: nat, d: nat, indexes: seq<nat>)
    requires NoDup(indexes) && r > 0
    ensures Total(SizesAt(q, r, d, indexes)) + |Short(r, d, indexes)| == (q + 1) * |indexes|
    decreases |indexes|
  {
    hide Total, SizesAt;
    if indexes == [] {
      NoSizes(q, r, d);
      assert Short(r, d, indexes) == {};
    } else {
      SizesSum(q, r, d, indexes[1..]);
      SizesStep(q, r, d, indexes);
      ShortStep(r, d, indexes);
      assert (q + 1) * |indexes| == (q + 1) * |indexes[1..]| + (q + 1);
    }
  }

  lemma {:induction false} EvenSum(q: nat, d: nat, indexes: seq<nat>)
    ensures Total(SizesAt(q, 0, d, indexes)) == q * |indexes|
    decreases |indexes|
  {
    if indexes != [] {
      EvenSum(q, d, indexes[1..]);
      assert SizesAt(q, 0, d, indexes)[1..] == SizesAt(q, 0, d, indexes[1..]);
      assert q * |indexes| == q * |indexes[1..]| + q;
    }
  }

  lemma {:induction false} RangeSize(s: set<nat>, lo: nat, hi: nat)
    requires lo <= hi && forall i :: i in s ==> lo <= i < hi
    ensures |s| <= hi - lo
    decreases hi - lo
  {
    if lo < hi {
      RangeSize(s - {lo}, lo + 1, hi);
    } else {
      assert s == {};
    }
  }

  /** The split size that the reader computes from the extents it was given. */
  function ReaderSplitSize(sizes: seq<nat>, remaining: nat): nat {
    Min(Total(sizes), remaining)
  }

  /** What a split of the writer always is: see SplitFacts. */
  predicate Placed(s: Split, size: nat, d: nat) {
    && s.r < d && s.offset + Bytes(s, d) <= size
    && (s.r > 0 ==> s.offset + Bytes(s, d) == size)
  }

  /**
   Any `d` extents of a split give the reader the split of the writer: they are never too short, and the clamp removes
   any surplus.
   */
  lemma {:induction false} AnyDataCount(s: Split, size: nat, d: nat, indexes: seq<nat>)
    requires Placed(s, size, d) && |indexes| == d && NoDup(indexes)
    ensures Total(SizesAt(s.q, s.r, d, indexes)) >= Bytes(s, d)
    ensures ReaderSplitSize(SizesAt(s.q, s.r, d, indexes), size - s.offset) == Bytes(s, d)
  {
    hide SizesAt, Total;
    if s.r == 0 {
      EvenSum(s.q, d, indexes);
    } else {
      SizesSum(s.q, s.r, d, indexes);
      RangeSize(Short(s.r, d, indexes), s.r, d);
      assert (s.q + 1) * d == s.q * d + d;
    }
  }

  // ---------------------------------------------------------------- space requested and space granted

  /** Bytes that every medium needs for the largest extent of `remaining` bytes. */
  function Need(remaining: nat, d: nat): nat
    requires d > 0
  {
    (remaining + d - 1) / d
  }

  /** Space asked on each medium for one target, with the overhead of the file system when its block size is known. */
  function TargetRequest(remaining: nat, d: nat, block: nat): nat
    requires d > 0
  {
    if block > 0 then (Need(remaining, d) + (block - 1)) / block * block + 3 * block else Need(remaining, d)
  }

  /** Space asked on each medium for the rest of the current target and for all the next ones. */
  function Request(remains: seq<nat>, d: nat, block: nat): nat
    requires d > 0
  {
    if remains == [] then 0 else TargetRequest(remains[0], d, block) + Request(remains[1..], d, block)
  }

  method RemainToWritePerMedium(remains: seq<nat>, d: nat, block: nat) returns (request: nat)
    requires d > 0
    ensures request == Request(remains, d, block)
  {
    request := 0;
    var i := 0;
    while i < |remains|
      invariant 0 <= i <= |remains| && request + Request(remains[i..], d, block) == Request(remains, d, block)
    {
      assert remains[i..][0] == remains[i] && remains[i..][1..] == remains[i + 1..];
      if block > 0 {
        var perExtent := (remains[i] + d - 1) / d;
        var blocks := (perExtent + (block - 1)) / block;
        request := request + (blocks * block + 3 * block);
      } else {
        request := request + (remains[i] + d - 1) / d;
      }
      i := i + 1;
    }
  }

  lemma {:induction false} NeedIsLargestExtent(remaining: nat, d: nat)
    requires d > 0
    ensures Need(remaining, d) == remaining / d + (if remaining % d > 0 then 1 else 0)
  {
    var q, r := remaining / d, remaining % d;
    assert remaining == q * d + r;
    if r > 0 {
      assert remaining + d - 1 == (q + 1) * d + (r - 1);
      DivModUnique(remaining + d - 1, d, q + 1, r - 1);
    } else {
      DivModUnique(remaining + d - 1, d, q, d - 1);
    }
  }

  /** The request for a target is three blocks more than the least whole blocks that cover its need. */
  lemma {:induction false} RequestBounds(remains: seq<nat>, d: nat, block: nat)
    requires d > 0 && remains != []
    ensures Request(remains, d, block) >= Need(remains[0], d) + Request(remains[1..], d, block)
    ensures block > 0 ==>
      var need, data := Need(remains[0], d), TargetRequest(remains[0], d, block) - 3 * block;
      data % block == 0 && need <= data < need + block
    ensures block == 0 ==> TargetRequest(remains[0], d, block) == Need(remains[0], d)
  {
    if block > 0 {
      var need := Need(remains[0], d);
      var up := need + (block - 1);
      assert up == up / block * block + up % block;
      DivModUnique(up / block * block, block, up / block, 0);
    }
  }

  /** What all these targets need on each medium. */
  function NeedOfAll(remains: seq<nat>, d: nat): nat
    requires d > 0
  {
    if remains == [] then 0 else Need(remains[0], d) + NeedOfAll(remains[1..], d)
  }

  /** Over all targets the request exceeds the need by three blocks or more, and less than four, for each target. */
  lemma {:induction false} RequestOfAll(remains: seq<nat>, d: nat, block: nat)
    requires d > 0
    ensures NeedOfAll(remains, d) + 3 * block * |remains| <= Request(remains, d, block)
    ensures Request(remains, d, block) <= NeedOfAll(remains, d) + 4 * block * |remains|
    ensures remains != [] && block > 0 ==> Request(remains, d, block) < NeedOfAll(remains, d) + 4 * block * |remains|
  {
    hide Need, TargetRequest;
    if remains != [] {
      RequestOfAll(remains[1..], d, block);
      RequestBounds(remains, d, block);
      assert 4 * block * |remains| == 4 * block * |remains[1..]| + 4 * block;
      assert 3 * block * |remains| == 3 * block * |remains[1..]| + 3 * block;
    }
  }

  /** When every medium grants what was asked, one split ends the target and no extent exceeds its grant. */
  lemma {:induction false} FullGrantOneSplit(size: nat, offset: nat, others: seq<nat>, block: nat, grants: seq<nat>,
                                             chunk: nat, d: nat)
    requires d > 0 && chunk > 0 && offset <= size
    requires forall i :: 0 <= i < |grants| ==> grants[i] >= Request([size - offset] + others, d, block)
    ensures var s := SplitAt(size, offset, grants, chunk, d);
      && s.offset + Bytes(s, d) == size
      && forall i :: 0 <= i < |grants| ==> ExtentSize(s.q, s.r, d, i) <= grants[i]
  {
    hide Request, TargetRequest, Need, Granted;
    var remaining := size - offset;
    RequestBounds([remaining] + others, d, block);
    NeedIsLargestExtent(remaining, d);
    var even := Split(offset, remaining / d, remaining % d);
    assert even.q * d + even.r == remaining;
    assert Granted(even, grants) == even;
  }

  /**
   The writer compares each grant with the even share only: an extent outgrows its grant, by one byte, if and
   only if no grant is below the share, the share leaves a remainder, and the grant of an extent that gets one
   more byte is exactly the share.
   */
  lemma {:induction false} OutgrowsGrantIff(size: nat, offset: nat, grants: seq<nat>, chunk: nat, d: nat, i: nat)
    requires d > 0 && chunk > 0 && offset <= size && i < |grants|
    ensures var s, share, left := SplitAt(size, offset, grants, chunk, d), (size - offset) / d, (size - offset) % d;
      && ExtentSize(s.q, s.r, d, i) <= grants[i] + 1
      && (ExtentSize(s.q, s.r, d, i) > grants[i] <==>
            && (forall k :: 0 <= k < |grants| ==> share <= grants[k])
            && left > 0 && (i < left || d <= i) && grants[i] == share)
  {
    var remaining := size - offset;
    var even := Split(offset, remaining / d, remaining % d);
    assert even.q * d + even.r == remaining;
    var t := Granted(even, grants);
    assert t.q <= grants[i];
  }

  /** Three bytes over two data extents and a parity, with one byte granted everywhere. */
  lemma {:induction false} OutgrowsGrantExample()
    ensures var s := SplitAt(3, 0, [1, 1, 1], 4096, 2);
      ExtentSize(s.q, s.r, 2, 0) == 2
  {
    OutgrowsGrantIff(3, 0, [1, 1, 1], 4096, 2, 0);
  }
}
