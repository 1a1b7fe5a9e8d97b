/**
 The transfer buffer between the reader and the writer of an object. It is filled and
 emptied in stripes of both sides, whose sizes may change with every split.
 */
module StripeBuffer {
  import opened Arithmetic

  // ---------------------------------------------------------------- divisors

  predicate Divides(d: nat, n: nat) {
    d > 0 && n % d == 0
  }

  lemma {:induction false} DividesTimes(d: nat, k: int, n: nat)
    requires d > 0 && n == k * d
    ensures Divides(d, n)
  {
    DivModUnique(n, d, k, 0);
  }

  lemma {:induction false} Quotient(d: nat, n: nat)
    requires Divides(d, n)
    ensures n == n / d * d
  {
  }

  lemma {:induction false} DividesCombination(d: nat, a: nat, b: nat, s: int, t: int, n: nat)
    requires Divides(d, a) && Divides(d, b) && n == s * a + t * b
    ensures Divides(d, n)
  {
    Quotient(d, a);
    Quotient(d, b);
    var x, y := a / d, b / d;
    assert n == s * (x * d) + t * (y * d) == (s * x + t * y) * d;
    DividesTimes(d, s * x + t * y, n);
  }

  lemma {:induction false} DividesTransitive(d: nat, e: nat, n: nat)
    requires Divides(d, e) && Divides(e, n)
    ensures Divides(d, n)
  {
    Quotient(e, n);
    DividesCombination(d, e, e, n / e, 0, n);
  }

  lemma {:induction false} DividesBoth(a: nat, b: nat)
    requires Divides(a, b) && Divides(b, a)
    ensures a == b
  {
    Quotient(a, b);
    Quotient(b, a);
    MulAtLeast(b / a, a);
    MulAtLeast(a / b, b);
  }

  /** A step of Euclid's loop keeps the common divisors. */
  lemma {:induction false} EuclidStep(a: nat, b: nat, d: nat)
    requires b > 0
    ensures Divides(d, a) && Divides(d, b) <==> Divides(d, b) && Divides(d, a % b)
  {
    var q, r := a / b, a % b;
    assert a == q * b + r;
    if Divides(d, a) && Divides(d, b) {
      DividesCombination(d, a, b, 1, -q, r);
    }
    if Divides(d, b) && Divides(d, r) {
      DividesCombination(d, b, r, q, 1, a);
    }
  }

  ghost predicate IsGcd(g: nat, a: nat, b: nat) {
    Divides(g, a) && Divides(g, b) && forall d: nat :: Divides(d, a) && Divides(d, b) ==> Divides(d, g)
  }

  lemma {:induction false} CombineRest(x: nat, y: nat, a: nat, b: nat, s: int, t: int, u: int, v: int)
    requires y > 0 && IsCombination(x, a, b, s, t) && IsCombination(y, a, b, u, v)
    ensures IsCombination(x % y, a, b, s - x / y * u, t - x / y * v)
  {
    var q := x / y;
    assert q * y == q * (u * a) + q * (v * b);
    assert q * (u * a) == (q * u) * a && q * (v * b) == (q * v) * b;
    assert x % y == x - q * y;
  }

  ghost predicate SameDivisors(x: nat, y: nat, a: nat, b: nat) {
    forall d: nat :: Divides(d, x) && Divides(d, y) <==> Divides(d, a) && Divides(d, b)
  }

  lemma {:induction false} EuclidKeepsDivisors(x: nat, y: nat, a: nat, b: nat)
    requires y > 0 && SameDivisors(x, y, a, b)
    ensures SameDivisors(y, x % y, a, b)
  {
    hide Divides;
    forall d: nat
      ensures Divides(d, y) && Divides(d, x % y) <==> Divides(d, a) && Divides(d, b)
    {
      EuclidStep(x, y, d);
    }
  }

  lemma {:induction false} EuclidEnds(x: nat, a: nat, b: nat)
    requires x > 0 && SameDivisors(x, 0, a, b)
    ensures IsGcd(x, a, b)
  {
    assert Divides(x, x) && Divides(x, 0);
    forall d: nat | Divides(d, a) && Divides(d, b)
      ensures Divides(d, x)
    {
    }
  }

  ghost predicate IsCombination(x: int, a: nat, b: nat, s: int, t: int) {
    x == s * a + t * b
  }

  /** Greatest common divisor, which is moreover a combination of the two numbers. */
  method Gcd(a: nat, b: nat) returns (g: nat, ghost s: int, ghost t: int)
    requires a > 0 || b > 0
    ensures IsGcd(g, a, b) && IsCombination(g, a, b, s, t)
  {
    hide SameDivisors, IsCombination, IsGcd;
    var x: nat, y: nat := a, b;
    s, t := 1, 0;
    ghost var u: int, v: int := 0, 1;
    EuclidStarts(a, b);
    while y != 0
      invariant x > 0 || y > 0
      invariant SameDivisors(x, y, a, b)
      invariant IsCombination(x, a, b, s, t) && IsCombination(y, a, b, u, v)
      decreases y
    {
      var tmp := x % y;
      EuclidKeepsDivisors(x, y, a, b);
      CombineRest(x, y, a, b, s, t, u, v);
      s, t, u, v := u, v, s - x / y * u, t - x / y * v;
      x, y := y, tmp;
    }
    EuclidEnds(x, a, b);
    g := x;
  }

  lemma {:induction false} EuclidStarts(a: nat, b: nat)
    ensures SameDivisors(a, b, a, b) && IsCombination(a, a, b, 1, 0) && IsCombination(b, a, b, 0, 1)
  {
  }

  ghost predicate IsLcm(m: nat, a: nat, b: nat) {
    m > 0 && Divides(a, m) && Divides(b, m) && forall n: nat :: Divides(a, n) && Divides(b, n) ==> Divides(m, n)
  }

  lemma {:induction false} LcmMultiple(a: nat, b: nat, g: nat)
    requires a > 0 && b > 0 && Divides(g, a) && Divides(g, b)
    ensures a / g * b > 0 && Divides(a, a / g * b) && Divides(b, a / g * b)
    ensures a / g * b == b / g * a
  {
    Quotient(g, a);
    Quotient(g, b);
    var x, y := a / g, b / g;
    assert x * b == x * (y * g) == y * (x * g) == y * a;
    DividesTimes(b, x, x * b);
    DividesTimes(a, y, x * b);
    assert x > 0;
    MulAtLeast(x, b);
  }

  /** Any common multiple is a multiple of a / g * b, for `g` a combination of the two numbers. */
  lemma {:induction false} LcmLeast(a: nat, b: nat, g: nat, s: int, t: int, n: nat)
    requires a > 0 && b > 0 && Divides(g, a) && Divides(g, b) && g == s * a + t * b
    requires Divides(a, n) && Divides(b, n)
    ensures Divides(a / g * b, n)
  {
    LcmMultiple(a, b, g);
    Quotient(g, a);
    Quotient(g, b);
    Quotient(a, n);
    Quotient(b, n);
    var x, y, u, v := a / g, b / g, n / a, n / b;
    var m := x * b;
    CombineMultiple(x, y, g, s, t, n, u, v);
    DividesTimes(m, s * v + t * u, n);
  }

  lemma {:induction false} CombineMultiple(x: nat, y: nat, g: nat, s: int, t: int, n: nat, u: nat, v: nat)
    requires g > 0 && g == s * (x * g) + t * (y * g)
    requires n == u * (x * g) && n == v * (y * g)
    ensures n == (s * v + t * u) * (x * (y * g))
  {
    assert g == (s * x + t * y) * g;
    assert s * x + t * y == 1;
    assert n == (s * x + t * y) * n == s * x * n + t * y * n;
    assert s * x * n == s * x * (v * (y * g)) == s * v * (x * (y * g));
    assert t * y * n == t * y * (u * (x * g)) == t * u * (x * (y * g));
  }

  /** Least common multiple. */
  method Lcm(a: nat, b: nat) returns (m: nat)
    requires a > 0 && b > 0
    ensures IsLcm(m, a, b)
  {
    var g, s, t := Gcd(a, b);
    LcmMultiple(a, b, g);
    m := a / g * b;
    forall n: nat | Divides(a, n) && Divides(b, n)
      ensures Divides(m, n)
    {
      LcmLeast(a, b, g, s, t, n);
    }
  }

  // ---------------------------------------------------------------- buffer

  /** `n` bytes are whole stripes of each of these sizes. */
  ghost predicate HoldsWhole(n: nat, stripes: seq<nat>) {
    forall k :: 0 <= k < |stripes| ==> Divides(stripes[k], n)
  }

  /** The least multiple of these stripes. */
  ghost predicate IsLeast(n: nat, stripes: seq<nat>) {
    n > 0 && HoldsWhole(n, stripes) && forall m: nat :: HoldsWhole(m, stripes) ==> Divides(n, m)
  }

  lemma {:induction false} LeastOfTwo(m: nat, a: nat, b: nat)
    requires IsLcm(m, a, b)
    ensures IsLeast(m, [a, b])
  {
    hide Divides;
    forall n: nat | HoldsWhole(n, [a, b])
      ensures Divides(m, n)
    {
      assert Divides([a, b][0], n) && Divides([a, b][1], n);
    }
  }

  lemma {:induction false} LeastOfMore(n: nat, stripes: seq<nat>, stripe: nat, m: nat)
    requires IsLeast(n, stripes) && IsLcm(m, n, stripe)
    ensures IsLeast(m, stripes + [stripe]) && Divides(n, m)
  {
    hide Divides;
    var more := stripes + [stripe];
    forall k | 0 <= k < |more|
      ensures Divides(more[k], m)
    {
      if k < |stripes| {
        DividesTransitive(stripes[k], n, m);
      }
    }
    forall c: nat | HoldsWhole(c, more)
      ensures Divides(m, c)
    {
      assert Divides(more[|stripes|], c);
      forall k | 0 <= k < |stripes|
        ensures Divides(stripes[k], c)
      {
        assert more[k] == stripes[k];
      }
    }
  }

  lemma {:induction false} LeastKept(n: nat, stripe: nat)
    requires n > 0 && Divides(stripe, n)
    ensures IsLcm(n, n, stripe)
  {
  }

  class TransferBuffer {
    const readerStripe: nat
    var writerStripe: nat
    /** 0 until the buffer is allocated. */
    var size: nat
    /** The reader stripe and every writer stripe since the allocation. */
    ghost var stripes: seq<nat>

    ghost predicate Valid()
      reads this
    {
      && readerStripe > 0
      && (size > 0 ==> |stripes| > 1 && stripes[0] == readerStripe && stripes[|stripes| - 1] == writerStripe
                       && IsLeast(size, stripes))
    }

    /** A buffer that is not allocated yet; neither is the writer set up. */
    constructor (readerStripe: nat)
      requires readerStripe > 0
      ensures Valid() && this.readerStripe == readerStripe && size == 0 && writerStripe == 0
    {
      this.readerStripe, writerStripe, size, stripes := readerStripe, 0, 0, [];
    }

    /** The step that allocates the buffer, once both stripes are known. */
    method Allocate()
      requires Valid()
      modifies `size, `stripes
      ensures Valid() && (size > 0 <==> old(size) > 0 || writerStripe > 0)
      ensures old(size) > 0 ==> size == old(size) && stripes == old(stripes)
      ensures old(size) == 0 && size > 0 ==> stripes == [readerStripe, writerStripe]
    {
      hide IsLeast, IsLcm;
      if size == 0 && writerStripe > 0 {
        size := Lcm(readerStripe, writerStripe);
        stripes := [readerStripe, writerStripe];
        LeastOfTwo(size, readerStripe, writerStripe);
        LcmPositive(size, readerStripe, writerStripe);
      }
    }

    /** The end of a split setup, writing in stripes of another size. */
    method SplitSetup(stripe: nat)
      requires Valid() && stripe > 0
      modifies `writerStripe, `size, `stripes
      ensures Valid() && writerStripe == stripe
      ensures size > 0 <==> old(size) > 0
      ensures size > 0 ==> stripes == old(stripes) + [stripe] && Divides(old(size), size)
      ensures size != old(size) <==> old(size) % stripe != 0
    {
      hide IsLeast, IsLcm, Divides;
      writerStripe := stripe;
      if size > 0 {
        var before := size;
        if size % stripe != 0 {
          size := Lcm(size, stripe);
        } else {
          LeastKeptIf(size, stripe);
        }
        LeastOfMore(before, stripes, stripe, size);
        LcmPositive(size, before, stripe);
        stripes := stripes + [stripe];
      }
    }
  }

  lemma {:induction false} LeastKeptIf(n: nat, stripe: nat)
    requires n > 0 && stripe > 0 && n % stripe == 0
    ensures IsLcm(n, n, stripe)
  {
    LeastKept(n, stripe);
  }

  lemma {:induction false} LcmPositive(m: nat, a: nat, b: nat)
    requires IsLcm(m, a, b)
    ensures m > 0 && b > 0 && m % b == 0
  {
  }

  /**
   The buffer over the splits of an object: at every split it is the least size that holds whole stripes of the
   reader and of every split so far.
   */
  method Setups(readerStripe: nat, stripes: seq<nat>) returns (sizes: seq<nat>)
    requires readerStripe > 0 && forall k :: 0 <= k < |stripes| ==> stripes[k] > 0
    ensures |sizes| == |stripes|
    ensures forall k :: 0 <= k < |sizes| ==> IsLeast(sizes[k], [readerStripe] + stripes[..k + 1])
  {
    hide IsLeast;
    var buff := new TransferBuffer(readerStripe);
    sizes := [];
    while |sizes| < |stripes|
      invariant |sizes| <= |stripes| && fresh(buff) && buff.Valid() && buff.readerStripe == readerStripe
      invariant buff.size > 0 <==> |sizes| > 0
      invariant |sizes| > 0 ==> buff.stripes == [readerStripe] + stripes[..|sizes|]
      invariant forall k :: 0 <= k < |sizes| ==> IsLeast(sizes[k], [readerStripe] + stripes[..k + 1])
      decreases |stripes| - |sizes|
    {
      var k := |sizes|;
      buff.SplitSetup(stripes[k]);
      buff.Allocate();
      assert stripes[..k + 1] == stripes[..k] + [stripes[k]];
      sizes := sizes + [buff.size];
    }
  }

  /**
   The buffer need not be the least common multiple of the reader stripe and of the current writer stripe: it is when
   that multiple holds whole stripes of the earlier splits too.
   */
  lemma {:induction false} CurrentStripeIff(n: nat, stripes: seq<nat>, m: nat)
    requires |stripes| > 1 && IsLeast(n, stripes) && IsLcm(m, stripes[0], stripes[|stripes| - 1])
    ensures Divides(m, n)
    ensures n == m <==> HoldsWhole(m, stripes)
  {
    hide Divides;
    if HoldsWhole(m, stripes) {
      DividesBoth(n, m);
    }
  }

  lemma {:induction false} LargerThanCurrent()
    ensures IsLeast(6, [2, 3, 2]) && IsLcm(2, 2, 2)
  {
    assert IsLcm(6, 2, 3);
    LeastOfTwo(6, 2, 3);
    LeastKeptIf(6, 2);
    LeastOfMore(6, [2, 3], 2, 6);
    assert [2, 3] + [2] == [2, 3, 2];
  }
}
