/** The arithmetic of memalign and calloc. */
module Alignment {
  import opened TreeIndex

  const MIN_ALIGNMENT: int := 32

  ghost predicate PowerOfTwo(a: int) {
    exists k: nat :: a == Pow2(k)
  }

  /** alignment & (alignment - 1) is zero. */
  predicate OneBit(a: nat) {
    0 < a && a == Pow2(Fls(a))
  }

  lemma {:induction false} PowerBlocks(k: nat)
    requires 5 <= k
    ensures Pow2(k) % 32 == 0 && Pow2(k) % 16 == 0
  {
    Pow2Sum(5, k - 5);
    assert Pow2(5) == 32;
    Blocks(Pow2(k - 5));
  }

  lemma {:induction false} Blocks(x: int)
    ensures (32 * x) % 32 == 0 && (32 * x) % 16 == 0
  {
  }

  /**
   * The alignment that memalign works with: the least power of two that is neither below
   * the one asked for nor below the smallest chunk size.  Beyond 2^63 there is none, and
   * the doubling loop of the source never ends.
   */
  method Effective(asked: int) returns (a: int, endless: bool)
    requires 0 <= asked < W64
    ensures endless <==> W64 / 2 < asked
    ensures !endless ==> MIN_ALIGNMENT <= a <= W64 / 2 && PowerOfTwo(a) && a % 16 == 0
    ensures !endless ==> asked <= a && (a == MIN_ALIGNMENT || a < 2 * asked)
  {
    a, endless := if asked < MIN_ALIGNMENT then MIN_ALIGNMENT else asked, false;
    if OneBit(a) {
      OneBitBounds(a);
      PowerBlocks(Fls(a));
    } else {
      a, endless := Doubled(a);
    }
  }

  lemma {:induction false} OneBitBounds(a: nat)
    requires 32 <= a < W64 && OneBit(a)
    ensures 5 <= Fls(a) && a <= W64 / 2
  {
    Pow2Of64();
    assert Pow2(5) == 32 && Pow2(64) == 2 * Pow2(63);
    if Fls(a) < 5 {
      Pow2Mono(Fls(a) + 1, 5);
    }
    FlsBounded(a, 64);
    Pow2Mono(Fls(a), 63);
  }

  method Doubled(alignment: int) returns (a: int, endless: bool)
    requires MIN_ALIGNMENT <= alignment < W64
    ensures endless <==> W64 / 2 < alignment
    ensures !endless ==> alignment <= a <= W64 / 2 && PowerOfTwo(a) && a % 16 == 0
    ensures !endless ==> a == MIN_ALIGNMENT || a < 2 * alignment
  {
    a, endless := 32, false;
    ghost var k := 5;
    Pow2Of64();
    assert Pow2(5) == 32 && Pow2(64) == 2 * Pow2(63);
    while a < alignment
      invariant a == Pow2(k) && 5 <= k <= 63 && (a == 32 || a < 2 * alignment)
      decreases 64 - k
    {
      if k < 63 {
        Pow2Mono(k, 62);
      }
      a := (2 * a) % W64;
      if a == 0 {
        endless := true;
        return;
      }
      k := k + 1;
    }
    Pow2Mono(k, 63);
    PowerBlocks(k);
  }

  /** The first multiple of a at or after x. */
  function RoundUp(x: int, a: int): int
    requires 0 <= x && 0 < a
  {
    (x + a - 1) / a * a
  }

  lemma {:induction false} RoundedUp(x: int, a: int)
    requires 0 <= x && 32 <= a && a % 16 == 0 && x % 16 == 0
    ensures var y := RoundUp(x, a);
            x <= y < x + a && y % a == 0 && (y + a) % a == 0 && y % 16 == 0 && (x % a != 0 ==> x < y)
  {
    var k := (x + a - 1) / a;
    var y := k * a;
    DivSpan(x + a - 1, a);
    MulMod(k, a);
    assert y + a == (k + 1) * a;
    MulMod(k + 1, a);
    Sixteens(k, a);
  }

  lemma {:induction false} Sixteens(k: int, a: int)
    requires a % 16 == 0
    ensures (k * a) % 16 == 0
  {
    var b := a / 16;
    assert a == 16 * b;
    assert k * a == 16 * (k * b);
  }

  lemma {:induction false} DivSpan(x: int, a: int)
    requires 0 <= x && 0 < a
    ensures x / a * a <= x < x / a * a + a
  {
  }

  lemma {:induction false} Steps(j: int, k: int, a: int)
    requires j <= k && 0 < a
    ensures j * a <= k * a
  {
  }

  lemma {:induction false} OneLess(k: int, a: int)
    ensures (k - 1) * a == k * a - a
  {
  }

  lemma {:induction false} QuotientOf(z: int, a: int) returns (j: int)
    requires 0 < a && z % a == 0
    ensures z == j * a
  {
    j := z / a;
  }

  /** Rounding up gives the least multiple. */
  lemma {:induction false} RoundUpLeast(y: int, a: int, z: int)
    requires 0 <= y <= z && 0 < a && z % a == 0
    ensures RoundUp(y, a) <= z
  {
    var k := (y + a - 1) / a;
    DivSpan(y + a - 1, a);
    var j := QuotientOf(z, a);
    if j < k {
      Steps(j, k - 1, a);
      OneLess(k, a);
    } else {
      Steps(k, j, a);
    }
  }

  lemma {:induction false} MulMod(k: int, a: int)
    requires 0 <= k && 0 < a
    ensures (k * a) % a == 0
  {
    DivIs(k * a, a, k);
  }

  /**
   * How much of a chunk at p to give back so that the rest's payload is aligned: none, or
   * enough for a chunk of its own.
   */
  function LeadSize(p: int, a: int): (lead: int)
    requires 0 <= p && 32 <= a && a % 16 == 0 && p % 16 == 0
    ensures lead == 0 || 32 <= lead <= a + 16
    ensures lead % 16 == 0 && (p + lead + 16) % a == 0
  {
    RoundedUp(p + 16, a);
    var y := RoundUp(p + 16, a);
    SixteenApart(y, p, a);
    if (p + 16) % a == 0 then 0
    else if y - 16 - p >= 32 then
      assert p + (y - 16 - p) + 16 == y;
      y - 16 - p
    else
      assert p + (y - 16 + a - p) + 16 == y + a;
      y - 16 + a - p
  }

  lemma {:induction false} SixteenApart(y: int, p: int, a: int)
    requires y % 16 == 0 && p % 16 == 0 && a % 16 == 0
    ensures (y - 16 - p) % 16 == 0 && (y - 16 + a - p) % 16 == 0 && (y - 16 - p < 32 ==> y - 16 - p <= 16)
  {
  }

  /** The size calloc asks malloc for: the product, or MAX_SIZE_T if it overflows. */
  function CallocSize(n: int, size: int): int
    requires 0 <= n < W64 && 0 <= size < W64
  {
    if n == 0 then 0
    else
      var req := (n * size) % W64;
      if (0x1_0000 <= n || 0x1_0000 <= size) && req / n != size then W64 - 1 else req
  }

  /** The test by division finds every overflow and nothing else. */
  lemma {:induction false} CallocSizeIs(n: int, size: int)
    requires 0 <= n < W64 && 0 <= size < W64
    ensures CallocSize(n, size) == if n * size < W64 then n * size else W64 - 1
  {
    if n != 0 {
      var req := (n * size) % W64;
      assert 0 <= n * size;
      if n * size < W64 {
        assert req == n * size;
        QuotientIs(n, size);
      } else {
        if n < 0x1_0000 && size < 0x1_0000 {
          ProductBound(n, size, 0x1_0000);
        }
        DivSpan(req, n);
        assert size * n == n * size;
      }
    }
  }

  lemma {:induction false} QuotientIs(n: int, size: int)
    requires 0 < n && 0 <= size
    ensures n * size / n == size
  {
    DivIs(n * size, n, size);
  }

  lemma {:induction false} ProductBound(n: int, size: int, b: int)
    requires 0 <= n < b && 0 <= size < b
    ensures n * size <= b * b
  {
  }
}
