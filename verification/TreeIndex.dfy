/**
 * Which treebin a chunk size belongs to, and the order in which the size's bits steer a
 * walk down that bin's trie.
 */
module TreeIndex {

  const NTREEBINS: nat := 32
  const MIN_LARGE_SIZE: nat := 256
  const W64: nat := 0x1_0000_0000_0000_0000
  const W32: nat := 0x1_0000_0000

  /** From this size on, the 32 bits of X no longer hold the size shifted down. */
  const SPAN: nat := 0x100_0000_0000

  function Pow2(k: nat): (r: nat)
    ensures r >= 1
  {
    if k == 0 then 1 else 2 * Pow2(k - 1)
  }

  /** Index of the greatest set bit, 31 - __builtin_clz(x). */
  function Fls(x: nat): (r: nat)
    requires x > 0
    ensures Pow2(r) <= x < 2 * Pow2(r)
  {
    if x == 1 then 0 else 1 + Fls(x / 2)
  }

  /** compute_tree_index, whose X is an unsigned int */
  function Index(s: nat): nat {
    var x := s / 256 % W32;
    if x == 0 then 0
    else if x > 0xFFFF then NTREEBINS - 1
    else var k := Fls(x); 2 * k + (s / Pow2(k + 7)) % 2
  }

  /** minsize_for_tree_index */
  function MinSize(i: nat): nat {
    Pow2(i / 2 + 8) + (i % 2) * Pow2(i / 2 + 7)
  }

  /** leftshift_for_tree_index */
  function LeftShift(i: nat): nat
    requires i < NTREEBINS
  {
    if i == NTREEBINS - 1 then 0 else 63 - (i / 2 + 6)
  }

  /** The size shifted so that the bit resolved at depth k of bin i is the sign bit. */
  function Key(i: nat, s: nat, k: nat): (r: nat)
    requires i < NTREEBINS
    ensures r < W64
  {
    if k == 0 then (s * Pow2(LeftShift(i))) % W64 else (2 * Key(i, s, k - 1)) % W64
  }

  /** The child taken at depth k, true for child[1]. */
  predicate Bit(i: nat, s: nat, k: nat)
    requires i < NTREEBINS
  {
    Key(i, s, k) >= W64 / 2
  }

  lemma {:induction false} MulAssoc(a: int, b: int, c: int)
    ensures (a * b) * c == a * (b * c)
  {
  }

  lemma {:induction false} MulMinus(a: int, b: int, c: int)
    ensures (a - b) * c == a * c - b * c
  {
  }

  lemma {:induction false} MulSign(a: int, c: int)
    requires c >= 1
    ensures a <= 0 ==> a * c <= 0
    ensures a < 0 ==> a * c <= -c
    ensures a > 0 ==> a * c >= c
  {
  }

  lemma {:induction false} MulLess(a: int, b: int, c: int)
    requires a < b && c >= 1
    ensures a * c < b * c
  {
  }

  lemma {:induction false} Pow2Sum(a: nat, b: nat)
    ensures Pow2(a + b) == Pow2(a) * Pow2(b)
  {
    if a != 0 {
      Pow2Sum(a - 1, b);
      MulAssoc(2, Pow2(a - 1), Pow2(b));
    }
  }

  lemma {:induction false} Pow2Mono(a: nat, b: nat)
    requires a <= b
    ensures Pow2(a) <= Pow2(b)
  {
    if a < b {
      Pow2Mono(a, b - 1);
    }
  }

  lemma {:induction false} Pow2Values()
    ensures Pow2(8) == 0x100 && Pow2(16) == 0x1_0000
  {
    assert Pow2(4) == 16;
    Pow2Sum(4, 4);
    Pow2Sum(8, 8);
  }

  lemma {:induction false} Pow2Of64()
    ensures Pow2(64) == W64
  {
    Pow2Values();
    Pow2Sum(16, 16);
    Pow2Sum(32, 32);
  }

  lemma {:induction false} FlsBounded(x: nat, k: nat)
    requires 0 < x < Pow2(k)
    ensures Fls(x) < k
  {
    if k <= Fls(x) {
      Pow2Mono(k, Fls(x));
    }
  }

  lemma {:induction false} DivIs(s: nat, p: nat, q: nat)
    requires p > 0 && q * p <= s < (q + 1) * p
    ensures s / p == q && s % p == s - q * p
  {
    var d := s / p;
    assert s == d * p + s % p;
    if d < q {
      MulLess(d, q, p);
      MulMinus(q, d, p);
      MulSign(q - d, p);
      assert false;
    } else if d > q {
      MulMinus(d, q + 1, p);
      MulSign(q + 1 - d, p);
      assert false;
    }
  }

  lemma {:induction false} Halves(s: nat, p: nat)
    requires p > 0 && 2 * p <= s < 4 * p
    ensures (s / p) % 2 == if s < 3 * p then 0 else 1
  {
    DivIs(s, p, if s < 3 * p then 2 else 3);
  }

  /** The size range of a bin, as multiples of its width. */
  lemma {:induction false} MinSizeWidth(i: nat)
    ensures MinSize(i) == (2 + i % 2) * Pow2(i / 2 + 7)
    ensures MinSize(i + 1) == MinSize(i) + Pow2(i / 2 + 7)
  {
    var w := Pow2(i / 2 + 7);
    assert Pow2(i / 2 + 8) == 2 * w;
    if i % 2 == 1 {
      assert (i + 1) / 2 == i / 2 + 1;
      assert Pow2(i / 2 + 9) == 2 * Pow2(i / 2 + 8);
    } else {
      assert (i + 1) / 2 == i / 2;
    }
  }

  lemma {:induction false} ScaleBy256(s: nat, q: nat)
    requires q <= s / 256 < 2 * q
    ensures 256 * q <= s < 512 * q
  {
  }

  lemma {:induction false} Pow2Times128(k: nat)
    ensures Pow2(k + 7) == 128 * Pow2(k)
  {
    assert Pow2(k + 2) == 4 * Pow2(k);
    assert Pow2(k + 4) == 4 * Pow2(k + 2);
    assert Pow2(k + 6) == 4 * Pow2(k + 4);
  }

  lemma {:induction false} Uncut(s: nat)
    requires s < SPAN
    ensures s / 256 % W32 == s / 256
  {
  }

  lemma {:induction false} IndexAt(s: nat, k: nat)
    requires s < SPAN && 0 < s / 256 <= 0xFFFF && Fls(s / 256) == k
    ensures var p := Pow2(k + 7);
            2 * p <= s < 4 * p && Index(s) == 2 * k + if s < 3 * p then 0 else 1
  {
    Uncut(s);
    ScaleBy256(s, Pow2(k));
    Pow2Times128(k);
    Halves(s, Pow2(k + 7));
  }

  lemma {:induction false} BracketLow(s: nat)
    requires s < SPAN && 0 < s / 256 <= 0xFFFF
    ensures MinSize(Index(s)) <= s < MinSize(Index(s) + 1)
  {
    var k := Fls(s / 256);
    IndexAt(s, k);
    WidthBracket(s, k, Pow2(k + 7), Index(s));
  }

  lemma {:induction false} WidthBracket(s: nat, k: nat, p: nat, i: nat)
    requires p == Pow2(k + 7) && 2 * p <= s < 4 * p && i == 2 * k + if s < 3 * p then 0 else 1
    ensures MinSize(i) <= s < MinSize(i + 1)
  {
    MinSizeWidth(i);
    assert i / 2 == k && i % 2 == if s < 3 * p then 0 else 1;
  }

  ghost predicate Brackets(s: nat) {
    MinSize(Index(s)) <= s && (Index(s) < NTREEBINS - 1 ==> s < MinSize(Index(s) + 1))
  }

  lemma {:induction false} IndexBelow(s: nat)
    ensures Index(s) < NTREEBINS
  {
    var x := s / 256 % W32;
    if 0 < x <= 0xFFFF {
      Pow2Values();
      FlsBounded(x, 16);
    }
  }

  /** A size lies between the smallest size of its bin and that of the next bin. */
  lemma {:induction false} Bracket(s: nat)
    requires MIN_LARGE_SIZE <= s < SPAN
    ensures Index(s) < NTREEBINS
    ensures Brackets(s)
  {
    var x := s / 256;
    Uncut(s);
    Pow2Values();
    if x <= 0xFFFF {
      FlsBounded(x, 16);
      IndexAt(s, Fls(x));
      BracketLow(s);
    } else {
      Pow2Sum(16, 8);
      assert Pow2(24) == 2 * Pow2(23);
      assert Pow2(23) == 2 * Pow2(22);
      assert MinSize(31) == Pow2(23) + Pow2(22);
    }
  }

  lemma {:induction false} MinSizeMono(i: nat, j: nat)
    requires i <= j
    ensures MinSize(i) <= MinSize(j)
  {
    if i < j {
      MinSizeMono(i, j - 1);
      MinSizeWidth(j - 1);
    }
  }

  /** Larger sizes never go to lower bins. */
  lemma {:induction false} IndexMono(s: nat, t: nat)
    requires MIN_LARGE_SIZE <= s <= t < SPAN
    ensures Index(s) <= Index(t)
  {
    Bracket(s);
    Bracket(t);
    if Index(t) < Index(s) {
      MinSizeMono(Index(t) + 1, Index(s));
    }
  }

  /** The bits above the ones that bin i resolves, which all sizes of the bin share. */
  function Lead(i: nat): nat
    requires i < NTREEBINS
  {
    if i == NTREEBINS - 1 then 0 else MinSize(i)
  }

  /** Cutting s * m to a word drops a multiple of the bin's width. */
  lemma {:induction false} CutKey(s: nat, b: nat, q: nat, w: nat, m: nat)
    requires w * m == W64 && b == q * w && b <= s < b + w && m >= 1
    ensures (s * m) % W64 == (s - b) * m
  {
    MulMinus(s, b, m);
    MulAssoc(q, w, m);
    MulLess(s - b, w, m);
    DivIs(s * m, W64, q);
  }

  lemma {:induction false} FirstKeyLow(i: nat, s: nat)
    requires i < NTREEBINS - 1 && MinSize(i) <= s < MinSize(i + 1)
    ensures Key(i, s, 0) == (s - MinSize(i)) * Pow2(LeftShift(i))
  {
    var w := Pow2(i / 2 + 7);
    Pow2Of64();
    Pow2Sum(i / 2 + 7, LeftShift(i));
    MinSizeWidth(i);
    CutKey(s, MinSize(i), 2 + i % 2, w, Pow2(LeftShift(i)));
  }

  lemma {:induction false} FirstKey(i: nat, s: nat)
    requires MIN_LARGE_SIZE <= s < SPAN && Index(s) == i && i < NTREEBINS
    ensures Key(i, s, 0) == (s - Lead(i)) * Pow2(LeftShift(i))
  {
    Bracket(s);
    FirstKeyIn(i, s);
  }

  lemma {:induction false} FirstKeyIn(i: nat, s: nat)
    requires i < NTREEBINS && MinSize(i) <= s < SPAN && (i < NTREEBINS - 1 ==> s < MinSize(i + 1))
    ensures Key(i, s, 0) == (s - Lead(i)) * Pow2(LeftShift(i))
  {
    if i < NTREEBINS - 1 {
      FirstKeyLow(i, s);
    }
  }

  lemma {:induction false} ShiftKey(i: nat, s: nat, k: nat)
    requires i < NTREEBINS && k > 0
    ensures Key(i, s, k) == 2 * Key(i, s, k - 1) - if Bit(i, s, k - 1) then W64 else 0
  {
  }

  /** While two sizes of one bin agree bit by bit, the distance of their keys doubles. */
  lemma {:induction false} KeyDistance(i: nat, s: nat, t: nat, k: nat)
    requires MIN_LARGE_SIZE <= s < SPAN && MIN_LARGE_SIZE <= t < SPAN
    requires Index(s) == i && Index(t) == i && i < NTREEBINS
    requires forall j: nat :: j < k ==> Bit(i, s, j) == Bit(i, t, j)
    ensures Key(i, t, k) - Key(i, s, k) == (t - s) * Pow2(LeftShift(i) + k)
  {
    if k == 0 {
      FirstKey(i, s);
      FirstKey(i, t);
      MulMinus(t - Lead(i), s - Lead(i), Pow2(LeftShift(i)));
    } else {
      KeyDistance(i, s, t, k - 1);
      assert Bit(i, s, k - 1) == Bit(i, t, k - 1);
      ShiftKey(i, s, k);
      ShiftKey(i, t, k);
      MulAssoc(t - s, Pow2(LeftShift(i) + k - 1), 2);
    }
  }

  /** At the first bit where two sizes of a bin differ, the one with the bit set is larger. */
  lemma {:induction false} BitOrder(i: nat, s: nat, t: nat, k: nat)
    requires MIN_LARGE_SIZE <= s < SPAN && MIN_LARGE_SIZE <= t < SPAN
    requires Index(s) == i && Index(t) == i && i < NTREEBINS
    requires forall j: nat :: j < k ==> Bit(i, s, j) == Bit(i, t, j)
    requires !Bit(i, s, k) && Bit(i, t, k)
    ensures s < t
  {
    KeyDistance(i, s, t, k);
    MulSign(t - s, Pow2(LeftShift(i) + k));
  }

  /** Sixty-four bits tell the sizes of a bin apart. */
  lemma {:induction false} BitsDecide(i: nat, s: nat, t: nat, k: nat)
    requires MIN_LARGE_SIZE <= s < SPAN && MIN_LARGE_SIZE <= t < SPAN
    requires Index(s) == i && Index(t) == i && i < NTREEBINS
    requires 64 <= k
    requires forall j: nat :: j < k ==> Bit(i, s, j) == Bit(i, t, j)
    ensures s == t
  {
    KeyDistance(i, s, t, k);
    Pow2Of64();
    Pow2Mono(64, LeftShift(i) + k);
    MulSign(t - s, Pow2(LeftShift(i) + k));
  }

  // ----- Where the cut to 32 bits is felt -----

  /** The index sees only the low 40 bits of a size. */
  lemma {:induction false} IndexWraps(s: nat)
    ensures Index(s) == Index(s % SPAN)
  {
    var r, q := s % SPAN, s / SPAN;
    CutShift(s, r, q);
    Uncut(r);
    var x := r / 256;
    if 0 < x <= 0xFFFF {
      var k := Fls(x);
      Pow2Values();
      FlsBounded(x, 16);
      SameBit(s, r, q, k + 7);
    }
  }

  lemma {:induction false} CutShift(s: nat, r: nat, q: nat)
    requires s == q * SPAN + r && r < SPAN
    ensures s / 256 % W32 == r / 256
  {
    assert s / 256 == q * W32 + r / 256;
  }

  lemma {:induction false} SameBit(s: nat, r: nat, q: nat, k: nat)
    requires s == q * SPAN + r && k <= 22
    ensures (s / Pow2(k)) % 2 == (r / Pow2(k)) % 2
  {
    var p, h := Pow2(k), Pow2(39 - k);
    Pow2Sum(k, 39 - k);
    Pow2Values();
    Pow2Sum(16, 16);
    Pow2Sum(32, 7);
    assert Pow2(7) == 128;
    assert SPAN == 2 * (p * h);
    HigherBits(s, r, q, p, h);
  }

  lemma {:induction false} HigherBits(s: nat, r: nat, q: nat, p: nat, h: nat)
    requires p > 0 && s == q * (2 * (p * h)) + r
    ensures (s / p) % 2 == (r / p) % 2
  {
    var d, a := r / p, q * h;
    assert r == d * p + r % p;
    EvenMultiple(q, p, h);
    Distribute(2 * a, d, p);
    DivIs(s, p, 2 * a + d);
    EvenPart(a, d);
  }

  lemma {:induction false} EvenMultiple(q: int, p: int, h: int)
    ensures q * (2 * (p * h)) == 2 * (q * h) * p
  {
    MulAssoc(q, h, p);
    MulAssoc(q, p, h);
    MulAssoc(2, q * h, p);
  }

  lemma {:induction false} Distribute(a: int, b: int, p: int)
    ensures (a + b) * p == a * p + b * p && (a + b + 1) * p == a * p + b * p + p
  {
  }

  lemma {:induction false} EvenPart(a: nat, d: nat)
    ensures (2 * a + d) % 2 == d % 2
  {
  }

  /** A size is bracketed by its bin exactly when its low 40 bits are the size, or put it into the last bin. */
  lemma {:induction false} BracketExactlyWhen(s: nat)
    requires MIN_LARGE_SIZE <= s
    ensures Brackets(s) <==> s < SPAN || Index(s % SPAN) == NTREEBINS - 1
  {
    if s < SPAN {
      Bracket(s);
    } else {
      IndexWraps(s);
      IndexBelow(s);
      var i := Index(s);
      Pow2Values();
      Pow2Sum(16, 8);
      assert MinSize(32) == Pow2(24);
      MinSizeMono(i, 32);
      MinSizeMono(if i < 31 then i + 1 else 31, 32);
    }
  }

  /** At 2^40 the code's index is that of the smallest large chunks. */
  lemma {:induction false} BracketFails()
    ensures Index(SPAN) == 0 && MinSize(1) == 384 && !Brackets(SPAN)
  {
    assert SPAN / 256 == W32;
    Pow2Values();
    assert Pow2(8) == 2 * Pow2(7);
  }
}
