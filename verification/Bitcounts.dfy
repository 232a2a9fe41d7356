/**
 * Counting the set bits of a word by adding neighbouring fields of it, two, four and eight
 * bits wide, all at once.  A word is seen as a row of lanes of the same width.
 */
module Bitcounts {
  import opened Words
  import opened TreeIndex

  // ----- Values and addition -----

  function Digit(b: bool): nat {
    if b then 1 else 0
  }

  function Val(x: Word): nat {
    if |x| == 0 then 0 else Digit(x[0]) + 2 * Val(x[1..])
  }

  function BitOf(n: nat, i: nat): bool
    decreases i
  {
    if i == 0 then n % 2 == 1 else BitOf(n / 2, i - 1)
  }

  /** The word of k bits of a number. */
  function Const(n: nat, k: nat): (r: Word)
    ensures |r| == k
  {
    seq(k, i requires 0 <= i < k => BitOf(n, i))
  }

  lemma {:induction false} ConstStep(n: nat, k: nat)
    requires 0 < k
    ensures Const(n, k) == [n % 2 == 1] + Const(n / 2, k - 1)
  {
  }

  function Majority(a: bool, b: bool, c: bool): bool {
    (a && b) || (c && (a || b))
  }

  /** Unsigned addition with a carry in, bit by bit; the carry out of the top bit is dropped. */
  function AddC(x: Word, y: Word, c: bool): (r: Word)
    requires |x| == |y|
    ensures |r| == |x|
  {
    if |x| == 0 then [] else [(x[0] != y[0]) != c] + AddC(x[1..], y[1..], Majority(x[0], y[0], c))
  }

  function Carry(x: Word, y: Word, c: bool): bool
    requires |x| == |y|
  {
    if |x| == 0 then c else Carry(x[1..], y[1..], Majority(x[0], y[0], c))
  }

  function Add(x: Word, y: Word): (r: Word)
    requires |x| == |y|
    ensures |r| == |x|
  {
    AddC(x, y, false)
  }

  /** Addition of words is addition of numbers modulo 2^|x|. */
  lemma {:induction false} AddVal(x: Word, y: Word, c: bool)
    requires |x| == |y|
    ensures Val(AddC(x, y, c)) + (if Carry(x, y, c) then Pow2(|x|) else 0) == Val(x) + Val(y) + Digit(c)
  {
    if |x| > 0 {
      var d := Majority(x[0], y[0], c);
      AddVal(x[1..], y[1..], d);
      assert AddC(x, y, c)[1..] == AddC(x[1..], y[1..], d);
    }
  }

  lemma {:induction false} AddSplit(a: Word, b: Word, x: Word, y: Word, c: bool)
    requires |a| == |x| && |b| == |y|
    ensures AddC(a + b, x + y, c) == AddC(a, x, c) + AddC(b, y, Carry(a, x, c))
  {
    if |a| == 0 {
      assert a + b == b && x + y == y;
    } else {
      assert (a + b)[1..] == a[1..] + b && (x + y)[1..] == x[1..] + y;
      AddSplit(a[1..], b, x[1..], y, Majority(a[0], x[0], c));
    }
  }

  /** Words without a common bit are added by putting their bits together. */
  lemma {:induction false} AddDisjoint(x: Word, y: Word)
    requires |x| == |y| && forall i :: 0 <= i < |x| ==> !(x[i] && y[i])
    ensures Add(x, y) == Or(x, y)
  {
    if |x| > 0 {
      assert forall i :: 0 <= i < |x[1..]| ==> x[1..][i] == x[i + 1] && y[1..][i] == y[i + 1];
      AddDisjoint(x[1..], y[1..]);
      assert Or(x, y) == [x[0] || y[0]] + Or(x[1..], y[1..]);
    }
  }

  lemma {:induction false} ValJoin(a: Word, b: Word)
    ensures Val(a + b) == Val(a) + Pow2(|a|) * Val(b)
  {
    if |a| == 0 {
      assert a + b == b;
    } else {
      assert (a + b)[1..] == a[1..] + b;
      ValJoin(a[1..], b);
      Twice(Pow2(|a| - 1), Val(b));
    }
  }

  lemma {:induction false} Twice(p: int, v: int)
    ensures 2 * p * v == 2 * (p * v)
  {
  }

  lemma {:induction false} ValZero(x: Word)
    requires IsZero(x)
    ensures Val(x) == 0
  {
    if |x| > 0 {
      assert forall i :: 0 <= i < |x[1..]| ==> x[1..][i] == x[i + 1];
      ValZero(x[1..]);
    }
  }

  lemma {:induction false} ValJoinZero(a: Word, b: Word)
    requires IsZero(b)
    ensures Val(a + b) == Val(a)
  {
    ValJoin(a, b);
    ValZero(b);
  }

  // ----- Lanes -----

  /** The values of the lanes of w bits, lowest first. */
  function Lanes(x: Word, w: nat): (p: seq<nat>)
    requires 0 < w
  {
    if |x| < w then [] else [Val(x[..w])] + Lanes(x[w..], w)
  }

  /** The word is made of whole lanes. */
  predicate Whole(x: Word, w: nat)
    requires 0 < w
  {
    |x| == 0 || (|x| >= w && Whole(x[w..], w))
  }

  lemma {:induction false} LanesJoin(a: Word, b: Word, w: nat)
    requires 0 < w && Whole(a, w)
    ensures Lanes(a + b, w) == Lanes(a, w) + Lanes(b, w)
  {
    if |a| == 0 {
      assert a + b == b;
    } else {
      assert (a + b)[..w] == a[..w] && (a + b)[w..] == a[w..] + b;
      LanesJoin(a[w..], b, w);
    }
  }

  /** The lane sums do not spill into the next lane. */
  ghost predicate Fits(p: seq<nat>, q: seq<nat>, bound: nat) {
    |p| == |q| && forall j :: 0 <= j < |p| ==> p[j] + q[j] < bound
  }

  function Plus(p: seq<nat>, q: seq<nat>): (r: seq<nat>)
    requires |p| == |q|
    ensures |r| == |p| && forall j :: 0 <= j < |p| ==> r[j] == p[j] + q[j]
  {
    seq(|p|, j requires 0 <= j < |p| => p[j] + q[j])
  }

  /** The lowest lane is added without a carry into the others. */
  lemma {:induction false} AddStep(x: Word, y: Word, w: nat)
    requires 0 < w <= |x| == |y| && Val(x[..w]) + Val(y[..w]) < Pow2(w)
    ensures Val(Add(x, y)[..w]) == Val(x[..w]) + Val(y[..w]) && Add(x, y)[w..] == Add(x[w..], y[w..])
  {
    assert x == x[..w] + x[w..] && y == y[..w] + y[w..];
    AddSplit(x[..w], x[w..], y[..w], y[w..], false);
    AddVal(x[..w], y[..w], false);
  }

  lemma {:induction false} FirstLane(x: Word, w: nat)
    requires 0 < w <= |x|
    ensures var p := Lanes(x, w); |p| > 0 && p[0] == Val(x[..w]) && p[1..] == Lanes(x[w..], w)
  {
  }

  lemma {:induction false} FitsRest(p: seq<nat>, q: seq<nat>, bound: nat)
    requires Fits(p, q, bound) && |p| > 0
    ensures Fits(p[1..], q[1..], bound) && p[0] + q[0] < bound && Plus(p, q) == [p[0] + q[0]] + Plus(p[1..], q[1..])
  {
    forall j | 0 <= j < |p[1..]| ensures p[1..][j] + q[1..][j] < bound {
      assert p[j + 1] + q[j + 1] < bound;
    }
  }

  /** One addition adds all lanes. */
  lemma {:induction false} AddLanes(x: Word, y: Word, w: nat)
    requires 0 < w && |x| == |y| && Whole(x, w) && Whole(y, w) && Fits(Lanes(x, w), Lanes(y, w), Pow2(w))
    ensures Lanes(Add(x, y), w) == Plus(Lanes(x, w), Lanes(y, w)) && Whole(Add(x, y), w)
  {
    if |x| > 0 {
      FirstLane(x, w);
      FirstLane(y, w);
      FitsRest(Lanes(x, w), Lanes(y, w), Pow2(w));
      AddStep(x, y, w);
      AddLanes(x[w..], y[w..], w);
    }
  }

  // ----- Shifts and masks -----

  lemma {:induction false} ShrIs(x: Word, k: nat)
    requires k <= |x|
    ensures Shr(x, k) == x[k..] + Zero(k)
  {
  }

  function Repeat(n: nat): seq<nat> {
    seq(n, _ => 0)
  }

  /** Shifting by one lane. */
  lemma {:induction false} ShiftLane(x: Word, w: nat)
    requires 0 < w && Whole(x, w) && |x| > 0
    ensures Lanes(Shr(x, w), w) == Lanes(x, w)[1..] + [0] && Whole(Shr(x, w), w)
  {
    ShrIs(x, w);
    LanesJoin(x[w..], Zero(w), w);
    ValZero(Zero(w));
    assert Zero(w)[..w] == Zero(w) && Zero(w)[w..] == [];
    assert Lanes(Zero(w), w) == [0];
    WholeJoin(x[w..], Zero(w), w);
  }

  lemma {:induction false} WholeJoin(a: Word, b: Word, w: nat)
    requires 0 < w && Whole(a, w) && Whole(b, w)
    ensures Whole(a + b, w)
  {
    if |a| == 0 {
      assert a + b == b;
    } else {
      assert (a + b)[w..] == a[w..] + b;
      WholeJoin(a[w..], b, w);
    }
  }

  lemma {:induction false} ShrTwice(x: Word, a: nat, b: nat)
    requires a + b <= |x|
    ensures Shr(Shr(x, a), b) == Shr(x, a + b)
  {
  }

  predicate Ones(x: Word) {
    forall i :: 0 <= i < |x| ==> x[i]
  }

  /** The mask keeps the lower half of each lane of 2 * s bits. */
  predicate Striped(m: Word, s: nat)
    requires 0 < s
  {
    |m| == 0 || (|m| >= 2 * s && Ones(m[..s]) && IsZero(m[s..2 * s]) && Striped(m[2 * s..], s))
  }

  /** The mask keeps the upper half. */
  predicate Striped'(m: Word, s: nat)
    requires 0 < s
  {
    |m| == 0 || (|m| >= 2 * s && IsZero(m[..s]) && Ones(m[s..2 * s]) && Striped'(m[2 * s..], s))
  }

  function Evens(p: seq<nat>): seq<nat> {
    if |p| < 2 then [] else [p[0]] + Evens(p[2..])
  }

  function Odds(p: seq<nat>): seq<nat> {
    if |p| < 2 then [] else [p[1]] + Odds(p[2..])
  }

  function Pairs(p: seq<nat>): seq<nat> {
    if |p| < 2 then [] else [p[0] + p[1]] + Pairs(p[2..])
  }

  lemma {:induction false} TwoLanes(x: Word, s: nat)
    requires 0 < s && |x| >= 2 * s
    ensures var p := Lanes(x, s);
            |p| >= 2 && p[0] == Val(x[..s]) && p[1] == Val(x[s..2 * s]) && p[2..] == Lanes(x[2 * s..], s)
  {
    assert x[s..][..s] == x[s..2 * s] && x[s..][s..] == x[2 * s..];
    assert Lanes(x, s) == [Val(x[..s])] + ([Val(x[s..][..s])] + Lanes(x[s..][s..], s));
  }

  lemma {:induction false} LowStep(x: Word, m: Word, s: nat)
    requires 0 < s && |x| == |m| >= 2 * s && Striped(m, s)
    ensures var y, d := And(x, m), 2 * s; y[..d] == x[..s] + Zero(s) && y[d..] == And(x[d..], m[d..])
  {
    var y, d := And(x, m), 2 * s;
    assert Ones(m[..s]) && IsZero(m[s..d]);
    forall i | 0 <= i < d ensures y[i] == (x[..s] + Zero(s))[i] {
      if i < s {
        assert m[..s][i] == m[i];
      } else {
        assert m[s..d][i - s] == m[i];
      }
    }
  }

  /** Masking the lower halves of the wide lanes. */
  lemma {:induction false} LowHalves(x: Word, m: Word, s: nat)
    requires 0 < s && |x| == |m| && Striped(m, s)
    ensures Lanes(And(x, m), 2 * s) == Evens(Lanes(x, s)) && Whole(And(x, m), 2 * s)
  {
    if |x| > 0 {
      var d := 2 * s;
      TwoLanes(x, s);
      LowHalves(x[d..], m[d..], s);
      LowStep(x, m, s);
      ValJoinZero(x[..s], Zero(s));
    } else {
      assert Lanes(x, s) == [];
    }
  }

  /** Masking the upper halves and shifting them down. */
  lemma {:induction false} HighHalves(x: Word, m: Word, s: nat)
    requires 0 < s && |x| == |m| && Striped'(m, s)
    ensures Lanes(Shr(And(x, m), s), 2 * s) == Odds(Lanes(x, s)) && Whole(Shr(And(x, m), s), 2 * s)
  {
    if |x| > 0 {
      var d := 2 * s;
      TwoLanes(x, s);
      HighHalves(x[d..], m[d..], s);
      HighStep(x, m, s);
      ValJoinZero(x[s..d], Zero(s));
    } else {
      assert Lanes(x, s) == [];
    }
  }

  lemma {:induction false} HighStep(x: Word, m: Word, s: nat)
    requires 0 < s && |x| == |m| >= 2 * s && Striped'(m, s)
    ensures var y, d := Shr(And(x, m), s), 2 * s;
            y[..d] == x[s..d] + Zero(s) && y[d..] == Shr(And(x[d..], m[d..]), s)
  {
    var y, d := Shr(And(x, m), s), 2 * s;
    var n := m[d..];
    assert IsZero(m[..s]) && Ones(m[s..d]);
    assert |n| > 0 ==> IsZero(n[..s]);
    forall i | 0 <= i < d ensures y[i] == (x[s..d] + Zero(s))[i] {
      if i < s {
        assert m[s..d][i] == m[s + i];
      } else if i + s < |x| {
        assert n[..s][i - s] == m[i + s];
      }
    }
    forall i | 0 <= i < |x| - d ensures y[d..][i] == Shr(And(x[d..], n), s)[i] {
    }
  }

  // ----- Sums -----

  function Sum(p: seq<nat>): nat {
    if |p| == 0 then 0 else p[0] + Sum(p[1..])
  }

  ghost predicate Below(p: seq<nat>, k: nat) {
    forall j :: 0 <= j < |p| ==> p[j] <= k
  }

  /** Pairing keeps the sum, */
  lemma {:induction false} PairsSum(p: seq<nat>)
    requires |p| % 2 == 0
    ensures Sum(Pairs(p)) == Sum(p) && |Pairs(p)| == |p| / 2
  {
    if |p| >= 2 {
      PairsSum(p[2..]);
      assert Sum(p) == p[0] + Sum(p[1..]) && p[1..][1..] == p[2..];
      assert Pairs(p)[1..] == Pairs(p[2..]);
    }
  }

  /** adds every other lane to its neighbour, */
  lemma {:induction false} PairsPlus(p: seq<nat>)
    ensures |Evens(p)| == |Odds(p)| && Pairs(p) == Plus(Evens(p), Odds(p))
  {
    if |p| >= 2 {
      PairsPlus(p[2..]);
    }
  }

  /** and at most doubles the lanes. */
  lemma {:induction false} PairsBelow(p: seq<nat>, k: nat)
    requires Below(p, k)
    ensures Below(Pairs(p), 2 * k) && Below(Evens(p), k) && Below(Odds(p), k)
  {
    if |p| >= 2 {
      assert Below(p[2..], k);
      PairsBelow(p[2..], k);
    }
  }

  function Count(w: Word): (n: nat)
    ensures n <= |w|
  {
    if |w| == 0 then 0 else Count(w[..|w| - 1]) + Digit(w[|w| - 1])
  }

  lemma {:induction false} CountFirst(w: Word)
    requires |w| > 0
    ensures Count(w) == Digit(w[0]) + Count(w[1..])
  {
    var n := |w| - 1;
    if n > 0 {
      CountFirst(w[..n]);
      assert w[..n][1..] == w[1..][..n - 1];
      assert w[1..][n - 1] == w[n];
    }
  }

  /** To begin with, every bit is a lane that holds itself. */
  lemma {:induction false} BitLanes(x: Word)
    ensures Sum(Lanes(x, 1)) == Count(x) && Below(Lanes(x, 1), 1) && |Lanes(x, 1)| == |x| && Whole(x, 1)
  {
    if |x| > 0 {
      BitLanes(x[1..]);
      CountFirst(x);
      assert |x[..1][1..]| == 0;
      assert Val(x[..1]) == Digit(x[0]) + 2 * Val(x[..1][1..]);
      assert Lanes(x, 1)[1..] == Lanes(x[1..], 1);
    }
  }

  // ----- The constants -----

  /** The number whose n digits to the base p are all b. */
  function Copies(b: nat, p: nat, n: nat): nat {
    if n == 0 then 0 else b + p * Copies(b, p, n - 1)
  }

  function Tiled(m: Word, n: nat): Word {
    if n == 0 then [] else m + Tiled(m, n - 1)
  }

  lemma {:induction false} Halves(lo: nat, q: nat)
    ensures (lo + 2 * q) % 2 == lo % 2 && (lo + 2 * q) / 2 == lo / 2 + q
  {
  }

  lemma {:induction false} ConstJoin(lo: nat, hi: nat, k: nat, m: nat, n: nat, t: nat)
    requires lo < Pow2(k) && n == lo + Pow2(k) * hi && t == k + m
    ensures Const(n, t) == Const(lo, k) + Const(hi, m)
    decreases k
  {
    if k == 0 {
      assert Const(lo, k) == [];
    } else {
      var q := Pow2(k - 1) * hi;
      Twice(Pow2(k - 1), hi);
      Halves(lo, q);
      ConstJoin(lo / 2, hi, k - 1, m, lo / 2 + q, t - 1);
      ConstStep(n, t);
      ConstStep(lo, k);
    }
  }

  lemma {:induction false} ConstCopies(b: nat, w: nat, n: nat, k: nat)
    requires b < Pow2(w) && k == w * n
    ensures Const(Copies(b, Pow2(w), n), k) == Tiled(Const(b, w), n)
    decreases n
  {
    if n > 0 {
      OneLess(w, n);
      ConstJoin(b, Copies(b, Pow2(w), n - 1), w, k - w, Copies(b, Pow2(w), n), k);
      ConstCopies(b, w, n - 1, k - w);
    }
  }

  lemma {:induction false} OneLess(w: nat, n: nat)
    requires n > 0
    ensures w * n == w + w * (n - 1)
  {
  }

  lemma {:induction false} StripedTiled(m: Word, n: nat, s: nat)
    requires 0 < s && |m| > 0
    ensures Striped(m, s) ==> Striped(Tiled(m, n), s)
    ensures Striped'(m, s) ==> Striped'(Tiled(m, n), s)
  {
    if n > 0 {
      StripedTiled(m, n - 1, s);
      if Striped(m, s) {
        StripedJoin(m, Tiled(m, n - 1), s);
      }
      if Striped'(m, s) {
        Striped'Join(m, Tiled(m, n - 1), s);
      }
    }
  }

  lemma {:induction false} StripedJoin(a: Word, b: Word, s: nat)
    requires 0 < s && Striped(a, s) && Striped(b, s)
    ensures Striped(a + b, s)
  {
    if |a| == 0 {
      assert a + b == b;
    } else {
      var d := 2 * s;
      assert (a + b)[..s] == a[..s] && (a + b)[s..d] == a[s..d] && (a + b)[d..] == a[d..] + b;
      StripedJoin(a[d..], b, s);
    }
  }

  lemma {:induction false} Striped'Join(a: Word, b: Word, s: nat)
    requires 0 < s && Striped'(a, s) && Striped'(b, s)
    ensures Striped'(a + b, s)
  {
    if |a| == 0 {
      assert a + b == b;
    } else {
      var d := 2 * s;
      assert (a + b)[..s] == a[..s] && (a + b)[s..d] == a[s..d] && (a + b)[d..] == a[d..] + b;
      Striped'Join(a[d..], b, s);
    }
  }

  lemma {:induction false} ConstOnes(s: nat)
    ensures Ones(Const(Pow2(s) - 1, s)) && IsZero(Const(0, s))
  {
    if s > 0 {
      ConstOnes(s - 1);
      Halves(1, Pow2(s - 1) - 1);
      ConstStep(Pow2(s) - 1, s);
      ConstStep(0, s);
    }
  }

  /** Masks of s ones and s zeros, and of s zeros and s ones, in a word of k bits. */
  lemma {:induction false} Masks(s: nat, d: nat, n: nat, k: nat, u: nat, v: nat)
    requires 0 < s && d == 2 * s && k == d * n && u == Pow2(s) - 1 && v == Pow2(s) * u
    ensures Striped(Const(Copies(u, Pow2(d), n), k), s) && Striped'(Const(Copies(v, Pow2(d), n), k), s)
  {
    Pow2Sum(s, s);
    Square(Pow2(s));
    ConstCopies(u, d, n, k);
    ConstCopies(v, d, n, k);
    MaskUnit(s, d, u, v);
    StripedTiled(Const(u, d), n, s);
    StripedTiled(Const(v, d), n, s);
  }

  lemma {:induction false} MaskUnit(s: nat, d: nat, u: nat, v: nat)
    requires 0 < s && d == 2 * s && u == Pow2(s) - 1 && v == Pow2(s) * u
    ensures Striped(Const(u, d), s) && Striped'(Const(v, d), s)
  {
    ConstOnes(s);
    ConstJoin(u, 0, s, s, u, d);
    ConstJoin(0, u, s, s, v, d);
    StripedOnce(Const(u, s), Const(0, s), s);
  }

  lemma {:induction false} Square(p: nat)
    requires 0 < p
    ensures p - 1 < p * p && p * (p - 1) < p * p
  {
  }

  lemma {:induction false} StripedOnce(a: Word, b: Word, s: nat)
    requires 0 < s == |a| == |b| && Ones(a) && IsZero(b)
    ensures Striped(a + b, s) && Striped'(b + a, s)
  {
    var x, y := a + b, b + a;
    assert x[..s] == a && x[s..2 * s] == b && x[2 * s..] == [];
    assert y[..s] == b && y[s..2 * s] == a && y[2 * s..] == [];
  }

  lemma {:induction false} CopiesAdd(b: nat, w: nat, m: nat, n: nat, k: nat)
    requires k == w * m
    ensures Copies(b, Pow2(w), m + n) == Copies(b, Pow2(w), m) + Pow2(k) * Copies(b, Pow2(w), n)
    decreases m
  {
    if m == 0 {
    } else {
      OneLess(w, m);
      CopiesAdd(b, w, m - 1, n, k - w);
      Pow2Sum(w, k - w);
      Distribute(Pow2(w), Copies(b, Pow2(w), m - 1), Pow2(k - w), Copies(b, Pow2(w), n));
    }
  }

  lemma {:induction false} Distribute(p: int, x: int, q: int, y: int)
    ensures p * (x + q * y) == p * x + (p * q) * y
  {
    assert p * (q * y) == (p * q) * y;
  }

  /** Copies that fill a byte fill a word with that byte. */
  lemma {:induction false} Spread(b: nat, w: nat, n: nat, v: nat)
    requires w * n == 8 && Copies(b, Pow2(w), n) == v
    ensures Copies(b, Pow2(w), 2 * n) == v * 0x101 && Copies(b, Pow2(w), 4 * n) == v * 0x101_0101
    ensures Copies(b, Pow2(w), 8 * n) == v * 0x101_0101_0101_0101
  {
    Pow2Values();
    Pow2Sum(16, 16);
    Multiples(w, n);
    CopiesAdd(b, w, n, n, 8);
    CopiesAdd(b, w, 2 * n, 2 * n, 16);
    CopiesAdd(b, w, 4 * n, 4 * n, 32);
  }

  lemma {:induction false} Multiples(w: nat, n: nat)
    ensures w * (2 * n) == 2 * (w * n) && w * (4 * n) == 4 * (w * n)
  {
  }

  /** The digits that fill a byte. */
  lemma {:induction false} MaskBytes()
    ensures Copies(1, Pow2(2), 4) == 0x55 && Copies(2, Pow2(2), 4) == 0xaa
    ensures Copies(3, Pow2(4), 2) == 0x33 && Copies(12, Pow2(4), 2) == 0xcc && Copies(15, Pow2(8), 1) == 0x0f
  {
    assert Pow2(2) == 4 && Pow2(4) == 16;
    assert Copies(1, 4, 2) == 5 && Copies(1, 4, 3) == 0x15;
    assert Copies(2, 4, 2) == 0xa && Copies(2, 4, 3) == 0x2a;
    assert Copies(3, 16, 1) == 3 && Copies(12, 16, 1) == 12;
    assert Copies(15, Pow2(8), 0) == 0;
  }

  // ----- uk_bitcount16, uk_bitcount32 and uk_bitcount64 -----

  function Bitcount16(x: Word): (r: Word)
    requires |x| == 16
    ensures |r| == 16
  {
    var a := Add(And(x, Const(0x5555, 16)), Shr(And(x, Const(0xaaaa, 16)), 1));
    var b := Add(And(a, Const(0x3333, 16)), Shr(And(a, Const(0xcccc, 16)), 2));
    var c := And(Add(b, Shr(b, 4)), Const(0x0f0f, 16));
    And(Add(c, Shr(c, 8)), Const(0x00ff, 16))
  }

  function Bitcount32(x: Word): (r: Word)
    requires |x| == 32
    ensures |r| == 32
  {
    var a := Add(And(x, Const(0x5555_5555, 32)), Shr(And(x, Const(0xaaaa_aaaa, 32)), 1));
    var b := Add(And(a, Const(0x3333_3333, 32)), Shr(And(a, Const(0xcccc_cccc, 32)), 2));
    var c := And(Add(b, Shr(b, 4)), Const(0x0f0f_0f0f, 32));
    var d := Add(c, Shr(c, 8));
    And(Add(d, Shr(d, 16)), Const(0x0000_00ff, 32))
  }

  function Bitcount64(x: Word): (r: Word)
    requires |x| == 64
    ensures |r| == 64
  {
    var a := Add(And(x, Const(0x5555_5555_5555_5555, 64)), Shr(And(x, Const(0xaaaa_aaaa_aaaa_aaaa, 64)), 1));
    var b := Add(And(a, Const(0x3333_3333_3333_3333, 64)), Shr(And(a, Const(0xcccc_cccc_cccc_cccc, 64)), 2));
    var c := And(Add(b, Shr(b, 4)), Const(0x0f0f_0f0f_0f0f_0f0f, 64));
    var d := Add(c, Shr(c, 8));
    var e := Add(d, Shr(d, 16));
    And(Add(e, Shr(e, 32)), Const(0x0000_00ff, 64))
  }

  /** Adding the halves of every lane of d bits. */
  lemma {:induction false} FoldStep(x: Word, m: Word, m': Word, s: nat, d: nat, k: nat)
    requires 0 < s && d == 2 * s && |x| == |m| == |m'| && Striped(m, s) && Striped'(m', s)
    requires Below(Lanes(x, s), k) && 2 * k < Pow2(d) && |Lanes(x, s)| % 2 == 0
    ensures var y := Add(And(x, m), Shr(And(x, m'), s));
            && Lanes(y, d) == Pairs(Lanes(x, s)) && Whole(y, d) && Below(Lanes(y, d), 2 * k)
            && Sum(Lanes(y, d)) == Sum(Lanes(x, s)) && |Lanes(y, d)| == |Lanes(x, s)| / 2
  {
    var p := Lanes(x, s);
    LowHalves(x, m, s);
    HighHalves(x, m', s);
    PairsPlus(p);
    PairsBelow(p, k);
    PairsSum(p);
    AddLanes(And(x, m), Shr(And(x, m'), s), d);
  }

  /** The even lanes of a row added to itself one lane down. */
  lemma {:induction false} EvensShifted(p: seq<nat>)
    requires |p| > 0
    ensures Evens(Plus(p, p[1..] + [0])) == Pairs(p)
  {
    var q := Plus(p, p[1..] + [0]);
    if |p| >= 2 {
      assert q[0] == p[0] + p[1];
      if |p| > 2 {
        EvensShifted(p[2..]);
        assert q[2..] == Plus(p[2..], p[2..][1..] + [0]);
      } else {
        assert q[2..] == [] && p[2..] == [];
      }
    }
  }

  /** Adding first and masking afterwards, when the sums fit into half a lane. */
  lemma {:induction false} MaskStep(x: Word, m: Word)
    requires |x| == |m| > 0 && Striped(m, 4) && Whole(x, 4) && Below(Lanes(x, 4), 4) && |Lanes(x, 4)| % 2 == 0
    ensures var y := And(Add(x, Shr(x, 4)), m);
            && Whole(y, 8) && Below(Lanes(y, 8), 8) && Sum(Lanes(y, 8)) == Sum(Lanes(x, 4))
            && |Lanes(y, 8)| == |Lanes(x, 4)| / 2
  {
    var p := Lanes(x, 4);
    FirstLane(x, 4);
    ShiftLane(x, 4);
    assert Pow2(4) == 16;
    AddLanes(x, Shr(x, 4), 4);
    LowHalves(Add(x, Shr(x, 4)), m, 4);
    EvensShifted(p);
    PairsBelow(p, 4);
    PairsSum(p);
  }

  lemma {:induction false} DropShift(p: seq<nat>, t: nat)
    requires 0 < t <= |p|
    ensures (p[t - 1..] + Repeat(t - 1))[1..] + [0] == p[t..] + Repeat(t)
  {
  }

  /** Shifting by t bytes. */
  lemma {:induction false} ShiftBytes(x: Word, t: nat, n: nat)
    requires Whole(x, 8) && n == 8 * t && n <= |x| && t <= |Lanes(x, 8)|
    ensures Lanes(Shr(x, n), 8) == Lanes(x, 8)[t..] + Repeat(t) && Whole(Shr(x, n), 8)
    decreases t
  {
    var p := Lanes(x, 8);
    if t == 0 {
      assert Shr(x, n) == x;
      assert p[t..] + Repeat(t) == p;
    } else {
      var k := n - 8;
      ShiftBytes(x, t - 1, k);
      ShrTwice(x, k, 8);
      ShiftLane(Shr(x, k), 8);
      DropShift(p, t);
    }
  }

  /** Adding a row of bytes to itself t bytes down. */
  lemma {:induction false} ByteStep(x: Word, t: nat, n: nat, k: nat)
    requires Whole(x, 8) && n == 8 * t && n <= |x| && t <= |Lanes(x, 8)| && Below(Lanes(x, 8), k) && k < 128
    ensures var p, q := Lanes(x, 8), Lanes(Add(x, Shr(x, n)), 8);
            && Whole(Add(x, Shr(x, n)), 8) && |q| == |p| && Below(q, 2 * k)
            && forall j :: 0 <= j < |p| - t ==> q[j] == p[j] + p[j + t]
  {
    Pow2Values();
    ShiftBytes(x, t, n);
    AddLanes(x, Shr(x, n), 8);
  }

  /** Masking the lowest byte. */
  lemma {:induction false} LowByte(x: Word)
    requires |x| >= 8
    ensures |Lanes(x, 8)| > 0 && Val(And(x, Const(0xff, |x|))) == Lanes(x, 8)[0]
  {
    var k := |x|;
    Pow2Values();
    ConstOnes(8);
    ConstOnes(k - 8);
    ConstJoin(0xff, 0, 8, k - 8, 0xff, k);
    FirstLane(x, 8);
    var m := Const(0xff, 8) + Const(0, k - 8);
    assert And(x, m) == x[..8] + Zero(k - 8);
    ValJoinZero(x[..8], Zero(k - 8));
  }

  lemma {:induction false} SumTwo(p: seq<nat>)
    requires |p| >= 2
    ensures Sum(p) == p[0] + p[1] + Sum(p[2..])
  {
    assert Sum(p) == p[0] + Sum(p[1..]);
    assert p[1..][1..] == p[2..];
  }

  lemma {:induction false} SumOf(p: seq<nat>)
    ensures |p| == 2 ==> Sum(p) == p[0] + p[1]
    ensures |p| == 4 ==> Sum(p) == p[0] + p[1] + p[2] + p[3]
    ensures |p| == 8 ==> Sum(p) == p[0] + p[1] + p[2] + p[3] + p[4] + p[5] + p[6] + p[7]
  {
    if |p| >= 2 {
      SumTwo(p);
    }
    if |p| >= 4 {
      SumTwo(p[2..]);
      assert p[2..][2..] == p[4..];
    }
    if |p| == 8 {
      SumTwo(p[4..]);
      SumTwo(p[6..]);
      assert p[4..][2..] == p[6..] && p[6..][2..] == [];
    }
  }

  /** The row of bytes after the first three steps. */
  ghost predicate Bytewise(x: Word, c: Word) {
    && |c| == |x| && Whole(c, 8) && Below(Lanes(c, 8), 8) && Sum(Lanes(c, 8)) == Count(x) && |Lanes(c, 8)| == |x| / 8
  }

  /** Four bits wide lanes after the first two. */
  ghost predicate Nibblewise(x: Word, b: Word) {
    && |b| == |x| && Whole(b, 4) && Below(Lanes(b, 4), 4) && Sum(Lanes(b, 4)) == Count(x)
       && |Lanes(b, 4)| == |x| / 2 / 2
  }

  ghost predicate Pairwise(x: Word, a: Word) {
    && |a| == |x| && Whole(a, 2) && Below(Lanes(a, 2), 2) && Sum(Lanes(a, 2)) == Count(x) && |Lanes(a, 2)| == |x| / 2
  }

  lemma {:induction false} FirstStep(x: Word, m: Word, m': Word)
    requires |x| % 2 == 0 && |m| == |m'| == |x| && Striped(m, 1) && Striped'(m', 1)
    ensures Pairwise(x, Add(And(x, m), Shr(And(x, m'), 1)))
  {
    assert Pow2(2) == 4;
    BitLanes(x);
    FoldStep(x, m, m', 1, 2, 1);
  }

  lemma {:induction false} SecondStep(x: Word, a: Word, m: Word, m': Word)
    requires Pairwise(x, a) && |x| / 2 % 2 == 0 && |m| == |m'| == |x| && Striped(m, 2) && Striped'(m', 2)
    ensures Nibblewise(x, Add(And(a, m), Shr(And(a, m'), 2)))
  {
    assert Pow2(4) == 16;
    FoldStep(a, m, m', 2, 4, 2);
  }

  lemma {:induction false} ThirdStep(x: Word, b: Word, m: Word)
    requires Nibblewise(x, b) && |x| > 0 && |x| % 8 == 0 && |m| == |x| && Striped(m, 4)
    ensures Bytewise(x, And(Add(b, Shr(b, 4)), m))
  {
    MaskStep(b, m);
  }

  lemma {:induction false} ThreeSteps(x: Word, m1: Word, m1': Word, m2: Word, m2': Word, m3: Word)
    requires |x| > 0 && |x| % 8 == 0 && |m1| == |m1'| == |m2| == |m2'| == |m3| == |x|
    requires Striped(m1, 1) && Striped'(m1', 1) && Striped(m2, 2) && Striped'(m2', 2) && Striped(m3, 4)
    ensures var a := Add(And(x, m1), Shr(And(x, m1'), 1));
            var b := Add(And(a, m2), Shr(And(a, m2'), 2));
            Bytewise(x, And(Add(b, Shr(b, 4)), m3))
  {
    var a := Add(And(x, m1), Shr(And(x, m1'), 1));
    FirstStep(x, m1, m1');
    SecondStep(x, a, m2, m2');
    ThirdStep(x, Add(And(a, m2), Shr(And(a, m2'), 2)), m3);
  }

  /** The masks of the source. */
  lemma {:induction false} MasksOf(n: nat, k: nat, c: nat)
    requires k == 8 * n && ((n == 2 && c == 0x101) || (n == 4 && c == 0x101_0101) || (n == 8
             && c == 0x101_0101_0101_0101))
    ensures Striped(Const(0x55 * c, k), 1) && Striped'(Const(0xaa * c, k), 1)
    ensures Striped(Const(0x33 * c, k), 2) && Striped'(Const(0xcc * c, k), 2) && Striped(Const(0x0f * c, k), 4)
  {
    MaskBytes();
    assert Pow2(1) == 2 && Pow2(2) == 4 && Pow2(4) == 16;
    Pow2Values();
    Spread(1, 2, 4, 0x55);
    Spread(2, 2, 4, 0xaa);
    Spread(3, 4, 2, 0x33);
    Spread(12, 4, 2, 0xcc);
    Spread(15, 8, 1, 0x0f);
    Masks(1, 2, 4 * n, k, 1, 2);
    Masks(2, 4, 2 * n, k, 3, 12);
    Masks(4, 8, n, k, 15, 240);
  }

  /** The result of each function is the number of set bits of its argument. */
  lemma {:induction false} Bitcount16Counts(x: Word)
    requires |x| == 16
    ensures Val(Bitcount16(x)) == Count(x)
  {
    MasksOf(2, 16, 0x101);
    ThreeSteps(x, Const(0x5555, 16), Const(0xaaaa, 16), Const(0x3333, 16), Const(0xcccc, 16), Const(0x0f0f, 16));
    var a := Add(And(x, Const(0x5555, 16)), Shr(And(x, Const(0xaaaa, 16)), 1));
    var b := Add(And(a, Const(0x3333, 16)), Shr(And(a, Const(0xcccc, 16)), 2));
    var c := And(Add(b, Shr(b, 4)), Const(0x0f0f, 16));
    ByteStep(c, 1, 8, 8);
    LowByte(Add(c, Shr(c, 8)));
    SumOf(Lanes(c, 8));
  }

  lemma {:induction false} Bitcount32Counts(x: Word)
    requires |x| == 32
    ensures Val(Bitcount32(x)) == Count(x)
  {
    MasksOf(4, 32, 0x101_0101);
    ThreeSteps(x, Const(0x5555_5555, 32), Const(0xaaaa_aaaa, 32), Const(0x3333_3333, 32), Const(0xcccc_cccc, 32),
               Const(0x0f0f_0f0f, 32));
    var a := Add(And(x, Const(0x5555_5555, 32)), Shr(And(x, Const(0xaaaa_aaaa, 32)), 1));
    var b := Add(And(a, Const(0x3333_3333, 32)), Shr(And(a, Const(0xcccc_cccc, 32)), 2));
    var c := And(Add(b, Shr(b, 4)), Const(0x0f0f_0f0f, 32));
    var d := Add(c, Shr(c, 8));
    ByteStep(c, 1, 8, 8);
    ByteStep(d, 2, 16, 16);
    LowByte(Add(d, Shr(d, 16)));
    SumOf(Lanes(c, 8));
  }

  lemma {:induction false} Bitcount64Counts(x: Word)
    requires |x| == 64
    ensures Val(Bitcount64(x)) == Count(x)
  {
    MasksOf(8, 64, 0x101_0101_0101_0101);
    ThreeSteps(x, Const(0x5555_5555_5555_5555, 64), Const(0xaaaa_aaaa_aaaa_aaaa, 64),
               Const(0x3333_3333_3333_3333, 64), Const(0xcccc_cccc_cccc_cccc, 64), Const(0x0f0f_0f0f_0f0f_0f0f, 64));
    var a := Add(And(x, Const(0x5555_5555_5555_5555, 64)), Shr(And(x, Const(0xaaaa_aaaa_aaaa_aaaa, 64)), 1));
    var b := Add(And(a, Const(0x3333_3333_3333_3333, 64)), Shr(And(a, Const(0xcccc_cccc_cccc_cccc, 64)), 2));
    var c := And(Add(b, Shr(b, 4)), Const(0x0f0f_0f0f_0f0f_0f0f, 64));
    var d := Add(c, Shr(c, 8));
    var e := Add(d, Shr(d, 16));
    ByteStep(c, 1, 8, 8);
    ByteStep(d, 2, 16, 16);
    ByteStep(e, 4, 32, 32);
    LowByte(Add(e, Shr(e, 32)));
    SumOf(Lanes(c, 8));
  }
}
