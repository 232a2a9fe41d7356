/**
 * Machine words as sequences of bits, least significant bit first, with the C operators
 * on them.  A word of n bits is a sequence of length n.
 */
module Words {

  type Word = seq<bool>

  function Zero(n: nat): (r: Word)
    ensures |r| == n
  {
    seq(n, i => false)
  }

  function Not(x: Word): (r: Word)
    ensures |r| == |x|
  {
    seq(|x|, i requires 0 <= i < |x| => !x[i])
  }

  function And(x: Word, y: Word): (r: Word)
    requires |x| == |y|
    ensures |r| == |x|
  {
    seq(|x|, i requires 0 <= i < |x| => x[i] && y[i])
  }

  function Or(x: Word, y: Word): (r: Word)
    requires |x| == |y|
    ensures |r| == |x|
  {
    seq(|x|, i requires 0 <= i < |x| => x[i] || y[i])
  }

  /** x << k, dropping the bits pushed past the top. */
  function Shl(x: Word, k: nat): (r: Word)
    ensures |r| == |x|
  {
    seq(|x|, i requires 0 <= i < |x| => k <= i && x[i - k])
  }

  /** x >> k, filling with zeros. */
  function Shr(x: Word, k: nat): (r: Word)
    ensures |r| == |x|
  {
    seq(|x|, i requires 0 <= i < |x| => i + k < |x| && x[i + k])
  }

  /** x + 1 modulo 2^|x|, by carry propagation. */
  function Inc(x: Word): (r: Word)
    ensures |r| == |x|
  {
    if x == [] then [] else if x[0] then [false] + Inc(x[1..]) else [true] + x[1..]
  }

  /** x - 1 modulo 2^|x|, by borrow propagation. */
  function Dec(x: Word): (r: Word)
    ensures |r| == |x|
  {
    if |x| == 0 then [] else if x[0] then [false] + x[1..] else [true] + Dec(x[1..])
  }

  /** Decrementing flips exactly the bits up to and including the least set one. */
  lemma {:induction false} DecBits(x: Word, k: nat)
    requires k < |x|
    ensures Dec(x)[k] == if forall j :: 0 <= j < k ==> !x[j] then !x[k] else x[k]
  {
    if !x[0] && k > 0 {
      DecBits(x[1..], k - 1);
      assert forall j :: 0 <= j < k - 1 ==> x[1..][j] == x[j + 1];
    }
  }

  /** Unsigned negation, the complement plus one. */
  function Neg(x: Word): (r: Word)
    ensures |r| == |x|
  {
    Inc(Not(x))
  }

  /** The word with only bit i set. */
  function Bit(n: nat, i: nat): (r: Word)
    ensures |r| == n
  {
    seq(n, j => j == i)
  }

  predicate IsZero(x: Word) {
    forall i :: 0 <= i < |x| ==> !x[i]
  }

  /** Index of the least set bit at or above k. */
  function LeastFrom(x: Word, k: nat): (r: nat)
    requires exists i :: k <= i < |x| && x[i]
    ensures k <= r < |x| && x[r] && forall j :: k <= j < r ==> !x[j]
    decreases |x| - k
  {
    if x[k] then k else LeastFrom(x, k + 1)
  }

  /** Count of trailing zeros, that is, the index of the least set bit. */
  function Ctz(x: Word): (r: nat)
    requires !IsZero(x)
    ensures r < |x| && x[r] && forall j :: 0 <= j < r ==> !x[j]
  {
    LeastFrom(x, 0)
  }

  /** Index of the greatest set bit. */
  function Last(x: Word): (r: nat)
    requires !IsZero(x)
    ensures r < |x| && x[r] && forall j :: r < j < |x| ==> !x[j]
  {
    if x[|x| - 1] then |x| - 1
    else
      var y := x[..|x| - 1];
      assert !IsZero(y) by {
        var i :| 0 <= i < |x| && x[i];
        assert y[i];
      }
      Last(y)
  }

  /** Incrementing flips exactly the bits up to and including the first clear one. */
  lemma {:induction false} IncBits(x: Word, k: nat)
    requires k < |x|
    ensures Inc(x)[k] == if forall j :: 0 <= j < k ==> x[j] then !x[k] else x[k]
  {
    if x[0] && k > 0 {
      IncBits(x[1..], k - 1);
      assert forall j :: 0 <= j < k - 1 ==> x[1..][j] == x[j + 1];
    }
  }

  /** Negation keeps the bits up to the least set one and flips the ones above it. */
  lemma {:induction false} NegBits(x: Word, k: nat)
    requires k < |x|
    ensures Neg(x)[k] == if forall j :: 0 <= j < k ==> !x[j] then x[k] else !x[k]
  {
    IncBits(Not(x), k);
    if forall j :: 0 <= j < k ==> !x[j] {
      assert forall j :: 0 <= j < k ==> Not(x)[j];
    } else {
      var j :| 0 <= j < k && x[j];
      assert !Not(x)[j];
    }
  }

  /** x & -x isolates the least set bit. */
  function LeastBit(x: Word): (r: Word)
    ensures |r| == |x|
  {
    And(x, Neg(x))
  }

  lemma {:induction false} LeastBitIsolates(x: Word)
    requires !IsZero(x)
    ensures LeastBit(x) == Bit(|x|, Ctz(x))
    ensures !IsZero(LeastBit(x)) && Ctz(LeastBit(x)) == Ctz(x)
  {
    forall k | 0 <= k < |x|
      ensures LeastBit(x)[k] == (k == Ctz(x))
    {
      NegBits(x, k);
      if Ctz(x) < k {
        assert x[Ctz(x)];
      }
    }
    assert LeastBit(x)[Ctz(x)];
  }

  /** (x << 1) | -(x << 1), all bits strictly above the least set bit of x. */
  function LeftBits(x: Word): (r: Word)
    ensures |r| == |x|
  {
    Or(Shl(x, 1), Neg(Shl(x, 1)))
  }

  lemma {:induction false} LeftBitsOfBit(n: nat, i: nat, k: nat)
    requires i < n && k < n
    ensures LeftBits(Bit(n, i))[k] == (i < k)
  {
    var y := Shl(Bit(n, i), 1);
    assert forall j :: 0 <= j < n ==> y[j] == (j == i + 1);
    NegBits(y, k);
    if i + 1 < k {
      assert y[i + 1];
    }
  }

  /**
   * The bin chosen by `least_bit(left_bits(idx2bit(idx)) & map)` is the first marked
   * bin above idx, and the mask is zero exactly when no bin above idx is marked.
   */
  lemma {:induction false} NextMarked(m: Word, idx: nat)
    requires idx < |m|
    ensures var l := And(LeftBits(Bit(|m|, idx)), m);
            if IsZero(l) then forall j :: idx < j < |m| ==> !m[j]
            else !IsZero(LeastBit(l)) &&
                 var i := Ctz(LeastBit(l));
                 idx < i < |m| && m[i] && forall j :: idx < j < i ==> !m[j]
  {
    var l := And(LeftBits(Bit(|m|, idx)), m);
    forall j | 0 <= j < |m|
      ensures l[j] == (idx < j && m[j])
    {
      LeftBitsOfBit(|m|, idx, j);
    }
    if !IsZero(l) {
      LeastBitIsolates(l);
    }
  }

  /** What malloc reads off the map of small bins after shifting it down by idx. */
  lemma {:induction false} ShiftedMap(m: Word, idx: nat)
    requires idx + 1 < |m|
    ensures Shr(m, idx)[0] == m[idx] && Shr(m, idx)[1] == m[idx + 1]
    ensures IsZero(Shr(m, idx)) <==> forall j :: idx <= j < |m| ==> !m[j]
    ensures And(Shl(Shr(m, idx), idx), LeftBits(Bit(|m|, idx))) == And(LeftBits(Bit(|m|, idx)), m)
  {
    var l := LeftBits(Bit(|m|, idx));
    forall j | 0 <= j < |m|
      ensures And(Shl(Shr(m, idx), idx), l)[j] == And(l, m)[j]
    {
      LeftBitsOfBit(|m|, idx, j);
    }
    forall j | idx <= j < |m|
      ensures Shr(m, idx)[j - idx] == m[j]
    {
    }
  }

  /** left_bits(idx2bit(idx)) & m, tested for zero: is a bin above idx marked? */
  predicate AnyAbove(m: Word, idx: nat): (b: bool)
    requires idx < |m|
    ensures b <==> exists j :: idx < j < |m| && m[j]
  {
    NextMarked(m, idx);
    !IsZero(And(LeftBits(Bit(|m|, idx)), m))
  }

  /** The first marked bin above idx. */
  function FirstAbove(m: Word, idx: nat): (i: nat)
    requires idx < |m| && AnyAbove(m, idx)
    ensures idx < i < |m| && m[i] && forall j :: idx < j < i ==> !m[j]
  {
    NextMarked(m, idx);
    Ctz(LeastBit(And(LeftBits(Bit(|m|, idx)), m)))
  }

  /** The same, from the map already shifted down by idx, as malloc has it. */
  function FirstAboveShifted(m: Word, idx: nat): (i: nat)
    requires idx + 1 < |m| && !IsZero(Shr(m, idx)) && !m[idx]
    ensures idx < i < |m| && m[i] && forall j :: idx < j < i ==> !m[j]
  {
    ShiftedMap(m, idx);
    NextMarked(m, idx);
    Ctz(LeastBit(And(Shl(Shr(m, idx), idx), LeftBits(Bit(|m|, idx)))))
  }
}
