/**
 * The allocator of naturally aligned regions of 2^order bits over a bitmap, and the
 * counting of set bits.
 */
module Regions {
  import opened Words
  import opened Scans
  import opened Bitcounts
  import Alignment
  import TreeIndex

  const ENOMEM: int := 12

  /** 1UL << (nbits - 1), then added to itself less one: the low nbits bits. */
  function LowMask(nbits: int): (m: Word)
    requires 0 < nbits <= LONG
    ensures |m| == LONG && forall i :: 0 <= i < LONG ==> m[i] == (i < nbits)
  {
    var top := Shl(Bit(LONG, 0), nbits - 1);
    LowMaskBits(top, nbits);
    Add(top, Dec(top))
  }

  lemma {:induction false} LowMaskBits(top: Word, nbits: int)
    requires 0 < nbits <= LONG && top == Shl(Bit(LONG, 0), nbits - 1)
    ensures forall i :: 0 <= i < LONG ==> Add(top, Dec(top))[i] == (i < nbits)
  {
    assert forall i :: 0 <= i < LONG ==> top[i] == (i == nbits - 1);
    forall i | 0 <= i < LONG ensures Dec(top)[i] == (i < nbits - 1) {
      DecBits(top, i);
      if i > nbits - 1 {
        assert top[nbits - 1];
      }
    }
    AddDisjoint(top, Dec(top));
  }

  /** The mask of a region: nbits ones from offset on. */
  function RegionMask(nbits: int, offset: int): (m: Word)
    requires 0 < nbits <= LONG && 0 <= offset <= LONG - nbits
    ensures |m| == LONG && forall i :: 0 <= i < LONG ==> m[i] == (offset <= i < offset + nbits)
  {
    Shl(LowMask(nbits), offset)
  }

  function Bits(order: nat): (n: nat)
    ensures 0 < n
  {
    TreeIndex.Pow2(order)
  }

  /** How the source lays a region over words: one mask for one word, or whole words. */
  ghost predicate Laid(pos: int, order: nat, index: int, offset: int, nlongs: int, nbits: int) {
    && LONG * index + offset == pos && 0 <= index && 0 < nbits && 0 <= offset <= LONG - nbits && 0 < nlongs
    && if nlongs == 1 then nbits == Bits(order) else nbits == LONG && offset == 0 && LONG * nlongs == Bits(order)
  }

  lemma {:induction false} Layout(pos: int, order: nat)
    requires 0 <= pos && pos % Bits(order) == 0
    ensures var n := Bits(order);
            Laid(pos, order, pos / LONG, pos - pos / LONG * LONG, (n + LONG - 1) / LONG, if n < LONG then n else LONG)
  {
    if order < 6 {
      SmallOrders(pos, order);
    } else {
      TreeIndex.Pow2Sum(6, order - 6);
      assert TreeIndex.Pow2(6) == 64;
      WholeWords(pos, TreeIndex.Pow2(order - 6));
    }
  }

  lemma {:induction false} LaidTotal(pos: int, order: nat, index: int, offset: int, nlongs: int, nbits: int)
    requires Laid(pos, order, index, offset, nlongs, nbits)
    ensures nlongs * nbits == Bits(order)
  {
  }

  lemma {:induction false} ModWord(pos: int, n: int)
    requires 0 <= pos && (n == 1 || n == 2 || n == 4 || n == 8 || n == 16 || n == 32) && pos % n == 0
    ensures pos % LONG + n <= LONG
  {
    var r := pos % LONG;
    if n == 2 {
      assert r % 2 == 0;
    } else if n == 4 {
      assert r % 4 == 0;
    } else if n == 8 {
      assert r % 8 == 0;
    } else if n == 16 {
      assert r % 16 == 0;
    } else if n == 32 {
      assert r % 32 == 0;
    }
  }

  lemma {:induction false} SmallOrders(pos: int, order: nat)
    requires order < 6 && 0 <= pos && pos % Bits(order) == 0
    ensures Bits(order) <= 32 && pos % LONG + Bits(order) <= LONG
  {
    assert TreeIndex.Pow2(0) == 1 && TreeIndex.Pow2(1) == 2 && TreeIndex.Pow2(2) == 4;
    assert TreeIndex.Pow2(3) == 8 && TreeIndex.Pow2(4) == 16 && TreeIndex.Pow2(5) == 32;
    ModWord(pos, Bits(order));
  }

  lemma {:induction false} WholeWords(pos: int, k: nat)
    requires 0 < k && 0 <= pos && pos % (64 * k) == 0
    ensures pos % LONG == 0 && (64 * k + LONG - 1) / LONG == k
  {
    var q := pos / (64 * k);
    assert pos == q * (64 * k);
    assert pos == 64 * (q * k);
  }

  /** Bits pos..pos + n have become value; the others are as they were. */
  ghost predicate Painted(old': Bitmap, bm: Bitmap, pos: int, n: int, value: bool) {
    && |bm| == |old'| && Covers(old', 0) && Covers(bm, 0)
    && forall i {:trigger BitAt(bm, i)} :: 0 <= i < LONG * |bm| ==>
         BitAt(bm, i) == if pos <= i < pos + n then value else BitAt(old', i)
  }

  /** x |= m or x &= ~m */
  function Brushed(x: Word, m: Word, value: bool): (y: Word)
    requires |x| == |m|
    ensures |y| == |x| && forall b :: 0 <= b < |x| ==> y[b] == if m[b] then value else x[b]
  {
    if value then Or(x, m) else And(x, Not(m))
  }

  /** One word of a region. */
  lemma {:induction false} PaintWord(old': Bitmap, bm: Bitmap, pos: int, n: int, value: bool, w: int, offset: int,
                                     nbits: int, x: Word)
    requires Painted(old', bm, pos, n, value) && 0 <= w < |bm| && 0 < nbits && 0 <= offset <= LONG - nbits && 0 <= n
    requires pos + n == LONG * w + offset && |x| == LONG
    requires forall b :: 0 <= b < LONG ==> x[b] == if offset <= b < offset + nbits then value else bm[w][b]
    ensures Painted(old', bm[w := x], pos, n + nbits, value)
  {
    var bm' := bm[w := x];
    forall i | 0 <= i < LONG * |bm'|
      ensures BitAt(bm', i) == if pos <= i < pos + (n + nbits) then value else BitAt(old', i)
    {
      assert BitAt(bm, i) == if pos <= i < pos + n then value else BitAt(old', i);
      assert i == LONG * (i / LONG) + i % LONG;
    }
  }

  lemma {:induction false} PaintStep(old': Bitmap, bm: Bitmap, pos: int, order: nat, i: int, index: int, offset: int,
                                     nlongs: int, nbits: int,
                  mask: Word, value: bool)
    requires Laid(pos, order, index, offset, nlongs, nbits) && 0 <= i < nlongs
             && Painted(old', bm, pos, i * nbits, value)
    requires pos + Bits(order) <= LONG * |bm| && mask == RegionMask(nbits, offset)
    ensures index + i < |bm|
    ensures Painted(old', bm[index + i := Brushed(bm[index + i], mask, value)], pos, (i + 1) * nbits, value)
  {
    assert pos + i * nbits == LONG * (index + i) + offset && (i + 1) * nbits == i * nbits + nbits;
    PaintWord(old', bm, pos, i * nbits, value, index + i, offset, nbits, Brushed(bm[index + i], mask, value));
  }

  /** A region is free if none of its words has a masked bit set. */
  lemma {:induction false} MaskedNone(bm: Bitmap, w: int, offset: int, nbits: int, m: Word)
    requires Covers(bm, 0) && 0 <= w < |bm| && 0 < nbits && 0 <= offset <= LONG - nbits && |m| == LONG
    requires forall i :: 0 <= i < LONG ==> m[i] == (offset <= i < offset + nbits)
    ensures IsZero(And(bm[w], m)) <==> NoneIn(bm, true, LONG * w + offset, LONG * w + offset + nbits)
  {
    WordScan(bm, true, w, And(bm[w], m), offset, offset + nbits);
  }

  /** __uk_bitopts_reg_op with REG_OP_ISFREE. */
  method RegionIsFree(bm: Bitmap, pos: int, order: nat) returns (free: bool)
    requires 0 <= pos && pos % Bits(order) == 0 && Covers(bm, pos + Bits(order))
    ensures free <==> NoneIn(bm, true, pos, pos + Bits(order))
  {
    var n := Bits(order);
    var index := pos / LONG;
    var offset := pos - index * LONG;
    var nlongs := (n + LONG - 1) / LONG;
    var nbits := if n < LONG then n else LONG;
    Layout(pos, order);
    var mask := RegionMask(nbits, offset);
    free := true;
    for i := 0 to nlongs
      invariant NoneIn(bm, true, pos, pos + i * nbits)
    {
      assert pos + i * nbits == LONG * (index + i) + offset && (i + 1) * nbits == i * nbits + nbits;
      MaskedNone(bm, index + i, offset, nbits, mask);
      if !IsZero(And(bm[index + i], mask)) {
        assert (i + 1) * nbits <= nlongs * nbits == n by { Within(i, nlongs, nbits); }
        return false;
      }
      NoneJoin(bm, true, pos, pos + i * nbits, pos + (i + 1) * nbits);
    }
  }

  lemma {:induction false} Within(i: int, k: int, n: int)
    requires 0 <= i < k && 0 < n
    ensures (i + 1) * n <= k * n
  {
  }

  // ----- Counting -----

  /** Number of set bits below n. */
  ghost function CountTo(bm: Bitmap, n: int): nat
    requires Covers(bm, n)
  {
    if n <= 0 then 0 else CountTo(bm, n - 1) + (if BitAt(bm, n - 1) then 1 else 0)
  }

  lemma {:induction false} CountMasked(x: Word, n: int)
    requires 0 < n <= LONG == |x|
    ensures Count(And(x, LastMask(n))) == Count(x[..n])
  {
    var y := And(x, LastMask(n));
    CountPrefix(y, n);
    assert y[..n] == x[..n];
  }

  /** Bits above n, all clear, do not count. */
  lemma {:induction false} CountPrefix(y: Word, n: int)
    requires 0 <= n <= |y| && forall i :: n <= i < |y| ==> !y[i]
    ensures Count(y) == Count(y[..n])
  {
    if n == |y| {
      assert y[..n] == y;
    } else {
      var z := y[..|y| - 1];
      CountPrefix(z, n);
      assert z[..n] == y[..n];
    }
  }

  lemma {:induction false} CountWord(bm: Bitmap, w: int, n: int)
    requires Covers(bm, LONG * w + n) && 0 <= w && 0 < n <= LONG
    ensures CountTo(bm, LONG * w + n) == CountTo(bm, LONG * w) + Count(bm[w][..n])
  {
    var x := bm[w];
    Position(w, n - 1);
    assert x[..n][..n - 1] == x[..n - 1];
    if n == 1 {
      assert Count(x[..0]) == 0;
    } else {
      CountWord(bm, w, n - 1);
    }
  }

  /** uk_hweight_long, which is uk_bitcount64 */
  method HweightLong(w: Word) returns (n: int)
    requires |w| == LONG
    ensures n == Count(w)
  {
    Bitcount64Counts(w);
    n := Val(Bitcount64(w));
  }

  /** uk_bitmap_weight */
  method Weight(bm: Bitmap, size: int) returns (weight: int)
    requires Covers(bm, size)
    ensures weight == CountTo(bm, size)
  {
    var end, tail := size / LONG, size % LONG;
    weight := 0;
    for i := 0 to end
      invariant weight == CountTo(bm, LONG * i)
    {
      CountWord(bm, i, LONG);
      assert bm[i][..LONG] == bm[i];
      var n := HweightLong(bm[i]);
      weight := weight + n;
    }
    if tail != 0 {
      CountWord(bm, end, tail);
      CountMasked(bm[end], tail);
      var n := HweightLong(And(bm[end], LastMask(tail)));
      weight := weight + n;
    }
  }

  /** Painting a region that was all of the other kind changes the count by its size. */
  lemma {:induction false} CountPainted(old': Bitmap, bm: Bitmap, pos: int, n: int, value: bool, size: int)
    requires Painted(old', bm, pos, n, value) && 0 <= pos && 0 <= n && 0 <= size <= LONG * |bm|
    requires NoneIn(old', value, pos, pos + n)
    ensures var k := if size <= pos then 0 else if pos + n <= size then n else size - pos;
            CountTo(bm, size) == if value then CountTo(old', size) + k else CountTo(old', size) - k
  {
    if size != 0 {
      CountPainted(old', bm, pos, n, value, size - 1);
      assert BitAt(bm, size - 1) == if pos <= size - 1 < pos + n then value else BitAt(old', size - 1);
    }
  }

  // ----- The allocator -----

  /** Outstanding regions: where they start and of what order they are. */
  type Outstanding = map<int, nat>

  /** The sizes of the regions that start below n, added up. */
  ghost function Total(rs: Outstanding, n: int): nat {
    if n <= 0 then 0 else Total(rs, n - 1) + (if n - 1 in rs then Bits(rs[n - 1]) else 0)
  }

  lemma {:induction false} TotalWithout(rs: Outstanding, p: int, n: int)
    requires p in rs && 0 <= p
    ensures Total(rs, n) == Total(rs - {p}, n) + (if p < n then Bits(rs[p]) else 0)
  {
    if 0 < n {
      TotalWithout(rs, p, n - 1);
    }
  }

  ghost predicate Inside(rs: Outstanding, p: int, i: int)
    requires p in rs
  {
    p <= i < p + Bits(rs[p])
  }

  /** Some outstanding region has bit i. */
  ghost predicate Taken(rs: Outstanding, i: int) {
    exists p :: p in rs && Inside(rs, p, i)
  }

  /** Regions p and q have no bit in common. */
  ghost predicate Separate(rs: Outstanding, p: int, q: int)
    requires p in rs && q in rs
  {
    p + Bits(rs[p]) <= q || q + Bits(rs[q]) <= p
  }

  /** Region p is naturally aligned and below size. */
  ghost predicate Aligned(rs: Outstanding, p: int, size: int)
    requires p in rs
  {
    0 <= p && p % Bits(rs[p]) == 0 && p + Bits(rs[p]) <= size
  }

  /** The set bits are those of the outstanding regions, which are aligned and disjoint. */
  ghost predicate Matches(bm: Bitmap, size: int, rs: Outstanding) {
    && Covers(bm, size)
    && (forall p {:trigger Aligned(rs, p, size)} :: p in rs ==> Aligned(rs, p, size))
    && (forall p, q {:trigger Separate(rs, p, q)} :: p in rs && q in rs && p != q ==> Separate(rs, p, q))
    && (forall i {:trigger BitAt(bm, i)} :: 0 <= i < LONG * |bm| ==> BitAt(bm, i) == Taken(rs, i))
    && CountTo(bm, size) == Total(rs, size)
  }

  lemma {:induction false} NothingOut(n: int)
    ensures Total(map[], n) == 0
  {
    if 0 < n {
      NothingOut(n - 1);
    }
  }

  lemma {:induction false} NoneCount(bm: Bitmap, n: int)
    requires Covers(bm, n) && NoneIn(bm, true, 0, n)
    ensures CountTo(bm, n) == 0
  {
    if n != 0 {
      NoneCount(bm, n - 1);
      assert !BitAt(bm, n - 1);
    }
  }

  lemma {:induction false} TakenBit(bm: Bitmap, size: int, rs: Outstanding, q: int, i: int)
    requires Matches(bm, size, rs) && q in rs && Inside(rs, q, i) && 0 <= i < LONG * |bm|
    ensures BitAt(bm, i)
  {
  }

  /** A free place has nothing to do with any outstanding region. */
  lemma {:induction false} FreePlace(bm: Bitmap, size: int, rs: Outstanding, pos: int, n: int, q: int)
    requires Matches(bm, size, rs) && 0 <= pos && 0 < n && pos + n <= size && NoneIn(bm, true, pos, pos + n) && q in rs
    ensures pos + n <= q || q + Bits(rs[q]) <= pos
  {
    assert Aligned(rs, q, size);
    var i := if pos < q then q else pos;
    if i < pos + n && i < q + Bits(rs[q]) {
      TakenBit(bm, size, rs, q, i);
    }
  }

  lemma {:induction false} Allocated(old': Bitmap, bm: Bitmap, rs: Outstanding, size: int, pos: int, order: nat)
    requires Matches(old', size, rs) && Painted(old', bm, pos, Bits(order), true)
    requires 0 <= pos && pos % Bits(order) == 0 && pos + Bits(order) <= size
             && NoneIn(old', true, pos, pos + Bits(order))
    ensures pos !in rs && Matches(bm, size, rs[pos := order])
  {
    var n, rs' := Bits(order), rs[pos := order];
    forall q | q in rs
      ensures pos + n <= q || q + Bits(rs[q]) <= pos
    {
      FreePlace(old', size, rs, pos, n, q);
    }
    forall p | p in rs'
      ensures Aligned(rs', p, size)
    {
      if p != pos {
        assert Aligned(rs, p, size);
      }
    }
    forall p, q | p in rs' && q in rs' && p != q
      ensures Separate(rs', p, q)
    {
      if p != pos && q != pos {
        assert Separate(rs, p, q);
      }
    }
    forall i | 0 <= i < LONG * |bm|
      ensures BitAt(bm, i) == Taken(rs', i)
    {
      assert BitAt(old', i) == Taken(rs, i);
      if pos <= i < pos + n {
        assert Inside(rs', pos, i);
      } else {
        if Taken(rs, i) {
          var p :| p in rs && Inside(rs, p, i);
          assert Inside(rs', p, i);
        }
        forall p | p in rs' && Inside(rs', p, i)
          ensures Taken(rs, i)
        {
          assert Inside(rs, p, i);
        }
      }
    }
    CountPainted(old', bm, pos, n, true, size);
    TotalWithout(rs', pos, size);
    assert rs' - {pos} == rs;
  }

  lemma {:induction false} Released(old': Bitmap, bm: Bitmap, rs: Outstanding, size: int, pos: int)
    requires Matches(old', size, rs) && pos in rs && Painted(old', bm, pos, Bits(rs[pos]), false)
    ensures Matches(bm, size, rs - {pos})
  {
    var n, rs' := Bits(rs[pos]), rs - {pos};
    assert Aligned(rs, pos, size);
    forall p | p in rs'
      ensures Aligned(rs', p, size)
    {
      assert Aligned(rs, p, size);
    }
    forall p, q | p in rs' && q in rs' && p != q
      ensures Separate(rs', p, q)
    {
      assert Separate(rs, p, q);
    }
    forall i | 0 <= i < LONG * |bm|
      ensures BitAt(bm, i) == Taken(rs', i)
    {
      assert BitAt(old', i) == Taken(rs, i);
      if Taken(rs', i) {
        var p :| p in rs' && Inside(rs', p, i);
        assert Separate(rs, p, pos) && Inside(rs, p, i);
      } else if Taken(rs, i) {
        var p :| p in rs && Inside(rs, p, i);
        assert p == pos || Inside(rs', p, i);
      }
    }
    forall i | pos <= i < pos + n
      ensures BitAt(old', i)
    {
      assert Inside(rs, pos, i);
    }
    CountPainted(old', bm, pos, n, false, size);
    TotalWithout(rs, pos, size);
  }

  /** The k-th region of n bits is not free. */
  ghost predicate Blocked(bm: Bitmap, k: int, n: int)
    requires Covers(bm, 0)
  {
    !NoneIn(bm, true, k * n, (k + 1) * n)
  }

  lemma {:induction false} BelowMultiple(bm: Bitmap, k: int, n: int)
    requires 0 < n && Covers(bm, 0) && forall j :: 0 <= j < k ==> Blocked(bm, j, n)
    ensures forall j :: 0 <= j && j * n < k * n ==> Blocked(bm, j, n)
  {
    forall j | 0 <= j && j * n < k * n
      ensures Blocked(bm, j, n)
    {
      if k <= j {
        Alignment.Steps(k, j, n);
      }
    }
  }

  lemma {:induction false} NoMultiple(bm: Bitmap, k: int, n: int, size: int)
    requires 0 < n && size < (k + 1) * n && Covers(bm, 0) && forall j :: 0 <= j < k ==> Blocked(bm, j, n)
    ensures forall j {:trigger Blocked(bm, j, n)} :: 0 <= j && (j + 1) * n <= size ==> Blocked(bm, j, n)
  {
    forall j | 0 <= j && j * n + n <= size
      ensures Blocked(bm, j, n)
    {
      if k <= j {
        Alignment.Steps(k + 1, j + 1, n);
      }
    }
  }

  class RegionMap {
    var words: Bitmap
    const bits: int
    ghost var regions: Outstanding

    ghost predicate Valid()
      reads this
    {
      Matches(words, bits, regions)
    }

    constructor (size: nat)
      ensures Valid() && regions == map[] && bits == size
    {
      bits := size;
      words := seq((size + LONG - 1) / LONG, i => Zero(LONG));
      regions := map[];
      new;
      NoneCount(words, size);
      NothingOut(size);
    }

    /** __uk_bitopts_reg_op with REG_OP_ALLOC or REG_OP_RELEASE. */
    method Paint(pos: int, order: nat, value: bool)
      requires 0 <= pos && pos % Bits(order) == 0 && Covers(words, pos + Bits(order))
      modifies this`words
      ensures Painted(old(words), words, pos, Bits(order), value)
    {
      var n := Bits(order);
      var index := pos / LONG;
      var offset := pos - index * LONG;
      var nlongs := (n + LONG - 1) / LONG;
      var nbits := if n < LONG then n else LONG;
      Layout(pos, order);
      var mask := RegionMask(nbits, offset);
      for i := 0 to nlongs
        invariant Painted(old(words), words, pos, i * nbits, value)
      {
        PaintStep(old(words), words, pos, order, i, index, offset, nlongs, nbits, mask, value);
        words := words[index + i := Brushed(words[index + i], mask, value)];
      }
      LaidTotal(pos, order, index, offset, nlongs, nbits);
    }

    /** uk_bitmap_find_free_region: the lowest free region of that order, or -ENOMEM if there is none. */
    method FindFreeRegion(order: nat) returns (pos: int)
      requires Valid()
      modifies this`words, this`regions
      ensures Valid()
      ensures pos == -ENOMEM ==> words == old(words) && regions == old(regions)
      ensures pos == -ENOMEM ==> forall k {:trigger Blocked(old(words), k, Bits(order))} ::
                0 <= k && (k + 1) * Bits(order) <= bits ==> Blocked(old(words), k, Bits(order))
      ensures pos != -ENOMEM ==> pos !in old(regions) && regions == old(regions)[pos := order]
      ensures pos != -ENOMEM ==> NoneIn(old(words), true, pos, pos + Bits(order))
      ensures pos != -ENOMEM ==> forall k :: 0 <= k && k * Bits(order) < pos ==> Blocked(old(words), k, Bits(order))
    {
      var n := Bits(order);
      pos := 0;
      ghost var k := 0;
      while pos + n <= bits
        invariant 0 <= k && pos == k * n
        invariant words == old(words) && regions == old(regions) && Valid()
        invariant forall j :: 0 <= j < k ==> Blocked(words, j, n)
        decreases bits - pos
      {
        Alignment.MulMod(k, n);
        var free := RegionIsFree(words, pos, order);
        if free {
          ghost var before := words;
          Paint(pos, order, true);
          Allocated(before, words, regions, bits, pos, order);
          regions := regions[pos := order];
          BelowMultiple(before, k, n);
          return;
        }
        assert (k + 1) * n == k * n + n;
        k := k + 1;
        pos := pos + n;
      }
      assert (k + 1) * n == k * n + n;
      NoMultiple(words, k, n, bits);
      pos := -ENOMEM;
    }

    /** uk_bitmap_release_region of an outstanding region. */
    method ReleaseRegion(pos: int, order: nat)
      requires Valid() && pos in regions && regions[pos] == order
      modifies this`words, this`regions
      ensures Valid() && regions == old(regions) - {pos}
    {
      assert Aligned(regions, pos, bits);
      ghost var before := words;
      Paint(pos, order, false);
      Released(before, words, regions, bits, pos);
      regions := regions - {pos};
    }

    /** uk_bitmap_weight of the whole map: the bits of the regions that are out. */
    method Allocation() returns (weight: int)
      requires Valid()
      ensures weight == Total(regions, bits)
    {
      weight := Weight(words, bits);
    }
  }
}
