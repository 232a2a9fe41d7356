/**
 * Word-by-word scans over a bitmap, which must find what a bit-by-bit scan finds.
 * A bitmap is a sequence of 64-bit words; bit i is bit i % 64 of word i / 64.
 */
module Scans {
  import opened Words
  import Alignment

  const LONG: int := 64

  type Bitmap = seq<Word>

  /** All words are 64 bits wide and there are enough of them for size bits. */
  predicate Covers(bm: Bitmap, size: int) {
    0 <= size <= LONG * |bm| && forall w :: 0 <= w < |bm| ==> |bm[w]| == LONG
  }

  predicate BitAt(bm: Bitmap, i: int)
    requires Covers(bm, 0) && 0 <= i < LONG * |bm|
  {
    bm[i / LONG][i % LONG]
  }

  lemma {:induction false} Position(w: int, b: int)
    requires 0 <= w && 0 <= b < LONG
    ensures (LONG * w + b) / LONG == w && (LONG * w + b) % LONG == b
  {
    var x := LONG * w + b;
    var q, r := x / LONG, x % LONG;
    assert LONG * q + r == x && 0 <= r < LONG;
  }

  /** ~0UL >> (64 - n): the low n bits. */
  function LastMask(n: int): (m: Word)
    requires 0 < n <= LONG
    ensures |m| == LONG && forall i :: 0 <= i < LONG ==> m[i] == (i < n)
  {
    Shr(Not(Zero(LONG)), LONG - n)
  }

  /** The word as a scan for set bits or for clear bits sees it. */
  function Seen(x: Word, want: bool): (y: Word)
    ensures |y| == |x| && forall i :: 0 <= i < |x| ==> y[i] == (x[i] == want)
  {
    if want then x else Not(x)
  }

  /** No bit of the wanted kind in lo..hi. */
  ghost predicate NoneIn(bm: Bitmap, want: bool, lo: int, hi: int)
    requires Covers(bm, 0)
  {
    forall i {:trigger BitAt(bm, i)} :: 0 <= i && lo <= i < hi && i < LONG * |bm| ==> BitAt(bm, i) != want
  }

  /** r is where a bit-by-bit scan of offset..size stops, or past the end if it finds nothing. */
  ghost predicate Found(bm: Bitmap, want: bool, offset: int, size: int, r: int)
    requires Covers(bm, size) && 0 <= offset
  {
    && NoneIn(bm, want, offset, if r < size then r else size)
    && (r < size ==> offset <= r && BitAt(bm, r) == want)
  }

  /** One word from bit b on: the least bit wanted in it. */
  lemma {:induction false} WordScan(bm: Bitmap, want: bool, w: int, m: Word, from: int, to: int)
    requires Covers(bm, 0) && 0 <= w < |bm| && 0 <= from <= to <= LONG && |m| == LONG
    requires forall i :: 0 <= i < LONG ==> m[i] == ((bm[w][i] == want) && from <= i < to)
    ensures IsZero(m) ==> NoneIn(bm, want, LONG * w + from, LONG * w + to)
    ensures !IsZero(m) ==> var r := LONG * w + Ctz(m);
              LONG * w + from <= r < LONG * w + to && BitAt(bm, r) == want && NoneIn(bm, want, LONG * w + from, r)
  {
    var stop := if IsZero(m) then to else Ctz(m);
    forall i | LONG * w + from <= i < LONG * w + stop
      ensures BitAt(bm, i) != want
    {
      Position(w, i - LONG * w);
      assert !m[i - LONG * w];
    }
    if !IsZero(m) {
      Position(w, Ctz(m));
    }
  }

  lemma {:induction false} NoneJoin(bm: Bitmap, want: bool, a: int, b: int, c: int)
    requires Covers(bm, 0) && NoneIn(bm, want, a, b) && NoneIn(bm, want, b, c)
    ensures NoneIn(bm, want, a, c)
  {
  }

  /** uk_find_next_bit and, over complemented words, uk_find_next_zero_bit. */
  method FindNext(bm: Bitmap, size: int, offset: int, want: bool) returns (r: int)
    requires Covers(bm, size) && 0 <= offset
    ensures size <= offset ==> r == size
    ensures Found(bm, want, offset, size, r)
  {
    if offset >= size {
      return size;
    }
    var pos, offs := offset / LONG, offset % LONG;
    var bit := LONG * pos;
    var w := pos;
    if offs != 0 {
      var mask := And(Seen(bm[w], want), Not(LastMask(offs)));
      WordScan(bm, want, w, mask, offs, LONG);
      if !IsZero(mask) {
        return bit + Ctz(mask);
      }
      if size - bit <= LONG {
        return size;
      }
      bit := bit + LONG;
      w := w + 1;
    }
    r := ScanWords(bm, size, bit, w, want, offset);
  }

  /** The rest of the scan, from the start of word w on. */
  method ScanWords(bm: Bitmap, size: int, bit0: int, w0: int, want: bool, ghost offset: int) returns (bit: int)
    requires Covers(bm, size) && 0 <= offset <= bit0 == LONG * w0 <= size && NoneIn(bm, want, offset, bit0)
    ensures Found(bm, want, offset, size, bit) && bit <= size
  {
    bit := bit0;
    var w, left := w0, size - bit0;
    while left >= LONG
      invariant bit == LONG * w && left == size - bit && 0 <= left && offset <= bit && NoneIn(bm, want, offset, bit)
    {
      var x := Seen(bm[w], want);
      WordScan(bm, want, w, x, 0, LONG);
      if !IsZero(x) {
        return bit + Ctz(x);
      }
      NoneJoin(bm, want, offset, bit, bit + LONG);
      left, bit, w := left - LONG, bit + LONG, w + 1;
    }
    if left != 0 {
      var mask := And(Seen(bm[w], want), LastMask(left));
      WordScan(bm, want, w, mask, 0, left);
      if !IsZero(mask) {
        bit := bit + Ctz(mask);
      } else {
        NoneJoin(bm, want, offset, bit, bit + left);
        bit := bit + left;
      }
    }
  }

  /** uk_find_first_bit and uk_find_first_zero_bit. */
  method FindFirst(bm: Bitmap, size: int, want: bool) returns (r: int)
    requires Covers(bm, size)
    ensures Found(bm, want, 0, size, r) && r <= size
  {
    r := ScanWords(bm, size, 0, 0, want, 0);
  }

  // ----- Areas of clear bits -----

  /** Bits idx..idx + nr are clear and within size, and idx is aligned. */
  ghost predicate Area(bm: Bitmap, size: int, idx: int, nr: int, align: int, offset: int)
    requires Covers(bm, size) && 0 < align
  {
    0 <= idx && idx + nr <= size && (idx + offset) % align == 0 && NoneIn(bm, true, idx, idx + nr)
  }

  lemma {:induction false} AlignedUp(x: int, align: int, offset: int)
    requires 0 <= x && 0 <= offset && 0 < align
    ensures x <= Alignment.RoundUp(x + offset, align) - offset < x + align
    ensures Alignment.RoundUp(x + offset, align) % align == 0
  {
    var y := x + offset + align - 1;
    Alignment.DivSpan(y, align);
    Alignment.MulMod(y / align, align);
  }

  /**
   * uk_bitmap_find_next_zero_area_off, for an align mask that is one less than a power of
   * two and numbers that do not wrap around: the least aligned clear area at or after
   * start, or a value past size if there is none.
   */
  method FindZeroArea(bm: Bitmap, size: int, start0: int, nr: int, align: int, offset: int) returns (r: int)
    requires Covers(bm, size) && 0 <= start0 && 0 < nr && 0 < align && 0 <= offset
    ensures r <= size ==> start0 <= r && Area(bm, size, r, nr, align, offset)
    ensures forall idx :: start0 <= idx && Area(bm, size, idx, nr, align, offset) ==> r <= idx
  {
    var start := start0;
    while true
      invariant start0 <= start
      invariant forall idx :: start0 <= idx && Area(bm, size, idx, nr, align, offset) ==> start <= idx
      decreases size - start
    {
      var zero := FindNext(bm, size, start, false);
      var index := Alignment.RoundUp(zero + offset, align) - offset;
      AlignedUp(zero, align, offset);
      forall idx | start0 <= idx && Area(bm, size, idx, nr, align, offset)
        ensures index <= idx
      {
        assert !BitAt(bm, idx);
        Alignment.RoundUpLeast(zero + offset, align, idx + offset);
      }
      var end := index + nr;
      if end > size {
        return end;
      }
      var i := FindNext(bm, end, index, true);
      if i >= end {
        return index;
      }
      forall idx | start0 <= idx && Area(bm, size, idx, nr, align, offset)
        ensures i + 1 <= idx
      {
        assert BitAt(bm, i);
      }
      start := i + 1;
    }
  }

  // ----- uk_find_last_bit -----

  /** One word: its greatest set bit. */
  lemma {:induction false} WordLast(bm: Bitmap, w: int, m: Word, to: int)
    requires Covers(bm, 0) && 0 <= w < |bm| && 0 <= to <= LONG && |m| == LONG
    requires forall i :: 0 <= i < LONG ==> m[i] == (bm[w][i] && i < to)
    ensures IsZero(m) ==> NoneIn(bm, true, LONG * w, LONG * w + to)
    ensures !IsZero(m) ==> var r := LONG * w + Last(m);
              LONG * w <= r < LONG * w + to && BitAt(bm, r) && NoneIn(bm, true, r + 1, LONG * w + to)
  {
    var start := if IsZero(m) then 0 else Last(m) + 1;
    forall i | LONG * w + start <= i < LONG * w + to
      ensures !BitAt(bm, i)
    {
      Position(w, i - LONG * w);
      assert !m[i - LONG * w];
    }
    if !IsZero(m) {
      Position(w, Last(m));
    }
  }

  /** uk_find_last_bit: the greatest set bit below size, or size if there is none. */
  method FindLast(bm: Bitmap, size: int) returns (r: int)
    requires Covers(bm, size)
    ensures 0 <= r <= size
    ensures r < size ==> BitAt(bm, r) && NoneIn(bm, true, r + 1, size)
    ensures r == size ==> NoneIn(bm, true, 0, size)
  {
    var pos, offs := size / LONG, size % LONG;
    var bit := LONG * pos;
    if offs != 0 {
      var mask := And(bm[pos], LastMask(offs));
      WordLast(bm, pos, mask, offs);
      if !IsZero(mask) {
        return bit + Last(mask);
      }
    }
    while pos > 0
      invariant 0 <= pos <= |bm| && bit == LONG * pos <= size && NoneIn(bm, true, bit, size)
    {
      pos, bit := pos - 1, bit - LONG;
      WordLast(bm, pos, bm[pos], LONG);
      if !IsZero(bm[pos]) {
        NoneJoin(bm, true, bit + Last(bm[pos]) + 1, bit + LONG, size);
        return bit + Last(bm[pos]);
      }
      NoneJoin(bm, true, bit, bit + LONG, size);
    }
    r := size;
  }
}
