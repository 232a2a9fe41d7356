/** Moving the blocks of a blob together (fdt_pack). */
module FdtPack {
  import opened FdtFormat
  import opened FdtTree
  import opened FdtTokens
  import opened FdtEdits
  import opened FdtBlob
  import opened FdtReserve

  /** A tree whose tokens and strings have been copied elsewhere. */
  lemma {:induction false} ImageMoved(m: Bytes, m': Bytes, a: int, a': int, so: int, so': int, n: int,
                                      ts: seq<Token>, f: Forest)
    requires Image(m, a, so, n, ts, f) && Same(m, a, m', a', Total(ts)) && Same(m, so, m', so', n)
    ensures Image(m', a', so', n, ts, f)
  {
    assert Imaged(ts);
    HoldsMoved(m, a, m', a', ts);
    SameSlice(m, so, m', so', n);
    assert ImageOpen(m', a', so', n, ts, f);
  }

  function Copied(m: Bytes, dst: int, src: int, n: int): (m': Bytes)
    requires 0 <= dst && 0 <= src && 0 <= n && dst + n <= |m| && src + n <= |m|
    ensures |m'| == |m|
  {
    Put(m, dst, m[src..src + n])
  }

  /** The bytes at src are copied to dst, and bytes elsewhere stay. */
  lemma {:induction false} CopySame(m: Bytes, dst: int, src: int, n: int, a: int, k: int)
    requires 0 <= dst && 0 <= src && 0 <= n && dst + n <= |m| && src + n <= |m|
    ensures Same(m, src, Copied(m, dst, src, n), dst, n)
    ensures 0 <= a && 0 <= k && a + k <= |m| && (a + k <= dst || dst + n <= a) ==>
              Same(m, a, Copied(m, dst, src, n), a, k)
  {
    var e := m[src..src + n];
    var m' := Put(m, dst, e);
    forall i {:trigger Get(m', dst, i)} | 0 <= i < n ensures Get(m', dst, i) == Get(m, src, i) {
      PutGet(m, dst, e, dst, i);
      assert e[i] == m[src + i];
    }
    if 0 <= a && 0 <= k && a + k <= |m| && (a + k <= dst || dst + n <= a) {
      PutSame(m, dst, e, a, k);
    }
  }

  /** Three blocks copied towards the start, one after the other, arrive unharmed. */
  lemma {:induction false} ThreeMoves(m: Bytes, m1: Bytes, m2: Bytes, m3: Bytes, r: int, r': int, x: int, s: int,
                                      s': int, y: int, t: int, t': int, z: int)
    requires 0 <= r' <= r && 0 <= x && r + x <= s && 0 <= y && s + y <= t && 0 <= z && t + z <= |m|
    requires s' == r' + x && t' == s' + y
    requires m1 == Copied(m, r', r, x) && m2 == Copied(m1, s', s, y) && m3 == Copied(m2, t', t, z)
    ensures Same(m, r, m3, r', x) && Same(m, s, m3, s', y) && Same(m, t, m3, t', z)
  {
    CopySame(m, r', r, x, s, y);
    CopySame(m, r', r, x, t, z);
    CopySame(m1, s', s, y, r', x);
    CopySame(m1, s', s, y, t, z);
    CopySame(m2, t', t, z, r', x);
    CopySame(m2, t', t, z, s', y);
    SameTrans(m, r, m1, r', m2, r', x);
    SameTrans(m, r, m2, r', m3, r', x);
    SameTrans(m, s, m1, s, m2, s', y);
    SameTrans(m, s, m2, s', m3, s', y);
    SameTrans(m, t, m1, t, m2, t, z);
    SameTrans(m, t, m2, t, m3, t', z);
  }

  /** _fdt_packblocks, in place */
  method PackBlocks(b: Blob, rsvSize: int)
    requires b.Valid() && b.Ordered() && 0 <= rsvSize && b.offRsv + rsvSize <= b.offStruct
    modifies b.buf, b`offRsv, b`offStruct, b`offStrings
    ensures b.offRsv == 40 && b.offStruct == 40 + rsvSize && b.offStrings == b.offStruct + b.sizeStruct
    ensures b.offStrings <= old(b.offStrings)
            && Image(b.buf[..], b.offStruct, b.offStrings, b.sizeStrings, b.toks, b.forest)
    ensures Same(old(b.buf[..]), old(b.offRsv), b.buf[..], 40, rsvSize)
  {
    ghost var m := b.buf[..];
    var rsvOff := 40;
    var structOff := rsvOff + rsvSize;
    var stringsOff := structOff + b.sizeStruct;
    Move(b, rsvOff, b.offRsv, rsvSize);
    ghost var m1 := b.buf[..];
    b.offRsv := rsvOff;
    Move(b, structOff, b.offStruct, b.sizeStruct);
    ghost var m2 := b.buf[..];
    b.offStruct := structOff;
    Move(b, stringsOff, b.offStrings, b.sizeStrings);
    b.offStrings := stringsOff;
    Packed(m, m1, m2, b.buf[..], old(b.offRsv), rsvOff, rsvSize, old(b.offStruct), structOff, b.sizeStruct,
           old(b.offStrings), stringsOff, b.sizeStrings, b.toks, b.forest);
  }

  lemma {:induction false} Packed(m: Bytes, m1: Bytes, m2: Bytes, m3: Bytes, r: int, r': int, x: int, s: int,
                                  s': int, y: int,
                                  t: int, t': int, z: int, ts: seq<Token>, f: Forest)
    requires 0 <= r' <= r && 0 <= x && r + x <= s && 0 <= y && s + y <= t && 0 <= z && t + z <= |m|
    requires s' == r' + x && t' == s' + y && y == Total(ts) && Image(m, s, t, z, ts, f)
    requires m1 == Copied(m, r', r, x) && m2 == Copied(m1, s', s, y) && m3 == Copied(m2, t', t, z)
    ensures Image(m3, s', t', z, ts, f) && Same(m, r, m3, r', x)
  {
    ThreeMoves(m, m1, m2, m3, r, r', x, s, s', y, t, t', z);
    ImageMoved(m, m3, s, s', t, t', z, ts, f);
  }

  method Move(b: Blob, dst: int, src: int, n: int)
    requires 0 <= dst && 0 <= src && 0 <= n && dst + n <= b.buf.Length && src + n <= b.buf.Length
    modifies b.buf
    ensures b.buf[..] == Copied(old(b.buf[..]), dst, src, n)
  {
    assert b.buf[src..src + n] == b.buf[..][src..src + n];
    b.Memmove(dst, src, n);
  }

  /** The reservation block is the same at its new place. */
  lemma {:induction false} BlockKept(m: Bytes, m': Bytes, r: int, k: int, k': int, size: int, n: nat)
    requires Lists(Front(m, k), r, n) && size == 16 * (n + 1) && Same(m, r, m', 40, size) && k' == 40 + size <= |m'|
    requires 0 <= r && r + size <= k <= |m|
    ensures Lists(Front(m', k'), 40, n)
  {
    SameSlice(m, r, m', 40, size);
    assert Front(m, k)[r..r + size] == m[r..r + size];
    assert Front(m', k')[40..40 + size] == m'[40..40 + size];
    ListsMoved(Front(m, k), Front(m', k'), r, 40, n);
  }

  /** fdt_pack */
  method Pack(b: Blob, ghost n: nat) returns (err: int)
    requires b.Valid() && (b.Ordered() ==> Reserves(b, n))
    modifies b.buf, b`version, b`totalSize, b`offRsv, b`offStruct, b`offStrings
    ensures b.Valid() && err == if old(b.Ordered()) then 0 else -BADLAYOUT
    ensures err == 0 ==>
              && b.Ordered() && b.Free() == 0 && b.totalSize <= old(b.totalSize)
              && b.totalSize == 40 + 16 * (n + 1) + b.sizeStruct + b.sizeStrings
              && Same(old(b.buf[..]), old(b.offRsv), b.buf[..], b.offRsv, 16 * (n + 1))
              && Reserves(b, n) && b.offStruct == b.offRsv + 16 * (n + 1)
  {
    err := b.RwCheckHeader();
    if err != 0 {
      return;
    }
    ghost var m, r, k0 := b.buf[..], b.offRsv, b.offStruct;
    var k := NumMemRsv(b, n);
    var size := (k + 1) * 16;
    PackBlocks(b, size);
    BlockKept(m, b.buf[..], r, k0, b.offStruct, size, n);
    b.totalSize := b.offStrings + b.sizeStrings;
    err := 0;
  }
}
