/**
 * Writing a blob from front to back (fdt_sw.c).  Tokens grow upwards from the start of the buffer and
 * strings downwards from its end, so that a string is known by its distance from the end until
 * fdt_finish moves the strings and corrects every reference to them.
 */
module FdtWriter {
  import opened FdtFormat
  import opened FdtTree
  import opened FdtTokens
  import opened FdtEdits
  import opened FdtBlob
  import opened FdtReserve

  const SW_MAGIC: int := 0x2ff2_0112
  const W64: int := 0x1_0000_0000_0000_0000

  // ----- References to strings -----

  /** The token with its reference, which counts from the end of n bytes of strings, counting from their start. */
  function FixToken(t: Token, n: int): (u: Token)
    ensures Size(u) == Size(t) && (u.End? <==> t.End?) && (u.Prop? <==> t.Prop?) && (TokenOk(t) ==> TokenOk(u))
  {
    if t.Prop? then Prop((t.nameoff + n) % W32, t.value, t.pad) else t
  }

  function Fix(ts: seq<Token>, n: int): (us: seq<Token>)
    ensures |us| == |ts| && forall i {:trigger us[i]} :: 0 <= i < |ts| ==> us[i] == FixToken(ts[i], n)
  {
    seq(|ts|, i requires 0 <= i < |ts| => FixToken(ts[i], n))
  }

  lemma {:induction false} FixJoin(ts: seq<Token>, us: seq<Token>, n: int)
    ensures Fix(ts + us, n) == Fix(ts, n) + Fix(us, n)
  {
    var vs := Fix(ts, n) + Fix(us, n);
    forall i | 0 <= i < |vs| ensures Fix(ts + us, n)[i] == vs[i] {
      assert (ts + us)[i] == if i < |ts| then ts[i] else us[i - |ts|];
    }
  }

  lemma {:induction false} ResolvedJoin(ts: seq<Token>, us: seq<Token>, table: Bytes)
    requires Resolved(ts, table) && Resolved(us, table)
    ensures Resolved(ts + us, table)
  {
    forall i {:trigger Terminated(table, (ts + us)[i].nameoff)} | 0 <= i < |ts + us| && (ts + us)[i].Prop?
      ensures Terminated(table, (ts + us)[i].nameoff)
    {
      assert (ts + us)[i] == if i < |ts| then ts[i] else us[i - |ts|];
    }
  }

  lemma {:induction false} OkJoin(ts: seq<Token>, us: seq<Token>)
    requires AllOk(ts) && AllOk(us) && NoEnd(ts) && NoEnd(us)
    ensures AllOk(ts + us) && NoEnd(ts + us)
  {
    forall i | 0 <= i < |ts + us| ensures TokenOk((ts + us)[i]) && !(ts + us)[i].End? {
      assert (ts + us)[i] == if i < |ts| then ts[i] else us[i - |ts|];
    }
  }

  function Slice(m: Bytes, a: int, n: int): (s: Bytes)
    requires 0 <= a && 0 <= n && a + n <= |m|
    ensures |s| == n
  {
    m[a..a + n]
  }

  // ----- What has been written so far -----

  ghost predicate DraftOpen(m: Bytes, base: int, so: int, n: int, ts: seq<Token>, items: seq<Item>) {
    && 0 <= so && 0 <= n && so + n <= |m| && Holds(m, base, ts) && base + Total(ts) <= so && AllOk(ts) && NoEnd(ts)
    && Resolved(Fix(ts, n), Slice(m, so, n)) && Items(Fix(ts, n), Slice(m, so, n)) == items
  }

  /**
   * The memory holds the tokens from address base on and n bytes of strings from address so on; they stand for the
   * items.
   */
  ghost predicate Draft(m: Bytes, base: int, so: int, n: int, ts: seq<Token>, items: seq<Item>) {
    forall us {:trigger Imaged(us)} :: us == ts ==> DraftOpen(m, base, so, n, us, items)
  }

  lemma {:induction false} DraftEmpty(m: Bytes, base: int, so: int)
    requires 0 <= base <= so <= |m|
    ensures Draft(m, base, so, 0, [], [])
  {
    NothingHeld(m, base);
    assert Fix([], 0) == [];
    assert DraftOpen(m, base, so, 0, [], []);
  }

  /** Tokens written behind the others. */
  lemma {:induction false} DraftMore(m: Bytes, m': Bytes, base: int, so: int, n: int, ts: seq<Token>, items: seq<Item>,
                                     p: int, us: seq<Token>, qs: seq<Item>)
    requires Draft(m, base, so, n, ts, items) && p == base + Total(ts) && |m'| == |m| && 0 <= so && 0 <= n
             && so + n <= |m|
    requires Same(m, 0, m', 0, p) && Same(m, so, m', so, n)
    requires Holds(m', p, us) && p + Total(us) <= so && AllOk(us) && NoEnd(us)
    requires Resolved(Fix(us, n), Slice(m, so, n)) && Items(Fix(us, n), Slice(m, so, n)) == qs
    ensures Draft(m', base, so, n, ts + us, items + qs)
  {
    assert Imaged(ts);
    var table := Slice(m, so, n);
    SameSlice(m, so, m', so, n);
    SameIn(m, 0, m', 0, p, base, Total(ts));
    HoldsMoved(m, base, m', base, ts);
    HoldsJoin(m', base, ts, us);
    TotalJoin(ts, us);
    OkJoin(ts, us);
    FixJoin(ts, us, n);
    ResolvedJoin(Fix(ts, n), Fix(us, n), table);
    ItemsJoin(Fix(ts, n), Fix(us, n), table);
    assert DraftOpen(m', base, so, n, ts + us, items + qs);
  }

  lemma {:induction false} WrapAdd(x: int, len: int)
    requires 0 <= len && x % W32 + len < W32
    ensures (x + len) % W32 == x % W32 + len
  {
  }

  /** A reference into the strings finds the same string when another one is put before them. */
  lemma {:induction false} Refers(t: Token, n: int, table: Bytes, e: Bytes)
    requires t.Prop? && |table| == n && Terminated(table, FixToken(t, n).nameoff) && n + |e| < W32
    ensures Terminated(e + table, FixToken(t, n + |e|).nameoff)
    ensures NameAt(e + table, FixToken(t, n + |e|).nameoff) == NameAt(table, FixToken(t, n).nameoff)
  {
    var o, o' := FixToken(t, n).nameoff, FixToken(t, n + |e|).nameoff;
    WrapAdd(t.nameoff + n, |e|);
    assert t.nameoff + n + |e| == t.nameoff + (n + |e|);
    StringBehind(table, e, o, o');
  }

  lemma {:induction false} StringBehind(table: Bytes, e: Bytes, o: int, o': int)
    requires Terminated(table, o) && o' == |e| + o
    ensures Terminated(e + table, o') && NameAt(e + table, o') == NameAt(table, o)
  {
    StringKept(e, table, [], o, NameAt(table, o));
    assert e + table + [] == e + table;
    NameAtIs(e + table, o', NameAt(table, o));
  }

  lemma {:induction false} RefersAll(ts: seq<Token>, n: int, table: Bytes, e: Bytes)
    requires |table| == n && Resolved(Fix(ts, n), table) && n + |e| < W32
    ensures Resolved(Fix(ts, n + |e|), e + table) && Items(Fix(ts, n + |e|), e + table) == Items(Fix(ts, n), table)
    decreases |ts|
  {
    if |ts| > 0 {
      var us, vs := Fix(ts, n), Fix(ts, n + |e|);
      assert us[1..] == Fix(ts[1..], n) && vs[1..] == Fix(ts[1..], n + |e|);
      ResolvedTail(us, table);
      RefersAll(ts[1..], n, table, e);
      if ts[0].Prop? {
        assert us[0] == FixToken(ts[0], n);
        Refers(ts[0], n, table, e);
      }
      ResolvedTail(vs, e + table);
    }
  }

  lemma {:induction false} ResolvedTail(ts: seq<Token>, table: Bytes)
    requires |ts| > 0
    ensures Resolved(ts, table) <==> Resolved(ts[1..], table) && (ts[0].Prop? ==> Terminated(table, ts[0].nameoff))
  {
    assert forall i {:trigger ts[1..][i]} :: 0 <= i < |ts| - 1 ==> ts[1..][i] == ts[i + 1];
    if Resolved(ts[1..], table) && (ts[0].Prop? ==> Terminated(table, ts[0].nameoff)) {
      forall i {:trigger Terminated(table, ts[i].nameoff)} | 0 <= i < |ts| && ts[i].Prop?
        ensures Terminated(table, ts[i].nameoff)
      {
        if i > 0 {
          assert ts[1..][i - 1] == ts[i];
        }
      }
    }
  }

  lemma {:induction false} PutTail(m: Bytes, a: int, e: Bytes, end: int)
    requires 0 <= a && a + |e| <= end <= |m|
    ensures Put(m, a, e)[a..end] == e + m[a + |e|..end]
  {
    var m' := Put(m, a, e);
    assert m'[a..a + |e|] == e;
    assert m'[a + |e|..end] == m[a + |e|..end];
  }

  /** A string put before the others. */
  lemma {:induction false} DraftString(m: Bytes, base: int, so: int, n: int, ts: seq<Token>, items: seq<Item>,
                                       a: int, e: Bytes, n': int)
    requires Draft(m, base, so, n, ts, items) && 0 <= so && 0 <= n && so + n <= |m| && so + n < W32
    requires 0 <= base && a + |e| == so && n' == n + |e| && base + Total(ts) <= a
    ensures Draft(Put(m, a, e), base, a, n', ts, items) && Slice(Put(m, a, e), a, n') == e + Slice(m, so, n)
  {
    assert Imaged(ts);
    var m', table := Put(m, a, e), Slice(m, so, n);
    PutSame(m, a, e, base, Total(ts));
    HoldsMoved(m, base, m', base, ts);
    PutTail(m, a, e, so + n);
    RefersAll(ts, n, table, e);
    assert DraftOpen(m', base, a, n', ts, items);
  }

  lemma {:induction false} WidenedStart(m: Bytes, p: int, len: int)
    requires 0 <= p && 0 <= len && p + len <= |m|
    ensures Widened(m, m, p, len, len, |m|)
  {
  }

  /** The space that was reserved holds new tokens. */
  lemma {:induction false} DraftGrows(m: Bytes, m': Bytes, base: int, so: int, n: int, ts: seq<Token>, items: seq<Item>,
                                      p: int, len: int, us: seq<Token>, qs: seq<Item>)
    requires Draft(m, base, so, n, ts, items) && p == base + Total(ts) && 0 <= so && 0 <= n && so + n <= |m| && 0 <= p
    requires Widened(m, m', p, len, len, |m|) && Holds(m', p, us) && len == Total(us) && p + len <= so
    requires AllOk(us) && NoEnd(us)
    requires Resolved(Fix(us, n), Slice(m, so, n)) && Items(Fix(us, n), Slice(m, so, n)) == qs
    ensures Draft(m', base, so, n, ts + us, items + qs) && Slice(m', so, n) == Slice(m, so, n)
  {
    var q := p + len;
    SameIn(m, q, m', q, |m| - q, so - q, n);
    SameSlice(m, so, m', so, n);
    DraftMore(m, m', base, so, n, ts, items, p, us, qs);
  }

  // ----- The writer -----

  /** Where the strings start. */
  ghost function So(b: Blob): int
    reads b
  {
    b.totalSize - b.sizeStrings
  }

  /** The calls so far have written the items. */
  ghost predicate Writing(b: Blob, items: seq<Item>)
    reads b, b.buf
  {
    && b.magic == SW_MAGIC && b.version == 17 && b.lastComp == 16 && b.offRsv == 48 && 48 <= b.offStruct
    && b.sizeStruct == Total(b.toks) && 0 <= b.sizeStrings
    && b.offStruct + b.sizeStruct + b.sizeStrings <= b.totalSize <= b.buf.Length < HALF
    && Draft(b.buf[..], b.offStruct, So(b), b.sizeStrings, b.toks, items)
  }

  /** The room that is left between tokens and strings. */
  ghost function Left(b: Blob): int
    reads b
  {
    b.totalSize - b.offStruct - b.sizeStruct - b.sizeStrings
  }

  /** fdt_create */
  method Create(b: Blob, bufsize: int) returns (err: int)
    requires 0 <= bufsize == b.buf.Length < HALF
    modifies b, b.buf
    ensures err == if bufsize < 40 then -NOSPACE else 0
    ensures err == 0 ==> (Writing(b, []) <==> 48 <= bufsize)
    ensures err == 0 ==>
              && b.magic == SW_MAGIC && b.offStruct == 48 && b.sizeStruct == 0 && b.sizeStrings == 0
              && b.totalSize == bufsize && Left(b) == bufsize - 48
  {
    if bufsize < 40 {
      return -NOSPACE;
    }
    forall i | 0 <= i < bufsize {
      b.buf[i] := 0;
    }
    b.sizeStruct, b.sizeStrings := 0, 0;
    b.magic, b.version, b.lastComp, b.totalSize := SW_MAGIC, 17, 16, bufsize;
    b.offRsv, b.offStruct, b.offStrings := 48, 48, bufsize;
    b.toks := [];
    if 48 <= bufsize {
      DraftEmpty(b.buf[..], 48, bufsize);
    }
    err := 0;
  }

  lemma {:induction false} NoTokens(ts: seq<Token>)
    ensures Total(ts) == 0 <==> ts == []
  {
  }

  lemma {:induction false} DraftNothing(m: Bytes, base: int, so: int, n: int, items: seq<Item>)
    requires Draft(m, base, so, n, [], items)
    ensures items == []
  {
    var ts: seq<Token> := [];
    assert Imaged(ts);
    assert Fix(ts, n) == [];
  }

  /**
   * fdt_add_reservemap_entry, with the address and size as bytes.  It looks at the size of the buffer and not at the
   * strings at its end, which a failed fdt_property may have left there.
   */
  method AddReservemapEntry(b: Blob, entry: Bytes, ghost items: seq<Item>) returns (err: int)
    requires |entry| == 16 && (b.magic == SW_MAGIC ==> 0 <= b.offStruct && b.totalSize <= b.buf.Length)
    modifies b.buf, b`offStruct
    ensures err == old(if b.magic != SW_MAGIC then -BADMAGIC else if b.sizeStruct != 0 then -BADSTATE
                       else if b.offStruct + 16 > b.totalSize then -NOSPACE else 0)
    ensures b.offStruct == old(b.offStruct) + (if err == 0 then 16 else 0)
    ensures b.buf[..] == old(if err == 0 then Put(b.buf[..], b.offStruct, entry) else b.buf[..])
    ensures old(Writing(b, items)) && err == 0 ==> items == [] && (Writing(b, []) <==> 16 <= old(Left(b)))
    ensures old(Writing(b, items)) && err != 0 ==> Writing(b, items)
    ensures err == 0 ==> b.Ahead() == old(b.Ahead()) + entry
  {
    if b.magic != SW_MAGIC {
      return -BADMAGIC;
    }
    if b.sizeStruct != 0 {
      return -BADSTATE;
    }
    var offset := b.offStruct;
    if offset + 16 > b.totalSize {
      return -NOSPACE;
    }
    ghost var m := b.buf[..];
    PutExtends(m, offset, entry, offset + 16);
    b.Memcpy(offset, entry);
    b.offStruct := offset + 16;
    if old(Writing(b, items)) {
      NoTokens(b.toks);
      DraftNothing(m, offset, So(b), b.sizeStrings, items);
      if Left(b) >= 0 {
        ReserveKeeps(m, offset, So(b), b.sizeStrings, entry, offset + 16);
      }
    }
    err := 0;
  }

  lemma {:induction false} PutExtends(m: Bytes, a: int, e: Bytes, b: int)
    requires 0 <= a && a + |e| == b <= |m|
    ensures Front(Put(m, a, e), b) == Front(m, a) + e
  {
  }

  lemma {:induction false} ReserveKeeps(m: Bytes, base: int, so: int, n: int, e: Bytes, base': int)
    requires Draft(m, base, so, n, [], []) && 0 <= base && 0 <= n && base' == base + |e| <= so && so + n <= |m|
    ensures Draft(Put(m, base, e), base', so, n, [], [])
  {
    var m', ts: seq<Token> := Put(m, base, e), [];
    assert Imaged(ts);
    NothingHeld(m', base');
    assert Fix(ts, n) == [];
    assert DraftOpen(m', base', so, n, ts, []);
  }

  /** The test of _fdt_grab_space, in which the signed room left is compared as a number of 64 bits without sign. */
  predicate NoRoom(offset: int, len: int, spaceLeft: int) {
    (offset + len) % W64 < offset || (offset + len) % W64 > spaceLeft % W64
  }

  lemma {:induction false} NoRoomExactlyWhen(offset: int, len: int, spaceLeft: int)
    requires 0 <= offset < HALF && 0 <= len < W32 && -HALF <= spaceLeft < HALF
    ensures NoRoom(offset, len, spaceLeft) <==> 0 <= spaceLeft < offset + len
  {
    assert (offset + len) % W64 == offset + len;
    assert spaceLeft % W64 == if spaceLeft < 0 then spaceLeft + W64 else spaceLeft;
  }

  /** The room between the start of the tokens and the strings. */
  ghost function SpaceLeft(b: Blob): int
    reads b
  {
    b.totalSize - b.offStruct - b.sizeStrings
  }

  /**
   * _fdt_grab_space: the address of the space, or a negative number for the null pointer.  What it hands out ends
   * before the strings exactly when there is any room at all before it starts to count.
   */
  method GrabSpace(b: Blob, len: int) returns (p: int)
    requires 0 <= b.offStruct && 0 <= b.sizeStruct < HALF && -HALF <= SpaceLeft(b) < HALF && 0 <= len < W32
    modifies b`sizeStruct
    ensures p == -1 <==> 0 <= SpaceLeft(b) < old(b.sizeStruct) + len
    ensures p == -1 ==> b.sizeStruct == old(b.sizeStruct)
    ensures p != -1 ==> p == b.offStruct + old(b.sizeStruct) && b.sizeStruct == (old(b.sizeStruct) + len) % W32
    ensures p != -1 ==> (p + len <= b.totalSize - b.sizeStrings <==> 0 <= SpaceLeft(b))
    ensures p != -1 && 0 <= SpaceLeft(b) ==> b.sizeStruct == old(b.sizeStruct) + len
  {
    var offset := b.sizeStruct;
    var spaceLeft := b.totalSize - b.offStruct - b.sizeStrings;
    NoRoomExactlyWhen(offset, len, spaceLeft);
    if NoRoom(offset, len, spaceLeft) {
      return -1;
    }
    b.sizeStruct := (offset + len) % W32;
    p := b.offStruct + offset;
  }

  /** A buffer with room for the header and none for what follows is accepted, and space behind its end handed out. */
  method ShortBuffer(b: Blob, len: int) returns (err: int, p: int)
    requires 40 <= b.buf.Length < 48 && 0 <= len < W32
    modifies b, b.buf
    ensures err == 0 && p == 48 > b.buf.Length
  {
    err := Create(b, b.buf.Length);
    p := GrabSpace(b, len);
  }

  lemma {:induction false} NamePuts(m: Bytes, p: int, a: int, name: Bytes) returns (t: Token)
    requires 0 <= p && a == p + 4 && a + TagAlign(|name| + 1) <= |m| && 0 !in name
    ensures t.BeginNode? && t.name == name && TokenOk(t) && Size(t) == 4 + TagAlign(|name| + 1)
    ensures Part(Put(Put(m, p, Word(BEGIN_NODE)), a, name + [0]), p, Encode(t))
  {
    var e := name + [0];
    var m1 := Put(m, p, Word(BEGIN_NODE));
    var m' := Put(m1, a, e);
    var pad := PadAt(m', a, |e|);
    t := BeginNode(name, pad);
    PutPart(m, p, Word(BEGIN_NODE));
    PartKept(m1, a, e, p, Word(BEGIN_NODE));
    PutPart(m1, a, e);
    ValuePart(m', a, e);
    PartJoin(m', p, Word(BEGIN_NODE), a, e + pad);
    assert Encode(t) == Word(BEGIN_NODE) + (e + pad);
  }

  lemma {:induction false} PlainItem(t: Token, n: int, table: Bytes)
    requires TokenOk(t) && !t.Prop? && !t.End?
    ensures AllOk([t]) && NoEnd([t]) && Resolved(Fix([t], n), table) && Fix([t], n) == [t]
    ensures Items(Fix([t], n), table) == if t.Nop? then [] else [ItemOf(t, table)]
  {
    assert Fix([t], n) == [t];
    ItemsOne(t, table);
  }

  /** fdt_begin_node */
  method WriteBegin(b: Blob, name: Bytes, ghost items: seq<Item>) returns (err: int)
    requires (b.magic == SW_MAGIC ==> Writing(b, items)) && 0 !in name && |name| < HALF - 16
    modifies b.buf, b`sizeStruct, b`toks
    ensures b.magic != SW_MAGIC ==> err == -BADMAGIC
    ensures b.magic == SW_MAGIC ==>
              var len := 4 + TagAlign(|name| + 1);
              && err == (if len > old(Left(b)) then -NOSPACE else 0) && Table(b) == old(Table(b))
              && Left(b) == old(Left(b)) - (if err == 0 then len else 0)
              && Writing(b, if err == 0 then items + [Open(name)] else items)
    ensures b.Ahead() == old(b.Ahead())
  {
    if b.magic != SW_MAGIC {
      return -BADMAGIC;
    }
    var len := 4 + TagAlign(|name| + 1);
    var p := GrabSpace(b, len);
    if p < 0 {
      return -NOSPACE;
    }
    FillBegin(b, p, name, items);
    err := 0;
  }

  method FillBegin(b: Blob, p: int, name: Bytes, ghost items: seq<Item>)
    requires Reserved(b, items, 4 + TagAlign(|name| + 1)) && p == b.offStruct + Total(b.toks) && 0 !in name
    modifies b.buf, b`toks
    ensures Writing(b, items + [Open(name)]) && Table(b) == old(Table(b))
    ensures b.Ahead() == old(b.Ahead())
  {
    ghost var m, len := b.buf[..], 4 + TagAlign(|name| + 1);
    ghost var t := NamePuts(m, p, p + 4, name);
    WidenedStart(m, p, len);
    WidenedPut(m, m, p, len, len, |m|, p, Word(BEGIN_NODE));
    b.Memcpy(p, Word(BEGIN_NODE));
    WidenedPut(m, b.buf[..], p, len, len, |m|, p + 4, name + [0]);
    b.Memcpy(p + 4, name + [0]);
    SameFront(m, b.buf[..], p, b.offStruct);
    Wrote(m, b.buf[..], b.offStruct, So(b), b.sizeStrings, b.toks, items, p, len, t);
    b.toks := b.toks + [t];
  }

  /** A token other than a property has been written. */
  lemma {:induction false} Wrote(m: Bytes, m': Bytes, base: int, so: int, n: int, ts: seq<Token>, items: seq<Item>,
                                 p: int, len: int, t: Token)
    requires Draft(m, base, so, n, ts, items) && p == base + Total(ts) && 0 <= p && 0 <= n && so + n <= |m|
             && p + len <= so
    requires Widened(m, m', p, len, len, |m|) && Part(m', p, Encode(t)) && TokenOk(t) && len == Size(t)
             && !t.Prop? && Kept(t)
    ensures Draft(m', base, so, n, ts + [t], items + [ItemOf(t, [])]) && Total(ts + [t]) == Total(ts) + len
    ensures Slice(m', so, n) == Slice(m, so, n)
  {
    HoldsOne(m', p, t);
    TotalOne(t);
    TotalJoin(ts, [t]);
    PlainItem(t, n, Slice(m, so, n));
    DraftGrows(m, m', base, so, n, ts, items, p, len, [t], [ItemOf(t, [])]);
  }

  /** fdt_end_node */
  method WriteEnd(b: Blob, ghost items: seq<Item>) returns (err: int)
    requires b.magic == SW_MAGIC ==> Writing(b, items)
    modifies b.buf, b`sizeStruct, b`toks
    ensures b.magic != SW_MAGIC ==> err == -BADMAGIC
    ensures b.magic == SW_MAGIC ==>
              && err == (if 4 > old(Left(b)) then -NOSPACE else 0) && Table(b) == old(Table(b))
              && Left(b) == old(Left(b)) - (if err == 0 then 4 else 0)
              && Writing(b, if err == 0 then items + [Close] else items)
    ensures b.Ahead() == old(b.Ahead())
  {
    if b.magic != SW_MAGIC {
      return -BADMAGIC;
    }
    var p := GrabSpace(b, 4);
    if p < 0 {
      return -NOSPACE;
    }
    ghost var m, t := b.buf[..], EndNode;
    WidenedStart(m, p, 4);
    WidenedPut(m, m, p, 4, 4, |m|, p, Word(END_NODE));
    PutPart(m, p, Word(END_NODE));
    PutFront(m, p, Word(END_NODE), b.offStruct);
    b.Memcpy(p, Word(END_NODE));
    Wrote(m, b.buf[..], b.offStruct, So(b), b.sizeStrings, b.toks, items, p, 4, t);
    b.toks := b.toks + [t];
    err := 0;
  }

  /** _fdt_find_add_string: the offset from the end, or 0 if there is no room */
  method FindAddString(b: Blob, s: Bytes, ghost items: seq<Item>) returns (r: int)
    requires Writing(b, items) && 0 !in s
    modifies b.buf, b`sizeStrings
    ensures Writing(b, items) && b.sizeStrings >= old(b.sizeStrings)
    ensures r == 0 <==> old(!Spelled(Table(b), s) && |s| + 1 > Left(b))
    ensures r != 0 ==> -b.sizeStrings <= r < 0 && StringAt(Table(b), b.sizeStrings + r, s)
    ensures r != 0 ==> forall o :: 0 <= o < b.sizeStrings + r ==> !StringAt(Table(b), o, s)
    ensures Table(b) == old(if r != 0 then Grown(Table(b), s) else Table(b))
    ensures Left(b) == old(Left(b) - if !Spelled(Table(b), s) && |s| + 1 <= Left(b) then |s| + 1 else 0)
    ensures b.Ahead() == old(b.Ahead())
  {
    var n, end, len := b.sizeStrings, b.totalSize, |s| + 1;
    var p := FindString(b.buf[end - n..end], s);
    assert b.buf[end - n..end] == Table(b);
    if p >= 0 {
      assert StringAt(Table(b), p, s);
      return p - n;
    }
    assert !Spelled(Table(b), s);
    var offset := -n - len;
    var structTop := b.offStruct + b.sizeStruct;
    if end + offset < structTop {
      return 0;
    }
    PutString(b, end + offset, s, items);
    r := offset;
  }

  method PutString(b: Blob, a: int, s: Bytes, ghost items: seq<Item>)
    requires Writing(b, items) && 0 !in s && a + (|s| + 1) == So(b) && b.offStruct + b.sizeStruct <= a
    modifies b.buf, b`sizeStrings
    ensures Writing(b, items) && b.sizeStrings == old(b.sizeStrings) + |s| + 1 && StringAt(Table(b), 0, s)
    ensures Table(b) == (s + [0]) + old(Table(b))
    ensures b.Ahead() == old(b.Ahead())
  {
    var n := b.sizeStrings + (|s| + 1);
    DraftString(b.buf[..], b.offStruct, So(b), b.sizeStrings, b.toks, items, a, s + [0], n);
    StringFirst(Table(b), s);
    PutFront(b.buf[..], a, s + [0], b.offStruct);
    b.Memcpy(a, s + [0]);
    b.sizeStrings := n;
  }

  /** The strings written so far. */
  ghost function Table(b: Blob): Bytes
    requires 0 <= b.sizeStrings <= b.totalSize <= b.buf.Length
    reads b, b.buf
  {
    Slice(b.buf[..], So(b), b.sizeStrings)
  }

  /** The strings with one that was not among them put before them. */
  ghost function Grown(table: Bytes, s: Bytes): Bytes {
    if Spelled(table, s) then table else (s + [0]) + table
  }

  lemma {:induction false} StringFirst(table: Bytes, s: Bytes)
    requires 0 !in s
    ensures StringAt((s + [0]) + table, 0, s)
  {
    var t := (s + [0]) + table;
    assert t[0..|s|] == s && t[|s|] == 0;
  }

  lemma {:induction false} FromEnd(n: int, r: int)
    requires -n <= r < 0 && n < HALF
    ensures (r % W32 + n) % W32 == n + r
  {
    assert r % W32 == W32 + r;
    assert W32 + r + n - W32 == n + r;
  }

  lemma {:induction false} PropItem(t: Token, n: int, table: Bytes, name: Bytes, r: int, o: int)
    requires t.Prop? && t.nameoff == r % W32 && -n <= r < 0 && |table| == n < HALF && o == n + r
             && StringAt(table, o, name)
    requires |t.value| < W32 / 2 && |t.value| + |t.pad| == TagAlign(|t.value|)
    ensures AllOk([t]) && NoEnd([t]) && Resolved(Fix([t], n), table)
    ensures Items(Fix([t], n), table) == [Attr(Property(name, t.value))]
  {
    FromEnd(n, r);
    RefItem(t, FixToken(t, n), n, table, name);
  }

  lemma {:induction false} RefItem(t: Token, u: Token, n: int, table: Bytes, name: Bytes)
    requires t.Prop? && u == FixToken(t, n) && StringAt(table, u.nameoff, name)
    requires 0 <= t.nameoff < W32 && |t.value| < W32 / 2 && |t.value| + |t.pad| == TagAlign(|t.value|)
    ensures AllOk([t]) && NoEnd([t]) && Resolved(Fix([t], n), table)
    ensures Items(Fix([t], n), table) == [Attr(Property(name, t.value))]
  {
    assert Fix([t], n) == [u];
    NameAtIs(table, u.nameoff, name);
    ItemsOne(u, table);
  }

  /** A property has been written. */
  lemma {:induction false} WroteProp(m: Bytes, m': Bytes, base: int, so: int, n: int, ts: seq<Token>,
                                     items: seq<Item>, p: int, len: int, t: Token,
                                     name: Bytes, r: int, o: int)
    requires Draft(m, base, so, n, ts, items) && p == base + Total(ts) && 0 <= p && 0 <= n < HALF && so + n <= |m|
             && p + len <= so
    requires Widened(m, m', p, len, len, |m|) && Part(m', p, Encode(t)) && len == Size(t)
    requires t.Prop? && t.nameoff == r % W32 && |t.value| < W32 / 2 && |t.value| + |t.pad| == TagAlign(|t.value|)
    requires -n <= r < 0 && o == n + r && StringAt(Slice(m, so, n), o, name)
    ensures Draft(m', base, so, n, ts + [t], items + [Attr(Property(name, t.value))])
            && Total(ts + [t]) == Total(ts) + len && Slice(m', so, n) == Slice(m, so, n)
  {
    HoldsOne(m', p, t);
    TotalOne(t);
    TotalJoin(ts, [t]);
    PropItem(t, n, Slice(m, so, n), name, r, o);
    DraftGrows(m, m', base, so, n, ts, items, p, len, [t], [Attr(Property(name, t.value))]);
  }

  /** The fields of a new property, written into the space for it. */
  method PutProp(b: Blob, p: int, len: int, nameoff: int, val: Bytes) returns (ghost t: Token)
    requires 0 <= p && len == 12 + TagAlign(|val|) && p + len <= b.buf.Length
    modifies b.buf
    ensures t.Prop? && t.nameoff == nameoff && t.value == val && |val| + |t.pad| == TagAlign(|val|)
    ensures Part(b.buf[..], p, Encode(t)) && Widened(old(b.buf[..]), b.buf[..], p, len, len, b.buf.Length)
  {
    ghost var m := b.buf[..];
    var a4, a8, a12 := p + 4, p + 8, p + 12;
    WidenedStart(m, p, len);
    WidenedPut(m, b.buf[..], p, len, len, |m|, p, Word(PROP));
    b.Memcpy(p, Word(PROP));
    WidenedPut(m, b.buf[..], p, len, len, |m|, a8, Word(nameoff));
    b.Memcpy(a8, Word(nameoff));
    WidenedPut(m, b.buf[..], p, len, len, |m|, a4, Word(|val|));
    b.Memcpy(a4, Word(|val|));
    WidenedPut(m, b.buf[..], p, len, len, |m|, a12, val);
    b.Memcpy(a12, val);
    t := Prop(nameoff, val, PadAt(b.buf[..], a12, |val|));
    PropPuts(m, p, nameoff, val, a4, a8, a12);
  }

  /** fdt_property */
  method WriteProperty(b: Blob, name: Bytes, val: Bytes, ghost items: seq<Item>) returns (err: int)
    requires (b.magic == SW_MAGIC ==> Writing(b, items)) && 0 !in name && |val| < HALF - 16
    modifies b.buf, b`sizeStruct, b`sizeStrings, b`toks
    ensures b.magic != SW_MAGIC ==> err == -BADMAGIC
    ensures b.magic == SW_MAGIC ==>
              var more := old(if Spelled(Table(b), name) then 0 else |name| + 1);
              var len := 12 + TagAlign(|val|);
              && err == (if len + more > old(Left(b)) then -NOSPACE else 0)
              && Writing(b, if err == 0 then items + [Attr(Property(name, val))] else items)
              && Table(b) == old(if more <= Left(b) then Grown(Table(b), name) else Table(b))
              && Left(b) == old(Left(b)) - (if err == 0 then len + more else if more <= old(Left(b)) then more else 0)
    ensures b.Ahead() == old(b.Ahead())
  {
    if b.magic != SW_MAGIC {
      return -BADMAGIC;
    }
    var nameoff := FindAddString(b, name, items);
    if nameoff == 0 {
      return -NOSPACE;
    }
    err := Placeholder(b, nameoff, val, name, items);
  }

  /** The part of fdt_property_placeholder after the search for the name, and the copy that follows it */
  method Placeholder(b: Blob, nameoff: int, val: Bytes, ghost name: Bytes, ghost items: seq<Item>) returns (err: int)
    requires Writing(b, items) && -b.sizeStrings <= nameoff < 0
             && StringAt(Table(b), b.sizeStrings + nameoff, name) && |val| < HALF - 16
    modifies b.buf, b`sizeStruct, b`toks
    ensures err == (if 12 + TagAlign(|val|) > old(Left(b)) then -NOSPACE else 0) && Table(b) == old(Table(b))
    ensures Left(b) == old(Left(b)) - if err == 0 then 12 + TagAlign(|val|) else 0
    ensures Writing(b, if err == 0 then items + [Attr(Property(name, val))] else items)
    ensures b.Ahead() == old(b.Ahead())
  {
    var p := GrabSpace(b, 12 + TagAlign(|val|));
    if p < 0 {
      return -NOSPACE;
    }
    FillProp(b, p, nameoff, val, name, items);
    err := 0;
  }

  /** The tokens written so far are followed by space that has been reserved. */
  ghost predicate Reserved(b: Blob, items: seq<Item>, len: int)
    reads b, b.buf
  {
    && b.magic == SW_MAGIC && b.version == 17 && b.lastComp == 16 && b.offRsv == 48 && 48 <= b.offStruct
    && 0 <= len && b.sizeStruct == Total(b.toks) + len && 0 <= b.sizeStrings
    && b.offStruct + b.sizeStruct + b.sizeStrings <= b.totalSize <= b.buf.Length < HALF
    && Draft(b.buf[..], b.offStruct, So(b), b.sizeStrings, b.toks, items)
  }

  method FillProp(b: Blob, p: int, nameoff: int, val: Bytes, ghost name: Bytes, ghost items: seq<Item>)
    requires Reserved(b, items, 12 + TagAlign(|val|)) && p == b.offStruct + Total(b.toks) && |val| < HALF - 16
    requires -b.sizeStrings <= nameoff < 0 && StringAt(Table(b), b.sizeStrings + nameoff, name)
    modifies b.buf, b`toks
    ensures Writing(b, items + [Attr(Property(name, val))]) && Table(b) == old(Table(b))
    ensures b.Ahead() == old(b.Ahead())
  {
    var len := 12 + TagAlign(|val|);
    ghost var m := b.buf[..];
    ghost var t := PutProp(b, p, len, nameoff % W32, val);
    SameFront(m, b.buf[..], p, b.offStruct);
    WroteProp(m, b.buf[..], b.offStruct, So(b), b.sizeStrings, b.toks, items, p, len, t, name, nameoff,
      b.sizeStrings + nameoff);
    b.toks := b.toks + [t];
  }

  // ----- Finishing -----

  lemma {:induction false} EndWritten(m: Bytes, base: int, so: int, n: int, ts: seq<Token>, items: seq<Item>, p: int)
    requires Draft(m, base, so, n, ts, items) && 0 <= so && 0 <= n && so + n <= |m| && p == base + Total(ts)
             && p + 4 <= so && 0 <= p
    ensures var m1 := Put(m, p, Word(END));
            && Holds(m1, base, ts + [End]) && Total(ts + [End]) == Total(ts) + 4
            && Slice(m1, so, n) == Slice(m, so, n)
  {
    assert Imaged(ts);
    var m1 := Put(m, p, Word(END));
    PutPart(m, p, Word(END));
    PutSame(m, p, Word(END), base, Total(ts));
    PutSame(m, p, Word(END), so, n);
    SameSlice(m, so, m1, so, n);
    HoldsMoved(m, base, m1, base, ts);
    HoldsOne(m1, p, End);
    TotalOne(End);
    HoldsJoin(m1, base, ts, [End]);
    TotalJoin(ts, [End]);
  }

  lemma {:induction false} StringsMoved(m: Bytes, base: int, ts: seq<Token>, q: int, table: Bytes)
    requires Holds(m, base, ts) && base + Total(ts) <= q && q + |table| <= |m|
    ensures var m2 := Put(m, q, table); Holds(m2, base, ts) && Slice(m2, q, |table|) == table
  {
    var m2 := Put(m, q, table);
    PutSame(m, q, table, base, Total(ts));
    HoldsMoved(m, base, m2, base, ts);
    PutPart(m, q, table);
    PartSlice(m2, q, table);
  }

  /** The end token is written and the strings are moved behind it. */
  lemma {:induction false} Closed(m: Bytes, base: int, so: int, n: int, ts: seq<Token>, items: seq<Item>, p: int,
                                  q: int)
    requires Draft(m, base, so, n, ts, items) && 0 <= so && 0 <= n && so + n <= |m| && p == base + Total(ts)
             && q == p + 4 <= so && 0 <= p
    ensures var m1 := Put(m, p, Word(END)); var table := Slice(m, so, n);
            && Slice(m1, so, n) == table
            && var m2 := Put(m1, q, table);
               && Holds(m2, base, ts + [End]) && Total(ts + [End]) == Total(ts) + 4 && AllOk(ts + [End])
                  && Slice(m2, q, n) == table
  {
    EndWritten(m, base, so, n, ts, items, p);
    StringsMoved(Put(m, p, Word(END)), base, ts + [End], q, Slice(m, so, n));
    assert Imaged(ts);
  }

  /** The tokens, the first c of them corrected. */
  ghost function Half(ts: seq<Token>, c: int, n: int): (us: seq<Token>)
    requires 0 <= c <= |ts|
    ensures |us| == |ts|
  {
    Fix(ts[..c], n) + ts[c..]
  }

  lemma {:induction false} HalfStep(ts: seq<Token>, c: int, n: int)
    requires 0 <= c < |ts|
    ensures Half(ts, c, n)[c] == ts[c] && Half(ts, c, n)[c := FixToken(ts[c], n)] == Half(ts, c + 1, n)
  {
    var us, vs := Half(ts, c, n)[c := FixToken(ts[c], n)], Half(ts, c + 1, n);
    forall i | 0 <= i < |us| ensures us[i] == vs[i] {
      if i < c {
        assert us[i] == Fix(ts[..c], n)[i] && vs[i] == Fix(ts[..c + 1], n)[i];
      } else if i == c {
        assert vs[i] == Fix(ts[..c + 1], n)[c];
      } else {
        assert us[i] == ts[c..][i - c] && vs[i] == ts[c + 1..][i - c - 1];
      }
    }
  }

  lemma {:induction false} HalfEnds(ts: seq<Token>, n: int)
    ensures Half(ts, 0, n) == ts && Half(ts, |ts|, n) == Fix(ts, n)
  {
    assert ts[..|ts|] == ts && ts[..0] == [] && Fix([], n) == [] && ts[|ts|..] == [];
  }

  /** One token in place of another of the same size. */
  lemma {:induction false} TokenReplaced(m: Bytes, m': Bytes, a: int, ts: seq<Token>, c: int, u: Token, p: int)
    requires Holds(m, a, ts) && AllOk(ts) && 0 <= c < |ts| && p == a + Offset(ts, c) && Size(u) == Size(ts[c])
             && TokenOk(u)
    requires Widened(m, m', p, Size(u), Size(u), |m|) && Part(m', p, Encode(u))
    ensures Holds(m', a, ts[c := u]) && Total(ts[c := u]) == Total(ts) && AllOk(ts[c := u])
    ensures Offset(ts[c := u], c) == Offset(ts, c) && Offset(ts[c := u], c + 1) == Offset(ts, c + 1)
  {
    OffsetStep(ts, c);
    HoldsOne(m', p, u);
    TotalOne(u);
    HoldsSpliced(m, m', a, ts, c, c + 1, [u], p, Size(u), Size(u), |m|);
    assert ts[c := u] == ts[..c] + [u] + ts[c + 1..];
    assert ts[c := u][..c] == ts[..c];
    OffsetStep(ts[c := u], c);
  }

  /** The parts of a property that do not name it. */
  lemma {:induction false} RefParts(m: Bytes, p: int, t: Token, a4: int, a12: int)
    requires Written(m, p, t) && t.Prop? && a4 == p + 4 && a12 == p + 12
    ensures 0 <= p && p + Size(t) <= |m| && 12 <= Size(t)
    ensures Part(m, p, Word(PROP)) && Part(m, a4, Word(|t.value|)) && Part(m, a12, t.value + t.pad)
  {
    assert Shown(m);
    var e := Encode(t);
    assert e[0..4] == Word(PROP) && e[4..8] == Word(|t.value|) && e[12..] == t.value + t.pad;
    PartSlice(e, 0, Word(PROP));
    PartSlice(e, 4, Word(|t.value|));
    PartSlice(e, 12, t.value + t.pad);
    PartIn(m, p, e, 0, Word(PROP));
    PartIn(m, p, e, 4, Word(|t.value|));
    PartIn(m, p, e, 12, t.value + t.pad);
  }

  lemma {:induction false} RefPut(m: Bytes, p: int, t: Token, y: int, a8: int)
    requires Written(m, p, t) && t.Prop? && a8 == p + 8
    ensures a8 + 4 <= |m| && Part(Put(m, a8, Word(y)), p, Encode(Prop(y, t.value, t.pad)))
    ensures Widened(m, Put(m, a8, Word(y)), p, Size(t), Size(t), |m|)
  {
    var a4, a12, m' := p + 4, p + 12, Put(m, a8, Word(y));
    RefParts(m, p, t, a4, a12);
    PutPart(m, a8, Word(y));
    PartKept(m, a8, Word(y), p, Word(PROP));
    PartKept(m, a8, Word(y), a4, Word(|t.value|));
    PartKept(m, a8, Word(y), a12, t.value + t.pad);
    PropWritten(m', p, y, t.value, t.pad, a4, a8, a12);
    WidenedStart(m, p, Size(t));
    WidenedPut(m, m, p, Size(t), Size(t), |m|, a8, Word(y));
  }

  lemma {:induction false} RefCorrected(m: Bytes, base: int, so: int, n: int, ts: seq<Token>, c: int, u: Token,
                                        p: int, at: int)
    requires Holds(m, base, ts) && AllOk(ts) && 0 <= c < |ts| && ts[c].Prop? && u == FixToken(ts[c], n)
    requires p == base + Offset(ts, c) && at == p + 8 && base + Total(ts) <= so && 0 <= n && so + n <= |m|
    ensures 0 <= at && at + 4 <= |m|
    ensures var m', us := Put(m, at, Word(u.nameoff)), ts[c := u];
            && Holds(m', base, us) && AllOk(us) && Total(us) == Total(ts) && Offset(us, c + 1) == Offset(ts, c + 1)
            && Slice(m', so, n) == Slice(m, so, n)
  {
    HoldsAt(m, base, ts, c);
    assert TokenOk(ts[c]);
    RefPut(m, p, ts[c], u.nameoff, at);
    var m' := Put(m, at, Word(u.nameoff));
    TokenReplaced(m, m', base, ts, c, u, p);
    PutSame(m, at, Word(u.nameoff), so, n);
    SameSlice(m, so, m', so, n);
  }

  /** The strings where fdt_finish has moved them. */
  ghost function Moved(b: Blob): Bytes
    requires b.Laid()
    reads b, b.buf
  {
    Slice(b.buf[..], b.offStrings, b.sizeStrings)
  }

  /** Corrects the reference of property token c. */
  method CorrectOne(b: Blob, offset: int, ghost c: int)
    requires b.Tokens() && 0 <= c < |b.toks| && b.toks[c].Prop? && offset == Offset(b.toks, c)
    requires b.offStruct + b.sizeStruct <= b.offStrings
    modifies b.buf, b`toks
    ensures b.Tokens() && b.toks == old(b.toks[c := FixToken(b.toks[c], b.sizeStrings)]) && Moved(b) == old(Moved(b))
    ensures Offset(b.toks, c + 1) == old(Offset(b.toks, c + 1))
    ensures b.Ahead() == old(b.Ahead())
  {
    var nameoff := b.ReadNameOff(offset, c);
    var p := b.offStruct + offset;
    PutRef(b, p + 8, (nameoff + b.sizeStrings) % W32, c, FixToken(b.toks[c], b.sizeStrings), p);
  }

  /** Writes the reference y of property token c, which then is u. */
  method PutRef(b: Blob, at: int, y: int, ghost c: int, ghost u: Token, ghost p: int)
    requires b.Tokens() && 0 <= c < |b.toks| && b.toks[c].Prop? && u == FixToken(b.toks[c], b.sizeStrings)
    requires u.nameoff == y && p == b.offStruct + Offset(b.toks, c) && at == p + 8
    requires b.offStruct + b.sizeStruct <= b.offStrings
    modifies b.buf, b`toks
    ensures b.Tokens() && b.toks == old(b.toks)[c := u] && Moved(b) == old(Moved(b))
    ensures Offset(b.toks, c + 1) == old(Offset(b.toks, c + 1))
    ensures b.Ahead() == old(b.Ahead())
  {
    RefCorrected(b.buf[..], b.offStruct, b.offStrings, b.sizeStrings, b.toks, c, u, p, at);
    PutFront(b.buf[..], at, Word(y), b.offStruct);
    b.Memcpy(at, Word(y));
    b.toks := b.toks[c := u];
  }

  /** One turn of the loop of fdt_finish. */
  method CorrectNext(b: Blob, offset: int, tag: int, ghost c: int, ghost ts: seq<Token>)
    requires b.Tokens() && b.offStruct + b.sizeStruct <= b.offStrings && 0 <= c < |ts|
             && b.toks == Half(ts, c, b.sizeStrings)
    requires offset == Offset(b.toks, c) && tag == Tag(ts[c])
    modifies b.buf, b`toks
    ensures b.Tokens() && b.toks == Half(ts, c + 1, b.sizeStrings) && Moved(b) == old(Moved(b))
    ensures Offset(b.toks, c + 1) == old(Offset(b.toks, c + 1)) && (c + 1 < |ts| ==> b.toks[c + 1] == ts[c + 1])
    ensures b.Ahead() == old(b.Ahead())
  {
    HalfStep(ts, c, b.sizeStrings);
    if c + 1 < |ts| {
      HalfStep(ts, c + 1, b.sizeStrings);
    }
    if tag == PROP {
      CorrectOne(b, offset, c);
    } else {
      assert b.toks[c := ts[c]] == b.toks;
    }
  }

  /** The end token is the last one and no other. */
  ghost predicate Ended(ts: seq<Token>) {
    |ts| > 0 && forall i {:trigger ts[i].End?} :: 0 <= i < |ts| ==> (ts[i].End? <==> i == |ts| - 1)
  }

  lemma {:induction false} HalfLast(ts: seq<Token>, c: int, n: int)
    requires 0 <= c < |ts| && Ended(ts) && ts[c].End?
    ensures Half(ts, c, n) == Fix(ts, n)
  {
    HalfStep(ts, c, n);
    HalfEnds(ts, n);
    assert Half(ts, c, n)[c := ts[c]] == Half(ts, c, n);
  }

  method Peek(b: Blob, offset: int, ghost c: int) returns (tag: int, next: int)
    requires b.Tokens() && 0 <= c < |b.toks| && offset == Offset(b.toks, c)
    ensures tag == Tag(b.toks[c]) && next == Offset(b.toks, c + 1)
  {
    b.PointsAt(c);
    tag, next := b.NextTag(offset, c);
  }

  /** The loop of fdt_finish that corrects the references */
  method Correct(b: Blob)
    requires b.Tokens() && b.offStruct + b.sizeStruct <= b.offStrings && Ended(b.toks)
    modifies b.buf, b`toks
    ensures b.Tokens() && b.toks == Fix(old(b.toks), b.sizeStrings) && Moved(b) == old(Moved(b))
    ensures b.Ahead() == old(b.Ahead())
  {
    ghost var ts, n, c := b.toks, b.sizeStrings, 0;
    HalfEnds(ts, n);
    OffsetZero(b.toks);
    var offset := 0;
    var tag, next := Peek(b, offset, 0);
    while tag != END
      invariant b.Tokens() && 0 <= c < |ts| && b.toks == Half(ts, c, n) && b.toks[c] == ts[c]
                && Moved(b) == old(Moved(b)) && b.Ahead() == old(b.Ahead())
      invariant offset == Offset(b.toks, c) && tag == Tag(ts[c]) && next == Offset(b.toks, c + 1)
      decreases |ts| - c
    {
      assert !ts[c].End?;
      CorrectNext(b, offset, tag, c, ts);
      offset := next;
      c := c + 1;
      tag, next := Peek(b, offset, c);
    }
    HalfLast(ts, c, n);
  }

  lemma {:induction false} DraftEnded(m: Bytes, base: int, so: int, n: int, ts: seq<Token>, items: seq<Item>)
    requires Draft(m, base, so, n, ts, items)
    ensures Ended(ts + [End])
  {
    assert Imaged(ts);
    var us := ts + [End];
    forall i {:trigger us[i].End?} | 0 <= i < |us| ensures us[i].End? <==> i == |us| - 1 {
      assert i < |ts| ==> us[i] == ts[i];
    }
  }

  /** The corrected tokens stand for the tree whose items were written. */
  lemma {:induction false} DraftStands(m: Bytes, base: int, so: int, n: int, ts: seq<Token>, items: seq<Item>,
                                       table: Bytes, f: Forest)
    requires Draft(m, base, so, n, ts, items) && 0 <= so && 0 <= n && so + n <= |m| && table == Slice(m, so, n)
             && items == Flatten(f)
    ensures Stands(Fix(ts + [End], n), table, f)
  {
    assert Imaged(ts);
    var us, e := Fix(ts + [End], n), [End];
    FixJoin(ts, e, n);
    assert Fix(e, n) == e;
    assert us == Fix(ts, n) + e;
    ItemsJoin(Fix(ts, n), e, table);
    ItemsOne(End, table);
    ResolvedJoin(Fix(ts, n), e, table);
    DraftEnded(m, base, so, n, ts, items);
    FixedEnded(ts, n);
  }

  /** Corrected tokens are in order, and the end token is still the last one. */
  lemma {:induction false} FixedEnded(ts: seq<Token>, n: int)
    requires AllOk(ts) && Ended(ts + [End])
    ensures AllOk(Fix(ts + [End], n)) && Ended(Fix(ts + [End], n))
  {
    var vs := ts + [End];
    var us := Fix(vs, n);
    forall i {:trigger us[i]} | 0 <= i < |us| ensures TokenOk(us[i]) && (us[i].End? <==> i == |us| - 1) {
      var t := vs[i];
      assert us[i] == FixToken(t, n) && (i < |ts| ==> t == ts[i] && TokenOk(ts[i]));
      assert t.End? <==> i == |us| - 1;
    }
  }

  method MoveBlock(b: Blob, dst: int, src: int, n: int)
    requires 0 <= dst && 0 <= src && 0 <= n && dst + n <= b.buf.Length && src + n <= b.buf.Length
    modifies b.buf
    ensures b.buf[..] == Put(old(b.buf[..]), dst, Slice(old(b.buf[..]), src, n))
  {
    assert b.buf[src..src + n] == b.buf[..][src..src + n];
    b.Memmove(dst, src, n);
  }

  /** The first half of fdt_finish: the end token is written and the strings are moved. */
  method Terminate(b: Blob, p: int, ghost items: seq<Item>)
    requires Reserved(b, items, 4) && p == b.offStruct + Total(b.toks)
    modifies b.buf, b`offStrings, b`toks
    ensures b.Tokens() && b.toks == old(b.toks) + [End] && b.offStrings == b.offStruct + b.sizeStruct && Ended(b.toks)
    ensures Moved(b) == old(Table(b))
    ensures b.Ahead() == old(b.Ahead())
  {
    ghost var m := b.buf[..];
    var oldOffset, newOffset := b.totalSize - b.sizeStrings, b.offStruct + b.sizeStruct;
    Closed(m, b.offStruct, oldOffset, b.sizeStrings, b.toks, items, p, newOffset);
    DraftEnded(m, b.offStruct, oldOffset, b.sizeStrings, b.toks, items);
    PutFront(m, p, Word(END), b.offStruct);
    b.Memcpy(p, Word(END));
    PutFront(b.buf[..], newOffset, Slice(b.buf[..], oldOffset, b.sizeStrings), b.offStruct);
    MoveBlock(b, newOffset, oldOffset, b.sizeStrings);
    b.offStrings := newOffset;
    b.toks := b.toks + [End];
  }

  /** The part of fdt_finish between the search for room and the header. */
  method Settle(b: Blob, p: int, ghost items: seq<Item>, ghost f: Forest)
    requires Reserved(b, items, 4) && p == b.offStruct + Total(b.toks)
    modifies b.buf, b`offStrings, b`toks
    ensures b.sizeStruct == Total(b.toks) && b.offStrings == b.offStruct + b.sizeStruct
    ensures items == Flatten(f) ==> Image(b.buf[..], b.offStruct, b.offStrings, b.sizeStrings, b.toks, f)
    ensures b.Ahead() == old(b.Ahead())
  {
    ghost var m, ts, so, n := b.buf[..], b.toks, So(b), b.sizeStrings;
    Terminate(b, p, items);
    Correct(b);
    if items == Flatten(f) {
      DraftStands(m, b.offStruct, so, n, ts, items, Slice(m, so, n), f);
      assert ImageOpen(b.buf[..], b.offStruct, b.offStrings, b.sizeStrings, b.toks, f);
    }
  }

  /** fdt_finish */
  method Finish(b: Blob, ghost items: seq<Item>, ghost f: Forest) returns (err: int)
    requires b.magic == SW_MAGIC ==> Writing(b, items)
    modifies b.buf, b`magic, b`totalSize, b`sizeStruct, b`offStrings, b`toks, b`forest
    ensures old(b.magic) != SW_MAGIC ==> err == -BADMAGIC
    ensures old(b.magic) == SW_MAGIC ==>
              err == (if 4 > old(Left(b)) then -NOSPACE else 0) && (err != 0 ==> Writing(b, items))
    ensures err == 0 && items == Flatten(f) ==>
              b.Valid() && b.forest == f && b.Free() == 0 && (64 <= b.offStruct ==> b.Ordered())
    ensures b.Ahead() == old(b.Ahead())
  {
    if b.magic != SW_MAGIC {
      return -BADMAGIC;
    }
    var p := GrabSpace(b, 4);
    if p < 0 {
      return -NOSPACE;
    }
    Settle(b, p, items, f);
    b.totalSize := b.offStrings + b.sizeStrings;
    b.magic := MAGIC;
    b.forest := f;
    err := 0;
  }

  /** A string that a failed fdt_property left behind is overwritten by the entry that follows. */
  method LateEntry(b: Blob, name: Bytes, entry: Bytes) returns (failed: int, err: int)
    requires 64 <= b.buf.Length < HALF && 48 + |name| + 1 == b.buf.Length && 0 !in name && |entry| == 16
    modifies b, b.buf
    ensures failed == -NOSPACE && err == 0 && !Writing(b, [])
  {
    err := Create(b, b.buf.Length);
    NothingSpelled(Table(b), name);
    failed := WriteProperty(b, name, [], []);
    err := AddReservemapEntry(b, entry, []);
  }

  lemma {:induction false} NothingSpelled(table: Bytes, s: Bytes)
    requires |table| == 0
    ensures !Spelled(table, s)
  {
  }

  // ----- Whole runs -----

  /** The bytes that the call for an item takes, after the strings of the calls before it. */
  ghost function Cost(item: Item, table: Bytes): nat {
    match item
    case Open(name) => 4 + TagAlign(|name| + 1)
    case Attr(p) => 12 + TagAlign(|p.value|) + if Spelled(table, p.name) then 0 else |p.name| + 1
    case Close => 4
  }

  ghost function Strings(item: Item, table: Bytes): Bytes {
    if item.Attr? then Grown(table, item.prop.name) else table
  }

  /** The bytes that a sequence of calls takes. */
  ghost function Costs(calls: seq<Item>, table: Bytes): nat
    decreases |calls|
  {
    if |calls| == 0 then 0 else Cost(calls[0], table) + Costs(calls[1..], Strings(calls[0], table))
  }

  /** The call that writes an item. */
  method WriteItem(b: Blob, item: Item, ghost items: seq<Item>) returns (err: int)
    requires Writing(b, items) && Writable(item)
    modifies b.buf, b`sizeStruct, b`sizeStrings, b`toks
    ensures err == old(if Cost(item, Table(b)) > Left(b) then -NOSPACE else 0)
    ensures Writing(b, if err == 0 then items + [item] else items)
    ensures err == 0 ==> Left(b) == old(Left(b) - Cost(item, Table(b))) && Table(b) == old(Strings(item, Table(b)))
    ensures b.Ahead() == old(b.Ahead())
  {
    match item {
      case Open(name) => err := WriteBegin(b, name, items);
      case Attr(p) => err := WriteProperty(b, p.name, p.value, items);
      case Close => err := WriteEnd(b, items);
    }
  }

  /** Names have no zero byte, and lengths are ints. */
  predicate Writable(item: Item) {
    match item
    case Open(name) => 0 !in name && |name| < HALF - 16
    case Attr(p) => 0 !in p.name && |p.value| < HALF - 16
    case Close => true
  }

  /** The calls up to call i are written, and the room that is left is what the buffer has beyond them. */
  ghost predicate Underway(b: Blob, rsv: seq<Bytes>, calls: seq<Item>, i: int)
    reads b, b.buf
  {
    && 0 <= i <= |calls| && Writing(b, calls[..i]) && b.offStruct == 64 + 16 * |rsv|
    && Left(b) - Costs(calls[i..], Table(b)) == b.buf.Length - b.offStruct - Costs(calls, [])
    && b.Ahead()[48..] == Joined(rsv + [Zeros(16)])
  }

  method WriteNext(b: Blob, ghost rsv: seq<Bytes>, calls: seq<Item>, i: int) returns (err: int)
    requires Underway(b, rsv, calls, i) && i < |calls| && Writable(calls[i])
    modifies b.buf, b`sizeStruct, b`sizeStrings, b`toks
    ensures err == 0 ==> Underway(b, rsv, calls, i + 1)
    ensures err != 0 ==> err == -NOSPACE && b.buf.Length - b.offStruct < Costs(calls, [])
  {
    assert calls[i..][0] == calls[i] && calls[i..][1..] == calls[i + 1..];
    assert calls[..i + 1] == calls[..i] + [calls[i]];
    err := WriteItem(b, calls[i], calls[..i]);
  }

  /** The writer has been created and has stored these entries. */
  ghost predicate Opening(b: Blob, es: seq<Bytes>)
    reads b, b.buf
  {
    && b.magic == SW_MAGIC && b.offStruct == 48 + 16 * |es| && b.sizeStruct == 0 && b.sizeStrings == 0
    && b.totalSize == b.buf.Length < HALF
    && if b.buf.Length < 48 then es == [] else Writing(b, []) && b.Ahead()[48..] == Joined(es)
  }

  method AddEntry(b: Blob, e: Bytes, ghost es: seq<Bytes>) returns (err: int)
    requires Opening(b, es) && |e| == 16
    modifies b.buf, b`offStruct
    ensures err == if b.buf.Length < 64 + 16 * |es| then -NOSPACE else 0
    ensures err == 0 ==> Opening(b, es + [e])
  {
    ghost var front := b.Ahead();
    JoinedMore(es, e);
    err := AddReservemapEntry(b, e, []);
    assert err == 0 ==> (front + e)[48..] == front[48..] + e;
  }

  /** fdt_create, fdt_add_reservemap_entry for each entry, and fdt_finish_reservemap */
  method Start(b: Blob, rsv: seq<Bytes>, ghost calls: seq<Item>) returns (err: int)
    requires Entries(rsv) && b.buf.Length < HALF
    modifies b, b.buf
    ensures err == if b.buf.Length < 64 + 16 * |rsv| then -NOSPACE else 0
    ensures err == 0 ==> Underway(b, rsv, calls, 0)
  {
    err := Create(b, b.buf.Length);
    if err != 0 {
      return;
    }
    var i := 0;
    assert rsv[..0] == [];
    while i < |rsv|
      invariant 0 <= i <= |rsv| && Opening(b, rsv[..i])
    {
      assert rsv[..i + 1] == rsv[..i] + [rsv[i]];
      err := AddEntry(b, rsv[i], rsv[..i]);
      if err != 0 {
        return;
      }
      i := i + 1;
    }
    assert rsv[..|rsv|] == rsv;
    err := AddEntry(b, Zeros(16), rsv);
    if err == 0 {
      assert calls[..0] == [] && calls[0..] == calls && Table(b) == [];
    }
  }

  method WriteCalls(b: Blob, rsv: seq<Bytes>, calls: seq<Item>) returns (err: int)
    requires Entries(rsv) && (forall i :: 0 <= i < |calls| ==> Writable(calls[i])) && b.buf.Length < HALF
    modifies b, b.buf
    ensures err == 0 ==> Underway(b, rsv, calls, |calls|)
    ensures err != 0 ==> err == -NOSPACE && b.buf.Length < 64 + 16 * |rsv| + Costs(calls, [])
  {
    err := Start(b, rsv, calls);
    if err != 0 {
      return;
    }
    var i := 0;
    while i < |calls|
      invariant Underway(b, rsv, calls, i)
    {
      err := WriteNext(b, rsv, calls, i);
      if err != 0 {
        return;
      }
      i := i + 1;
    }
  }

  method WriteLast(b: Blob, ghost rsv: seq<Bytes>, calls: seq<Item>, ghost f: Forest) returns (err: int)
    requires Underway(b, rsv, calls, |calls|) && calls == Flatten(f)
    modifies b, b.buf
    ensures err == if 64 + 16 * |rsv| + Costs(calls, []) + 4 <= b.buf.Length then 0 else -NOSPACE
    ensures err == 0 ==> b.Valid() && b.forest == f && b.Ordered() && b.Free() == 0
    ensures err == 0 ==> b.offRsv == 48 <= b.offStruct <= b.buf.Length && b.Ahead()[48..] == Joined(rsv + [Zeros(16)])
  {
    assert calls[..|calls|] == calls && calls[|calls|..] == [];
    err := Finish(b, calls, f);
  }

  /** The entries are read back in their order, and counted up to the first one that is empty. */
  ghost predicate Stored(b: Blob, rsv: seq<Bytes>)
    requires Entries(rsv)
    reads b, b.buf
  {
    && 0 <= b.offRsv && b.offRsv + 16 * |rsv| <= |b.Ahead()|
    && (forall i {:trigger rsv[i]} :: 0 <= i < |rsv| ==> Entry(b.Ahead(), b.offRsv, i) == rsv[i])
    && forall n: nat {:trigger Reserves(b, n)} :: Counted(rsv, n) ==> Reserves(b, n)
  }

  lemma {:induction false} StoredAll(b: Blob, rsv: seq<Bytes>)
    requires Entries(rsv) && b.offRsv == 48 <= |b.Ahead()| && b.Ahead()[48..] == Joined(rsv + [Zeros(16)])
    ensures Stored(b, rsv)
  {
    var m, all := b.Ahead(), rsv + [Zeros(16)];
    JoinedAt(m, 48, all, |rsv|);
    forall i {:trigger rsv[i]} | 0 <= i < |rsv| ensures Entry(m, 48, i) == rsv[i] {
      JoinedAt(m, 48, all, i);
      assert all[i] == rsv[i];
    }
    forall n: nat {:trigger Reserves(b, n)} | Counted(rsv, n) ensures Reserves(b, n) {
      JoinedLists(m, 48, rsv, n);
    }
  }

  /**
   * Reservation entries and a tree, written call by call into a buffer and finished, are the entries and the tree
   * that are read; they can be written exactly when the buffer has the bytes for them.
   */
  method WriteTree(b: Blob, rsv: seq<Bytes>, calls: seq<Item>, ghost f: Forest) returns (err: int)
    requires calls == Flatten(f) && (forall i :: 0 <= i < |calls| ==> Writable(calls[i])) && b.buf.Length < HALF
    requires Entries(rsv)
    modifies b, b.buf
    ensures err == if 64 + 16 * |rsv| + Costs(calls, []) + 4 <= b.buf.Length then 0 else -NOSPACE
    ensures err == 0 ==> b.Valid() && b.forest == f && b.Ordered() && b.Free() == 0 && Stored(b, rsv)
  {
    err := WriteCalls(b, rsv, calls);
    if err == 0 {
      err := WriteLast(b, rsv, calls, f);
      if err == 0 {
        StoredAll(b, rsv);
      }
    }
  }
}
