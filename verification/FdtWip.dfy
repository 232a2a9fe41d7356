/** Edits in place (fdt_wip.c): what is deleted becomes NOP tokens, and nothing moves. */
module FdtWip {
  import opened FdtFormat
  import opened FdtTree
  import opened FdtTokens
  import opened FdtEdits
  import opened FdtShape
  import opened FdtBlob

  function Nops(n: nat): (ts: seq<Token>)
    ensures |ts| == n && forall i :: 0 <= i < n ==> ts[i] == Nop
  {
    seq(n, _ => Nop)
  }

  function NopBytes(n: nat): (b: Bytes)
    ensures |b| == 4 * n
  {
    if n == 0 then [] else NopBytes(n - 1) + Word(NOP)
  }

  lemma {:induction false} PartLeft(m: Bytes, a: int, u: Bytes, v: Bytes)
    requires Part(m, a, u + v)
    ensures Part(m, a, u) && Part(m, a + |u|, v)
  {
    assert m[a..a + |u + v|] == u + v by {
      PartSlice(m, a, u + v);
    }
    assert m[a..a + |u|] == m[a..a + |u + v|][..|u|] == u;
    assert m[a + |u|..a + |u| + |v|] == m[a..a + |u + v|][|u|..] == v;
    PartSlice(m, a, u);
    PartSlice(m, a + |u|, v);
  }

  /** Words that are all NOP are NOP tokens. */
  lemma {:induction false} NopsHeld(m: Bytes, a: int, n: nat)
    requires Part(m, a, NopBytes(n))
    ensures Holds(m, a, Nops(n)) && Total(Nops(n)) == 4 * n
  {
    if n == 0 {
      NothingHeld(m, a);
      assert Nops(n) == [];
    } else {
      PartLeft(m, a, NopBytes(n - 1), Word(NOP));
      NopsHeld(m, a, n - 1);
      HoldsOne(m, a + 4 * (n - 1), Nop);
      TotalOne(Nop);
      HoldsJoin(m, a, Nops(n - 1), [Nop]);
      TotalJoin(Nops(n - 1), [Nop]);
      assert Nops(n) == Nops(n - 1) + [Nop];
    }
  }

  /** NOP tokens stand for nothing. */
  lemma {:induction false} NopsEmpty(n: nat, table: Bytes)
    ensures Items(Nops(n), table) == [] && AllOk(Nops(n)) && Resolved(Nops(n), table) && NoEnd(Nops(n))
  {
    if n == 0 {
      assert Nops(n) == [];
    } else {
      NopsEmpty(n - 1, table);
      ItemsOne(Nop, table);
      ItemsJoin(Nops(n - 1), [Nop], table);
      assert Nops(n) == Nops(n - 1) + [Nop];
    }
  }

  lemma {:induction false} PutTwice(m: Bytes, a: int, u: Bytes, b: int, v: Bytes)
    requires 0 <= a && b == a + |u| && b + |v| <= |m|
    ensures Put(Put(m, a, u), b, v) == Put(m, a, u + v)
  {
  }

  lemma {:induction false} PutWidens(m: Bytes, a: int, u: Bytes)
    requires 0 <= a && a + |u| <= |m|
    ensures Widened(m, Put(m, a, u), a, |u|, |u|, |m|)
  {
    PutSame(m, a, u, 0, a);
    PutSame(m, a, u, a + |u|, |m| - a - |u|);
  }

  ghost function Blotted(ts: seq<Token>, i: int, j: int, n: nat): seq<Token>
    requires 0 <= i <= j <= |ts|
  {
    ts[..i] + Nops(n) + ts[j..]
  }

  /** Tokens i to j are overwritten with tokens of the same size: the tree is the edited one. */
  lemma {:induction false} Overwritten(m: Bytes, m': Bytes, base: int, so: int, len: int, ts: seq<Token>, f: Forest,
                                       i: int, j: int,
                                       us: seq<Token>, qs: seq<Item>, g: Forest, p: int, size: int)
    requires Image(m, base, so, len, ts, f) && Edits(ts, f, i, j, qs, g) && 0 <= i <= j < |ts| && 0 <= so
             && 0 <= len && so + len <= |m|
    requires p == base + Offset(ts, i) && size == Offset(ts, j) - Offset(ts, i) && size == Total(us) && 0 <= p
    requires so + len <= p || p + size <= so
    requires Widened(m, m', p, size, size, |m|) && Holds(m', p, us)
    requires AllOk(us) && NoEnd(us) && Resolved(us, m[so..so + len]) && Items(us, m[so..so + len]) == qs
    ensures Image(m', base, so, len, ts[..i] + us + ts[j..], g) && Total(ts[..i] + us + ts[j..]) == Total(ts)
  {
    assert Imaged(ts);
    HoldsSpliced(m, m', base, ts, i, j, us, p, size, size, |m|);
    EditStands(ts, m[so..so + len], f, i, j, us, qs, g);
    var q := p + size;
    if so + len <= p {
      SameIn(m, 0, m', 0, p, so, len);
    } else {
      SameIn(m, q, m', q, |m| - q, so - q, len);
    }
    SameSlice(m, so, m', so, len);
    assert ImageOpen(m', base, so, len, ts[..i] + us + ts[j..], g);
  }

  /** Tokens i to j are overwritten with NOP tokens: the tree is the one without their items. */
  lemma {:induction false} Blot(m: Bytes, base: int, so: int, len: int, ts: seq<Token>, f: Forest, i: int, j: int,
                                g: Forest, p: int, n: nat)
    requires Image(m, base, so, len, ts, f) && Edits(ts, f, i, j, [], g) && 0 <= i <= j < |ts| && 0 <= so
             && 0 <= len && so + len <= |m|
    requires p == base + Offset(ts, i) && 4 * n == Offset(ts, j) - Offset(ts, i)
    requires so + len <= base || base + Total(ts) <= so
    ensures 0 <= p && p + 4 * n <= |m|
    ensures Image(Put(m, p, NopBytes(n)), base, so, len, Blotted(ts, i, j, n), g)
    ensures Total(Blotted(ts, i, j, n)) == Total(ts)
  {
    assert Imaged(ts);
    OffsetEnd(ts, j);
    var m', us := Put(m, p, NopBytes(n)), Nops(n);
    PutPart(m, p, NopBytes(n));
    NopsHeld(m', p, n);
    NopsEmpty(n, m[so..so + len]);
    PutWidens(m, p, NopBytes(n));
    Overwritten(m, m', base, so, len, ts, f, i, j, us, [], g, p, 4 * n);
  }

  /** Nothing moves: every other token is where it was. */
  lemma {:induction false} NothingMoves(ts: seq<Token>, i: int, j: int, n: nat, t: int)
    requires 0 <= i <= j <= |ts| && 4 * n == Offset(ts, j) - Offset(ts, i) && (0 <= t < i || j <= t < |ts|)
    ensures var us, u := Blotted(ts, i, j, n), if t < i then t else t - j + i + n;
            0 <= u < |us| && us[u] == ts[t] && Offset(us, u) == Offset(ts, t)
  {
    var us := Blotted(ts, i, j, n);
    if t < i {
      assert us[..t] == ts[..t];
    } else {
      var u := t - j + i + n;
      NopsSize(n);
      TotalJoin(ts[..i], Nops(n));
      assert us[..u] == (ts[..i] + Nops(n)) + ts[j..t];
      TotalJoin(ts[..i] + Nops(n), ts[j..t]);
      assert ts[..t] == ts[..j] + ts[j..t];
      TotalJoin(ts[..j], ts[j..t]);
    }
  }

  lemma {:induction false} NopsSize(n: nat)
    ensures Total(Nops(n)) == 4 * n
  {
    PutPart(NopBytes(n), 0, NopBytes(n));
    assert Put(NopBytes(n), 0, NopBytes(n)) == NopBytes(n);
    NopsHeld(NopBytes(n), 0, n);
  }

  /** The structure and strings blocks do not overlap. */
  ghost predicate Apart(b: Blob)
    reads b
  {
    b.offStrings + b.sizeStrings <= b.offStruct || b.offStruct + b.sizeStruct <= b.offStrings
  }

  /** _fdt_nop_region */
  method NopRegion(b: Blob, start: int, len: int, ghost n: nat)
    requires 0 <= start && 0 <= len <= 4 * n < len + 4 && start + 4 * n <= b.buf.Length
    modifies b.buf
    ensures b.buf[..] == Put(old(b.buf[..]), start, NopBytes(n))
  {
    var p := start;
    ghost var c := 0;
    while p < start + len
      invariant 0 <= c <= n && p == start + 4 * c && b.buf[..] == Put(old(b.buf[..]), start, NopBytes(c))
    {
      PutTwice(old(b.buf[..]), start, NopBytes(c), p, Word(NOP));
      b.Memcpy(p, Word(NOP));
      p := p + 4;
      c := c + 1;
    }
  }

  /** Overwrites tokens i to j. */
  method NopTokens(b: Blob, o: int, len: int, ghost n: nat, ghost i: int, ghost j: int, ghost g: Forest)
    requires b.Valid() && Apart(b) && 0 <= i <= j < |b.toks| && Edits(b.toks, b.forest, i, j, [], g)
    requires o == Offset(b.toks, i) && 0 <= len <= 4 * n < len + 4 && 4 * n == Offset(b.toks, j) - Offset(b.toks, i)
    modifies b.buf, b`toks, b`forest
    ensures b.Valid() && Apart(b) && b.forest == g && b.toks == Blotted(old(b.toks), i, j, n)
    ensures b.Ahead() == old(b.Ahead())
  {
    Blot(b.buf[..], b.offStruct, b.offStrings, b.sizeStrings, b.toks, b.forest, i, j, g, b.offStruct + o, n);
    PutFront(b.buf[..], b.offStruct + o, NopBytes(n), b.offStruct);
    NopRegion(b, b.offStruct + o, len, n);
    b.toks := Blotted(b.toks, i, j, n);
    b.forest := g;
  }

  lemma {:induction false} PropWords(b: Blob, i: int) returns (n: nat)
    requires b.Valid() && 0 <= i < |b.toks| && b.toks[i].Prop?
    ensures var len := 12 + |b.toks[i].value|;
            len <= 4 * n < len + 4 && 4 * n == Offset(b.toks, i + 1) - Offset(b.toks, i)
  {
    b.Bounds(i);
    n := 3 + (|b.toks[i].value| + 3) / 4;
  }

  method BlotProp(b: Blob, o: int, ghost s: Spot, ghost c: int, ghost i: int)
    requires b.Valid() && Apart(b) && b.PropAt(s, c, i) && o == Offset(b.toks, i)
    modifies b.buf, b`toks, b`forest
    ensures b.Valid() && Apart(b) && PropsEdited(old(b.forest), s, c, c + 1, [], b.forest)
    ensures b.Ahead() == old(b.Ahead())
  {
    var len := b.PropLen(o, i);
    ghost var n := PropWords(b, i);
    ghost var g := PropsEdit(b.toks, b.forest, s, c, c + 1, [], i, i + 1);
    assert Attrs([]) == [];
    NopTokens(b, o, len + 12, n, i, i + 1, g);
  }

  /** fdt_nop_property */
  method NopProperty(b: Blob, o: int, name: Bytes, ghost k: int) returns (err: int)
    requires b.Valid() && Apart(b) && b.Points(o, k)
    modifies b.buf, b`toks, b`forest
    ensures b.Valid() && Apart(b)
    ensures !old(b.IsNode(k)) ==> err == -BADOFFSET && b.forest == old(b.forest)
    ensures old(b.IsNode(k)) ==>
              && old(Has(b.forest, b.Spot(k)))
              && err == old(if FindProp(b.Props(k), name) < |b.Props(k)| then 0 else -NOTFOUND)
              && (if err != 0 then b.forest == old(b.forest)
                  else PropUnset(old(b.forest), old(b.Spot(k)), name, b.forest))
    ensures b.Ahead() == old(b.Ahead())
  {
    var r := b.GetProperty(o, name, k);
    if r < 0 {
      if b.IsNode(k) {
        b.PropEnd(k, FindProp(b.Props(k), name));
      }
      return r;
    }
    ghost var c := FindProp(b.Props(k), name);
    b.PropIs(k, c);
    BlotProp(b, r, b.Spot(k), c, b.PropToken(k, c));
    UnsetIsEdit(old(b.forest), old(b.Spot(k)), name, c, b.forest);
    err := 0;
  }

  lemma {:induction false} RunWords(ts: seq<Token>, i: int, j: int) returns (n: nat)
    requires AllOk(ts) && 0 <= i <= j <= |ts|
    ensures 4 * n == Offset(ts, j) - Offset(ts, i)
  {
    OffsetAligned(ts, i);
    OffsetAligned(ts, j);
    if i < j {
      OffsetMono(ts, i, j);
    }
    n := (Offset(ts, j) - Offset(ts, i)) / 4;
  }

  /** fdt_nop_node */
  method NopNode(b: Blob, o: int, ghost k: int) returns (err: int)
    requires b.Valid() && Apart(b) && b.Points(o, k)
    modifies b.buf, b`toks, b`forest
    ensures b.Valid() && Apart(b)
    ensures !old(b.IsNode(k)) ==> err == (if 0 <= o then -BADOFFSET else o) && b.forest == old(b.forest)
    ensures old(b.IsNode(k)) ==> err == 0 && NodeRemoved(old(b.forest), old(b.Spot(k)), b.forest)
    ensures b.Ahead() == old(b.Ahead())
  {
    var end := b.NodeEndOffset(o, k);
    if end < 0 {
      return end;
    }
    b.NodeSpan(k);
    ghost var j, s := b.EndOf(k), b.Spot(k);
    ghost var g := NodeEdit(b.toks, b.forest, s, k, j);
    b.Opened();
    ghost var n := RunWords(b.toks, k, j);
    NopTokens(b, o, end - o, n, k, j, g);
    err := 0;
  }

  // ----- fdt_setprop_inplace -----

  lemma {:induction false} ValuePut(m: Bytes, p: int, t: Token, val: Bytes, a12: int)
    requires Written(m, p, t) && t.Prop? && a12 == p + 12 && |val| == |t.value|
    ensures a12 + |val| <= |m| && Part(Put(m, a12, val), p, Encode(t.(value := val)))
    ensures Widened(m, Put(m, a12, val), p, Size(t), Size(t), |m|)
  {
    FieldsHere(m, p, t, p + 4, p + 8, a12 + |val|);
    FieldsKept(m, p, t, val, p + 4, p + 8, a12, a12 + |val|);
    PropWritten(Put(m, a12, val), p, t.nameoff, val, t.pad, p + 4, p + 8, a12);
    ValueWidens(m, p, Size(t), a12, val);
  }

  lemma {:induction false} ValueWidens(m: Bytes, p: int, size: int, a: int, val: Bytes)
    requires 0 <= p <= a && a + |val| <= p + size <= |m|
    ensures Widened(m, Put(m, a, val), p, size, size, |m|)
  {
    PutSame(m, a, val, 0, p);
    PutSame(m, a, val, p + size, |m| - p - size);
  }

  lemma {:induction false} FieldsHere(m: Bytes, p: int, t: Token, a4: int, a8: int, z: int)
    requires Written(m, p, t) && t.Prop? && a4 == p + 4 && a8 == p + 8 && z == p + 12 + |t.value|
    ensures Part(m, p, Word(PROP)) && Part(m, a4, Word(|t.value|)) && Part(m, a8, Word(t.nameoff)) && Part(m, z, t.pad)
  {
    assert Shown(m);
    var e := Encode(t);
    PropParts(t);
    PartAt(m, p, e, 0, Word(PROP), p);
    PartAt(m, p, e, 4, Word(|t.value|), a4);
    PartAt(m, p, e, 8, Word(t.nameoff), a8);
    PartAt(m, p, e, 12 + |t.value|, t.pad, z);
  }

  lemma {:induction false} FieldsKept(m: Bytes, p: int, t: Token, val: Bytes, a4: int, a8: int, a12: int, z: int)
    requires t.Prop? && a4 == p + 4 && a8 == p + 8 && a12 == p + 12 && z == a12 + |val| && |val| == |t.value|
    requires Part(m, p, Word(PROP)) && Part(m, a4, Word(|t.value|)) && Part(m, a8, Word(t.nameoff)) && Part(m, z, t.pad)
    ensures var m' := Put(m, a12, val);
            && Part(m', p, Word(PROP)) && Part(m', a4, Word(|val|)) && Part(m', a8, Word(t.nameoff))
               && Part(m', a12, val + t.pad)
  {
    var m' := Put(m, a12, val);
    PutPart(m, a12, val);
    PartKept(m, a12, val, p, Word(PROP));
    PartKept(m, a12, val, a4, Word(|t.value|));
    PartKept(m, a12, val, a8, Word(t.nameoff));
    PartKept(m, a12, val, z, t.pad);
    PartJoin(m', a12, val, z, t.pad);
  }

  lemma {:induction false} PropParts(t: Token)
    requires t.Prop?
    ensures Part(Encode(t), 0, Word(PROP)) && Part(Encode(t), 4, Word(|t.value|)) && Part(Encode(t), 8, Word(t.nameoff))
    ensures Part(Encode(t), 12 + |t.value|, t.pad)
  {
    Shape(t);
    var e, n := Encode(t), 12 + |t.value|;
    assert e[n..n + |t.pad|] == t.pad;
    PartSlice(e, n, t.pad);
  }

  /** A property token of an image is in memory. */
  lemma {:induction false} PropHeld(m: Bytes, base: int, so: int, n: int, ts: seq<Token>, f: Forest, i: int, p: int)
    requires Image(m, base, so, n, ts, f) && 0 <= i < |ts| - 1 && ts[i].Prop? && p == base + Offset(ts, i)
    ensures Written(m, p, ts[i]) && TokenOk(ts[i]) && Offset(ts, i + 1) == Offset(ts, i) + Size(ts[i]) <= Total(ts)
    ensures 0 <= base <= p && p + Size(ts[i]) <= |m|
  {
    assert Imaged(ts);
    assert TokenOk(ts[i]);
    HoldsAt(m, base, ts, i);
    OffsetStep(ts, i);
    OffsetEnd(ts, i + 1);
  }

  /** A property in memory has been given another value of the same length. */
  lemma {:induction false} Revalued(m: Bytes, base: int, so: int, n: int, ts: seq<Token>, f: Forest, i: int,
                                    name: Bytes, val: Bytes,
                                    g: Forest, p: int, a12: int)
    requires Image(m, base, so, n, ts, f) && 0 <= i < |ts| - 1 && ts[i].Prop? && |val| == |ts[i].value| && 0 <= so
             && 0 <= n && so + n <= |m|
    requires Edits(ts, f, i, i + 1, Attrs([Property(name, val)]), g) && Named(m[so..so + n], ts[i].nameoff, name)
    requires p == base + Offset(ts, i) && a12 == p + 12 && (so + n <= base || base + Total(ts) <= so)
    ensures 0 <= a12 && a12 + |val| <= |m|
    ensures Image(Put(m, a12, val), base, so, n, ts[..i] + [ts[i].(value := val)] + ts[i + 1..], g)
    ensures Total(ts[..i] + [ts[i].(value := val)] + ts[i + 1..]) == Total(ts)
  {
    var t, u := ts[i], ts[i].(value := val);
    PropHeld(m, base, so, n, ts, f, i, p);
    ValuePut(m, p, t, val, a12);
    OneProp(Put(m, a12, val), p, u, m[so..so + n], name);
    Overwritten(m, Put(m, a12, val), base, so, n, ts, f, i, i + 1, [u], Attrs([Property(name, val)]), g, p, Size(t));
  }

  lemma {:induction false} KindOne(ts: seq<Token>, i: int, u: Token)
    requires 0 <= i < |ts| && Tag(u) == Tag(ts[i]) && Size(u) == Size(ts[i])
    ensures SameKind(ts, ts[..i] + [u] + ts[i + 1..])
  {
  }

  /** Writing a part of a value is writing the value with that part changed. */
  lemma {:induction false} PutInside(m: Bytes, a: int, v: Bytes, idx: int, val: Bytes, at: int)
    requires Part(m, a, v) && 0 <= idx && idx + |val| <= |v| && at == a + idx
    ensures 0 <= at && at + |val| <= |m| && Put(m, at, val) == Put(m, a, Put(v, idx, val))
  {
    PartSlice(m, a, v);
    var x, y := Put(m, at, val), Put(m, a, Put(v, idx, val));
    forall i | 0 <= i < |m| ensures x[i] == y[i] {
      if a <= i < a + |v| {
        assert m[i] == m[a..a + |v|][i - a];
      }
    }
  }

  /** The copy of fdt_setprop_inplace_namelen_partial, into the value of property c of the node at s */
  method PutBytes(b: Blob, o: int, idx: int, val: Bytes, ghost w: Bytes, ghost name: Bytes, ghost s: Spot, ghost c: int,
                  ghost i: int)
    requires b.Valid() && Apart(b) && b.PropAt(s, c, i) && o == Offset(b.toks, i)
    requires 0 <= idx && idx + |val| <= |b.toks[i].value| && w == Put(b.toks[i].value, idx, val)
    requires Named(b.Strings(), b.toks[i].nameoff, name)
    modifies b.buf, b`toks, b`forest
    ensures b.Valid() && Apart(b) && PropsEdited(old(b.forest), s, c, c + 1, [Property(name, w)], b.forest)
    ensures SameKind(old(b.toks), b.toks)
    ensures b.Ahead() == old(b.Ahead())
  {
    ghost var g := PropsEdit(b.toks, b.forest, s, c, c + 1, [Property(name, w)], i, i + 1);
    var p := b.offStruct + o + 12;
    RevaluedPart(b, i, name, idx, val, w, g, p, p + idx);
    PutFront(b.buf[..], p + idx, val, b.offStruct);
    b.Memcpy(p + idx, val);
    KindOne(b.toks, i, b.toks[i].(value := w));
    b.toks := Replaced(b.toks, i, w);
    b.forest := g;
  }

  /** The tokens with another value in property token i. */
  ghost function Replaced(ts: seq<Token>, i: int, w: Bytes): seq<Token>
    requires 0 <= i < |ts| && ts[i].Prop?
  {
    ts[..i] + [ts[i].(value := w)] + ts[i + 1..]
  }

  lemma {:induction false} RevaluedPart(b: Blob, i: int, name: Bytes, idx: int, val: Bytes, w: Bytes, g: Forest, p: int,
                                        at: int)
    requires b.Valid() && Apart(b) && 0 <= i < |b.toks| - 1 && b.toks[i].Prop?
    requires Edits(b.toks, b.forest, i, i + 1, Attrs([Property(name, w)]), g)
             && Named(b.Strings(), b.toks[i].nameoff, name)
    requires 0 <= idx && idx + |val| <= |b.toks[i].value| && w == Put(b.toks[i].value, idx, val)
    requires p == b.offStruct + Offset(b.toks, i) + 12 && at == p + idx
    ensures 0 <= at && at + |val| <= b.buf.Length
    ensures Image(Put(b.buf[..], at, val), b.offStruct, b.offStrings, b.sizeStrings, Replaced(b.toks, i, w), g)
    ensures Total(Replaced(b.toks, i, w)) == Total(b.toks)
  {
    ValueHere(b, i, p, idx, val, at);
    assert b.Strings() == b.buf[..][b.offStrings..b.offStrings + b.sizeStrings];
    Revalued(b.buf[..], b.offStruct, b.offStrings, b.sizeStrings, b.toks, b.forest, i, name, w, g, p - 12, p);
  }

  lemma {:induction false} ValueHere(b: Blob, i: int, p: int, idx: int, val: Bytes, at: int)
    requires b.Valid() && 0 <= i < |b.toks| && b.toks[i].Prop? && p == b.offStruct + Offset(b.toks, i) + 12
    requires 0 <= idx && idx + |val| <= |b.toks[i].value| && at == p + idx
    ensures 0 <= p && p + |b.toks[i].value| <= b.buf.Length && 0 <= at && at + |val| <= b.buf.Length
    ensures Put(b.buf[..], at, val) == Put(b.buf[..], p, Put(b.toks[i].value, idx, val))
  {
    b.Opened();
    b.PropHere(i);
    PutInside(b.buf[..], p, b.toks[i].value, idx, val, at);
  }

  /** The guard of fdt_setprop_inplace_namelen_partial refuses; its sum is one of 32 bits without sign. */
  predicate Refuses(propLen: int, len: int, idx: int) {
    propLen < (len + idx) % W32
  }

  lemma {:induction false} RefusesExactlyWhen(propLen: int, len: int, idx: int)
    requires 0 <= propLen && 0 <= len < W32 && 0 <= idx < W32
    ensures !Refuses(propLen, len, idx) <==> idx + len <= propLen || W32 <= idx + len <= W32 + propLen
  {
    assert (len + idx) % W32 == if len + idx < W32 then len + idx else len + idx - W32;
  }

  /** A cell at the last index but three ends at 2^32, which the guard takes for zero, whatever the property. */
  lemma {:induction false} IndexWraps(propLen: int)
    requires 0 <= propLen < W32
    ensures var idx := W32 - 4; !Refuses(propLen, 4, idx) && idx + 4 > propLen
  {
    RefusesExactlyWhen(propLen, 4, W32 - 4);
  }

  /**
   * fdt_setprop_inplace_namelen_partial.  A write that the guard lets pass and that does not lie inside the value is
   * reported as stray, and not modelled.
   */
  method SetpropInplacePartial(b: Blob, o: int, name: Bytes, idx: int, val: Bytes, ghost k: int)
    returns (err: int, stray: bool)
    requires b.Valid() && Apart(b) && b.Points(o, k) && 0 <= idx < W32 && |val| < W32
    modifies b.buf, b`toks, b`forest
    ensures b.Valid() && Apart(b) && SameKind(old(b.toks), b.toks)
    ensures !old(b.IsNode(k)) ==> err == -BADOFFSET
    ensures old(b.IsNode(k)) ==>
              && old(Has(b.forest, b.Spot(k)))
              && match old(Lookup(b.Props(k), name))
                 case None => err == -NOTFOUND && !stray
                 case Some(v) =>
                   && (err == 0 <==> idx + |val| <= |v| || W32 <= idx + |val| <= W32 + |v|)
                   && (err != 0 ==> err == -NOSPACE) && (stray <==> err == 0 && |v| < idx + |val|)
                   && (err == 0 && !stray ==> PropSet(old(b.forest), old(b.Spot(k)), name, Put(v, idx, val), b.forest))
    ensures err != 0 || stray ==> b.forest == old(b.forest) && b.toks == old(b.toks)
    ensures b.Ahead() == old(b.Ahead())
  {
    stray := false;
    var r := b.GetProperty(o, name, k);
    if r < 0 {
      if b.IsNode(k) {
        b.PropEnd(k, FindProp(b.Props(k), name));
      }
      return r, false;
    }
    err, stray := PutPartFound(b, r, name, idx, val, k, FindProp(b.Props(k), name));
  }

  /** The part of fdt_setprop_inplace_namelen_partial after the search, which has found property c. */
  method PutPartFound(b: Blob, r: int, name: Bytes, idx: int, val: Bytes, ghost k: int, ghost c: int)
    returns (err: int, stray: bool)
    requires b.Valid() && Apart(b) && b.IsNode(k) && Has(b.forest, b.Spot(k)) && 0 <= idx < W32 && |val| < W32
    requires c == FindProp(b.Props(k), name) < |b.Props(k)| && r == b.PropOffset(k, c)
    modifies b.buf, b`toks, b`forest
    ensures b.Valid() && Apart(b) && SameKind(old(b.toks), b.toks)
    ensures var v := old(b.Props(k)[c].value);
            && (err == 0 <==> idx + |val| <= |v| || W32 <= idx + |val| <= W32 + |v|)
            && (err != 0 ==> err == -NOSPACE) && (stray <==> err == 0 && |v| < idx + |val|)
            && (err == 0 && !stray ==> PropSet(old(b.forest), old(b.Spot(k)), name, Put(v, idx, val), b.forest))
    ensures err != 0 || stray ==> b.forest == old(b.forest) && b.toks == old(b.toks)
    ensures b.Ahead() == old(b.Ahead())
  {
    b.FoundProp(k, name, c);
    ghost var i, s := b.PropToken(k, c), b.Spot(k);
    var len := b.PropLen(r, i);
    stray := false;
    RefusesExactlyWhen(len, |val|, idx);
    if Refuses(len, |val|, idx) {
      return -NOSPACE, false;
    }
    err := 0;
    if idx + |val| > len {
      stray := true;
    } else {
      ghost var w := Put(b.toks[i].value, idx, val);
      PutBytes(b, r, idx, val, w, name, s, c, i);
      SetIsEdit(old(b.forest), s, name, w, c, b.forest);
    }
  }

  /** fdt_setprop_inplace: as fdt_setprop, for a value of the length that the property has */
  method SetpropInplace(b: Blob, o: int, name: Bytes, val: Bytes, ghost k: int) returns (err: int)
    requires b.Valid() && Apart(b) && b.Points(o, k)
    modifies b.buf, b`toks, b`forest
    ensures b.Valid() && Apart(b) && SameKind(old(b.toks), b.toks)
    ensures !old(b.IsNode(k)) ==> err == -BADOFFSET && b.forest == old(b.forest)
    ensures old(b.IsNode(k)) ==>
              && old(Has(b.forest, b.Spot(k)))
              && err == old(match Lookup(b.Props(k), name)
                            case None => -NOTFOUND
                            case Some(v) => if |v| != |val| then -NOSPACE else 0)
              && (if err != 0 then b.forest == old(b.forest)
                  else PropSet(old(b.forest), old(b.Spot(k)), name, val, b.forest))
    ensures b.Ahead() == old(b.Ahead())
  {
    var r := b.GetProperty(o, name, k);
    if r < 0 {
      if b.IsNode(k) {
        b.PropEnd(k, FindProp(b.Props(k), name));
      }
      return r;
    }
    err := PutFound(b, r, name, val, k, FindProp(b.Props(k), name));
  }

  /** The part of fdt_setprop_inplace after the search, which has found property c. */
  method PutFound(b: Blob, r: int, name: Bytes, val: Bytes, ghost k: int, ghost c: int) returns (err: int)
    requires b.Valid() && Apart(b) && b.IsNode(k) && Has(b.forest, b.Spot(k))
    requires c == FindProp(b.Props(k), name) < |b.Props(k)| && r == b.PropOffset(k, c)
    modifies b.buf, b`toks, b`forest
    ensures b.Valid() && Apart(b) && SameKind(old(b.toks), b.toks)
    ensures err == old(if |b.Props(k)[c].value| != |val| then -NOSPACE else 0)
    ensures if err != 0 then b.forest == old(b.forest) else PropSet(old(b.forest), old(b.Spot(k)), name, val, b.forest)
    ensures b.Ahead() == old(b.Ahead())
  {
    b.FoundProp(k, name, c);
    ghost var i, s := b.PropToken(k, c), b.Spot(k);
    var len := b.PropLen(r, i);
    if len != |val| {
      return -NOSPACE;
    }
    assert Put(b.toks[i].value, 0, val) == val;
    PutBytes(b, r, 0, val, val, name, s, c, i);
    SetIsEdit(old(b.forest), s, name, val, c, b.forest);
    err := 0;
  }
}
