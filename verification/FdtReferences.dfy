/** References of an overlay to its own nodes, increased with the phandles (fdt_overlay.c). */
module FdtReferences {
  import opened FdtFormat
  import opened FdtTree
  import opened FdtTokens
  import opened FdtEdits
  import opened FdtMerge
  import opened FdtShape
  import opened FdtBlob
  import opened FdtWalk
  import opened FdtWip
  import opened FdtOverlay
  import opened FdtPaths
  import opened FdtPhandles
  import opened FdtFixups

  // ----- Nodes and properties that stay where they are -----

  ghost predicate PinnedOpen(ts: seq<Token>, f: Forest, o: int, k: int, s: Spot) {
    0 <= k < |ts| && ts[k].BeginNode? && o == Offset(ts, k) && NodeSpot(ts, f, k) == s && Has(f, s)
  }

  /** The node at spot s is at offset o and token k. */
  ghost predicate Pinned(ts: seq<Token>, f: Forest, o: int, k: int, s: Spot) {
    forall g {:trigger Looked(g)} :: g == f ==> PinnedOpen(ts, g, o, k, s)
  }

  lemma {:induction false} PinDown(b: Blob, o: int, k: int, s: Spot)
    requires Steady(b, o, k, s)
    ensures Pinned(b.toks, b.forest, o, k, s) && Has(b.forest, s)
  {
    SteadyPoints(b, o, k, s);
    assert PinnedOpen(b.toks, b.forest, o, k, s);
  }

  /** A node is where it was after edits that move nothing. */
  lemma {:induction false} StillPinned(b: Blob, ts: seq<Token>, f: Forest, o: int, k: int, s: Spot, ox: int, kx: int,
                                       x: Spot)
    requires Steady(b, o, k, s) && Alike(ts, f, b.toks, b.forest) && Pinned(ts, f, ox, kx, x)
    ensures Steady(b, ox, kx, x) && Has(f, x) && Has(b.forest, x)
    ensures Nodes(At(b.forest, x).kids) == Nodes(At(f, x).kids)
  {
    assert Looked(f);
    SteadyPoints(b, o, k, s);
    SteadyStill(b, ts, f, ox, kx, x);
  }

  /** Where property c of the node at s starts. */
  ghost function PropOff(ts: seq<Token>, f: Forest, s: Spot, c: int): int
    requires Has(f, s)
  {
    var j := PropPlace(ts, f, s, c);
    if 0 <= c < |At(f, s).props| && 0 <= j < |ts| then Offset(ts, j) else -NOTFOUND
  }

  lemma {:induction false} PropOffStill(ts: seq<Token>, f: Forest, us: seq<Token>, g: Forest, s: Spot, c: int)
    requires Alike(ts, f, us, g) && Has(f, s)
    ensures Has(g, s) && |At(g, s).props| == |At(f, s).props| && PropOff(us, g, s, c) == PropOff(ts, f, s, c)
  {
    assert Compared(ts);
    ShapeSpot(f, g, s);
    KindPlace(ts, us, |Before(f, s)| + 1 + c);
    var j := PropPlace(ts, f, s, c);
    if 0 <= j < |ts| {
      KindPrefix(ts, us, j);
    }
  }

  /** Property c of a steady node is in memory. */
  lemma {:induction false} PropInMemory(b: Blob, o: int, k: int, s: Spot, c: int, p: int)
    requires Steady(b, o, k, s) && Has(b.forest, s) && 0 <= c < |At(b.forest, s).props|
    requires p == b.offStruct + PropOff(b.toks, b.forest, s, c) + 12
    ensures 0 <= p && Part(b.buf[..], p, At(b.forest, s).props[c].value) && IsBytes(At(b.forest, s).props[c].value)
    ensures 0 <= PropOff(b.toks, b.forest, s, c)
  {
    SteadyPoints(b, o, k, s);
    b.Opened();
    b.PropIs(k, c);
    b.PropHere(b.PropToken(k, c));
    BytesGraft(b.forest, s, Empty);
  }

  lemma {:induction false} PartWord(m: Bytes, p: int, v: Bytes, i: int, at: int)
    requires Part(m, p, v) && 0 <= i && i + 4 <= |v| && at == p + i
    ensures 0 <= at && at + 4 <= |m| && ReadWord(m, at) == ReadWord(v, i)
  {
    PartSlice(m, p, v);
    var w := m[p..p + |v|];
    assert w == v && w[i] == m[at] && w[i + 1] == m[at + 1] && w[i + 2] == m[at + 2] && w[i + 3] == m[at + 3];
  }

  lemma {:induction false} WordIn(v: Bytes, i: int)
    requires IsBytes(v) && 0 <= i && i + 4 <= |v|
    ensures 0 <= ReadWord(v, i) < W32
  {
  }

  // ----- One cell -----

  /** Where the value of the property that a name finds starts in memory. */
  ghost function ValueStart(b: Blob, s: Spot, name: Bytes): int
    requires Has(b.forest, s)
    reads b
  {
    b.offStruct + PropOff(b.toks, b.forest, s, FindProp(At(b.forest, s).props, name)) + 12
  }

  /** The value is one of bytes again. */
  lemma {:induction false} AddedBytes(v: Bytes, at: int, delta: int, x: int)
    requires IsBytes(v) && 0 <= at && at + 4 <= |v| && x == (ReadWord(v, at) + delta) % W32
    ensures Put(v, at, Word(x)) == Added(v, at, delta) && IsBytes(Added(v, at, delta))
  {
    WordBytes(x);
    var w, y := Put(v, at, Word(x)), Word(x);
    forall i | 0 <= i < |w| ensures 0 <= w[i] < 0x100 {
      assert w[i] == if at <= i < at + 4 then y[i - at] else v[i];
    }
  }

  lemma {:induction false} BumpAlike(ts: seq<Token>, f: Forest, us: seq<Token>, r: Ref, delta: int, v: Bytes, g: Forest)
    requires ValueAt(f, r.spot, r.name) == Some(v) && ByteValues(f) && 0 <= r.at && r.at + 4 <= |v| && SameKind(ts, us)
    requires PropSet(f, r.spot, r.name, Added(v, r.at, delta), g) && IsBytes(Added(v, r.at, delta))
    ensures Alike(ts, f, us, g) && ByteValues(g) && g == Bump(f, r, delta)
  {
    assert Looked(f);
    SetAlike(f, r.spot, r.name, Added(v, r.at, delta), g);
  }

  /** The four bytes before the write; where they lie behind the buffer the number does not matter. */
  method ReadOld(b: Blob, at: int) returns (x: int)
    requires 0 <= at
    ensures at + 4 <= b.buf.Length ==> x == ReadWord(b.buf[..], at)
  {
    x := 0;
    if at + 4 <= b.buf.Length {
      x := b.Load(at);
    }
  }

  /** The write of that loop, of the number x. */
  method WriteCell(b: Blob, o: int, name: Bytes, idx: int, x: int, ghost delta: int, ghost k: int, ghost t: Spot,
                   ghost v: Bytes)
    returns (ret: int, stray: bool)
    requires Steady(b, o, k, t) && Has(b.forest, t) && ValueAt(b.forest, t, name) == Some(v) && 0 <= idx < W32
    requires idx + 4 <= |v| ==> IsBytes(v) && x == (ReadWord(v, idx) + delta) % W32
    modifies b.buf, b`toks, b`forest
    ensures Steady(b, o, k, t) && Alike(old(b.toks), old(b.forest), b.toks, b.forest)
    ensures stray <==> !Refuses(|v|, 4, idx) && |v| < idx + 4
    ensures !stray ==> ret == if Refuses(|v|, 4, idx) then -NOSPACE else 0
    ensures b.forest
         == old(if Refuses(|v|, 4, idx) || |v| < idx + 4 then b.forest else Bump(b.forest, Ref(t, name, idx), delta))
    ensures b.Ahead() == old(b.Ahead())
  {
    ghost var ts, f := b.toks, b.forest;
    SteadyPoints(b, o, k, t);
    RefusesExactlyWhen(|v|, 4, idx);
    if idx + 4 <= |v| {
      AddedBytes(v, idx, delta, x);
    }
    ret, stray := SetpropInplacePartial(b, o, name, idx, Word(x), k);
    if ret == 0 && !stray {
      BumpAlike(ts, f, b.toks, Ref(t, name, idx), delta, v, b.forest);
      AlikeNode(ts, f, b.toks, b.forest, t, k);
    } else {
      AlikeSelf(ts, f);
    }
    assert SteadyOpen(b, o, k, t);
  }

  /** The body of the inner loop of overlay_update_local_node_references */
  method FixCell(b: Blob, o: int, name: Bytes, start: int, idx: int, delta: int, ghost k: int, ghost t: Spot,
                 ghost v: Bytes)
    returns (ret: int, stray: bool)
    requires Steady(b, o, k, t) && Has(b.forest, t) && ValueAt(b.forest, t, name) == Some(v)
             && start == ValueStart(b, t, name) && 0 <= idx < W32
    modifies b.buf, b`toks, b`forest
    ensures Steady(b, o, k, t) && Alike(old(b.toks), old(b.forest), b.toks, b.forest)
    ensures stray <==> !Refuses(|v|, 4, idx) && |v| < idx + 4
    ensures !stray ==> ret == if Refuses(|v|, 4, idx) then -BADOVERLAY else 0
    ensures b.forest
         == old(if Refuses(|v|, 4, idx) || |v| < idx + 4 then b.forest else Bump(b.forest, Ref(t, name, idx), delta))
    ensures b.Ahead() == old(b.Ahead())
  {
    PropInMemory(b, o, k, t, FindProp(At(b.forest, t).props, name), start);
    var adj := ReadOld(b, start + idx);
    if idx + 4 <= |v| {
      PartWord(b.buf[..], start, v, idx, start + idx);
    }
    ret, stray := WriteCell(b, o, name, idx, (adj + delta) % W32, delta, k, t, v);
    if ret == -NOSPACE {
      ret := -BADOVERLAY;
    }
  }

  // ----- The cells of one list -----

  /** Edits in place, of bytes of values only. */
  ghost predicate Akin(ts: seq<Token>, f: Forest, us: seq<Token>, g: Forest) {
    Alike(ts, f, us, g) && forall h {:trigger Looked(h)} :: h == f ==> SameForm(h, g)
  }

  lemma {:induction false} AkinSelf(ts: seq<Token>, f: Forest)
    ensures Akin(ts, f, ts, f)
  {
    AlikeSelf(ts, f);
    FormSelf(f);
  }

  lemma {:induction false} AkinTrans(ts: seq<Token>, f: Forest, us: seq<Token>, g: Forest, vs: seq<Token>, h: Forest)
    requires Akin(ts, f, us, g) && Akin(us, g, vs, h)
    ensures Akin(ts, f, vs, h)
  {
    assert Looked(f) && Looked(g);
    AlikeTrans(ts, f, us, g, vs, h);
    FormTrans(f, g, h);
  }

  lemma {:induction false} AkinBump(ts: seq<Token>, f: Forest, us: seq<Token>, g: Forest, r: Ref, delta: int)
    requires Alike(ts, f, us, g) && (g == f || g == Bump(f, r, delta))
    ensures Akin(ts, f, us, g)
  {
    FormSelf(f);
    BumpForm(f, r, delta);
  }

  /** How the end of a walk is told. */
  ghost predicate Came(l: Live, f: Forest, ret: int, stray: bool) {
    && l.tree == f && (stray <==> l.end.Astray?)
    && (!stray ==> ret == if l.end.Whole? then 0 else -BADOVERLAY)
  }

  ghost predicate SitedOpen(ts: seq<Token>, f: Forest, base: int, t: Spot, name: Bytes, start: int, x: Spot, p: nat,
                            fp: int, size: int) {
    && Has(f, t) && Has(f, x) && ValueAt(f, t, name).Some?
    && start == base + PropOff(ts, f, t, FindProp(At(f, t).props, name)) + 12
    && p < |At(f, x).props| && size == |At(f, x).props[p].value| && fp == PropOff(ts, f, x, p)
  }

  /**
   * The property that a name finds at node t has its value at address start, and property p of the fixup node x, at
   * offset fp, is a list of that size.
   */
  ghost predicate Sited(ts: seq<Token>, f: Forest, base: int, t: Spot, name: Bytes, start: int, x: Spot, p: nat,
                        fp: int,
                        size: int) {
    forall g {:trigger Looked(g)} :: g == f ==> SitedOpen(ts, g, base, t, name, start, x, p, fp, size)
  }

  lemma {:induction false} SitedStill(ts: seq<Token>, f: Forest, us: seq<Token>, g: Forest, base: int, t: Spot,
                                      name: Bytes,
                                      start: int, x: Spot, p: nat, fp: int, size: int)
    requires Sited(ts, f, base, t, name, start, x, p, fp, size) && Akin(ts, f, us, g)
    ensures Sited(us, g, base, t, name, start, x, p, fp, size)
  {
    assert Looked(f);
    FormSpot(f, g, t);
    FormSpot(f, g, x);
    FormValue(f, g, t, name);
    FormLookup(At(f, t).props, At(g, t).props, name);
    PropOffStill(ts, f, us, g, t, FindProp(At(f, t).props, name));
    PropOffStill(ts, f, us, g, x, p);
    assert SitedOpen(us, g, base, t, name, start, x, p, fp, size);
  }

  /** Word i of the list at offset fp. */
  method ReadFixup(b: Blob, fp: int, i: nat, ghost ox: int, ghost kx: int, ghost x: Spot, ghost p: nat)
    returns (idx: int)
    requires Steady(b, ox, kx, x) && Has(b.forest, x) && p < |At(b.forest, x).props|
    requires fp == PropOff(b.toks, b.forest, x, p) && 4 * i + 4 <= |At(b.forest, x).props[p].value|
    ensures idx == Listed(b.forest, x, p, i) && 0 <= idx < W32
  {
    var at, n := b.offStruct + fp + 12, 4 * i;
    PropInMemory(b, ox, kx, x, p, at);
    PartWord(b.buf[..], at, At(b.forest, x).props[p].value, n, at + n);
    WordIn(At(b.forest, x).props[p].value, n);
    idx := b.Load(at + n);
  }

  ghost predicate SteppedOpen(f: Forest, g: Forest, t: Spot, name: Bytes, x: Spot, p: nat, i: nat, size: int,
                              delta: int,
                              ret: int, stray: bool) {
    var l := LiveCells(f, t, name, x, p, i, size, delta);
    if ret == 0 && !stray then l == LiveCells(g, t, name, x, p, i + 1, size, delta) else Came(l, g, ret, stray)
  }

  /** Word i of the list has been dealt with. */
  ghost predicate Stepped(f: Forest, g: Forest, t: Spot, name: Bytes, x: Spot, p: nat, i: nat, size: int, delta: int,
                          ret: int, stray: bool) {
    forall h {:trigger Looked(h)} :: h == f ==> SteppedOpen(h, g, t, name, x, p, i, size, delta, ret, stray)
  }

  lemma {:induction false} CellStepped(f: Forest, g: Forest, t: Spot, name: Bytes, x: Spot, p: nat, i: nat, size: int,
                                       delta: int, idx: int, v: Bytes, ret: int, stray: bool)
    requires 4 * i + 4 <= size && ValueAt(f, t, name) == Some(v) && idx == Listed(f, x, p, i)
    requires stray <==> !Refuses(|v|, 4, idx) && |v| < idx + 4
    requires !stray ==> ret == if Refuses(|v|, 4, idx) then -BADOVERLAY else 0
    requires g == if Refuses(|v|, 4, idx) || |v| < idx + 4 then f else Bump(f, Ref(t, name, idx), delta)
    ensures Stepped(f, g, t, name, x, p, i, size, delta, ret, stray)
  {
    assert SteppedOpen(f, g, t, name, x, p, i, size, delta, ret, stray);
  }

  /** One turn of the inner loop. */
  method FixNext(b: Blob, o: int, name: Bytes, start: int, fp: int, i: nat, delta: int, ghost size: int, ghost k: int,
                 ghost t: Spot, ghost ox: int, ghost kx: int, ghost x: Spot, ghost p: nat)
    returns (ret: int, stray: bool)
    requires Steady(b, o, k, t) && Steady(b, ox, kx, x) && 4 * i + 4 <= size
    requires Sited(b.toks, b.forest, b.offStruct, t, name, start, x, p, fp, size)
    modifies b.buf, b`toks, b`forest
    ensures Steady(b, o, k, t) && Steady(b, ox, kx, x) && Akin(old(b.toks), old(b.forest), b.toks, b.forest)
    ensures Sited(b.toks, b.forest, b.offStruct, t, name, start, x, p, fp, size)
    ensures Stepped(old(b.forest), b.forest, t, name, x, p, i, size, delta, ret, stray)
    ensures b.Ahead() == old(b.Ahead())
  {
    assert Looked(b.forest);
    ghost var ts, f, v := b.toks, b.forest, ValueAt(b.forest, t, name).value;
    PinDown(b, ox, kx, x);
    var idx := ReadFixup(b, fp, i, ox, kx, x, p);
    ret, stray := FixCell(b, o, name, start, idx, delta, k, t, v);
    CellStepped(f, b.forest, t, name, x, p, i, size, delta, idx, v, ret, stray);
    AkinBump(ts, f, b.toks, b.forest, Ref(t, name, idx), delta);
    SitedStill(ts, f, b.toks, b.forest, b.offStruct, t, name, start, x, p, fp, size);
    StillPinned(b, ts, f, o, k, t, ox, kx, x);
  }

  /** The inner loop of overlay_update_local_node_references */
  method FixCells(b: Blob, o: int, name: Bytes, start: int, fp: int, size: int, delta: int, ghost k: int, ghost t: Spot,
                  ghost ox: int, ghost kx: int, ghost x: Spot, ghost p: nat)
    returns (ret: int, stray: bool)
    requires Steady(b, o, k, t) && Steady(b, ox, kx, x)
    requires Sited(b.toks, b.forest, b.offStruct, t, name, start, x, p, fp, size) && 0 <= size && size % 4 == 0
    modifies b.buf, b`toks, b`forest
    ensures Steady(b, o, k, t) && Steady(b, ox, kx, x) && Akin(old(b.toks), old(b.forest), b.toks, b.forest)
    ensures Came(LiveCells(old(b.forest), t, name, x, p, 0, size, delta), b.forest, ret, stray)
    ensures b.Ahead() == old(b.Ahead())
  {
    ghost var ts, f := b.toks, b.forest;
    AkinSelf(ts, f);
    ret, stray := 0, false;
    var i := 0;
    while i < size / 4
      invariant b.Ahead() == old(b.Ahead())
      invariant Steady(b, o, k, t) && Steady(b, ox, kx, x) && Akin(ts, f, b.toks, b.forest) && ret == 0 && !stray
      invariant Sited(b.toks, b.forest, b.offStruct, t, name, start, x, p, fp, size) && 0 <= 4 * i <= size
      invariant LiveCells(f, t, name, x, p, 0, size, delta) == LiveCells(b.forest, t, name, x, p, i, size, delta)
    {
      ghost var ts1, f1 := b.toks, b.forest;
      ret, stray := FixNext(b, o, name, start, fp, i, delta, size, k, t, ox, kx, x, p);
      AkinTrans(ts, f, ts1, f1, b.toks, b.forest);
      assert Looked(f1);
      if ret != 0 || stray {
        return;
      }
      i := i + 1;
    }
  }

  // ----- The properties of a fixup node -----

  ghost predicate ListAtOpen(ts: seq<Token>, f: Forest, x: Spot, p: nat, fp: int, prop: Property) {
    && Has(f, x) && p < |At(f, x).props| && fp == PropOff(ts, f, x, p)
    && At(f, x).props[p].name == prop.name && |At(f, x).props[p].value| == |prop.value|
  }

  /** Property p of the fixup node x, at offset fp, is the list that it was. */
  ghost predicate ListAt(ts: seq<Token>, f: Forest, x: Spot, p: nat, fp: int, prop: Property) {
    forall g {:trigger Looked(g)} :: g == f ==> ListAtOpen(ts, g, x, p, fp, prop)
  }

  /** fdt_getprop_by_offset on a list */
  method ReadList(b: Blob, fp: int, ghost ox: int, ghost kx: int, ghost x: Spot, ghost p: nat, ghost prop: Property)
    returns (name: Bytes, size: int)
    requires Steady(b, ox, kx, x) && ListAt(b.toks, b.forest, x, p, fp, prop)
    ensures name == prop.name && size == |prop.value|
  {
    SteadyPoints(b, ox, kx, x);
    assert Looked(b.forest);
    var val: Bytes;
    name, val := GetpropByOffset(b, fp, kx, p);
    size := |val|;
  }

  /** fdt_getprop in the tree: where the value starts */
  method FindTree(b: Blob, o: int, name: Bytes, ghost k: int, ghost t: Spot) returns (r: int)
    requires Steady(b, o, k, t)
    ensures Has(b.forest, t) && (r < 0 <==> ValueAt(b.forest, t, name).None?)
    ensures 0 <= r ==> b.offStruct + r + 12 == ValueStart(b, t, name)
  {
    SteadyPoints(b, o, k, t);
    r := b.GetProperty(o, name, k);
    ghost var c := FindProp(b.Props(k), name);
    if r < 0 {
      b.PropEnd(k, c);
    } else if c < |b.Props(k)| {
      b.FoundProp(k, name, c);
    }
  }

  lemma {:induction false} ListSited(b: Blob, t: Spot, name: Bytes, start: int, x: Spot, p: nat, fp: int,
                                     prop: Property)
    requires ListAt(b.toks, b.forest, x, p, fp, prop) && Has(b.forest, t) && ValueAt(b.forest, t, name).Some?
             && start == ValueStart(b, t, name)
    ensures Sited(b.toks, b.forest, b.offStruct, t, name, start, x, p, fp, |prop.value|)
  {
    assert Looked(b.forest);
    assert SitedOpen(b.toks, b.forest, b.offStruct, t, name, start, x, p, fp, |prop.value|);
  }

  /** The body of the loop over the properties */
  method FixProp(b: Blob, o: int, fp: int, delta: int, ghost k: int, ghost t: Spot, ghost ox: int, ghost kx: int,
                 ghost x: Spot, ghost p: nat, ghost prop: Property)
    returns (ret: int, stray: bool)
    requires Steady(b, o, k, t) && Steady(b, ox, kx, x) && ListAt(b.toks, b.forest, x, p, fp, prop)
    modifies b.buf, b`toks, b`forest
    ensures Steady(b, o, k, t) && Steady(b, ox, kx, x) && Akin(old(b.toks), old(b.forest), b.toks, b.forest)
    ensures Came(LiveProp(old(b.forest), t, x, p, prop.name, |prop.value|, delta), b.forest, ret, stray)
    ensures b.Ahead() == old(b.Ahead())
  {
    AkinSelf(b.toks, b.forest);
    var name, size := ReadList(b, fp, ox, kx, x, p, prop);
    if size % 4 != 0 {
      return -BADOVERLAY, false;
    }
    var r := FindTree(b, o, name, k, t);
    if r < 0 {
      return -BADOVERLAY, false;
    }
    ListSited(b, t, name, b.offStruct + r + 12, x, p, fp, prop);
    ret, stray := FixCells(b, o, name, b.offStruct + r + 12, fp, size, delta, k, t, ox, kx, x, p);
  }

  ghost predicate ListsAtOpen(ts: seq<Token>, f: Forest, x: Spot, p: nat, fp: int, ps: seq<Property>) {
    Has(f, x) && SameProps(ps, At(f, x).props) && p <= |ps| && fp == PropOff(ts, f, x, p)
  }

  /** The search for property p of the fixup node x has answered fp; its properties were ps. */
  ghost predicate ListsAt(ts: seq<Token>, f: Forest, x: Spot, p: nat, fp: int, ps: seq<Property>) {
    forall g {:trigger Looked(g)} :: g == f ==> ListsAtOpen(ts, g, x, p, fp, ps)
  }

  lemma {:induction false} ListsStill(ts: seq<Token>, f: Forest, us: seq<Token>, g: Forest, x: Spot, p: nat, fp: int,
                                      ps: seq<Property>)
    requires ListsAt(ts, f, x, p, fp, ps) && Akin(ts, f, us, g)
    ensures ListsAt(us, g, x, p, fp, ps)
  {
    assert Looked(f);
    FormSpot(f, g, x);
    PropOffStill(ts, f, us, g, x, p);
    var qs, rs := At(f, x).props, At(g, x).props;
    forall i {:trigger rs[i]} | 0 <= i < |ps| ensures rs[i].name == ps[i].name && |rs[i].value| == |ps[i].value| {
      assert qs[i].name == ps[i].name;
    }
    assert ListsAtOpen(us, g, x, p, fp, ps);
  }

  /** There is a property for an answer that is an offset, and none otherwise. */
  lemma {:induction false} ListHere(b: Blob, ox: int, kx: int, x: Spot, p: nat, fp: int, ps: seq<Property>)
    requires Steady(b, ox, kx, x) && ListsAt(b.toks, b.forest, x, p, fp, ps)
    ensures 0 <= fp <==> p < |ps|
    ensures 0 <= fp ==> ListAt(b.toks, b.forest, x, p, fp, ps[p])
  {
    assert Looked(b.forest);
    if p < |ps| {
      PropInMemory(b, ox, kx, x, p, b.offStruct + fp + 12);
      assert At(b.forest, x).props[p].name == ps[p].name;
      assert ListAtOpen(b.toks, b.forest, x, p, fp, ps[p]);
    }
  }

  method FirstList(b: Blob, ox: int, ghost kx: int, ghost x: Spot) returns (fp: int)
    requires Steady(b, ox, kx, x) && Has(b.forest, x)
    ensures ListsAt(b.toks, b.forest, x, 0, fp, At(b.forest, x).props)
  {
    SteadyPoints(b, ox, kx, x);
    fp := b.FirstPropertyOffset(ox, kx);
    assert ListsAtOpen(b.toks, b.forest, x, 0, fp, At(b.forest, x).props);
  }

  method NextList(b: Blob, fp: int, ghost ox: int, ghost kx: int, ghost x: Spot, ghost p: nat, ghost ps: seq<Property>)
    returns (r: int)
    requires Steady(b, ox, kx, x) && ListsAt(b.toks, b.forest, x, p, fp, ps) && p < |ps|
    ensures ListsAt(b.toks, b.forest, x, p + 1, r, ps)
  {
    SteadyPoints(b, ox, kx, x);
    assert Looked(b.forest);
    r := b.NextPropertyOffset(fp, kx, p);
    assert ListsAtOpen(b.toks, b.forest, x, p + 1, r, ps);
  }

  /** One turn of the loop over the properties. */
  method FixList(b: Blob, o: int, fp: int, delta: int, ghost k: int, ghost t: Spot, ghost ox: int, ghost kx: int,
                 ghost x: Spot, ghost p: nat, ghost ps: seq<Property>)
    returns (ret: int, stray: bool, next: int)
    requires Steady(b, o, k, t) && Steady(b, ox, kx, x)
    requires ListsAt(b.toks, b.forest, x, p, fp, ps) && 0 <= fp && p < |ps|
    modifies b.buf, b`toks, b`forest
    ensures Steady(b, o, k, t) && Steady(b, ox, kx, x) && Akin(old(b.toks), old(b.forest), b.toks, b.forest)
    ensures Came(LiveProp(old(b.forest), t, x, p, ps[p].name, |ps[p].value|, delta), b.forest, ret, stray)
    ensures ret == 0 && !stray ==> ListsAt(b.toks, b.forest, x, p + 1, next, ps)
    ensures b.Ahead() == old(b.Ahead())
  {
    ghost var ts, f := b.toks, b.forest;
    ListHere(b, ox, kx, x, p, fp, ps);
    ret, stray := FixProp(b, o, fp, delta, k, t, ox, kx, x, p, ps[p]);
    next := fp;
    if ret == 0 && !stray {
      ListsStill(ts, f, b.toks, b.forest, x, p, fp, ps);
      next := NextList(b, fp, ox, kx, x, p, ps);
    }
  }

  lemma {:induction false} LivePropsStep(f: Forest, t: Spot, x: Spot, p: nat, ps: seq<Property>, delta: int)
    requires p < |ps|
    ensures var l := LiveProp(f, t, x, p, ps[p].name, |ps[p].value|, delta);
            LiveProps(f, t, x, p, ps[p..], delta)
            == if l.end.Whole? then LiveProps(l.tree, t, x, p + 1, ps[p + 1..], delta) else l
  {
    assert ps[p..][0] == ps[p] && ps[p..][1..] == ps[p + 1..];
  }

  /** The loop of overlay_update_local_node_references over the properties */
  method FixProps(b: Blob, o: int, ox: int, delta: int, ghost k: int, ghost t: Spot, ghost kx: int, ghost x: Spot)
    returns (ret: int, stray: bool)
    requires Steady(b, o, k, t) && Steady(b, ox, kx, x) && Has(b.forest, x)
    modifies b.buf, b`toks, b`forest
    ensures Steady(b, o, k, t) && Steady(b, ox, kx, x) && Akin(old(b.toks), old(b.forest), b.toks, b.forest)
    ensures Came(LiveProps(old(b.forest), t, x, 0, old(At(b.forest, x).props), delta), b.forest, ret, stray)
    ensures b.Ahead() == old(b.Ahead())
  {
    ghost var ts, f, ps, p := b.toks, b.forest, At(b.forest, x).props, 0;
    AkinSelf(ts, f);
    ret, stray := 0, false;
    var fp := FirstList(b, ox, kx, x);
    ListHere(b, ox, kx, x, p, fp, ps);
    assert ps[0..] == ps;
    while fp >= 0
      invariant b.Ahead() == old(b.Ahead())
      invariant Steady(b, o, k, t) && Steady(b, ox, kx, x) && Akin(ts, f, b.toks, b.forest) && ret == 0 && !stray
      invariant 0 <= p <= |ps| && (fp >= 0 <==> p < |ps|) && ListsAt(b.toks, b.forest, x, p, fp, ps)
      invariant LiveProps(f, t, x, 0, ps, delta) == LiveProps(b.forest, t, x, p, ps[p..], delta)
      decreases |ps| - p
    {
      ghost var ts1, f1 := b.toks, b.forest;
      LivePropsStep(f1, t, x, p, ps, delta);
      ret, stray, fp := FixList(b, o, fp, delta, k, t, ox, kx, x, p, ps);
      AkinTrans(ts, f, ts1, f1, b.toks, b.forest);
      if ret != 0 || stray {
        return;
      }
      p := p + 1;
      ListHere(b, ox, kx, x, p, fp, ps);
    }
  }

  // ----- The children of a fixup node -----

  /** The walk with the fixup node at x. */
  ghost function LiveAt(f: Forest, t: Spot, x: Spot, delta: int): Live
    requires Has(f, x)
  {
    LiveNode(f, t, x, At(f, x).props, At(f, x).kids, delta)
  }

  /** fdt_subnode_offset in the tree */
  method FindChild(b: Blob, o: int, name: Bytes, ghost k: int, ghost t: Spot) returns (r: int, ghost ku: int)
    requires Steady(b, o, k, t) && 0 !in name && |name| < HALF - 16
    ensures match ChildOf(b.forest, t, name) case None => r == -NOTFOUND case Some(u) => 0 <= r && Steady(b, r, ku, u)
  {
    SteadyPoints(b, o, k, t);
    r := b.SubnodeOffset(o, name, k);
    ku := k;
    match FirstKid(At(b.forest, t).kids, name) {
      case None =>
      case Some(q) =>
        ku := FoundKid(b, k, q);
        assert SteadyOpen(b, r, ku, Extend(t, Down(q)));
    }
  }

  method FixupName(b: Blob, ox: int, ghost kx: int, ghost x: Spot) returns (name: Bytes)
    requires Steady(b, ox, kx, x) && Has(b.forest, x)
    ensures name == At(b.forest, x).name && 0 !in name && |name| < HALF - 16
  {
    SteadyPoints(b, ox, kx, x);
    name := GetName(b, ox, kx);
  }

  /** The body of the loop over the children, for the fixup node at x. */
  method FixKid(b: Blob, o: int, child: int, delta: int, ghost k: int, ghost t: Spot, ghost kx: int, ghost x: Spot,
                ghost n: nat)
    returns (ret: int, stray: bool)
    requires Steady(b, o, k, t) && Steady(b, child, kx, x) && Has(b.forest, x) && n == Nodes(At(b.forest, x).kids)
    modifies b.buf, b`toks, b`forest
    ensures Steady(b, o, k, t) && Steady(b, child, kx, x) && Akin(old(b.toks), old(b.forest), b.toks, b.forest)
    ensures match old(ChildOf(b.forest, t, At(b.forest, x).name))
            case None => ret == -BADOVERLAY && !stray && b.forest == old(b.forest)
            case Some(u) => Came(LiveAt(old(b.forest), u, x, delta), b.forest, ret, stray)
    ensures b.Ahead() == old(b.Ahead())
    decreases n, 3
  {
    ghost var ts, f := b.toks, b.forest;
    AkinSelf(ts, f);
    PinDown(b, o, k, t);
    var name := FixupName(b, child, kx, x);
    var r: int;
    ghost var ku;
    r, ku := FindChild(b, o, name, k, t);
    if r == -NOTFOUND {
      return -BADOVERLAY, false;
    }
    ghost var u := ChildOf(b.forest, t, name).value;
    ret, stray := FixNode(b, r, child, delta, ku, u, kx, x, n);
    StillPinned(b, ts, f, child, kx, x, o, k, t);
  }

  /** overlay_update_local_node_references */
  method FixNode(b: Blob, o: int, ox: int, delta: int, ghost k: int, ghost t: Spot, ghost kx: int, ghost x: Spot,
                 ghost n: nat)
    returns (ret: int, stray: bool)
    requires Steady(b, o, k, t) && Steady(b, ox, kx, x) && Has(b.forest, x) && n == Nodes(At(b.forest, x).kids)
    modifies b.buf, b`toks, b`forest
    ensures Steady(b, o, k, t) && Steady(b, ox, kx, x) && Akin(old(b.toks), old(b.forest), b.toks, b.forest)
    ensures Came(LiveAt(old(b.forest), t, x, delta), b.forest, ret, stray)
    ensures b.Ahead() == old(b.Ahead())
    decreases n, 2
  {
    ghost var ts, f := b.toks, b.forest;
    PinDown(b, ox, kx, x);
    ret, stray := FixProps(b, o, ox, delta, k, t, kx, x);
    if ret != 0 || stray {
      return;
    }
    ghost var ts1, f1 := b.toks, b.forest;
    StillPinned(b, ts, f, o, k, t, ox, kx, x);
    AkinKids(ts, f, ts1, f1, x);
    LiveKidsForm(f1, t, x, 0, At(f, x).kids, At(f1, x).kids, delta);
    ret, stray := FixKids(b, o, ox, delta, k, t, kx, x, n);
    AkinTrans(ts, f, ts1, f1, b.toks, b.forest);
  }

  lemma {:induction false} AkinKids(ts: seq<Token>, f: Forest, us: seq<Token>, g: Forest, x: Spot)
    requires Akin(ts, f, us, g) && Has(f, x)
    ensures Has(g, x) && SameProps(At(f, x).props, At(g, x).props) && SameForm(At(f, x).kids, At(g, x).kids)
  {
    assert Looked(f);
    FormSpot(f, g, x);
  }

  lemma {:induction false} DropForm(ks: Forest, ls: Forest, c: nat)
    requires SameForm(ks, ls)
    ensures SameForm(Drop(ks, c), Drop(ls, c))
  {
    if ks.Node? && c > 0 {
      DropForm(ks.next, ls.next, c - 1);
    }
  }

  /** Child c of the fixup node x has the name, and lists of the names and sizes, that it had. */
  lemma {:induction false} KidForm(ts: seq<Token>, f: Forest, us: seq<Token>, g: Forest, x: Spot, c: nat)
    requires Akin(ts, f, us, g) && Has(f, x) && Has(g, KidSpot(x, c)) && Has(g, x) && Has(At(g, x).kids, Nth(c))
    ensures var h, y := Drop(At(f, x).kids, c), At(g, KidSpot(x, c));
            && h.Node? && h.name == y.name && SameProps(y.props, h.props) && SameForm(y.kids, h.kids)
            && Drop(At(f, x).kids, c + 1) == h.next
  {
    AkinKids(ts, f, us, g, x);
    DropForm(At(f, x).kids, At(g, x).kids, c);
    NthIs(At(g, x).kids, c);
    NthIs(At(f, x).kids, c);
    BelowHas(g, x, Nth(c));
    FormSym(Drop(At(f, x).kids, c), Drop(At(g, x).kids, c));
  }

  lemma {:induction false} FormSym(f: Forest, g: Forest)
    requires SameForm(f, g)
    ensures SameForm(g, f)
  {
    if f.Node? {
      FormSym(f.kids, g.kids);
      FormSym(f.next, g.next);
    }
  }

  /** One child, as a step of the loop. */
  lemma {:induction false} LiveKidsStep(f: Forest, t: Spot, x: Spot, c: nat, ks: Forest, y: Forest, delta: int)
    requires ks.Node? && y.Node? && ks.name == y.name && SameProps(y.props, ks.props) && SameForm(y.kids, ks.kids)
    ensures LiveKids(f, t, x, c, ks, delta)
         == match ChildOf(f, t, y.name)
            case None => Live(f, Refused)
            case Some(u) =>
              var l := LiveNode(f, u, KidSpot(x, c), y.props, y.kids, delta);
              if l.end.Whole? then LiveKids(l.tree, t, x, c + 1, ks.next, delta) else l
  {
    match ChildOf(f, t, y.name)
    case None =>
    case Some(u) => LiveForm(f, u, KidSpot(x, c), y.props, y.kids, ks.props, ks.kids, delta);
  }

  /** One turn of the loop over the children. */
  method FixTurn(b: Blob, o: int, ox: int, child: int, delta: int, ghost k: int, ghost t: Spot, ghost kx: int,
                 ghost x: Spot, ghost c: nat, ghost jk: int, ghost n: nat, ghost ts: seq<Token>, ghost f: Forest)
    returns (ret: int, stray: bool, next: int, ghost jn: int)
    requires Steady(b, o, k, t) && Steady(b, ox, kx, x) && Has(b.forest, x) && n == Nodes(At(b.forest, x).kids)
    requires child >= 0 && Asked(b.toks, b.forest, kx, x, c, child, jk)
    requires Akin(ts, f, b.toks, b.forest) && Has(f, x)
    modifies b.buf, b`toks, b`forest
    ensures Steady(b, o, k, t) && Steady(b, ox, kx, x) && Has(b.forest, x) && n == Nodes(At(b.forest, x).kids)
    ensures Akin(ts, f, b.toks, b.forest) && Drop(At(f, x).kids, c).Node?
    ensures var l := LiveKids(old(b.forest), t, x, c, Drop(At(f, x).kids, c), delta);
            if ret == 0 && !stray
            then && l == LiveKids(b.forest, t, x, c + 1, Drop(At(f, x).kids, c + 1), delta)
                 && Asked(b.toks, b.forest, kx, x, c + 1, next, jn)
            else Came(l, b.forest, ret, stray)
    ensures b.Ahead() == old(b.Ahead())
    decreases n, 0
  {
    next, jn := child, jk;
    ghost var ts1, f1 := b.toks, b.forest;
    KidSteady(b, ox, kx, x, c, child, jk);
    PinDown(b, ox, kx, x);
    KidForm(ts, f, ts1, f1, x, c);
    LiveKidsStep(f1, t, x, c, Drop(At(f, x).kids, c), At(f1, KidSpot(x, c)), delta);
    ret, stray := FixKid(b, o, child, delta, k, t, jk, KidSpot(x, c), Nodes(At(f1, KidSpot(x, c)).kids));
    AkinTrans(ts, f, ts1, f1, b.toks, b.forest);
    StillPinned(b, ts1, f1, o, k, t, ox, kx, x);
    if ret == 0 && !stray {
      AskedStill(ts1, f1, b.toks, b.forest, kx, x, c, child, jk);
      next, jn := AskNext(b, ox, child, kx, x, c, jk);
    }
  }

  /** The loop of overlay_update_local_node_references over the children */
  method FixKids(b: Blob, o: int, ox: int, delta: int, ghost k: int, ghost t: Spot, ghost kx: int, ghost x: Spot,
                 ghost n: nat)
    returns (ret: int, stray: bool)
    requires Steady(b, o, k, t) && Steady(b, ox, kx, x) && Has(b.forest, x) && n == Nodes(At(b.forest, x).kids)
    modifies b.buf, b`toks, b`forest
    ensures Steady(b, o, k, t) && Steady(b, ox, kx, x) && Akin(old(b.toks), old(b.forest), b.toks, b.forest)
    ensures Came(LiveKids(old(b.forest), t, x, 0, old(At(b.forest, x).kids), delta), b.forest, ret, stray)
    ensures b.Ahead() == old(b.Ahead())
    decreases n, 1
  {
    ghost var ts, f, ks, c := b.toks, b.forest, At(b.forest, x).kids, 0;
    AkinSelf(ts, f);
    ret, stray := 0, false;
    var child: int;
    ghost var jk;
    child, jk := AskFirst(b, ox, kx, x);
    while child >= 0
      invariant b.Ahead() == old(b.Ahead())
      invariant Steady(b, o, k, t) && Steady(b, ox, kx, x) && Has(b.forest, x) && n == Nodes(At(b.forest, x).kids)
      invariant Akin(ts, f, b.toks, b.forest) && ret == 0 && !stray
      invariant 0 <= c && Asked(b.toks, b.forest, kx, x, c, child, jk)
      invariant LiveKids(f, t, x, 0, ks, delta) == LiveKids(b.forest, t, x, c, Drop(ks, c), delta)
      decreases Nodes(Drop(ks, c))
    {
      ret, stray, child, jk := FixTurn(b, o, ox, child, delta, k, t, kx, x, c, jk, n, ts, f);
      if ret != 0 || stray {
        return;
      }
      NextLeft(ks, c);
      c := c + 1;
    }
    NoMoreKids(b, ts, f, kx, x, c, child, jk);
  }

  lemma {:induction false} NoMoreKids(b: Blob, ts: seq<Token>, f: Forest, kx: int, x: Spot, c: nat, child: int, jk: int)
    requires Akin(ts, f, b.toks, b.forest) && Asked(b.toks, b.forest, kx, x, c, child, jk) && child < 0 && Has(f, x)
    ensures Drop(At(f, x).kids, c).Empty?
  {
    AskedHas(b.toks, b.forest, kx, x, c, child, jk);
    AkinKids(ts, f, b.toks, b.forest, x);
    DropForm(At(f, x).kids, At(b.forest, x).kids, c);
    NthIs(At(b.forest, x).kids, c);
  }

  // ----- The whole overlay -----

  /** "__local_fixups__", and its path */
  const LOCAL_FIXUPS: Bytes := [95, 95, 108, 111, 99, 97, 108, 95, 102, 105, 120, 117, 112, 115, 95, 95]
  const FIXUPS_PATH: Bytes := [SLASH] + LOCAL_FIXUPS

  lemma {:induction false} FixupsPath()
    ensures Components(FIXUPS_PATH, 0) == [LOCAL_FIXUPS] && 0 !in FIXUPS_PATH && |FIXUPS_PATH| == 17
  {
    var path, n := FIXUPS_PATH, 17;
    assert |path| == n && path[0] == SLASH && path[1..] == LOCAL_FIXUPS;
    assert forall i {:trigger path[i]} :: 1 <= i < n ==> path[i] == LOCAL_FIXUPS[i - 1];
    assert NextSlash(path, 1) == n;
    assert path[1..n] == LOCAL_FIXUPS;
    assert Components(path, n) == [];
    assert Components(path, 1) == [path[1..n]] + Components(path, n);
  }

  /** The fixups of an overlay. */
  function Fixups(f: Forest): Option<Spot> {
    ChildOf(f, Here, LOCAL_FIXUPS)
  }

  method FindFixups(b: Blob) returns (r: int, ghost kx: int)
    requires Steady(b, 0, 0, Here) && Rooted(b)
    ensures match Fixups(b.forest) case None => r == -NOTFOUND case Some(x) => 0 <= r && Steady(b, r, kx, x)
  {
    FixupsPath();
    r := PathOffset(b, FIXUPS_PATH);
    kx := 0;
    SteadyPoints(b, 0, 0, Here);
    match FirstKid(b.forest.kids, LOCAL_FIXUPS) {
      case None =>
      case Some(q) =>
        kx := FoundKid(b, 0, q);
        var ns := [LOCAL_FIXUPS];
        assert ns[0] == LOCAL_FIXUPS && |ns[1..]| == 0;
        BelowHas(b.forest, Here, q);
        assert Resolve(b.forest, Here, ns) == Resolve(b.forest, Extend(Here, Down(q)), ns[1..]);
        assert SteadyOpen(b, r, kx, Extend(Here, Down(q)));
    }
  }

  lemma {:induction false} UnderSelf(x: Spot)
    ensures Under(x, x)
  {
    match x
    case Here =>
    case Down(q) => UnderSelf(q);
    case Next(q) => UnderSelf(q);
  }

  /** What the fixups at x list for the whole overlay. */
  ghost function ListOf(f: Forest, x: Spot): Listing
    requires Has(f, x)
  {
    ListNode(f, Here, At(f, x).props, At(f, x).kids)
  }

  /** The fixups are in order. */
  ghost predicate FixupsFit(f: Forest, x: Spot)
    requires Has(f, x)
  {
    NodeFits(f, Here, At(f, x).props, At(f, x).kids)
  }

  /** None of their indices is one of the last four of 32 bits. */
  ghost predicate FixupsTame(f: Forest, x: Spot)
    requires Has(f, x)
  {
    Tame(At(f, x).props, At(f, x).kids)
  }

  /** What the walk over fixups that list nothing of themselves comes to. */
  ghost predicate Fixed(f: Forest, x: Spot, delta: int, g: Forest, ret: int, stray: bool)
    requires Has(f, x)
  {
    && g == Run(f, ListOf(f, x).refs, delta) && (ret == 0 && !stray <==> FixupsFit(f, x))
    && (FixupsTame(f, x) ==> !stray && (ret == -BADOVERLAY <==> !FixupsFit(f, x)))
  }

  lemma {:induction false} WalkFixed(f: Forest, x: Spot, delta: int, g: Forest, ret: int, stray: bool)
    requires Has(f, x) && ByteValues(f) && Outside(ListOf(f, x).refs, x)
    requires Came(LiveAt(f, Here, x, delta), g, ret, stray)
    ensures Fixed(f, x, delta, g, ret, stray)
  {
    UnderSelf(x);
    NodeRun(f, Here, x, At(f, x).props, At(f, x).kids, delta, x);
    BytesGraft(f, x, Empty);
    NodeExactlyWhen(f, Here, At(f, x).props, At(f, x).kids);
  }

  lemma {:induction false} FixupsHere(f: Forest)
    ensures Fixups(f).Some? ==> Has(f, Fixups(f).value)
  {
    if Has(f, Here) && FirstKid(f.kids, LOCAL_FIXUPS).Some? {
      BelowHas(f, Here, FirstKid(f.kids, LOCAL_FIXUPS).value);
    }
  }

  /** overlay_update_local_references */
  method UpdateLocalReferences(b: Blob, delta: int) returns (ret: int, stray: bool)
    requires Rooted(b) && Apart(b) && ByteValues(b.forest)
    modifies b.buf, b`toks, b`forest
    ensures Rooted(b) && Apart(b) && ByteValues(b.forest)
    ensures match old(Fixups(b.forest))
            case None => ret == 0 && !stray && b.forest == old(b.forest)
            case Some(x) =>
              && old(Has(b.forest, x))
              && Came(LiveAt(old(b.forest), Here, x, delta), b.forest, ret, stray)
              && (Outside(ListOf(old(b.forest), x).refs, x) ==> Fixed(old(b.forest), x, delta, b.forest, ret, stray))
    ensures b.Ahead() == old(b.Ahead())
  {
    ghost var ts, f := b.toks, b.forest;
    RootVisit(b, 0);
    FixupsHere(f);
    assert SteadyOpen(b, 0, 0, Here);
    var fixups: int;
    ghost var kx;
    fixups, kx := FindFixups(b);
    if fixups == -NOTFOUND {
      return 0, false;
    }
    ghost var x := Fixups(f).value;
    ret, stray := FixNode(b, 0, fixups, delta, 0, Here, kx, x, Nodes(At(f, x).kids));
    StillRooted(b, ts, f);
    if Outside(ListOf(f, x).refs, x) {
      WalkFixed(f, x, delta, b.forest, ret, stray);
    }
  }

  lemma {:induction false} StillRooted(b: Blob, ts: seq<Token>, f: Forest)
    requires Steady(b, 0, 0, Here) && Akin(ts, f, b.toks, b.forest) && f.Node? && f.next.Empty?
    ensures Rooted(b) && Apart(b) && ByteValues(b.forest)
  {
    SteadyPoints(b, 0, 0, Here);
    assert Looked(f);
    assert SameForm(f.next, b.forest.next);
  }

  lemma {:induction false} ShiftFixups(f: Forest, delta: int)
    requires CanShiftAll(f, delta)
    ensures Fixups(ShiftAll(f, delta)) == Fixups(f)
  {
    ShiftForm(f, delta);
    if f.Node? {
      FormKid(f.kids, ShiftAll(f, delta).kids, LOCAL_FIXUPS);
    }
  }

  /** The fixups list nothing of themselves, and no phandle property. */
  ghost predicate Separate(f: Forest, x: Spot)
    requires Has(f, x)
  {
    Outside(ListOf(f, x).refs, x) && NoPhandles(At(f, x).props, At(f, x).kids)
  }

  /** The shift and the fixups together, as they change an overlay whose fixups are at x. */
  ghost predicate Adopted(f: Forest, x: Spot, delta: int, g: Forest)
    requires Has(f, x)
  {
    var refs := ListOf(f, x).refs;
    Proper(f, refs) && FixupsFit(f, x) && g == Run(ShiftAll(f, delta), refs, delta)
  }

  lemma {:induction false} AdoptedBoth(f: Forest, x: Spot, delta: int, g: Forest)
    requires Has(f, x) && ByteValues(f) && CanShiftAll(f, delta) && NoPhandles(At(f, x).props, At(f, x).kids)
    requires Has(ShiftAll(f, delta), x) && Fixed(ShiftAll(f, delta), x, delta, g, 0, false)
    ensures Adopted(f, x, delta, g)
  {
    ShiftList(f, x, delta, Here);
    BytesGraft(f, x, Empty);
    NodeSound(f, Here, At(f, x).props, At(f, x).kids);
    NodeExactlyWhen(f, Here, At(f, x).props, At(f, x).kids);
    NodeExactlyWhen(ShiftAll(f, delta), Here, At(f, x).props, At(f, x).kids);
  }

  /**
   * The first half of fdt_overlay_apply: the phandles of the overlay, and its references to them, are increased by the
   * greatest phandle of the base.
   */
  method ApplyLocals(fdt: Blob, fdto: Blob) returns (ret: int, stray: bool, delta: int)
    requires Rooted(fdt) && ByteValues(fdt.forest) && fdt != fdto && fdt.buf != fdto.buf
    requires Rooted(fdto) && Apart(fdto) && ByteValues(fdto.forest)
    modifies fdto.buf, fdto`toks, fdto`forest
    ensures Rooted(fdto) && Apart(fdto) && 0 <= delta < W32 - 1
    ensures AtMost(fdt.forest, delta) && Attained(fdt.forest, delta)
    ensures ret == 0 && !stray ==> CanShiftAll(old(fdto.forest), delta)
    ensures ret == 0 && !stray ==>
              match old(Fixups(fdto.forest))
              case None => fdto.forest == ShiftAll(old(fdto.forest), delta)
              case Some(x) =>
                && old(Has(fdto.forest, x))
                && (Separate(old(fdto.forest), x) ==> Adopted(old(fdto.forest), x, delta, fdto.forest))
    ensures fdto.Ahead() == old(fdto.Ahead())
  {
    delta := GetMaxPhandle(fdt);
    ghost var f := fdto.forest;
    stray := false;
    ret := AdjustLocalPhandles(fdto, delta);
    if ret != 0 {
      return;
    }
    FixupsHere(f);
    ShiftFixups(f, delta);
    ghost var h := fdto.forest;
    ret, stray := UpdateLocalReferences(fdto, delta);
    match Fixups(f) {
      case None =>
      case Some(x) =>
        if ret == 0 && !stray && Separate(f, x) {
          ShiftList(f, x, delta, Here);
          AdoptedBoth(f, x, delta, fdto.forest);
        }
    }
  }
}
