/** Phandles of an overlay made different from those of its base (fdt_overlay.c, fdt_ro.c). */
module FdtPhandles {
  import opened FdtFormat
  import opened FdtTree
  import opened FdtTokens
  import opened FdtEdits
  import opened FdtMerge
  import opened FdtShape
  import opened FdtBlob
  import opened FdtWalk
  import opened FdtWip
  import opened FdtOverlay
  import opened FdtPaths

  const BADPHANDLE: int := 6
  const NOPHANDLES: int := 17

  /** "phandle" and "linux,phandle" */
  const PHANDLE: Bytes := [112, 104, 97, 110, 100, 108, 101]
  const LINUX_PHANDLE: Bytes := [108, 105, 110, 117, 120, 44] + PHANDLE

  // ----- Phandles of a tree -----

  /** The values of properties are bytes. */
  ghost predicate ByteValues(f: Forest) {
    match f
    case Empty => true
    case Node(_, props, kids, next) =>
      && (forall i :: 0 <= i < |props| ==> IsBytes(props[i].value)) && ByteValues(kids) && ByteValues(next)
  }

  ghost predicate IsBytes(v: Bytes) {
    forall i :: 0 <= i < |v| ==> 0 <= v[i] < 0x100
  }

  lemma {:induction false} WordRange(v: Bytes)
    requires IsBytes(v) && |v| == 4
    ensures 0 <= ReadWord(v, 0) < W32
  {
  }

  lemma {:induction false} WordBytes(x: int)
    requires 0 <= x < W32
    ensures IsBytes(Word(x)) && ReadWord(Word(x), 0) == x
  {
    ByteBelow(x);
  }

  /** The number in a property, if it has one of that name of the right size. */
  function Cell(ps: seq<Property>, name: Bytes): Option<int> {
    match Lookup(ps, name) case None => None case Some(v) => if |v| == 4 then Some(ReadWord(v, 0)) else None
  }

  /** fdt_get_phandle; zero stands for none */
  function Phandle(ps: seq<Property>): int {
    match Cell(ps, PHANDLE)
    case Some(x) => x
    case None => match Cell(ps, LINUX_PHANDLE) case Some(x) => x case None => 0
  }

  /** The node has a phandle property of the right size, be its value zero or not. */
  predicate Marked(ps: seq<Property>) {
    Cell(ps, PHANDLE).Some? || Cell(ps, LINUX_PHANDLE).Some?
  }

  // ----- Shifting -----

  /** The number can be shifted: it does not overflow and does not become the reserved one. */
  predicate CanShift(ps: seq<Property>, name: Bytes, delta: int) {
    match Lookup(ps, name) case None => true case Some(v) => |v| == 4 && ReadWord(v, 0) + delta < W32 - 1
  }

  function Shift(g: Forest, name: Bytes, delta: int): (h: Forest)
    requires g.Node? && g.next.Empty?
    ensures h.Node? && h.next.Empty? && h.name == g.name && h.kids == g.kids
  {
    match Lookup(g.props, name)
    case None => g
    case Some(v) => if |v| == 4 then WithProp(g, name, Word(ReadWord(v, 0) + delta)) else g
  }

  /** Both properties of a node shifted. */
  function ShiftBoth(g: Forest, delta: int): (h: Forest)
    requires g.Node?
    ensures h.Node? && h.next.Empty? && h.name == g.name && h.kids == g.kids
  {
    Shift(Shift(Alone(g), PHANDLE, delta), LINUX_PHANDLE, delta)
  }

  /** overlay_adjust_node_phandles on every node of a list and below */
  function ShiftAll(f: Forest, delta: int): (g: Forest)
    ensures g.Node? == f.Node?
  {
    match f
    case Empty => Empty
    case Node(name, _, kids, next) => Node(name, ShiftBoth(f, delta).props, ShiftAll(kids, delta), ShiftAll(next,
      delta))
  }

  predicate CanShiftAll(f: Forest, delta: int) {
    match f
    case Empty => true
    case Node(_, props, kids, next) =>
      && CanShift(props, PHANDLE, delta) && CanShift(props, LINUX_PHANDLE, delta)
      && CanShiftAll(kids, delta) && CanShiftAll(next, delta)
  }

  lemma {:induction false} ShiftCell(g: Forest, name: Bytes, delta: int, other: Bytes)
    requires g.Node? && g.next.Empty? && 0 <= delta && CanShift(g.props, name, delta)
    requires Lookup(g.props, name).Some? ==> IsBytes(Lookup(g.props, name).value)
    ensures Cell(Shift(g, name, delta).props, name)
         == match Cell(g.props, name) case None => None case Some(x) => Some(x + delta)
    ensures other != name ==> Lookup(Shift(g, name, delta).props, other) == Lookup(g.props, other)
  {
    match Lookup(g.props, name)
    case None =>
    case Some(v) =>
      WordRange(v);
      WordBytes(ReadWord(v, 0) + delta);
      WithPropLaws(g, name, Word(ReadWord(v, 0) + delta), other);
      WithPropLaws(g, name, Word(ReadWord(v, 0) + delta), name);
  }

  lemma {:induction false} LookupBytes(ps: seq<Property>, name: Bytes)
    requires forall i :: 0 <= i < |ps| ==> IsBytes(ps[i].value)
    ensures Lookup(ps, name).Some? ==> IsBytes(Lookup(ps, name).value)
  {
  }

  lemma {:induction false} NamesDiffer()
    ensures PHANDLE != LINUX_PHANDLE
  {
    assert |PHANDLE| == 7 && |LINUX_PHANDLE| == 13;
  }

  /** A node that has a phandle has it shifted. */
  lemma {:induction false} ShiftedPhandle(g: Forest, delta: int)
    requires g.Node? && 0 <= delta && CanShift(g.props, PHANDLE, delta) && CanShift(g.props, LINUX_PHANDLE, delta)
    requires forall i :: 0 <= i < |g.props| ==> IsBytes(g.props[i].value)
    ensures var x, y := Phandle(g.props), Phandle(ShiftBoth(g, delta).props);
            && (Marked(g.props) ==> y == x + delta && 0 <= x && y < W32 - 1)
            && (!Marked(g.props) ==> x == 0 && y == 0)
  {
    NamesDiffer();
    var h := Alone(g);
    var h1 := Shift(h, PHANDLE, delta);
    LookupBytes(g.props, PHANDLE);
    LookupBytes(g.props, LINUX_PHANDLE);
    ShiftCell(h, PHANDLE, delta, LINUX_PHANDLE);
    ShiftCell(h1, LINUX_PHANDLE, delta, PHANDLE);
  }

  lemma {:induction false} ShiftSpot(f: Forest, delta: int, s: Spot)
    requires Has(f, s) && ByteValues(f) && CanShiftAll(f, delta)
    ensures Has(ShiftAll(f, delta), s) && At(ShiftAll(f, delta), s).props == ShiftBoth(At(f, s), delta).props
    ensures var g := At(f, s);
            && CanShift(g.props, PHANDLE, delta) && CanShift(g.props, LINUX_PHANDLE, delta)
            && forall i :: 0 <= i < |g.props| ==> IsBytes(g.props[i].value)
    decreases s
  {
    match s
    case Here =>
    case Down(q) => ShiftSpot(f.kids, delta, q);
    case Next(q) => ShiftSpot(f.next, delta, q);
  }

  /** No phandle of the tree, but the reserved one, is greater than max. */
  ghost predicate AtMost(f: Forest, max: int) {
    forall s {:trigger Has(f, s)} :: Has(f, s) ==> var x := Phandle(At(f, s).props); x <= max || x == W32 - 1
  }

  /** Shifted by the greatest phandle of the base, the phandles of the overlay are none of the base. */
  lemma {:induction false} ShiftedApart(base: Forest, over: Forest, max: int, s: Spot, t: Spot)
    requires AtMost(base, max) && 0 <= max && ByteValues(over) && CanShiftAll(over, max) && Has(over, s) && Has(base, t)
    requires 0 < Phandle(At(over, s).props)
    ensures Has(ShiftAll(over, max), s) && Phandle(At(ShiftAll(over, max), s).props) == Phandle(At(over, s).props) + max
    ensures Phandle(At(ShiftAll(over, max), s).props) != Phandle(At(base, t).props)
  {
    ShiftSpot(over, max, s);
    ShiftedPhandle(At(over, s), max);
  }

  /**
   * Two nodes of the overlay have the same phandle after the shift exactly when they had before: a reference p, as p +
   * max, means the same node.
   */
  lemma {:induction false} ShiftedSame(over: Forest, max: int, s: Spot, p: int)
    requires 0 <= max && ByteValues(over) && CanShiftAll(over, max) && Has(over, s) && 0 < p
    ensures Has(ShiftAll(over, max), s)
    ensures Phandle(At(ShiftAll(over, max), s).props) == p + max <==> Phandle(At(over, s).props) == p
  {
    ShiftSpot(over, max, s);
    ShiftedPhandle(At(over, s), max);
  }

  // ----- One property of one node -----

  ghost predicate SteadyOpen(b: Blob, o: int, k: int, s: Spot)
    reads b, b.buf
  {
    b.Valid() && Apart(b) && b.Remains(o, k, s) && ByteValues(b.forest)
  }

  /** The node at offset o, token k and spot s of a blob whose blocks do not overlap. */
  ghost predicate Steady(b: Blob, o: int, k: int, s: Spot)
    reads b, b.buf
  {
    forall f {:trigger Looked(f)} :: f == b.forest ==> SteadyOpen(b, o, k, s)
  }

  lemma {:induction false} SteadyPoints(b: Blob, o: int, k: int, s: Spot)
    requires Steady(b, o, k, s)
    ensures SteadyOpen(b, o, k, s) && b.Points(o, k) && Has(b.forest, s) && 0 <= o
  {
    assert Looked(b.forest);
    b.Opened();
    b.PointsAt(k);
    b.NodeHere(k);
  }

  lemma {:induction false} BytesGraft(f: Forest, s: Spot, x: Forest)
    requires Has(f, s) && ByteValues(f)
    ensures ByteValues(At(f, s)) && (ByteValues(x) ==> ByteValues(Graft(f, s, x)))
    decreases s
  {
    match s
    case Here => BytesAppend(x, f.next);
    case Down(q) => BytesGraft(f.kids, q, x);
    case Next(q) => BytesGraft(f.next, q, x);
  }

  lemma {:induction false} BytesAppend(x: Forest, f: Forest)
    requires ByteValues(f)
    ensures ByteValues(x) ==> ByteValues(Append(x, f))
  {
    if x.Node? {
      BytesAppend(x.next, f);
    }
  }

  lemma {:induction false} BytesWith(g: Forest, name: Bytes, v: Bytes)
    requires g.Node? && ByteValues(Alone(g)) && IsBytes(v)
    ensures ByteValues(WithProp(g, name, v))
  {
    var h := WithProp(g, name, v);
    forall i | 0 <= i < |h.props| ensures IsBytes(h.props[i].value) {
      assert h.props[i] == Property(name, v) || h.props[i] in g.props;
      if h.props[i] in g.props {
        var j :| 0 <= j < |g.props| && g.props[j] == h.props[i];
      }
    }
  }

  lemma {:induction false} ShapeWith(g: Forest, name: Bytes, v: Bytes)
    requires g.Node? && Lookup(g.props, name).Some?
    ensures SameShape(Alone(g), WithProp(g, name, v))
  {
    ShapeSelf(g.kids);
  }

  /** Setting a property that is there changes no shape. */
  lemma {:induction false} SetAlike(f: Forest, s: Spot, name: Bytes, v: Bytes, g: Forest)
    requires PropSet(f, s, name, v, g) && Has(f, s) && Lookup(At(f, s).props, name).Some? && ByteValues(f) && IsBytes(v)
    ensures SameShape(f, g) && ByteValues(g)
  {
    assert Looked(f);
    var x := At(f, s);
    ShapeWith(x, name, v);
    ShapeGraft(f, s, WithProp(x, name, v));
    BytesGraft(f, s, Empty);
    BytesWith(x, name, v);
    BytesGraft(f, s, WithProp(x, name, v));
  }

  /** The four bytes of a property. */
  method ReadCell(b: Blob, o: int, ghost i: int) returns (x: int)
    requires b.Valid() && 0 <= i < |b.toks| && b.toks[i].Prop? && o == Offset(b.toks, i) && |b.toks[i].value| == 4
    ensures x == ReadWord(b.toks[i].value, 0)
  {
    b.Opened();
    var v := ReadValue(b, o, i);
    x := ReadWord(v, 0);
  }

  /** How overlay_phandle_add_offset answers. */
  function Verdict(ps: seq<Property>, name: Bytes, delta: int): int {
    match Lookup(ps, name)
    case None => -NOTFOUND
    case Some(v) => if |v| != 4 then -BADPHANDLE else if ReadWord(v, 0) + delta >= W32 - 1 then -NOPHANDLES else 0
  }

  /** The error for the two properties of a node, or zero. */
  function OwnError(ps: seq<Property>, delta: int): int {
    var e, l := Verdict(ps, PHANDLE, delta), Verdict(ps, LINUX_PHANDLE, delta);
    if e != 0 && e != -NOTFOUND then e else if l == -NOTFOUND then 0 else l
  }

  /** The first error, in the order of the nodes in the blob, for a node and what is below it. */
  function ErrorOne(g: Forest, delta: int): int
    requires g.Node?
    decreases g, 0
  {
    var e := OwnError(g.props, delta);
    if e != 0 then e else ErrorAll(g.kids, delta)
  }

  /** The first error for siblings and what is below them. */
  function ErrorAll(f: Forest, delta: int): int
    decreases f, 1
  {
    if f.Empty? then 0
    else
      var e := ErrorOne(f, delta);
      if e != 0 then e else ErrorAll(f.next, delta)
  }

  lemma {:induction false} NoWrap(x: int, delta: int)
    requires 0 <= x < W32 && 0 <= delta < W32
    ensures x + delta < W32 ==> (x + delta) % W32 == x + delta
    ensures x + delta >= W32 ==> (x + delta) % W32 == x + delta - W32 < x
  {
  }

  /** overlay_phandle_add_offset */
  method PhandleAddOffset(b: Blob, o: int, name: Bytes, delta: int, ghost k: int, ghost s: Spot) returns (err: int)
    requires Steady(b, o, k, s) && 0 <= delta < W32 && Has(b.forest, s)
    modifies b.buf, b`toks, b`forest
    ensures Steady(b, o, k, s) && Alike(old(b.toks), old(b.forest), b.toks, b.forest)
    ensures err == old(Verdict(At(b.forest, s).props, name, delta))
    ensures err == 0 || err == -NOTFOUND ==>
              Grafted(old(b.forest), s, Shift(old(Alone(At(b.forest, s))), name, delta), b.forest)
    ensures err != 0 ==> b.forest == old(b.forest) && b.toks == old(b.toks)
    ensures b.Ahead() == old(b.Ahead())
  {
    AlikeSelf(b.toks, b.forest);
    StartGraft(b.forest, s);
    SteadyPoints(b, o, k, s);
    var adj: int;
    err, adj := FindCell(b, o, name, k, s);
    if err != 0 {
      return;
    }
    NoWrap(adj, delta);
    if (adj + delta) % W32 < adj {
      return -NOPHANDLES;
    }
    adj := (adj + delta) % W32;
    if adj == W32 - 1 {
      return -NOPHANDLES;
    }
    WordBytes(adj);
    err := SetCell(b, o, name, adj, k, s);
  }

  /** fdt_getprop and the look at the size that follows it */
  method FindCell(b: Blob, o: int, name: Bytes, ghost k: int, ghost s: Spot) returns (err: int, x: int)
    requires b.Valid() && b.Remains(o, k, s) && ByteValues(b.forest) && Has(b.forest, s)
    ensures match Lookup(At(b.forest, s).props, name)
            case None => err == -NOTFOUND
            case Some(v) => if |v| != 4 then err == -BADPHANDLE else err == 0 && x == ReadWord(v, 0) && 0 <= x < W32
  {
    b.Opened();
    b.PointsAt(k);
    x := 0;
    var r := b.GetProperty(o, name, k);
    if r < 0 {
      b.PropEnd(k, FindProp(b.Props(k), name));
      return r, x;
    }
    ghost var c := FindProp(b.Props(k), name);
    b.FoundProp(k, name, c);
    ghost var i := b.PropToken(k, c);
    var len := b.PropLen(r, i);
    if len != 4 {
      return -BADPHANDLE, x;
    }
    x := ReadCell(b, r, i);
    CellRange(b.forest, s, name);
    err := 0;
  }

  lemma {:induction false} CellRange(f: Forest, s: Spot, name: Bytes)
    requires Has(f, s) && ByteValues(f)
    ensures match Lookup(At(f, s).props, name) case None => true case Some(v) => |v| == 4 ==> 0 <= ReadWord(v, 0) < W32
  {
    BytesGraft(f, s, Empty);
    LookupBytes(At(f, s).props, name);
    match Lookup(At(f, s).props, name)
    case None =>
    case Some(v) =>
      if |v| == 4 {
        WordRange(v);
      }
  }

  /** fdt_setprop_inplace_u32 on a property of four bytes */
  method SetCell(b: Blob, o: int, name: Bytes, x: int, ghost k: int, ghost s: Spot) returns (err: int)
    requires Steady(b, o, k, s) && Has(b.forest, s) && IsBytes(Word(x))
    requires match Lookup(At(b.forest, s).props, name) case None => false case Some(v) => |v| == 4
    modifies b.buf, b`toks, b`forest
    ensures err == 0 && Steady(b, o, k, s) && Alike(old(b.toks), old(b.forest), b.toks, b.forest)
    ensures Grafted(old(b.forest), s, WithProp(old(Alone(At(b.forest, s))), name, Word(x)), b.forest)
    ensures b.Ahead() == old(b.Ahead())
  {
    SteadyPoints(b, o, k, s);
    err := SetpropInplace(b, o, name, Word(x), k);
    SetGraft(old(b.forest), s, name, Word(x), b.forest);
    SetAlike(old(b.forest), s, name, Word(x), b.forest);
    AlikeNode(old(b.toks), old(b.forest), b.toks, b.forest, s, k);
    assert SteadyOpen(b, o, k, s);
  }

  // ----- A node and the nodes below it -----

  /** The siblings, the first c of them shifted with all below them. */
  function ShiftFirst(ks: Forest, c: nat, delta: int): (g: Forest)
    ensures g.Node? == ks.Node?
  {
    if c == 0 || ks.Empty? then ks
    else Node(ks.name, ShiftBoth(ks, delta).props, ShiftAll(ks.kids, delta), ShiftFirst(ks.next, c - 1, delta))
  }

  /** A node shifted with all below it. */
  function ShiftOne(g: Forest, delta: int): (h: Forest)
    requires g.Node?
    ensures h.Node? && h.next.Empty? && h.name == g.name
  {
    var h := ShiftBoth(g, delta);
    Node(h.name, h.props, ShiftAll(g.kids, delta), Empty)
  }

  predicate CanShiftOne(g: Forest, delta: int)
    requires g.Node?
  {
    CanShift(g.props, PHANDLE, delta) && CanShift(g.props, LINUX_PHANDLE, delta) && CanShiftAll(g.kids, delta)
  }

  lemma {:induction false} ShiftNext(ks: Forest, c: nat, delta: int)
    requires Has(ks, Nth(c))
    ensures var fs := ShiftFirst(ks, c, delta);
            && Has(fs, Nth(c)) && Alone(At(fs, Nth(c))) == Alone(At(ks, Nth(c)))
            && Graft(fs, Nth(c), ShiftOne(At(ks, Nth(c)), delta)) == ShiftFirst(ks, c + 1, delta)
    decreases c
  {
    if c > 0 {
      ShiftNext(ks.next, c - 1, delta);
    } else {
      var x := ShiftOne(ks, delta);
      assert Append(x, ks.next) == x.(next := Append(x.next, ks.next));
      assert ShiftFirst(ks, 1, delta).next == ShiftFirst(ks.next, 0, delta);
    }
  }

  lemma {:induction false} ShiftedFirst(ks: Forest, c: nat, delta: int)
    requires !Has(ks, Nth(c))
    ensures ShiftFirst(ks, c, delta) == ShiftAll(ks, delta)
    decreases c
  {
    if ks.Node? && c > 0 {
      ShiftedFirst(ks.next, c - 1, delta);
    }
  }

  /** The first c siblings can be shifted with all below them. */
  predicate CanFirst(ks: Forest, c: nat, delta: int) {
    c == 0 || ks.Empty? || (CanShiftOne(ks, delta) && CanFirst(ks.next, c - 1, delta))
  }

  lemma {:induction false} CanNext(ks: Forest, c: nat, delta: int)
    requires Has(ks, Nth(c))
    ensures CanFirst(ks, c + 1, delta) <==> CanFirst(ks, c, delta) && CanShiftOne(At(ks, Nth(c)), delta)
    ensures CanShiftAll(ks, delta) ==> CanFirst(ks, c + 1, delta)
    decreases c
  {
    if c > 0 {
      CanNext(ks.next, c - 1, delta);
    } else {
      assert CanFirst(ks.next, 0, delta);
    }
  }

  /** There is an error exactly when something cannot be shifted. */
  lemma {:induction false} ErrorIs(f: Forest, delta: int)
    ensures ErrorAll(f, delta) == 0 <==> CanShiftAll(f, delta)
  {
    if f.Node? {
      ErrorIs(f.kids, delta);
      ErrorIs(f.next, delta);
      VerdictIs(f.props, PHANDLE, delta);
      VerdictIs(f.props, LINUX_PHANDLE, delta);
    }
  }

  /** The first error is that of the first sibling that has one. */
  lemma {:induction false} ErrorFirst(ks: Forest, c: nat, delta: int)
    requires Has(ks, Nth(c)) && CanFirst(ks, c, delta) && ErrorOne(At(ks, Nth(c)), delta) != 0
    ensures ErrorAll(ks, delta) == ErrorOne(At(ks, Nth(c)), delta)
    decreases c
  {
    if c > 0 {
      ErrorIs(ks.kids, delta);
      VerdictIs(ks.props, PHANDLE, delta);
      VerdictIs(ks.props, LINUX_PHANDLE, delta);
      ErrorFirst(ks.next, c - 1, delta);
    }
  }

  lemma {:induction false} CanLast(ks: Forest, c: nat, delta: int)
    requires !Has(ks, Nth(c))
    ensures CanFirst(ks, c, delta) <==> CanShiftAll(ks, delta)
    decreases c
  {
    if ks.Node? && c > 0 {
      CanLast(ks.next, c - 1, delta);
    }
  }

  /** A child that has been shifted, as a change of its parent. */
  lemma {:induction false} KidShifted(f0: Forest, s: Spot, x: Forest, ks: Forest, c: nat, delta: int, f: Forest,
                                      g: Forest)
    requires x.Node? && x.next.Empty? && x.kids == ks && Has(ks, Nth(c))
    requires Grafted(f0, s, x.(kids := ShiftFirst(ks, c, delta)), f)
    requires Has(f, KidSpot(s, c)) && Grafted(f, KidSpot(s, c), ShiftOne(At(f, KidSpot(s, c)), delta), g)
    ensures Grafted(f0, s, x.(kids := ShiftFirst(ks, c + 1, delta)), g)
  {
    assert Looked(f0) && Looked(f);
    var y := x.(kids := ShiftFirst(ks, c, delta));
    GraftTwice(f0, s, y, x.(kids := ShiftFirst(ks, c + 1, delta)));
    ShiftNext(ks, c, delta);
    BelowHas(f, s, Nth(c));
    OneAlone(At(f, KidSpot(s, c)), At(ks, Nth(c)), delta);
    GraftBelow(f, s, Nth(c), ShiftOne(At(ks, Nth(c)), delta));
    assert GraftedOpen(f0, s, x.(kids := ShiftFirst(ks, c + 1, delta)), g);
  }

  lemma {:induction false} OneAlone(g: Forest, h: Forest, delta: int)
    requires g.Node? && h.Node? && Alone(g) == Alone(h)
    ensures ShiftOne(g, delta) == ShiftOne(h, delta) && (CanShiftOne(g, delta) <==> CanShiftOne(h, delta))
    ensures ErrorOne(g, delta) == ErrorOne(h, delta)
  {
  }

  lemma {:induction false} BothGrafted(f: Forest, s: Spot, f1: Forest, g: Forest, delta: int)
    requires Has(f, s) && Has(f1, s) && ByteValues(f) && 0 <= delta
             && Grafted(f, s, Shift(Alone(At(f, s)), PHANDLE, delta), f1)
    requires CanShift(At(f, s).props, PHANDLE, delta)
    ensures CanShift(At(f1, s).props, LINUX_PHANDLE, delta) <==> CanShift(At(f, s).props, LINUX_PHANDLE, delta)
    ensures Verdict(At(f1, s).props, LINUX_PHANDLE, delta) == Verdict(At(f, s).props, LINUX_PHANDLE, delta)
    ensures Grafted(f1, s, Shift(Alone(At(f1, s)), LINUX_PHANDLE, delta), g) ==>
              Grafted(f, s, ShiftBoth(At(f, s), delta), g)
  {
    NamesDiffer();
    var x := Shift(Alone(At(f, s)), PHANDLE, delta);
    assert Looked(f);
    GraftTwice(f, s, x, x);
    BytesGraft(f, s, Empty);
    LookupBytes(At(f, s).props, PHANDLE);
    ShiftCell(Alone(At(f, s)), PHANDLE, delta, LINUX_PHANDLE);
    if Grafted(f1, s, Shift(Alone(At(f1, s)), LINUX_PHANDLE, delta), g) {
      GraftAgain(f, s, x, f1, Shift(Alone(At(f1, s)), LINUX_PHANDLE, delta), g);
    }
  }

  lemma {:induction false} VerdictIs(ps: seq<Property>, name: Bytes, delta: int)
    ensures Verdict(ps, name, delta) == 0 || Verdict(ps, name, delta) == -NOTFOUND <==> CanShift(ps, name, delta)
  {
  }

  /** The first part of overlay_adjust_node_phandles: both properties of the node */
  method AdjustOwn(b: Blob, o: int, delta: int, ghost k: int, ghost s: Spot) returns (ret: int)
    requires Steady(b, o, k, s) && 0 <= delta < W32 && Has(b.forest, s)
    modifies b.buf, b`toks, b`forest
    ensures Steady(b, o, k, s) && Alike(old(b.toks), old(b.forest), b.toks, b.forest)
    ensures ret == 0 <==>
            && old(CanShift(At(b.forest, s).props, PHANDLE, delta))
            && old(CanShift(At(b.forest, s).props, LINUX_PHANDLE, delta))
    ensures ret == old(OwnError(At(b.forest, s).props, delta))
    ensures ret == 0 ==> Grafted(old(b.forest), s, ShiftBoth(old(At(b.forest, s)), delta), b.forest)
    ensures b.Ahead() == old(b.Ahead())
  {
    ghost var ts, f := b.toks, b.forest;
    assert ByteValues(f) by {
      SteadyPoints(b, o, k, s);
    }
    VerdictIs(At(f, s).props, PHANDLE, delta);
    ret := PhandleAddOffset(b, o, PHANDLE, delta, k, s);
    if ret != 0 && ret != -NOTFOUND {
      return;
    }
    ghost var ts1, f1 := b.toks, b.forest;
    assert Has(f1, s) by {
      SteadyPoints(b, o, k, s);
    }
    VerdictIs(At(f1, s).props, LINUX_PHANDLE, delta);
    ret := PhandleAddOffset(b, o, LINUX_PHANDLE, delta, k, s);
    AlikeTrans(ts, f, ts1, f1, b.toks, b.forest);
    BothGrafted(f, s, f1, b.forest, delta);
    if ret != 0 && ret != -NOTFOUND {
      return;
    }
    ret := 0;
  }

  lemma {:induction false} AlikeKid(ts: seq<Token>, f: Forest, us: seq<Token>, g: Forest, s: Spot, c: nat, j: int)
    requires Alike(ts, f, us, g) && Has(f, s)
    ensures Has(g, s) && (Has(At(g, s).kids, Nth(c)) <==> Has(At(f, s).kids, Nth(c)))
    ensures Nodes(At(g, s).kids) == Nodes(At(f, s).kids)
    ensures KidToken(ts, f, s, c, j) ==> KidToken(us, g, s, c, j) && Offset(us, j) == Offset(ts, j)
  {
    assert Compared(ts);
    ShapeSpot(f, g, s);
    ShapeSpot(At(f, s).kids, At(g, s).kids, Nth(c));
    ShapeNodes(At(f, s).kids, At(g, s).kids);
    if KidToken(ts, f, s, c, j) {
      AlikeNode(ts, f, us, g, KidSpot(s, c), j);
    }
  }

  lemma {:induction false} ShapeNodes(f: Forest, g: Forest)
    requires SameShape(f, g)
    ensures Nodes(f) == Nodes(g)
  {
    if f.Node? {
      ShapeNodes(f.kids, g.kids);
      ShapeNodes(f.next, g.next);
    }
  }

  ghost predicate AskedOpen(ts: seq<Token>, f: Forest, k: int, s: Spot, c: nat, r: int, j: int) {
    && Has(f, s)
    && if Has(At(f, s).kids, Nth(c)) then KidToken(ts, f, s, c, j) && 0 <= r == Offset(ts, j) && k < j
       else r == -NOTFOUND
  }

  /** The search for child c of the node at token k and spot s has answered r. */
  ghost predicate Asked(ts: seq<Token>, f: Forest, k: int, s: Spot, c: nat, r: int, j: int) {
    forall h {:trigger Looked(h)} :: h == f ==> AskedOpen(ts, h, k, s, c, r, j)
  }

  lemma {:induction false} AskedHas(ts: seq<Token>, f: Forest, k: int, s: Spot, c: nat, r: int, j: int)
    requires Asked(ts, f, k, s, c, r, j)
    ensures Has(f, s) && (r >= 0 <==> Has(At(f, s).kids, Nth(c)))
  {
    assert Looked(f);
  }

  lemma {:induction false} AskedStill(ts: seq<Token>, f: Forest, us: seq<Token>, g: Forest, k: int, s: Spot, c: nat,
                                      r: int, j: int)
    requires Asked(ts, f, k, s, c, r, j) && Alike(ts, f, us, g)
    ensures Asked(us, g, k, s, c, r, j)
  {
    assert Looked(f);
    AlikeKid(ts, f, us, g, s, c, j);
    assert AskedOpen(us, g, k, s, c, r, j);
  }

  method AskFirst(b: Blob, o: int, ghost k: int, ghost s: Spot) returns (r: int, ghost jk: int)
    requires Steady(b, o, k, s)
    ensures Asked(b.toks, b.forest, k, s, 0, r, jk)
  {
    SteadyPoints(b, o, k, s);
    r, jk := FirstSubnode(b, o, k);
    KidOffset(b, k, 0, r, jk);
    assert AskedOpen(b.toks, b.forest, k, s, 0, r, jk);
  }

  method AskNext(b: Blob, o: int, child: int, ghost k: int, ghost s: Spot, ghost c: nat,
                 ghost jk: int) returns (r: int, ghost jn: int)
    requires Steady(b, o, k, s) && child >= 0 && Asked(b.toks, b.forest, k, s, c, child, jk)
    ensures Asked(b.toks, b.forest, k, s, c + 1, r, jn)
  {
    SteadyPoints(b, o, k, s);
    assert Looked(b.forest);
    r, jn := NextSubnode(b, child, k, c, jk);
    KidOffset(b, k, c + 1, r, jn);
    assert AskedOpen(b.toks, b.forest, k, s, c + 1, r, jn);
  }

  lemma {:induction false} KidSteady(b: Blob, o: int, k: int, s: Spot, c: nat, r: int, jk: int)
    requires Steady(b, o, k, s) && r >= 0 && Asked(b.toks, b.forest, k, s, c, r, jk)
    ensures Has(b.forest, s) && Has(At(b.forest, s).kids, Nth(c)) && Has(b.forest, KidSpot(s, c))
            && Steady(b, r, jk, KidSpot(s, c))
    ensures At(b.forest, KidSpot(s, c)) == At(At(b.forest, s).kids, Nth(c))
    ensures Nodes(At(b.forest, KidSpot(s, c)).kids) < Nodes(At(b.forest, s).kids)
  {
    assert Looked(b.forest);
    NextGiven(At(b.forest, s).kids, c);
    BelowHas(b.forest, s, Nth(c));
    assert SteadyOpen(b, r, jk, KidSpot(s, c));
  }

  lemma {:induction false} SteadyStill(b: Blob, ts: seq<Token>, f: Forest, o: int, k: int, s: Spot)
    requires b.Valid() && Apart(b) && ByteValues(b.forest) && Alike(ts, f, b.toks, b.forest) && Has(f, s)
    requires 0 <= k < |ts| && ts[k].BeginNode? && o == Offset(ts, k) && NodeSpot(ts, f, k) == s
    ensures Steady(b, o, k, s) && Has(b.forest, s) && Nodes(At(b.forest, s).kids) == Nodes(At(f, s).kids)
  {
    AlikeNode(ts, f, b.toks, b.forest, s, k);
    AlikeKid(ts, f, b.toks, b.forest, s, 0, 0);
    assert SteadyOpen(b, o, k, s);
  }

  /** One turn of the loop over the children. */
  method AdjustNext(b: Blob, o: int, child: int, delta: int, ghost k: int, ghost s: Spot, ghost c: nat,
                    ghost jk: int, ghost n: nat)
    returns (ret: int, next: int, ghost jn: int)
    requires Steady(b, o, k, s) && 0 <= delta < W32 && Has(b.forest, s) && n == Nodes(At(b.forest, s).kids)
    requires child >= 0 && Asked(b.toks, b.forest, k, s, c, child, jk) && Has(At(b.forest, s).kids, Nth(c))
             && Has(b.forest, KidSpot(s, c))
    modifies b.buf, b`toks, b`forest
    ensures Steady(b, o, k, s) && Has(b.forest, s) && n == Nodes(At(b.forest, s).kids)
            && Alike(old(b.toks), old(b.forest), b.toks, b.forest)
    ensures ret == 0 <==> old(CanShiftOne(At(At(b.forest, s).kids, Nth(c)), delta))
    ensures ret == old(ErrorOne(At(At(b.forest, s).kids, Nth(c)), delta))
    ensures ret == 0 ==>
              && Asked(b.toks, b.forest, k, s, c + 1, next, jn)
              && Grafted(old(b.forest), KidSpot(s, c), ShiftOne(old(At(b.forest, KidSpot(s, c))), delta), b.forest)
    ensures b.Ahead() == old(b.Ahead())
    decreases n, 0
  {
    next, jn := child, jk;
    KidSteady(b, o, k, s, c, child, jk);
    ghost var ts, f := b.toks, b.forest;
    SteadyPoints(b, o, k, s);
    ret := AdjustNode(b, child, delta, jk, KidSpot(s, c), Nodes(At(f, KidSpot(s, c)).kids));
    SteadyPoints(b, child, jk, KidSpot(s, c));
    SteadyStill(b, ts, f, o, k, s);
    if ret != 0 {
      return;
    }
    AskedStill(ts, f, b.toks, b.forest, k, s, c, child, jk);
    next, jn := AskNext(b, o, child, k, s, c, jk);
  }

  /** overlay_adjust_node_phandles */
  method AdjustNode(b: Blob, o: int, delta: int, ghost k: int, ghost s: Spot, ghost n: nat) returns (ret: int)
    requires Steady(b, o, k, s) && 0 <= delta < W32 && Has(b.forest, s) && n == Nodes(At(b.forest, s).kids)
    modifies b.buf, b`toks, b`forest
    ensures Steady(b, o, k, s) && Alike(old(b.toks), old(b.forest), b.toks, b.forest)
    ensures ret == 0 <==> old(CanShiftOne(At(b.forest, s), delta))
    ensures ret == old(ErrorOne(At(b.forest, s), delta))
    ensures ret == 0 ==> Grafted(old(b.forest), s, ShiftOne(old(At(b.forest, s)), delta), b.forest)
    ensures b.Ahead() == old(b.Ahead())
    decreases n, 2
  {
    ghost var ts, f := b.toks, b.forest;
    ret := AdjustOwn(b, o, delta, k, s);
    if ret != 0 {
      return;
    }
    ghost var ts1, f1, x := b.toks, b.forest, ShiftBoth(At(f, s), delta);
    SteadyPoints(b, o, k, s);
    OwnKids(f, s, x, f1);
    ret := AdjustKids(b, o, delta, k, s, n);
    AlikeTrans(ts, f, ts1, f1, b.toks, b.forest);
    if ret == 0 {
      GraftAgain(f, s, x, f1, x.(kids := ShiftAll(x.kids, delta)), b.forest);
    }
  }

  lemma {:induction false} OwnKids(f: Forest, s: Spot, x: Forest, f1: Forest)
    requires Grafted(f, s, x, f1)
    ensures Has(f1, s) && Alone(At(f1, s)) == x
  {
    assert Looked(f);
    GraftTwice(f, s, x, x);
  }

  lemma {:induction false} HasFirst(ks: Forest, c: nat, delta: int)
    ensures Has(ShiftFirst(ks, c, delta), Nth(c)) <==> Has(ks, Nth(c))
    decreases c
  {
    if ks.Node? && c > 0 {
      HasFirst(ks.next, c - 1, delta);
    }
  }

  /** The children that are still to come are as they were. */
  lemma {:induction false} Ahead(f0: Forest, s: Spot, x: Forest, ks: Forest, c: nat, delta: int, f: Forest)
    requires x.Node? && x.next.Empty? && x.kids == ks && Grafted(f0, s, x.(kids := ShiftFirst(ks, c, delta)), f)
             && Has(f, s)
    ensures Has(At(f, s).kids, Nth(c)) <==> Has(ks, Nth(c))
    ensures Has(ks, Nth(c)) ==>
              && (CanShiftOne(At(At(f, s).kids, Nth(c)), delta) <==> CanShiftOne(At(ks, Nth(c)), delta))
              && ErrorOne(At(At(f, s).kids, Nth(c)), delta) == ErrorOne(At(ks, Nth(c)), delta)
              && Nodes(Drop(ks, c + 1)) < Nodes(Drop(ks, c))
  {
    OwnKids(f0, s, x.(kids := ShiftFirst(ks, c, delta)), f);
    HasFirst(ks, c, delta);
    if Has(ks, Nth(c)) {
      ShiftNext(ks, c, delta);
      OneAlone(At(At(f, s).kids, Nth(c)), At(ks, Nth(c)), delta);
      NthIs(ks, c);
      NextLeft(ks, c);
    }
  }

  ghost predicate MidwayOpen(ts: seq<Token>, f0: Forest, us: seq<Token>, f: Forest, s: Spot, x: Forest, c: nat,
                             delta: int) {
    && x.Node? && x.next.Empty? && Has(f, s) && Alike(ts, f0, us, f) && CanFirst(x.kids, c, delta)
    && Grafted(f0, s, x.(kids := ShiftFirst(x.kids, c, delta)), f)
  }

  /** The first c children of the node at s, which was x, have been shifted. */
  ghost predicate Midway(ts: seq<Token>, f0: Forest, us: seq<Token>, f: Forest, s: Spot, x: Forest, c: nat,
                         delta: int) {
    forall vs {:trigger Compared(vs)} :: vs == ts ==> MidwayOpen(vs, f0, us, f, s, x, c, delta)
  }

  lemma {:induction false} MidwayStart(ts: seq<Token>, f: Forest, s: Spot, delta: int)
    requires Has(f, s)
    ensures Midway(ts, f, ts, f, s, Alone(At(f, s)), 0, delta)
  {
    AlikeSelf(ts, f);
    StartGraft(f, s);
    var x := Alone(At(f, s));
    assert x.(kids := ShiftFirst(x.kids, 0, delta)) == x;
    assert MidwayOpen(ts, f, ts, f, s, x, 0, delta);
  }

  lemma {:induction false} MidwayNext(ts: seq<Token>, f0: Forest, ts1: seq<Token>, f1: Forest, us: seq<Token>,
                                      g: Forest,
                                      s: Spot, x: Forest, c: nat, delta: int, e: int, ok: bool)
    requires x.Node? && Midway(ts, f0, ts1, f1, s, x, c, delta) && Alike(ts1, f1, us, g) && Has(f1, s) && Has(g, s)
    requires Has(At(f1, s).kids, Nth(c)) && Has(f1, KidSpot(s, c))
             && (ok <==> CanShiftOne(At(At(f1, s).kids, Nth(c)), delta)) && (ok <==> e == 0)
             && e == ErrorOne(At(At(f1, s).kids, Nth(c)), delta)
    requires ok ==> Grafted(f1, KidSpot(s, c), ShiftOne(At(f1, KidSpot(s, c)), delta), g)
    ensures Alike(ts, f0, us, g)
    ensures if ok then Midway(ts, f0, us, g, s, x, c + 1, delta) && Nodes(Drop(x.kids, c + 1)) < Nodes(Drop(x.kids, c))
            else !CanShiftAll(x.kids, delta) && e == ErrorAll(x.kids, delta)
  {
    assert Compared(ts);
    AlikeTrans(ts, f0, ts1, f1, us, g);
    Ahead(f0, s, x, x.kids, c, delta, f1);
    CanNext(x.kids, c, delta);
    if ok {
      KidShifted(f0, s, x, x.kids, c, delta, f1, g);
      assert MidwayOpen(ts, f0, us, g, s, x, c + 1, delta);
    } else {
      ErrorFirst(x.kids, c, delta);
    }
  }

  lemma {:induction false} MidwayEnd(ts: seq<Token>, f0: Forest, us: seq<Token>, f: Forest, s: Spot, x: Forest,
                                     c: nat, delta: int)
    requires x.Node? && Midway(ts, f0, us, f, s, x, c, delta) && Has(f, s) && !Has(At(f, s).kids, Nth(c))
    ensures Alike(ts, f0, us, f) && CanShiftAll(x.kids, delta) && Grafted(f0, s, x.(kids := ShiftAll(x.kids, delta)), f)
  {
    assert Compared(ts);
    Ahead(f0, s, x, x.kids, c, delta, f);
    ShiftedFirst(x.kids, c, delta);
    CanLast(x.kids, c, delta);
  }

  /** The loop of overlay_adjust_node_phandles over the children */
  method AdjustKids(b: Blob, o: int, delta: int, ghost k: int, ghost s: Spot, ghost n: nat) returns (ret: int)
    requires Steady(b, o, k, s) && 0 <= delta < W32 && Has(b.forest, s) && n == Nodes(At(b.forest, s).kids)
    modifies b.buf, b`toks, b`forest
    ensures Steady(b, o, k, s) && Alike(old(b.toks), old(b.forest), b.toks, b.forest)
    ensures ret == 0 <==> old(CanShiftAll(At(b.forest, s).kids, delta))
    ensures ret == old(ErrorAll(At(b.forest, s).kids, delta))
    ensures ret == 0 ==>
              var x := old(Alone(At(b.forest, s)));
              Grafted(old(b.forest), s, x.(kids := ShiftAll(x.kids, delta)), b.forest)
    ensures b.Ahead() == old(b.Ahead())
    decreases n, 1
  {
    ghost var ts, f0, x, c := b.toks, b.forest, Alone(At(b.forest, s)), 0;
    MidwayStart(ts, f0, s, delta);
    ret := 0;
    var child: int;
    ghost var jk;
    child, jk := AskFirst(b, o, k, s);
    while child >= 0
      invariant b.Ahead() == old(b.Ahead())
      invariant Steady(b, o, k, s) && Has(b.forest, s) && n == Nodes(At(b.forest, s).kids) && ret == 0
      invariant 0 <= c && Asked(b.toks, b.forest, k, s, c, child, jk)
                && Midway(ts, f0, b.toks, b.forest, s, x, c, delta)
      decreases Nodes(Drop(x.kids, c))
    {
      ghost var ts1, f1 := b.toks, b.forest;
      KidSteady(b, o, k, s, c, child, jk);
      ret, child, jk := AdjustNext(b, o, child, delta, k, s, c, jk, n);
      MidwayNext(ts, f0, ts1, f1, b.toks, b.forest, s, x, c, delta, ret, ret == 0);
      if ret != 0 {
        return;
      }
      c := c + 1;
    }
    AskedHas(b.toks, b.forest, k, s, c, child, jk);
    MidwayEnd(ts, f0, b.toks, b.forest, s, x, c, delta);
    ErrorIs(x.kids, delta);
  }

  /** overlay_adjust_local_phandles: all phandles of an overlay are shifted, or an error tells that one cannot be */
  method AdjustLocalPhandles(b: Blob, delta: int) returns (ret: int)
    requires Rooted(b) && Apart(b) && ByteValues(b.forest) && 0 <= delta < W32
    modifies b.buf, b`toks, b`forest
    ensures Rooted(b) && Apart(b) && ByteValues(b.forest) && (ret == 0 <==> CanShiftAll(old(b.forest), delta))
    ensures ret == ErrorAll(old(b.forest), delta)
    ensures ret == 0 ==> b.forest == ShiftAll(old(b.forest), delta)
    ensures b.Ahead() == old(b.Ahead())
  {
    RootVisit(b, 0);
    assert SteadyOpen(b, 0, 0, Here);
    ghost var ts, f := b.toks, b.forest;
    ret := AdjustNode(b, 0, delta, 0, Here, Nodes(b.forest.kids));
    SteadyPoints(b, 0, 0, Here);
    assert Compared(ts);
    assert SameShape(f.next, b.forest.next);
    if ret == 0 {
      WholeTree(old(b.forest), delta, b.forest);
    }
  }

  lemma {:induction false} WholeTree(f: Forest, delta: int, g: Forest)
    requires f.Node? && f.next.Empty? && Grafted(f, Here, ShiftOne(f, delta), g)
    ensures g == ShiftAll(f, delta)
  {
    assert Looked(f);
    var x := ShiftOne(f, delta);
    assert Append(x, f.next) == x.(next := Append(x.next, f.next));
    assert ShiftAll(f.next, delta) == Empty;
  }

  // ----- The greatest phandle -----

  /** fdt_next_node without a depth: the next node in the order of the tokens */
  method NextAny(b: Blob, o: int, ghost k: int) returns (r: int, ghost j: int)
    requires b.Tokens() && |b.toks| > 0 && b.toks[|b.toks| - 1].End?
    requires if k < 0 then k == -1 && o == -1 else b.IsNode(k) && o == Offset(b.toks, k)
    ensures k < j < |b.toks|
    ensures forall t {:trigger b.toks[t]} :: k < t < j ==> !b.toks[t].BeginNode? && !b.toks[t].End?
    ensures if b.IsNode(j) then 0 <= r == Offset(b.toks, j) else b.toks[j].End? && r == -NOTFOUND
  {
    var next := 0;
    if o >= 0 {
      b.PointsAt(k);
      next := b.CheckNodeOffset(o, k);
      if next < 0 {
        assert false;
      }
    } else {
      OffsetZero(b.toks);
    }
    j := k + 1;
    while true
      invariant k < j < |b.toks| && next == Offset(b.toks, j)
      invariant forall t {:trigger b.toks[t]} :: k < t < j ==> !b.toks[t].BeginNode? && !b.toks[t].End?
      decreases |b.toks| - j
    {
      var offset := next;
      b.PointsAt(j);
      var tag: int;
      tag, next := b.NextTag(offset, j);
      if tag == BEGIN_NODE {
        r := offset;
        return;
      } else if tag == END {
        r := -NOTFOUND;
        return;
      }
      j := j + 1;
    }
  }

  /** fdt_get_phandle */
  method GetPhandle(b: Blob, o: int, ghost k: int, ghost s: Spot) returns (x: int)
    requires b.Valid() && b.Remains(o, k, s) && ByteValues(b.forest) && Has(b.forest, s)
    ensures x == Phandle(At(b.forest, s).props) && 0 <= x < W32
  {
    var err: int;
    err, x := FindCell(b, o, PHANDLE, k, s);
    if err != 0 {
      err, x := FindCell(b, o, LINUX_PHANDLE, k, s);
      if err != 0 {
        return 0;
      }
    }
  }

  /** The number is zero or the phandle of a node. */
  ghost predicate Attained(f: Forest, max: int) {
    max == 0 || exists s {:trigger Has(f, s)} :: Has(f, s) && Phandle(At(f, s).props) == max
  }

  ghost predicate MaxOpen(ts: seq<Token>, f: Forest, i: int, max: int) {
    && 0 <= i <= |ts| && 0 <= max < W32 - 1 && Attained(f, max)
    && forall t {:trigger NodeSpot(ts, f, t)} :: 0 <= t < i && ts[t].BeginNode? ==>
         Has(f, NodeSpot(ts, f, t)) && var x := Phandle(At(f, NodeSpot(ts, f, t)).props); x <= max || x == W32 - 1
  }

  /** No node before token i has a phandle greater than max but the reserved one, and max is zero or one of them. */
  ghost predicate MaxSo(ts: seq<Token>, f: Forest, i: int, max: int) {
    forall h {:trigger Looked(h)} :: h == f ==> MaxOpen(ts, h, i, max)
  }

  lemma {:induction false} MaxNone(ts: seq<Token>, f: Forest, j: int)
    requires 0 <= j < |ts| && forall t {:trigger ts[t]} :: 0 <= t < j ==> !ts[t].BeginNode?
    ensures MaxSo(ts, f, j, 0)
  {
    assert MaxOpen(ts, f, j, 0);
  }

  lemma {:induction false} MaxAll(ts: seq<Token>, table: Bytes, f: Forest, j: int, max: int)
    requires Stands(ts, table, f) && 0 <= j < |ts| && ts[j].End? && MaxSo(ts, f, j, max)
    ensures 0 <= max < W32 - 1 && AtMost(f, max) && Attained(f, max)
  {
    assert Looked(f);
    forall s {:trigger Has(f, s)} | Has(f, s) ensures var x := Phandle(At(f, s).props); x <= max || x == W32 - 1 {
      SpotOfNode(ts, table, f, s);
      var t := NodePlace(ts, f, s);
      assert NodeSpot(ts, f, t) == s && !ts[t].End?;
    }
  }

  lemma {:induction false} MaxMore(ts: seq<Token>, f: Forest, i: int, j: int, max: int, x: int, max': int)
    requires 0 <= i < j <= |ts| && MaxSo(ts, f, i, max) && ts[i].BeginNode? && Has(f, NodeSpot(ts, f, i))
    requires forall t {:trigger ts[t]} :: i < t < j ==> !ts[t].BeginNode?
    requires x == Phandle(At(f, NodeSpot(ts, f, i)).props) && x < W32
             && max' == (if x != W32 - 1 && x > max then x else max)
    ensures MaxSo(ts, f, j, max')
  {
    assert Looked(f);
    assert MaxOpen(ts, f, j, max');
  }

  /** fdt_get_max_phandle */
  method GetMaxPhandle(b: Blob) returns (max: int)
    requires b.Valid() && ByteValues(b.forest)
    ensures 0 <= max < W32 - 1 && AtMost(b.forest, max) && Attained(b.forest, max)
  {
    b.Opened();
    max := 0;
    var offset: int;
    ghost var j;
    offset, j := NextAny(b, -1, -1);
    MaxNone(b.toks, b.forest, j);
    while true
      invariant 0 <= j < |b.toks| && MaxSo(b.toks, b.forest, j, max)
      invariant if b.IsNode(j) then 0 <= offset == Offset(b.toks, j) else b.toks[j].End? && offset == -NOTFOUND
      decreases |b.toks| - j
    {
      if offset == -NOTFOUND {
        MaxAll(b.toks, b.Strings(), b.forest, j, max);
        return;
      }
      if offset < 0 {
        assert false;
      }
      offset, max, j := MaxTurn(b, offset, max, j);
    }
  }

  /** One turn of that loop. */
  method MaxTurn(b: Blob, o: int, was: int, ghost i: int) returns (offset: int, max: int, ghost j: int)
    requires b.Valid() && ByteValues(b.forest) && b.IsNode(i) && 0 <= o == Offset(b.toks, i)
             && MaxSo(b.toks, b.forest, i, was)
    ensures i < j < |b.toks| && MaxSo(b.toks, b.forest, j, max)
    ensures if b.IsNode(j) then 0 <= offset == Offset(b.toks, j) else b.toks[j].End? && offset == -NOTFOUND
  {
    b.NodeHere(i);
    b.Opened();
    max := was;
    var phandle := GetPhandle(b, o, i, b.Spot(i));
    if phandle != W32 - 1 && phandle > max {
      max := phandle;
    }
    offset, j := NextAny(b, o, i);
    MaxMore(b.toks, b.forest, i, j, was, phandle, max);
  }

  /** A node of the tree has that phandle. */
  ghost predicate Carries(f: Forest, x: int) {
    exists s {:trigger Has(f, s)} :: Has(f, s) && Phandle(At(f, s).props) == x
  }

  /**
   * The shifted phandle of an overlay node is that of a base node exactly when the overlay node has a phandle property
   * of zero, which fdt_get_phandle does not tell from none, and the base has phandles.
   */
  lemma {:induction false} CollidesExactlyWhen(base: Forest, over: Forest, max: int, s: Spot)
    requires AtMost(base, max) && Attained(base, max) && 0 <= max && ByteValues(over) && CanShiftAll(over, max)
             && Has(over, s)
    ensures Has(ShiftAll(over, max), s)
    ensures var y := Phandle(At(ShiftAll(over, max), s).props);
            y != 0 && Carries(base, y)
            <==> 0 < max && Phandle(At(over, s).props) == 0 && Marked(At(over, s).props)
  {
    ShiftSpot(over, max, s);
    ShiftedPhandle(At(over, s), max);
  }

  /** A base of one node of phandle max, and an overlay of one of phandle zero. */
  lemma {:induction false} ZeroCollides(max: int)
    requires 0 < max < W32 - 1
    ensures var base := Node([], [Property(PHANDLE, Word(max))], Empty, Empty);
            var over := Node([], [Property(PHANDLE, Word(0))], Empty, Empty);
            && AtMost(base, max) && Attained(base, max) && ByteValues(over) && CanShiftAll(over, max)
            && Phandle(over.props) == 0 && Phandle(ShiftAll(over, max).props) == Phandle(base.props) == max
  {
    var base := Node([], [Property(PHANDLE, Word(max))], Empty, Empty);
    var over := Node([], [Property(PHANDLE, Word(0))], Empty, Empty);
    CellAlone(max);
    CellAlone(0);
    OneSpot(base);
    ShiftedPhandle(over, max);
    assert Has(base, Here) && At(base, Here) == base;
  }

  lemma {:induction false} CellAlone(x: int)
    requires 0 <= x < W32
    ensures var ps := [Property(PHANDLE, Word(x))];
            && Phandle(ps) == x && Marked(ps) && Lookup(ps, PHANDLE) == Some(Word(x)) && IsBytes(Word(x))
            && Lookup(ps, LINUX_PHANDLE) == None && ReadWord(Word(x), 0) == x
  {
    var ps := [Property(PHANDLE, Word(x))];
    WordBytes(x);
    LookupIs(ps, PHANDLE, 0);
    NamesDiffer();
    LookupNone(ps, LINUX_PHANDLE);
  }

  lemma {:induction false} OneSpot(g: Forest)
    requires g.Node? && g.kids.Empty? && g.next.Empty?
    ensures forall s {:trigger Has(g, s)} :: Has(g, s) ==> s == Here
  {
  }
}
