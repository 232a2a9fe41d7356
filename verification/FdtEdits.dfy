/**
 * Edits of a blob as edits of a tree, stated on plain memory.  The predicates here are closed: what
 * they say is used only where Imaged or Looked is mentioned.
 */
module FdtEdits {
  import opened FdtFormat
  import opened FdtTree
  import opened FdtTokens

  ghost predicate Imaged(ts: seq<Token>) {
    true
  }

  ghost predicate Looked(f: Forest) {
    true
  }

  // ----- A tree in memory -----

  ghost predicate ImageOpen(m: Bytes, a: int, so: int, n: int, ts: seq<Token>, f: Forest) {
    Holds(m, a, ts) && 0 <= so && 0 <= n && so + n <= |m| && Stands(ts, m[so..so + n], f)
  }

  /** The memory holds the tokens at address a and n bytes of strings at address so, and they stand for f. */
  ghost predicate Image(m: Bytes, a: int, so: int, n: int, ts: seq<Token>, f: Forest) {
    forall us {:trigger Imaged(us)} :: us == ts ==> ImageOpen(m, a, so, n, us, f)
  }

  // ----- Places in the tree -----

  ghost predicate SlotOpen(ts: seq<Token>, f: Forest, s: Spot, c: int, i: int) {
    && Has(f, s) && 0 <= c <= |At(f, s).props| && 0 <= i <= |ts| && Count(ts[..i]) == |Before(f, s)| + 1 + c
  }

  /** Before token i there are c properties of the node at s. */
  ghost predicate Slot(ts: seq<Token>, f: Forest, s: Spot, c: int, i: int) {
    forall g {:trigger Looked(g)} :: g == f ==> SlotOpen(ts, g, s, c, i)
  }

  lemma {:induction false} MakeSlot(ts: seq<Token>, f: Forest, s: Spot, c: int, i: int)
    requires SlotOpen(ts, f, s, c, i)
    ensures Slot(ts, f, s, c, i)
  {
  }

  // ----- Edits -----

  ghost predicate EditsOpen(ts: seq<Token>, f: Forest, i: int, j: int, qs: seq<Item>, g: Forest) {
    && 0 <= i <= j < |ts| && Count(ts[..i]) <= Count(ts[..j]) <= |Flatten(f)|
    && Cut(Flatten(f), Count(ts[..i]), Count(ts[..j]), qs) == Flatten(g)
  }

  /** Putting the items qs in the place of tokens i to j gives the tree g. */
  ghost predicate Edits(ts: seq<Token>, f: Forest, i: int, j: int, qs: seq<Item>, g: Forest) {
    forall h {:trigger Looked(h)} :: h == f ==> EditsOpen(ts, h, i, j, qs, g)
  }

  /** The node at s with properties c to d replaced. */
  ghost predicate PropsEdited(f: Forest, s: Spot, c: int, d: int, qs: seq<Property>, g: Forest) {
    forall h {:trigger Looked(h)} :: h == f ==>
      Has(h, s) && 0 <= c <= d <= |At(h, s).props| && g == Graft(h, s, WithProps(At(h, s), c, d, qs))
  }

  lemma {:induction false} PropsEdit(ts: seq<Token>, f: Forest, s: Spot, c: int, d: int, qs: seq<Property>, i: int,
                                     j: int)
    returns (g: Forest)
    requires Slot(ts, f, s, c, i) && Slot(ts, f, s, d, j) && c <= d && 0 <= i <= j < |ts|
    ensures PropsEdited(f, s, c, d, qs, g) && Edits(ts, f, i, j, Attrs(qs), g)
  {
    assert Looked(f);
    EditProps(f, s, c, d, qs, Count(ts[..i]), Count(ts[..j]));
    g := Graft(f, s, WithProps(At(f, s), c, d, qs));
  }

  ghost predicate LastSlotOpen(ts: seq<Token>, f: Forest, s: Spot, i: int) {
    Has(f, s) && SlotOpen(ts, f, s, |At(f, s).props|, i)
  }

  /** Token i follows the properties of the node at s. */
  ghost predicate LastSlot(ts: seq<Token>, f: Forest, s: Spot, i: int) {
    forall g {:trigger Looked(g)} :: g == f ==> LastSlotOpen(ts, g, s, i)
  }

  /** The tree g is f with a new first child of the node at s. */
  ghost predicate KidAdded(f: Forest, s: Spot, name: Bytes, g: Forest) {
    forall h {:trigger Looked(h)} :: h == f ==> Has(h, s) && g == Graft(h, s, WithKid(At(h, s), name))
  }

  lemma {:induction false} KidEdit(ts: seq<Token>, f: Forest, s: Spot, name: Bytes, i: int) returns (g: Forest)
    requires LastSlot(ts, f, s, i) && 0 <= i < |ts|
    ensures KidAdded(f, s, name, g) && Edits(ts, f, i, i, [Open(name), Close], g)
  {
    assert Looked(f);
    EditKids(f, s, name, Count(ts[..i]));
    g := Graft(f, s, WithKid(At(f, s), name));
  }

  ghost predicate SpanOpen(ts: seq<Token>, f: Forest, s: Spot, i: int, j: int) {
    && Has(f, s) && 0 <= i <= j < |ts| && Count(ts[..i]) == |Before(f, s)|
       && Count(ts[..j]) == |Before(f, s)| + NodeSize(f, s)
  }

  /** Tokens i to j are the node at s. */
  ghost predicate Span(ts: seq<Token>, f: Forest, s: Spot, i: int, j: int) {
    forall g {:trigger Looked(g)} :: g == f ==> SpanOpen(ts, g, s, i, j)
  }

  /** The tree g is f without the node at s. */
  ghost predicate NodeRemoved(f: Forest, s: Spot, g: Forest) {
    forall h {:trigger Looked(h)} :: h == f ==> Has(h, s) && g == Graft(h, s, Empty)
  }

  lemma {:induction false} NodeEdit(ts: seq<Token>, f: Forest, s: Spot, i: int, j: int) returns (g: Forest)
    requires Span(ts, f, s, i, j)
    ensures NodeRemoved(f, s, g) && Edits(ts, f, i, j, [], g)
  {
    assert Looked(f);
    EditNode(f, s, Count(ts[..i]), Count(ts[..j]));
    g := Graft(f, s, Empty);
  }

  lemma {:induction false} EditStands(ts: seq<Token>, table: Bytes, f: Forest, i: int, j: int, us: seq<Token>,
                                      qs: seq<Item>, g: Forest)
    requires Stands(ts, table, f) && Edits(ts, f, i, j, qs, g) && 0 <= i <= j < |ts|
    requires AllOk(us) && Resolved(us, table) && NoEnd(us) && Items(us, table) == qs
    ensures Stands(ts[..i] + us + ts[j..], table, g)
  {
    assert Looked(f);
    StandsSpliced(ts, table, f, i, j, us, Count(ts[..i]), Count(ts[..j]), g);
  }

  /**
   * An edit under way: in memory m, which held the tree f, the bytes of tokens i to j have made way for
   * a gap of now bytes, which is to be filled with the items qs so that the tree becomes g.
   */
  datatype Edit = Edit(m: Bytes, base: int, so: int, n: int, ts: seq<Token>, f: Forest, i: int, j: int,
                       p: int, was: int, now: int, qs: seq<Item>, g: Forest)

  ghost predicate Gaped(e: Edit) {
    true
  }

  ghost predicate GapOpen(e: Edit, m': Bytes) {
    && Image(e.m, e.base, e.so, e.n, e.ts, e.f) && Edits(e.ts, e.f, e.i, e.j, e.qs, e.g) && 0 <= e.i <= e.j < |e.ts|
    && 0 <= e.so && 0 <= e.n && e.so + e.n <= |e.m| && e.base + Total(e.ts) <= e.so
    && e.p == e.base + Offset(e.ts, e.i) && e.was == Offset(e.ts, e.j) - Offset(e.ts, e.i)
    && 0 <= e.p && 0 <= e.now && e.p + e.now <= |m'| && Widened(e.m, m', e.p, e.was, e.now, e.so + e.n)
  }

  /** The edit has got as far as memory m'. */
  ghost predicate Gap(e: Edit, m': Bytes) {
    forall d {:trigger Gaped(d)} :: d == e ==> GapOpen(d, m')
  }

  lemma {:induction false} MakeGap(e: Edit, m': Bytes)
    requires GapOpen(e, m')
    ensures Gap(e, m')
  {
  }

  /** What lies before the tokens is not touched. */
  lemma {:induction false} GapFront(e: Edit, m': Bytes)
    requires Gap(e, m')
    ensures Front(m', e.base) == Front(e.m, e.base)
  {
    assert Gaped(e);
    SameFront(e.m, m', e.p, e.base);
  }

  /** Writing into the gap. */
  lemma {:induction false} GapPut(e: Edit, m': Bytes, a: int, w: Bytes)
    requires Gap(e, m') && e.p <= a && a + |w| <= e.p + e.now
    ensures 0 <= a && a + |w| <= |m'| && Gap(e, Put(m', a, w))
  {
    assert Gaped(e);
    WidenedPut(e.m, m', e.p, e.was, e.now, e.so + e.n, a, w);
    assert GapOpen(e, Put(m', a, w));
  }

  lemma {:induction false} GapRoom(e: Edit, m': Bytes)
    requires Gap(e, m')
    ensures 0 <= e.p && e.p + e.now <= |m'|
  {
    assert Gaped(e);
  }

  /** The strings block of the memory being edited. */
  ghost function TableOf(e: Edit): Bytes
    requires 0 <= e.so && 0 <= e.n && e.so + e.n <= |e.m|
  {
    e.m[e.so..e.so + e.n]
  }

  /** Tokens that fill the gap and stand for the items: the memory holds the edited tree. */
  lemma {:induction false} FillGap(e: Edit, m': Bytes, us: seq<Token>, table: Bytes, so': int) returns (ts': seq<Token>)
    requires Gap(e, m') && 0 <= e.so && 0 <= e.n && e.so + e.n <= |e.m| && table == e.m[e.so..e.so + e.n]
    requires 0 <= e.i <= e.j <= |e.ts|
    requires e.now == Total(us) && Holds(m', e.p, us) && so' == e.so - e.was + e.now
    requires AllOk(us) && Resolved(us, table) && NoEnd(us) && Items(us, table) == e.qs
    ensures Image(m', e.base, so', e.n, ts', e.g)
    ensures ts' == e.ts[..e.i] + us + e.ts[e.j..] && Total(ts') == Total(e.ts) - e.was + e.now
  {
    assert Gaped(e) && Imaged(e.ts);
    ts' := e.ts[..e.i] + us + e.ts[e.j..];
    EditStands(e.ts, table, e.f, e.i, e.j, us, e.qs, e.g);
    HoldsSpliced(e.m, m', e.base, e.ts, e.i, e.j, us, e.p, e.was, e.now, e.so + e.n);
    OffsetEnd(e.ts, e.j);
    BlockMoved(e.m, m', e.p, e.was, e.now, e.so + e.n, e.so, so', e.n);
    assert ImageOpen(m', e.base, so', e.n, ts', e.g);
  }

  ghost predicate Tabled(table: Bytes) {
    true
  }

  /** The name is at offset o of the table, which is an offset that a token can hold. */
  ghost predicate Named(table: Bytes, o: int, name: Bytes) {
    forall u {:trigger Tabled(u)} :: u == table ==> StringAt(u, o, name) && 0 <= o < W32
  }

  /** A property token that has just been written. */
  lemma {:induction false} OneProp(m: Bytes, p: int, t: Token, table: Bytes, name: Bytes)
    requires Part(m, p, Encode(t)) && t.Prop? && |t.value| < W32 / 2 && |t.value| + |t.pad| == TagAlign(|t.value|)
    requires Named(table, t.nameoff, name)
    ensures Holds(m, p, [t]) && Total([t]) == 12 + TagAlign(|t.value|)
    ensures AllOk([t]) && Resolved([t], table) && NoEnd([t]) && Items([t], table) == Attrs([Property(name, t.value)])
  {
    assert Tabled(table);
    HoldsOne(m, p, t);
    TotalOne(t);
    NameAtIs(table, t.nameoff, name);
    ItemsOne(t, table);
    assert Attrs([Property(name, t.value)]) == [Attr(Property(name, t.value))];
  }

  lemma {:induction false} FieldsOf(m: Bytes, a0: int, so: int, n: int, ts: seq<Token>, f: Forest, i: int, a: int,
                                    a8: int, a12: int)
    requires Image(m, a0, so, n, ts, f) && 0 <= i < |ts| && ts[i].Prop?
    requires a == a0 + Offset(ts, i) && a8 == a + 8 && a12 == a + 12
    ensures Part(m, a, Word(PROP)) && Part(m, a8, Word(ts[i].nameoff)) && Part(m, a12, ts[i].value)
  {
    assert Imaged(ts);
    HoldsAt(m, a0, ts, i);
    PropFields(m, a, ts[i], a8, a12);
  }

  lemma {:induction false} PartStays(m: Bytes, m': Bytes, x: int, a: int, e: Bytes)
    requires Same(m, 0, m', 0, x) && Part(m, a, e) && a + |e| <= x
    ensures Part(m', a, e)
  {
    PartMoved(m, 0, m', 0, x, a, e);
  }

  /** The fields of a property of which only the bytes after the first 12 have made way. */
  ghost predicate Fielded(m: Bytes, a: int, nameoff: int, a8: int) {
    a8 == a + 8 && Part(m, a, Word(PROP)) && Part(m, a8, Word(nameoff))
  }

  /** The length of a property and more bytes behind its value, written into the gap after its first fields. */
  lemma {:induction false} GapGrows(e: Edit, m: Bytes, a: int, nameoff: int, val: Bytes, more: Bytes, all: Bytes,
                                    a4: int, a8: int, a12: int, b: int)
    requires Gap(e, m) && a == e.p && all == val + more && e.now == 12 + TagAlign(|all|)
    requires a4 == a + 4 && a12 == a + 12 && b == a12 + |val|
    requires Fielded(m, a, nameoff, a8) && Part(m, a12, val)
    ensures 0 <= a && b + |more| <= |m| && a12 + TagAlign(|all|) <= |m|
    ensures var m' := Put(Put(m, a4, Word(|all|)), b, more);
            Gap(e, m') && Part(m', a, Encode(Prop(nameoff, all, PadAt(m', a12, |all|))))
  {
    GapRoom(e, m);
    GapPut(e, m, a4, Word(|all|));
    GapPut(e, Put(m, a4, Word(|all|)), b, more);
    PropExtend(m, a, nameoff, val, more, all, a4, a8, a12, b);
  }

  /** A gap after the first fields of property token i is a gap for the whole token, with these fields in it. */
  lemma {:induction false} Reopened(e: Edit, m': Bytes, a8: int, a12: int, was: int, now: int, x: int)
    requires Image(e.m, e.base, e.so, e.n, e.ts, e.f) && Edits(e.ts, e.f, e.i, e.j, e.qs, e.g)
    requires 0 <= e.i && e.j == e.i + 1 < |e.ts| && e.ts[e.i].Prop?
    requires 0 <= e.so && 0 <= e.n && e.so + e.n <= |e.m| && e.base + Total(e.ts) <= e.so
    requires e.p == e.base + Offset(e.ts, e.i) && e.was == Offset(e.ts, e.j) - Offset(e.ts, e.i)
    requires a8 == e.p + 8 && a12 == e.p + 12 && x == a12 + now && e.was == was + 12 && e.now == now + 12
    requires 0 <= e.p && Widened(e.m, m', a12, was, now, e.so + e.n) && Same(e.m, 0, m', 0, x) && x <= |m'|
    ensures Gap(e, m') && Fielded(m', e.p, e.ts[e.i].nameoff, a8)
    ensures |e.ts[e.i].value| <= now ==> Part(m', a12, e.ts[e.i].value)
  {
    FieldsOf(e.m, e.base, e.so, e.n, e.ts, e.f, e.i, e.p, a8, a12);
    PartStays(e.m, m', x, e.p, Word(PROP));
    PartStays(e.m, m', x, a8, Word(e.ts[e.i].nameoff));
    if |e.ts[e.i].value| <= now {
      PartStays(e.m, m', x, a12, e.ts[e.i].value);
    }
    WidenedMore(e.m, m', a12, was, now, e.so + e.n, 12);
    assert a12 - 12 == e.p;
    assert GapOpen(e, m');
  }

  /** Strings added behind the strings block. */
  lemma {:induction false} MoreStrings(m: Bytes, m': Bytes, a: int, so: int, n: int, ts: seq<Token>, f: Forest,
                                       end: int, e: Bytes)
    requires Image(m, a, so, n, ts, f) && a + Total(ts) <= end && 0 <= so && 0 <= n && so + n == end && end + |e| <= |m|
    requires |m'| == |m| && Same(m, 0, m', 0, end)
    ensures Image(Put(m', end, e), a, so, n + |e|, ts, f)
    ensures Put(m', end, e)[so..so + (n + |e|)] == m[so..so + n] + e
  {
    assert Imaged(ts);
    var m2 := Put(m', end, e);
    PutSame(m', end, e, 0, end);
    SameTrans(m, 0, m', 0, m2, 0, end);
    SameIn(m, 0, m2, 0, end, a, Total(ts));
    HoldsMoved(m, a, m2, a, ts);
    Appended(m, m', so, m[so..end], end, e);
    assert so + (n + |e|) == end + |e|;
    StandsMore(ts, m[so..end], f, e);
    assert ImageOpen(m2, a, so, n + |e|, ts, f);
  }

  // ----- What stays where it is -----

  /** A node that is replaced by a node keeps its place and its token. */
  lemma {:induction false} NodeStays(ts: seq<Token>, ts': seq<Token>, f: Forest, s: Spot, x: Forest, g: Forest, k: int)
    requires 0 <= k < |ts| && ts[..k + 1] <= ts' && Has(f, s) && NodeSpot(ts, f, k) == s
             && Count(ts[..k]) == |Before(f, s)|
    requires x.Node? && g == Graft(f, s, x)
    ensures k < |ts'| && ts'[k] == ts[k] && Offset(ts', k) == Offset(ts, k) && NodeSpot(ts', g, k) == s
  {
    assert ts'[..k + 1] == ts[..k + 1];
    assert ts'[..k] == ts[..k + 1][..k] == ts[..k];
    assert ts'[k] == ts'[..k + 1][k] == ts[..k + 1][k];
    GraftStays(f, s, x);
    SpotAtBefore(g, s);
  }

  /** The tree g is f with a property of the node at s set. */
  ghost predicate PropSet(f: Forest, s: Spot, name: Bytes, val: Bytes, g: Forest) {
    forall h {:trigger Looked(h)} :: h == f ==> Has(h, s) && g == Graft(h, s, WithProp(At(h, s), name, val))
  }

  /** Replacing the property that is found, or adding it in front, is setting it. */
  lemma {:induction false} SetIsEdit(f: Forest, s: Spot, name: Bytes, val: Bytes, c: int, g: Forest)
    requires Has(f, s) && c == FindProp(At(f, s).props, name)
    requires if c < |At(f, s).props| then PropsEdited(f, s, c, c + 1, [Property(name, val)], g)
             else PropsEdited(f, s, 0, 0, [Property(name, val)], g)
    ensures PropSet(f, s, name, val, g)
  {
    assert Looked(f);
  }

  /** The tree g is f without the first property of the name of the node at s. */
  ghost predicate PropUnset(f: Forest, s: Spot, name: Bytes, g: Forest) {
    forall h {:trigger Looked(h)} :: h == f ==> Has(h, s) && g == Graft(h, s, WithoutProp(At(h, s), name))
  }

  /** Removing the property that is found is unsetting it. */
  lemma {:induction false} UnsetIsEdit(f: Forest, s: Spot, name: Bytes, c: int, g: Forest)
    requires Has(f, s) && c == FindProp(At(f, s).props, name) < |At(f, s).props| && PropsEdited(f, s, c, c + 1, [], g)
    ensures PropUnset(f, s, name, g)
  {
    assert Looked(f);
  }

  /** A node replaced by one with the same children: all other nodes are as they were. */
  lemma {:induction false} Elsewhere(f: Forest, s: Spot, x: Forest, t: Spot)
    requires Has(f, s) && x.Node? && x.next.Empty? && x.name == At(f, s).name && x.kids == At(f, s).kids
    ensures var g := Graft(f, s, x);
            && (Has(g, t) <==> Has(f, t))
            && (Has(f, t) ==>
                  At(g, t).name == At(f, t).name && At(g, t).props == if t == s then x.props else At(f, t).props)
    decreases s
  {
    match s
    case Here => assert Append(x, f.next) == x.(next := Append(x.next, f.next));
    case Down(q) => if t.Down? { Elsewhere(f.kids, q, x, t.below); }
    case Next(q) => if t.Next? { Elsewhere(f.next, q, x, t.after); }
  }

  /** Setting a property is seen at that property of that node and nowhere else. */
  lemma {:induction false} SetIsSeen(f: Forest, s: Spot, name: Bytes, val: Bytes, g: Forest, t: Spot, other: Bytes)
    requires PropSet(f, s, name, val, g)
    ensures Has(g, t) <==> Has(f, t)
    ensures Has(f, t) ==>
              && At(g, t).name == At(f, t).name
              && Lookup(At(g, t).props, other)
              == if t == s && other == name then Some(val) else Lookup(At(f, t).props, other)
  {
    assert Looked(f);
    Elsewhere(f, s, WithProp(At(f, s), name, val), t);
    WithPropLaws(At(f, s), name, val, other);
  }

  /** Deleting a property is seen at properties of that name of that node and nowhere else. */
  lemma {:induction false} UnsetIsSeen(f: Forest, s: Spot, name: Bytes, g: Forest, t: Spot, other: Bytes)
    requires PropUnset(f, s, name, g)
    ensures Has(g, t) <==> Has(f, t)
    ensures Has(f, t) ==>
              && At(g, t).name == At(f, t).name
              && (t != s || other != name ==> Lookup(At(g, t).props, other) == Lookup(At(f, t).props, other))
              && |At(g, t).props| == |At(f, t).props| - (if t == s && Lookup(At(f, s).props, name).Some? then 1 else 0)
  {
    assert Looked(f);
    Elsewhere(f, s, WithoutProp(At(f, s), name), t);
    WithoutPropLaws(At(f, s), name, other);
  }

  ghost predicate PlacedOpen(ts: seq<Token>, f: Forest, s: Spot, k: int) {
    Has(f, s) && 0 <= k < |ts| && ts[k].BeginNode? && NodeSpot(ts, f, k) == s && Count(ts[..k]) == |Before(f, s)|
  }

  /** The node at s is opened by token k. */
  ghost predicate Placed(ts: seq<Token>, f: Forest, s: Spot, k: int) {
    forall g {:trigger Looked(g)} :: g == f ==> PlacedOpen(ts, g, s, k)
  }

  lemma {:induction false} SetStays(ts: seq<Token>, ts': seq<Token>, f: Forest, s: Spot, name: Bytes, val: Bytes,
                                    g: Forest, k: int)
    requires Placed(ts, f, s, k) && 0 <= k < |ts| && ts[..k + 1] <= ts' && PropSet(f, s, name, val, g)
    ensures k < |ts'| && ts'[k] == ts[k] && Offset(ts', k) == Offset(ts, k) && NodeSpot(ts', g, k) == s
  {
    assert Looked(f);
    NodeStays(ts, ts', f, s, WithProp(At(f, s), name, val), g, k);
  }

  lemma {:induction false} NodeItems(name: Bytes, table: Bytes)
    ensures Items(NodeTokens(name), table) == [Open(name), Close] && Resolved(NodeTokens(name), table)
            && NoEnd(NodeTokens(name))
  {
    var t := NodeTokens(name)[0];
    ItemsOne(t, table);
    ItemsOne(EndNode, table);
    ItemsJoin([t], [EndNode], table);
    assert NodeTokens(name) == [t] + [EndNode];
  }

  /** The new first child is at the spot below the node, and the node stays. */
  lemma {:induction false} NodeAdded(ts: seq<Token>, ts': seq<Token>, f: Forest, s: Spot, name: Bytes, g: Forest,
                                     k: int, j: int)
    requires Placed(ts, f, s, k) && LastSlot(ts, f, s, j) && KidAdded(f, s, name, g) && 0 <= k < j < |ts|
    requires ts' == ts[..j] + NodeTokens(name) + ts[j..]
    ensures k < |ts'| && ts'[k] == ts[k] && Offset(ts', k) == Offset(ts, k) && NodeSpot(ts', g, k) == s
    ensures j < |ts'| && ts'[j].BeginNode? && Offset(ts', j) == Offset(ts, j)
            && NodeSpot(ts', g, j) == Extend(s, Down(Here))
  {
    assert Looked(f);
    var x, t := WithKid(At(f, s), name), Extend(s, Down(Here));
    assert ts[..k + 1] <= ts';
    NodeStays(ts, ts', f, s, x, g, k);
    assert ts'[..j] == ts[..j] && ts'[j] == NodeTokens(name)[0];
    GraftStays(f, s, x);
    Below(g, s, Here);
    assert |Before(g, t)| == Count(ts'[..j]);
    SpotAtBefore(g, t);
  }
}
