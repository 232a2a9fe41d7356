/**
 * Local fixups (fdt_overlay.c): a tree beside the nodes of an overlay that lists, for properties of these nodes, where
 * their values hold phandles of the same overlay.
 */
module FdtFixups {
  import opened FdtFormat
  import opened FdtTree
  import opened FdtEdits
  import opened FdtMerge
  import opened FdtWalk
  import opened FdtWip
  import opened FdtPhandles

  const BADOVERLAY: int := 16

  // ----- Cells -----

  /** Four bytes of a property of a node. */
  datatype Ref = Ref(spot: Spot, name: Bytes, at: int)

  function ValueAt(f: Forest, s: Spot, name: Bytes): Option<Bytes> {
    if Has(f, s) then Lookup(At(f, s).props, name) else None
  }

  /** The value with the cell at that index increased. */
  function Added(v: Bytes, at: int, delta: int): (w: Bytes)
    ensures |w| == |v|
  {
    if 0 <= at && at + 4 <= |v| then Put(v, at, Word((ReadWord(v, at) + delta) % W32)) else v
  }

  function Bump(f: Forest, r: Ref, delta: int): Forest {
    match ValueAt(f, r.spot, r.name)
    case None => f
    case Some(v) => Graft(f, r.spot, WithProp(At(f, r.spot), r.name, Added(v, r.at, delta)))
  }

  /** All the cells increased, one after the other. */
  function Run(f: Forest, refs: seq<Ref>, delta: int): Forest
    decreases |refs|
  {
    if |refs| == 0 then f else Run(Bump(f, refs[0], delta), refs[1..], delta)
  }

  lemma {:induction false} RunJoin(f: Forest, a: seq<Ref>, b: seq<Ref>, delta: int)
    ensures Run(f, a + b, delta) == Run(Run(f, a, delta), b, delta)
    decreases |a|
  {
    if |a| == 0 {
      assert a + b == b;
    } else {
      assert (a + b)[1..] == a[1..] + b;
      RunJoin(Bump(f, a[0], delta), a[1..], b, delta);
    }
  }

  // ----- What the fixups list -----

  /** How a walk over the fixups ends: behind the last, with an error, or with a write outside of the property. */
  datatype End = Whole | Refused | Astray

  datatype Listing = Listing(refs: seq<Ref>, end: End)

  function Then(a: Listing, b: Listing): Listing {
    if a.end.Whole? then Listing(a.refs + b.refs, b.end) else a
  }

  /** The cells that the words of value v from word i on list, in a property of len bytes. */
  function ListCells(v: Bytes, i: nat, t: Spot, name: Bytes, len: int): Listing
    decreases |v| - 4 * i
  {
    if 4 * i + 4 > |v| then Listing([], Whole)
    else
      var idx := ReadWord(v, 4 * i);
      if Refuses(len, 4, idx) then Listing([], Refused)
      else if idx + 4 > len then Listing([], Astray)
      else Then(Listing([Ref(t, name, idx)], Whole), ListCells(v, i + 1, t, name, len))
  }

  function ListProp(f: Forest, t: Spot, p: Property): Listing {
    if |p.value| % 4 != 0 then Listing([], Refused)
    else match ValueAt(f, t, p.name)
      case None => Listing([], Refused)
      case Some(v) => ListCells(p.value, 0, t, p.name, |v|)
  }

  function ListProps(f: Forest, t: Spot, ps: seq<Property>): Listing
    decreases |ps|
  {
    if |ps| == 0 then Listing([], Whole) else Then(ListProp(f, t, ps[0]), ListProps(f, t, ps[1..]))
  }

  /** The child of the node at t that a name finds. */
  function ChildOf(f: Forest, t: Spot, name: Bytes): Option<Spot> {
    if !Has(f, t) then None
    else match FirstKid(At(f, t).kids, name) case None => None case Some(q) => Some(Extend(t, Down(q)))
  }

  function ListKids(f: Forest, t: Spot, ks: Forest): Listing
    decreases ks, 0
  {
    match ks
    case Empty => Listing([], Whole)
    case Node(name, props, kids, next) =>
      Then(match ChildOf(f, t, name)
           case None => Listing([], Refused)
           case Some(u) => ListNode(f, u, props, kids),
        ListKids(f, t, next))
  }

  /** The cells that fixups of these properties and children list for the node at t and those below it. */
  function ListNode(f: Forest, t: Spot, props: seq<Property>, kids: Forest): Listing
    decreases kids, 1
  {
    Then(ListProps(f, t, props), ListKids(f, t, kids))
  }

  // ----- When the fixups are in order -----

  /** Every index lies with its cell inside the property. */
  predicate CellsFit(v: Bytes, i: nat, len: int)
    decreases |v| - 4 * i
  {
    4 * i + 4 > |v| || (ReadWord(v, 4 * i) + 4 <= len && CellsFit(v, i + 1, len))
  }

  predicate PropFits(f: Forest, t: Spot, p: Property) {
    |p.value| % 4 == 0 && match ValueAt(f, t, p.name) case None => false case Some(v) => CellsFit(p.value, 0, |v|)
  }

  /** Lists are of whole words, their properties exist, indices lie inside of them, and nodes exist. */
  predicate NodeFits(f: Forest, t: Spot, props: seq<Property>, kids: Forest)
    decreases kids, 1
  {
    (forall i :: 0 <= i < |props| ==> PropFits(f, t, props[i])) && KidsFit(f, t, kids)
  }

  predicate KidsFit(f: Forest, t: Spot, ks: Forest)
    decreases ks, 0
  {
    match ks
    case Empty => true
    case Node(name, props, kids, next) =>
      && (match ChildOf(f, t, name) case None => false case Some(u) => NodeFits(f, u, props, kids))
      && KidsFit(f, t, next)
  }

  /** No index is one of the last four of 32 bits. */
  predicate CellsTame(v: Bytes, i: nat)
    decreases |v| - 4 * i
  {
    4 * i + 4 > |v| || (ReadWord(v, 4 * i) < W32 - 4 && CellsTame(v, i + 1))
  }

  predicate Tame(props: seq<Property>, kids: Forest)
    decreases kids
  {
    && (forall i :: 0 <= i < |props| ==> CellsTame(props[i].value, 0))
    && match kids case Empty => true case Node(_, ps, ks, next) => Tame(ps, ks) && Tame([], next)
  }

  lemma {:induction false} CellsExactlyWhen(v: Bytes, i: nat, t: Spot, name: Bytes, len: int)
    requires 0 <= len && IsBytes(v)
    ensures ListCells(v, i, t, name, len).end.Whole? <==> CellsFit(v, i, len)
    ensures CellsTame(v, i) ==> !ListCells(v, i, t, name, len).end.Astray?
    decreases |v| - 4 * i
  {
    if 4 * i + 4 <= |v| {
      var idx := ReadWord(v, 4 * i);
      assert 0 <= idx < W32;
      RefusesExactlyWhen(len, 4, idx);
      CellsExactlyWhen(v, i + 1, t, name, len);
    }
  }

  lemma {:induction false} PropsExactlyWhen(f: Forest, t: Spot, ps: seq<Property>)
    requires forall i :: 0 <= i < |ps| ==> IsBytes(ps[i].value)
    ensures ListProps(f, t, ps).end.Whole? <==> forall i :: 0 <= i < |ps| ==> PropFits(f, t, ps[i])
    ensures (forall i :: 0 <= i < |ps| ==> CellsTame(ps[i].value, 0)) ==> !ListProps(f, t, ps).end.Astray?
    decreases |ps|
  {
    if |ps| > 0 {
      var p, rest := ps[0], ps[1..];
      match ValueAt(f, t, p.name) {
        case None =>
        case Some(v) => CellsExactlyWhen(p.value, 0, t, p.name, |v|);
      }
      PropsExactlyWhen(f, t, rest);
      if ListProps(f, t, ps).end.Whole? {
        forall i | 0 <= i < |ps| ensures PropFits(f, t, ps[i]) {
          assert i > 0 ==> ps[i] == rest[i - 1];
        }
      }
    }
  }

  /**
   * The walk comes to its end exactly when the fixups are in order, and where no index is one of the last four it ends
   * with the error otherwise.
   */
  lemma {:induction false} NodeExactlyWhen(f: Forest, t: Spot, props: seq<Property>, kids: Forest)
    requires (forall i :: 0 <= i < |props| ==> IsBytes(props[i].value)) && ByteValues(kids)
    ensures ListNode(f, t, props, kids).end.Whole? <==> NodeFits(f, t, props, kids)
    ensures Tame(props, kids) ==> !ListNode(f, t, props, kids).end.Astray?
    decreases kids, 1
  {
    PropsExactlyWhen(f, t, props);
    KidsExactlyWhen(f, t, kids);
    if Tame(props, kids) && kids.Node? {
      assert Tame([], kids);
    }
  }

  lemma {:induction false} KidsExactlyWhen(f: Forest, t: Spot, ks: Forest)
    requires ByteValues(ks)
    ensures ListKids(f, t, ks).end.Whole? <==> KidsFit(f, t, ks)
    ensures Tame([], ks) ==> !ListKids(f, t, ks).end.Astray?
    decreases ks, 0
  {
    if ks.Node? {
      match ChildOf(f, t, ks.name) {
        case None =>
        case Some(u) => NodeExactlyWhen(f, u, ks.props, ks.kids);
      }
      KidsExactlyWhen(f, t, ks.next);
    }
  }

  // ----- Trees that differ in the bytes of values -----

  /** Names and lengths are the same. */
  ghost predicate SameForm(f: Forest, g: Forest) {
    match f
    case Empty => g.Empty?
    case Node(name, props, kids, next) =>
      g.Node? && g.name == name && SameProps(props, g.props) && SameForm(kids, g.kids) && SameForm(next, g.next)
  }

  ghost predicate SameProps(ps: seq<Property>, qs: seq<Property>) {
    && |qs| == |ps|
    && forall i {:trigger ps[i]} {:trigger qs[i]} :: 0 <= i < |ps| ==>
         qs[i].name == ps[i].name && |qs[i].value| == |ps[i].value|
  }

  lemma {:induction false} FormSelf(f: Forest)
    ensures SameForm(f, f)
  {
    if f.Node? {
      FormSelf(f.kids);
      FormSelf(f.next);
    }
  }

  lemma {:induction false} FormTrans(f: Forest, g: Forest, h: Forest)
    requires SameForm(f, g) && SameForm(g, h)
    ensures SameForm(f, h)
  {
    if f.Node? {
      FormTrans(f.kids, g.kids, h.kids);
      FormTrans(f.next, g.next, h.next);
      forall i {:trigger h.props[i]} | 0 <= i < |f.props|
        ensures h.props[i].name == f.props[i].name && |h.props[i].value| == |f.props[i].value|
      {
        assert g.props[i].name == f.props[i].name;
      }
    }
  }

  lemma {:induction false} FormSpot(f: Forest, g: Forest, s: Spot)
    requires SameForm(f, g)
    ensures Has(f, s) <==> Has(g, s)
    ensures Has(f, s) ==> SameForm(At(f, s), At(g, s))
    decreases s
  {
    if f.Node? {
      match s
      case Here =>
      case Down(q) => FormSpot(f.kids, g.kids, q);
      case Next(q) => FormSpot(f.next, g.next, q);
    }
  }

  lemma {:induction false} FormGraft(f: Forest, s: Spot, x: Forest)
    requires Has(f, s) && x.Node? && x.next.Empty? && SameForm(Alone(At(f, s)), x)
    ensures SameForm(f, Graft(f, s, x))
    decreases s
  {
    FormSelf(f.next);
    FormSelf(f.kids);
    match s
    case Here => assert Append(x, f.next) == x.(next := Append(x.next, f.next));
    case Down(q) => FormGraft(f.kids, q, x);
    case Next(q) => FormGraft(f.next, q, x);
  }

  lemma {:induction false} FormLookup(ps: seq<Property>, qs: seq<Property>, name: Bytes)
    requires SameProps(ps, qs)
    ensures FindProp(ps, name) == FindProp(qs, name) && Lookup(ps, name).Some? == Lookup(qs, name).Some?
    ensures Lookup(ps, name).Some? ==> |Lookup(ps, name).value| == |Lookup(qs, name).value|
  {
    var c := FindProp(ps, name);
    FirstProp(qs, name, c);
  }

  lemma {:induction false} FormKid(f: Forest, g: Forest, name: Bytes)
    requires SameForm(f, g)
    ensures FirstKid(f, name) == FirstKid(g, name)
  {
    if f.Node? {
      FormKid(f.next, g.next, name);
    }
  }

  /** What is listed depends on the tree by names and lengths only. */
  lemma {:induction false} ListForm(f: Forest, g: Forest, t: Spot, props: seq<Property>, kids: Forest)
    requires SameForm(f, g)
    ensures ListNode(f, t, props, kids) == ListNode(g, t, props, kids)
    decreases kids, 1
  {
    ListPropsForm(f, g, t, props);
    ListKidsForm(f, g, t, kids);
  }

  lemma {:induction false} ListPropsForm(f: Forest, g: Forest, t: Spot, ps: seq<Property>)
    requires SameForm(f, g)
    ensures ListProps(f, t, ps) == ListProps(g, t, ps)
    decreases |ps|
  {
    if |ps| > 0 {
      FormValue(f, g, t, ps[0].name);
      ListPropsForm(f, g, t, ps[1..]);
    }
  }

  lemma {:induction false} FormValue(f: Forest, g: Forest, t: Spot, name: Bytes)
    requires SameForm(f, g)
    ensures ValueAt(f, t, name).Some? == ValueAt(g, t, name).Some?
    ensures ValueAt(f, t, name).Some? ==> |ValueAt(f, t, name).value| == |ValueAt(g, t, name).value|
  {
    FormSpot(f, g, t);
    if Has(f, t) {
      FormLookup(At(f, t).props, At(g, t).props, name);
    }
  }

  lemma {:induction false} ListKidsForm(f: Forest, g: Forest, t: Spot, ks: Forest)
    requires SameForm(f, g)
    ensures ListKids(f, t, ks) == ListKids(g, t, ks)
    decreases ks, 0
  {
    if ks.Node? {
      FormSpot(f, g, t);
      if Has(f, t) {
        FormKid(At(f, t).kids, At(g, t).kids, ks.name);
      }
      match ChildOf(f, t, ks.name) {
        case None =>
        case Some(u) => ListForm(f, g, u, ks.props, ks.kids);
      }
      ListKidsForm(f, g, t, ks.next);
    }
  }

  /** A property of the same length in the place of one. */
  lemma {:induction false} FormWith(g: Forest, name: Bytes, v: Bytes)
    requires g.Node? && Lookup(g.props, name).Some? && |v| == |Lookup(g.props, name).value|
    ensures SameForm(Alone(g), WithProp(g, name, v))
  {
    FormSelf(g.kids);
    var c := FindProp(g.props, name);
    assert g.props == g.props[..c] + [g.props[c]] + g.props[c + 1..];
  }

  lemma {:induction false} BumpForm(f: Forest, r: Ref, delta: int)
    ensures SameForm(f, Bump(f, r, delta))
  {
    FormSelf(f);
    match ValueAt(f, r.spot, r.name)
    case None =>
    case Some(v) =>
      FormWith(At(f, r.spot), r.name, Added(v, r.at, delta));
      FormGraft(f, r.spot, WithProp(At(f, r.spot), r.name, Added(v, r.at, delta)));
  }

  lemma {:induction false} RunForm(f: Forest, refs: seq<Ref>, delta: int)
    ensures SameForm(f, Run(f, refs, delta))
    decreases |refs|
  {
    if |refs| == 0 {
      FormSelf(f);
    } else {
      var g := Bump(f, refs[0], delta);
      BumpForm(f, refs[0], delta);
      RunForm(g, refs[1..], delta);
      FormTrans(f, g, Run(g, refs[1..], delta));
    }
  }

  // ----- What changes and what does not -----

  /** A property of a node changes no other node. */
  lemma {:induction false} OtherNode(f: Forest, s: Spot, y: Forest, t: Spot)
    requires Has(f, s) && Has(f, t) && y.Node? && y.next.Empty? && y.kids == At(f, s).kids && t != s
    ensures Has(Graft(f, s, y), t) && At(Graft(f, s, y), t).props == At(f, t).props
    decreases s
  {
    match s
    case Here => assert Append(y, f.next) == y.(next := Append(y.next, f.next));
    case Down(p) =>
      if t.Down? {
        OtherNode(f.kids, p, y, t.below);
      }
    case Next(p) =>
      if t.Next? {
        OtherNode(f.next, p, y, t.after);
      }
  }

  /** A cell that is increased changes its own property and no other. */
  lemma {:induction false} BumpValue(f: Forest, r: Ref, delta: int, s: Spot, name: Bytes)
    requires Has(f, s)
    ensures Has(Bump(f, r, delta), s)
    ensures ValueAt(Bump(f, r, delta), s, name)
         == if ValueAt(f, s, name).Some? && r.spot == s && r.name == name
            then Some(Added(ValueAt(f, s, name).value, r.at, delta))
            else ValueAt(f, s, name)
  {
    match ValueAt(f, r.spot, r.name)
    case None =>
    case Some(v) =>
      var y := WithProp(At(f, r.spot), r.name, Added(v, r.at, delta));
      WithPropLaws(At(f, r.spot), r.name, Added(v, r.at, delta), name);
      if s == r.spot {
        GraftTwice(f, s, y, y);
      } else {
        OtherNode(f, r.spot, y, s);
      }
  }

  /** The byte at k of a property belongs to the cell. */
  predicate Touches(r: Ref, s: Spot, name: Bytes, k: int) {
    r.spot == s && r.name == name && r.at <= k < r.at + 4
  }

  /** A byte that belongs to no listed cell stays. */
  lemma {:induction false} RunByte(f: Forest, refs: seq<Ref>, delta: int, s: Spot, name: Bytes, k: int)
    requires ValueAt(f, s, name).Some? && 0 <= k < |ValueAt(f, s, name).value|
    requires forall i {:trigger refs[i]} :: 0 <= i < |refs| ==> !Touches(refs[i], s, name, k)
    ensures var v, w := ValueAt(f, s, name), ValueAt(Run(f, refs, delta), s, name);
            w.Some? && |w.value| == |v.value| && w.value[k] == v.value[k]
    decreases |refs|
  {
    if |refs| > 0 {
      assert !Touches(refs[0], s, name, k);
      BumpValue(f, refs[0], delta, s, name);
      RunByte(Bump(f, refs[0], delta), refs[1..], delta, s, name, k);
    }
  }

  /** A property that is not listed stays. */
  lemma {:induction false} RunUnlisted(f: Forest, refs: seq<Ref>, delta: int, s: Spot, name: Bytes)
    requires Has(f, s) && forall i {:trigger refs[i]} :: 0 <= i < |refs| ==> refs[i].spot != s || refs[i].name != name
    ensures Has(Run(f, refs, delta), s) && ValueAt(Run(f, refs, delta), s, name) == ValueAt(f, s, name)
    decreases |refs|
  {
    if |refs| > 0 {
      assert refs[0].spot != s || refs[0].name != name;
      BumpValue(f, refs[0], delta, s, name);
      RunUnlisted(Bump(f, refs[0], delta), refs[1..], delta, s, name);
    }
  }

  /** The cell lies inside a property that exists. */
  predicate Legal(f: Forest, r: Ref) {
    match ValueAt(f, r.spot, r.name) case None => false case Some(v) => 0 <= r.at && r.at + 4 <= |v|
  }

  function CellOf(f: Forest, r: Ref): int
    requires Legal(f, r)
  {
    ReadWord(ValueAt(f, r.spot, r.name).value, r.at)
  }

  /** The cells share no byte. */
  predicate Disjoint(a: Ref, b: Ref) {
    a.spot != b.spot || a.name != b.name || a.at + 4 <= b.at || b.at + 4 <= a.at
  }

  /** No other listed cell shares a byte with cell j. */
  ghost predicate Once(refs: seq<Ref>, j: int)
    requires 0 <= j < |refs|
  {
    forall i {:trigger refs[i]} :: 0 <= i < |refs| && i != j ==> Disjoint(refs[i], refs[j])
  }

  lemma {:induction false} AddedHere(v: Bytes, delta: int, a: int)
    requires 0 <= a && a + 4 <= |v|
    ensures ReadWord(Added(v, a, delta), a) == (ReadWord(v, a) + delta) % W32
  {
    var x := (ReadWord(v, a) + delta) % W32;
    WordBytes(x);
    var w := Put(v, a, Word(x));
    assert forall i :: 0 <= i < 4 ==> w[a + i] == Word(x)[i];
  }

  lemma {:induction false} CellStays(f: Forest, refs: seq<Ref>, delta: int, r: Ref)
    requires Legal(f, r)
    requires forall i {:trigger refs[i]} :: 0 <= i < |refs| ==> Disjoint(refs[i], r)
    ensures Legal(Run(f, refs, delta), r) && CellOf(Run(f, refs, delta), r) == CellOf(f, r)
  {
    var a := r.at;
    RunByte(f, refs, delta, r.spot, r.name, a);
    RunByte(f, refs, delta, r.spot, r.name, a + 1);
    RunByte(f, refs, delta, r.spot, r.name, a + 2);
    RunByte(f, refs, delta, r.spot, r.name, a + 3);
  }

  lemma {:induction false} BumpCell(f: Forest, q: Ref, delta: int, r: Ref)
    requires Legal(f, r)
    ensures Legal(Bump(f, q, delta), r)
    ensures q == r ==> CellOf(Bump(f, q, delta), r) == (CellOf(f, r) + delta) % W32
    ensures Disjoint(q, r) ==> CellOf(Bump(f, q, delta), r) == CellOf(f, r)
  {
    BumpValue(f, q, delta, r.spot, r.name);
    if q == r {
      AddedHere(ValueAt(f, r.spot, r.name).value, delta, r.at);
    }
  }

  /** A cell that is listed once becomes its old number plus delta. */
  lemma {:induction false} RunCell(f: Forest, refs: seq<Ref>, delta: int, j: int)
    requires 0 <= j < |refs| && Legal(f, refs[j]) && Once(refs, j)
    ensures Legal(Run(f, refs, delta), refs[j])
    ensures CellOf(Run(f, refs, delta), refs[j]) == (CellOf(f, refs[j]) + delta) % W32
    decreases |refs|
  {
    var r, g, rest := refs[j], Bump(f, refs[0], delta), refs[1..];
    BumpCell(f, refs[0], delta, r);
    assert forall i {:trigger rest[i]} :: 0 <= i < |rest| ==> rest[i] == refs[i + 1];
    if j == 0 {
      CellStays(g, rest, delta, r);
    } else {
      assert Disjoint(refs[0], r);
      RunCell(g, rest, delta, j - 1);
      SamePlus(CellOf(f, r), CellOf(g, r), CellOf(Run(f, refs, delta), r), delta);
    }
  }

  lemma {:induction false} SamePlus(p: int, q: int, x: int, delta: int)
    requires p == q && x == (q + delta) % W32
    ensures x == (p + delta) % W32
  {
  }

  // ----- The walk as it goes, reading the lists anew each time -----

  datatype Live = Live(tree: Forest, end: End)

  /** Word i of the list in property p of the node at x. */
  function Listed(f: Forest, x: Spot, p: nat, i: nat): int {
    if Has(f, x) && p < |At(f, x).props| && 4 * i + 4 <= |At(f, x).props[p].value|
    then ReadWord(At(f, x).props[p].value, 4 * i) else 0
  }

  /** The inner loop of overlay_update_local_node_references, from word i of a list of size bytes on */
  function LiveCells(f: Forest, t: Spot, name: Bytes, x: Spot, p: nat, i: nat, size: int, delta: int): Live
    decreases size - 4 * i
  {
    if 4 * i + 4 > size then Live(f, Whole)
    else match ValueAt(f, t, name)
      case None => Live(f, Refused)
      case Some(v) =>
        var idx := Listed(f, x, p, i);
        if Refuses(|v|, 4, idx) then Live(f, Refused)
        else if idx + 4 > |v| then Live(f, Astray)
        else LiveCells(Bump(f, Ref(t, name, idx), delta), t, name, x, p, i + 1, size, delta)
  }

  function LiveProp(f: Forest, t: Spot, x: Spot, p: nat, name: Bytes, size: int, delta: int): Live {
    if size % 4 != 0 || ValueAt(f, t, name).None? then Live(f, Refused)
    else LiveCells(f, t, name, x, p, 0, size, delta)
  }

  /** The loop over the properties; names and sizes of the lists do not change. */
  function LiveProps(f: Forest, t: Spot, x: Spot, p: nat, ps: seq<Property>, delta: int): Live
    decreases |ps|
  {
    if |ps| == 0 then Live(f, Whole)
    else
      var l := LiveProp(f, t, x, p, ps[0].name, |ps[0].value|, delta);
      if l.end.Whole? then LiveProps(l.tree, t, x, p + 1, ps[1..], delta) else l
  }

  /** The loop over the children, from child c of the fixup node at x on */
  function LiveKids(f: Forest, t: Spot, x: Spot, c: nat, ks: Forest, delta: int): Live
    decreases ks, 0
  {
    match ks
    case Empty => Live(f, Whole)
    case Node(name, props, kids, next) =>
      match ChildOf(f, t, name)
      case None => Live(f, Refused)
      case Some(u) =>
        var l := LiveNode(f, u, KidSpot(x, c), props, kids, delta);
        if l.end.Whole? then LiveKids(l.tree, t, x, c + 1, next, delta) else l
  }

  /** overlay_update_local_node_references */
  function LiveNode(f: Forest, t: Spot, x: Spot, props: seq<Property>, kids: Forest, delta: int): Live
    decreases kids, 1
  {
    var l := LiveProps(f, t, x, 0, props, delta);
    if l.end.Whole? then LiveKids(l.tree, t, x, 0, kids, delta) else l
  }

  /** Of the lists the walk needs names and sizes, and reads the rest where they are. */
  lemma {:induction false} LiveForm(f: Forest, t: Spot, x: Spot, ps: seq<Property>, ks: Forest, qs: seq<Property>,
                                    ls: Forest, delta: int)
    requires SameProps(ps, qs) && SameForm(ks, ls)
    ensures LiveNode(f, t, x, ps, ks, delta) == LiveNode(f, t, x, qs, ls, delta)
    decreases ks, 1
  {
    LivePropsForm(f, t, x, 0, ps, qs, delta);
    LiveKidsForm(LiveProps(f, t, x, 0, ps, delta).tree, t, x, 0, ks, ls, delta);
  }

  lemma {:induction false} LivePropsForm(f: Forest, t: Spot, x: Spot, p: nat, ps: seq<Property>, qs: seq<Property>,
                                         delta: int)
    requires SameProps(ps, qs)
    ensures LiveProps(f, t, x, p, ps, delta) == LiveProps(f, t, x, p, qs, delta)
    decreases |ps|
  {
    if |ps| > 0 {
      var l := LiveProp(f, t, x, p, ps[0].name, |ps[0].value|, delta);
      assert qs[0].name == ps[0].name;
      LivePropsForm(l.tree, t, x, p + 1, ps[1..], qs[1..], delta);
    }
  }

  lemma {:induction false} LiveKidsForm(f: Forest, t: Spot, x: Spot, c: nat, ks: Forest, ls: Forest, delta: int)
    requires SameForm(ks, ls)
    ensures LiveKids(f, t, x, c, ks, delta) == LiveKids(f, t, x, c, ls, delta)
    decreases ks, 0
  {
    if ks.Node? {
      match ChildOf(f, t, ks.name)
      case None =>
      case Some(u) =>
        LiveForm(f, u, KidSpot(x, c), ks.props, ks.kids, ls.props, ls.kids, delta);
        var l := LiveNode(f, u, KidSpot(x, c), ks.props, ks.kids, delta);
        LiveKidsForm(l.tree, t, x, c + 1, ks.next, ls.next, delta);
    }
  }

  // ----- Fixups that are not among the nodes they list -----

  /** The node at s is the one at x or below it. */
  predicate Under(x: Spot, s: Spot) {
    match x
    case Here => !s.Next?
    case Down(y) => s.Down? && Under(y, s.below)
    case Next(y) => s.Next? && Under(y, s.after)
  }

  lemma {:induction false} UnderBelow(x: Spot, y: Spot, q: Spot)
    requires Under(x, y)
    ensures Under(x, Extend(y, Down(q)))
    decreases y
  {
    match x
    case Here =>
    case Down(x') => UnderBelow(x', y.below, q);
    case Next(x') => UnderBelow(x', y.after, q);
  }

  /** No listed cell is at x or below it. */
  ghost predicate Outside(refs: seq<Ref>, x: Spot) {
    forall i {:trigger refs[i]} :: 0 <= i < |refs| ==> !Under(x, refs[i].spot)
  }

  /** A node that is not at x or below it changes nothing there. */
  lemma {:induction false} SubtreeKept(f: Forest, s: Spot, y: Forest, x: Spot, z: Spot)
    requires Has(f, s) && Has(f, z) && y.Node? && y.next.Empty? && y.kids == At(f, s).kids
    requires !Under(x, s) && Under(x, z)
    ensures Has(Graft(f, s, y), z) && Alone(At(Graft(f, s, y), z)) == Alone(At(f, z))
    decreases s
  {
    match s
    case Here => assert Append(y, f.next) == y.(next := Append(y.next, f.next));
    case Down(p) =>
      if z.Down? && x.Down? {
        SubtreeKept(f.kids, p, y, x.below, z.below);
      }
    case Next(p) =>
      if z.Next? && x.Next? {
        SubtreeKept(f.next, p, y, x.after, z.after);
      }
  }

  lemma {:induction false} BumpKeeps(f: Forest, r: Ref, delta: int, x: Spot, z: Spot)
    requires Has(f, z) && Under(x, z) && !Under(x, r.spot)
    ensures var g := Bump(f, r, delta); Has(g, z) && At(g, z).props == At(f, z).props && At(g, z).kids == At(f, z).kids
  {
    match ValueAt(f, r.spot, r.name)
    case None =>
    case Some(v) =>
      var y := WithProp(At(f, r.spot), r.name, Added(v, r.at, delta));
      SubtreeKept(f, r.spot, y, x, z);
      assert Alone(At(f, z)) == Alone(At(Graft(f, r.spot, y), z));
  }

  lemma {:induction false} RunKeeps(f: Forest, refs: seq<Ref>, delta: int, x: Spot, z: Spot)
    requires Has(f, z) && Under(x, z) && Outside(refs, x)
    ensures var g := Run(f, refs, delta);
            Has(g, z) && At(g, z).props == At(f, z).props && At(g, z).kids == At(f, z).kids
    decreases |refs|
  {
    if |refs| > 0 {
      BumpKeeps(f, refs[0], delta, x, z);
      RunKeeps(Bump(f, refs[0], delta), refs[1..], delta, x, z);
    }
  }

  lemma {:induction false} OutsideThen(a: Listing, b: Listing, x: Spot)
    requires Outside(Then(a, b).refs, x)
    ensures Outside(a.refs, x) && (a.end.Whole? ==> Outside(b.refs, x))
  {
    if a.end.Whole? {
      var c := a.refs + b.refs;
      forall i {:trigger a.refs[i]} | 0 <= i < |a.refs| ensures !Under(x, a.refs[i].spot) {
        assert c[i] == a.refs[i];
      }
      forall i {:trigger b.refs[i]} | 0 <= i < |b.refs| ensures !Under(x, b.refs[i].spot) {
        assert c[|a.refs| + i] == b.refs[i];
      }
    }
  }

  /** The walk has increased what is listed. */
  ghost predicate Ran(l: Live, f: Forest, m: Listing, delta: int) {
    l.tree == Run(f, m.refs, delta) && l.end == m.end
  }

  lemma {:induction false} CellsRun(f: Forest, t: Spot, name: Bytes, z: Spot, p: nat, i: nat, v: Bytes, len: int,
                                    delta: int, x: Spot)
    requires Has(f, z) && Under(x, z) && p < |At(f, z).props| && At(f, z).props[p].value == v
    requires ValueAt(f, t, name).Some? && |ValueAt(f, t, name).value| == len
             && Outside(ListCells(v, i, t, name, len).refs, x)
    ensures Ran(LiveCells(f, t, name, z, p, i, |v|, delta), f, ListCells(v, i, t, name, len), delta)
    decreases |v| - 4 * i
  {
    if 4 * i + 4 <= |v| {
      var idx := ReadWord(v, 4 * i);
      if !Refuses(len, 4, idx) && idx + 4 <= len {
        var r := Ref(t, name, idx);
        var one, more := Listing([r], Whole), ListCells(v, i + 1, t, name, len);
        OutsideThen(one, more, x);
        assert one.refs[0] == r;
        BumpKeeps(f, r, delta, x, z);
        BumpForm(f, r, delta);
        FormValue(f, Bump(f, r, delta), t, name);
        CellsRun(Bump(f, r, delta), t, name, z, p, i + 1, v, len, delta, x);
        RunJoin(f, [r], more.refs, delta);
        assert Run(f, [r], delta) == Bump(f, r, delta) by {
          assert [r][1..] == [];
        }
      }
    }
  }

  lemma {:induction false} PropsRun(f: Forest, t: Spot, z: Spot, p: nat, ps: seq<Property>, delta: int, x: Spot)
    requires Has(f, z) && Under(x, z) && p <= |At(f, z).props| && ps == At(f, z).props[p..]
    requires Outside(ListProps(f, t, ps).refs, x)
    ensures Ran(LiveProps(f, t, z, p, ps, delta), f, ListProps(f, t, ps), delta)
    decreases |ps|
  {
    if |ps| > 0 {
      var a, b := ListProp(f, t, ps[0]), ListProps(f, t, ps[1..]);
      OutsideThen(a, b, x);
      PropRun(f, t, z, p, ps[0], delta, x);
      if a.end.Whole? {
        var g := Run(f, a.refs, delta);
        RunKeeps(f, a.refs, delta, x, z);
        RunForm(f, a.refs, delta);
        ListPropsForm(f, g, t, ps[1..]);
        PropsRun(g, t, z, p + 1, ps[1..], delta, x);
        RunJoin(f, a.refs, b.refs, delta);
      }
    }
  }

  lemma {:induction false} PropRun(f: Forest, t: Spot, z: Spot, p: nat, prop: Property, delta: int, x: Spot)
    requires Has(f, z) && Under(x, z) && p < |At(f, z).props| && prop == At(f, z).props[p]
    requires Outside(ListProp(f, t, prop).refs, x)
    ensures Ran(LiveProp(f, t, z, p, prop.name, |prop.value|, delta), f, ListProp(f, t, prop), delta)
  {
    if |prop.value| % 4 == 0 {
      match ValueAt(f, t, prop.name)
      case None =>
      case Some(v) => CellsRun(f, t, prop.name, z, p, 0, prop.value, |v|, delta, x);
    }
  }

  lemma {:induction false} KidsRun(f: Forest, t: Spot, z: Spot, c: nat, ks: Forest, delta: int, x: Spot)
    requires Has(f, z) && Under(x, z) && ks == Drop(At(f, z).kids, c) && Outside(ListKids(f, t, ks).refs, x)
    ensures Ran(LiveKids(f, t, z, c, ks, delta), f, ListKids(f, t, ks), delta)
    decreases ks, 0
  {
    if ks.Node? {
      match ChildOf(f, t, ks.name)
      case None =>
      case Some(u) =>
        var a, b := ListNode(f, u, ks.props, ks.kids), ListKids(f, t, ks.next);
        OutsideThen(a, b, x);
        NthIs(At(f, z).kids, c);
        BelowHas(f, z, Nth(c));
        UnderBelow(x, z, Nth(c));
        NodeRun(f, u, KidSpot(z, c), ks.props, ks.kids, delta, x);
        if a.end.Whole? {
          var g := Run(f, a.refs, delta);
          RunKeeps(f, a.refs, delta, x, z);
          RunForm(f, a.refs, delta);
          ListKidsForm(f, g, t, ks.next);
          KidsRun(g, t, z, c + 1, ks.next, delta, x);
          RunJoin(f, a.refs, b.refs, delta);
        }
    }
  }

  /** Where no listed cell belongs to the fixups at x themselves, the walk increases what they list when it begins. */
  lemma {:induction false} NodeRun(f: Forest, t: Spot, z: Spot, props: seq<Property>, kids: Forest, delta: int, x: Spot)
    requires Has(f, z) && Under(x, z) && props == At(f, z).props && kids == At(f, z).kids
    requires Outside(ListNode(f, t, props, kids).refs, x)
    ensures Ran(LiveNode(f, t, z, props, kids, delta), f, ListNode(f, t, props, kids), delta)
    decreases kids, 1
  {
    var a, b := ListProps(f, t, props), ListKids(f, t, kids);
    OutsideThen(a, b, x);
    assert props == props[0..];
    PropsRun(f, t, z, 0, props, delta, x);
    if a.end.Whole? {
      var g := Run(f, a.refs, delta);
      RunKeeps(f, a.refs, delta, x, z);
      RunForm(f, a.refs, delta);
      ListKidsForm(f, g, t, kids);
      KidsRun(g, t, z, 0, kids, delta, x);
      RunJoin(f, a.refs, b.refs, delta);
    }
  }

  // ----- Shifted phandles and the references to them -----

  /** No fixup is for a phandle property, so that the shift of the phandles leaves the fixups alone. */
  predicate NoPhandles(props: seq<Property>, kids: Forest)
    decreases kids
  {
    && (forall i :: 0 <= i < |props| ==> props[i].name != PHANDLE && props[i].name != LINUX_PHANDLE)
    && match kids case Empty => true case Node(_, ps, ks, next) => NoPhandles(ps, ks) && NoPhandles([], next)
  }

  lemma {:induction false} ShiftNothing(g: Forest, delta: int)
    requires g.Node? && NoPhandles(g.props, Empty)
    ensures ShiftBoth(g, delta).props == g.props
  {
    LookupNone(g.props, PHANDLE);
    LookupNone(g.props, LINUX_PHANDLE);
  }

  lemma {:induction false} ShiftLeaves(kids: Forest, delta: int)
    requires NoPhandles([], kids)
    ensures ShiftAll(kids, delta) == kids
  {
    if kids.Node? {
      ShiftNothing(kids, delta);
      assert NoPhandles([], kids.kids) by {
        assert NoPhandles(kids.props, kids.kids);
      }
      ShiftLeaves(kids.kids, delta);
      ShiftLeaves(kids.next, delta);
    }
  }

  /** A phandle property that is shifted is not what it was. */
  lemma {:induction false} ShiftChanges(g: Forest, delta: int)
    requires g.Node? && 0 < delta && CanShift(g.props, PHANDLE, delta) && CanShift(g.props, LINUX_PHANDLE, delta)
    requires forall i :: 0 <= i < |g.props| ==> IsBytes(g.props[i].value)
    requires Lookup(g.props, PHANDLE).Some? || Lookup(g.props, LINUX_PHANDLE).Some?
    ensures ShiftBoth(g, delta).props != g.props
  {
    NamesDiffer();
    var h := Alone(g);
    var h1 := Shift(h, PHANDLE, delta);
    LookupBytes(g.props, PHANDLE);
    LookupBytes(g.props, LINUX_PHANDLE);
    ShiftCell(h, PHANDLE, delta, LINUX_PHANDLE);
    ShiftCell(h1, LINUX_PHANDLE, delta, PHANDLE);
  }

  lemma {:induction false} SomeProp(ps: seq<Property>, i: int)
    requires 0 <= i < |ps|
    ensures Lookup(ps, ps[i].name).Some?
  {
  }

  /** The shift leaves fixups alone exactly when none of them is for a phandle property. */
  lemma {:induction false} FixupsKeptExactlyWhen(props: seq<Property>, kids: Forest, delta: int)
    requires 0 < delta && CanShift(props, PHANDLE, delta) && CanShift(props, LINUX_PHANDLE, delta)
             && CanShiftAll(kids, delta)
    requires (forall i :: 0 <= i < |props| ==> IsBytes(props[i].value)) && ByteValues(kids)
    ensures var g := Node([], props, kids, Empty);
            ShiftBoth(g, delta).props == props && ShiftAll(kids, delta) == kids <==> NoPhandles(props, kids)
    decreases kids
  {
    var g := Node([], props, kids, Empty);
    if i :| 0 <= i < |props| && (props[i].name == PHANDLE || props[i].name == LINUX_PHANDLE) {
      SomeProp(props, i);
      ShiftChanges(g, delta);
    } else {
      ShiftNothing(g, delta);
      if kids.Node? {
        FixupsKeptExactlyWhen(kids.props, kids.kids, delta);
        ShiftsAlike(kids, Node([], kids.props, kids.kids, Empty), delta);
        LookupNone([], PHANDLE);
        LookupNone([], LINUX_PHANDLE);
        FixupsKeptExactlyWhen([], kids.next, delta);
        ShiftNothing(Node([], [], kids.next, Empty), delta);
      }
    }
  }

  /** Of a node the shift looks at the properties. */
  lemma {:induction false} ShiftsAlike(g: Forest, h: Forest, delta: int)
    requires g.Node? && h.Node? && g.props == h.props
    ensures ShiftBoth(g, delta).props == ShiftBoth(h, delta).props
  {
    var x, y := Shift(Alone(g), PHANDLE, delta), Shift(Alone(h), PHANDLE, delta);
    assert x.props == y.props;
  }

  lemma {:induction false} ShiftForm(f: Forest, delta: int)
    requires CanShiftAll(f, delta)
    ensures SameForm(f, ShiftAll(f, delta))
  {
    if f.Node? {
      ShiftBothForm(f, delta);
      ShiftForm(f.kids, delta);
      ShiftForm(f.next, delta);
    }
  }

  /** The shift of a property is some value of the same length in its place. */
  lemma {:induction false} ShiftIs(g: Forest, name: Bytes, delta: int) returns (w: Bytes)
    requires g.Node? && g.next.Empty?
    ensures Shift(g, name, delta) != g ==>
              && Shift(g, name, delta) == WithProp(g, name, w) && Lookup(g.props, name).Some?
              && |w| == |Lookup(g.props, name).value|
  {
    w := [];
    match Lookup(g.props, name)
    case None =>
    case Some(v) =>
      if |v| == 4 {
        w := Word(ReadWord(v, 0) + delta);
      }
  }

  lemma {:induction false} ShiftOneForm(g: Forest, name: Bytes, delta: int)
    requires g.Node? && g.next.Empty?
    ensures SameForm(g, Shift(g, name, delta))
  {
    var w := ShiftIs(g, name, delta);
    if Shift(g, name, delta) == g {
      FormSelf(g);
    } else {
      FormWith(g, name, w);
    }
  }

  lemma {:induction false} ShiftBothForm(g: Forest, delta: int)
    requires g.Node?
    ensures SameProps(g.props, ShiftBoth(g, delta).props)
  {
    var h := Shift(Alone(g), PHANDLE, delta);
    ShiftOneForm(Alone(g), PHANDLE, delta);
    ShiftOneForm(h, LINUX_PHANDLE, delta);
    FormTrans(Alone(g), h, ShiftBoth(g, delta));
  }

  /** The fixups and what they list are the same after the shift. */
  lemma {:induction false} ShiftList(f: Forest, x: Spot, delta: int, t: Spot)
    requires Has(f, x) && CanShiftAll(f, delta) && NoPhandles(At(f, x).props, At(f, x).kids)
    ensures var g := ShiftAll(f, delta);
            && Has(g, x) && At(g, x).props == At(f, x).props && At(g, x).kids == At(f, x).kids
            && ListNode(g, t, At(f, x).props, At(f, x).kids) == ListNode(f, t, At(f, x).props, At(f, x).kids)
  {
    ShiftForm(f, delta);
    ListForm(f, ShiftAll(f, delta), t, At(f, x).props, At(f, x).kids);
    ShiftAt(f, x, delta);
  }

  lemma {:induction false} ShiftAt(f: Forest, x: Spot, delta: int)
    requires Has(f, x) && NoPhandles(At(f, x).props, At(f, x).kids)
    ensures var g := ShiftAll(f, delta);
            Has(g, x) && At(g, x).props == At(f, x).props && At(g, x).kids == At(f, x).kids
    decreases x
  {
    match x
    case Here =>
      ShiftNothing(f, delta);
      assert NoPhandles([], f.kids);
      ShiftLeaves(f.kids, delta);
    case Down(q) => ShiftAt(f.kids, q, delta);
    case Next(q) => ShiftAt(f.next, q, delta);
  }

  /** What is listed lies inside the properties, and is for no phandle property. */
  ghost predicate Proper(f: Forest, refs: seq<Ref>) {
    forall i {:trigger refs[i]} :: 0 <= i < |refs| ==>
      Legal(f, refs[i]) && refs[i].name != PHANDLE && refs[i].name != LINUX_PHANDLE
  }

  lemma {:induction false} SoundThen(f: Forest, a: Listing, b: Listing)
    requires Proper(f, a.refs) && (a.end.Whole? ==> Proper(f, b.refs))
    ensures Proper(f, Then(a, b).refs)
  {
  }

  lemma {:induction false} CellsSound(f: Forest, v: Bytes, i: nat, t: Spot, name: Bytes, len: int)
    requires IsBytes(v) && ValueAt(f, t, name).Some? && |ValueAt(f, t, name).value| == len
    requires name != PHANDLE && name != LINUX_PHANDLE
    ensures Proper(f, ListCells(v, i, t, name, len).refs)
    decreases |v| - 4 * i
  {
    if 4 * i + 4 <= |v| {
      var r := Ref(t, name, ReadWord(v, 4 * i));
      if r.at + 4 <= len {
        CellsSound(f, v, i + 1, t, name, len);
        assert Legal(f, r);
        SoundThen(f, Listing([r], Whole), ListCells(v, i + 1, t, name, len));
      }
    }
  }

  lemma {:induction false} PropsSound(f: Forest, t: Spot, ps: seq<Property>)
    requires NoPhandles(ps, Empty) && forall i :: 0 <= i < |ps| ==> IsBytes(ps[i].value)
    ensures Proper(f, ListProps(f, t, ps).refs)
    decreases |ps|
  {
    if |ps| > 0 {
      match ValueAt(f, t, ps[0].name) {
        case None =>
        case Some(v) => CellsSound(f, ps[0].value, 0, t, ps[0].name, |v|);
      }
      PropsSound(f, t, ps[1..]);
      SoundThen(f, ListProp(f, t, ps[0]), ListProps(f, t, ps[1..]));
    }
  }

  lemma {:induction false} NodeSound(f: Forest, t: Spot, props: seq<Property>, kids: Forest)
    requires NoPhandles(props, kids) && (forall i :: 0 <= i < |props| ==> IsBytes(props[i].value)) && ByteValues(kids)
    ensures Proper(f, ListNode(f, t, props, kids).refs)
    decreases kids, 1
  {
    assert NoPhandles(props, Empty) && NoPhandles([], kids);
    PropsSound(f, t, props);
    KidsSound(f, t, kids);
    SoundThen(f, ListProps(f, t, props), ListKids(f, t, kids));
  }

  lemma {:induction false} KidsSound(f: Forest, t: Spot, ks: Forest)
    requires NoPhandles([], ks) && ByteValues(ks)
    ensures Proper(f, ListKids(f, t, ks).refs)
    decreases ks, 0
  {
    if ks.Node? {
      match ChildOf(f, t, ks.name) {
        case None =>
        case Some(u) =>
          NodeSound(f, u, ks.props, ks.kids);
          KidsSound(f, t, ks.next);
          SoundThen(f, ListNode(f, u, ks.props, ks.kids), ListKids(f, t, ks.next));
      }
    }
  }

  /** A reference of that number is to the node at s. */
  ghost predicate Denotes(f: Forest, p: int, s: Spot) {
    p != 0 && Has(f, s) && Phandle(At(f, s).props) == p
  }

  lemma {:induction false} ShiftDenotes(f: Forest, delta: int, p: int, s: Spot)
    requires ByteValues(f) && CanShiftAll(f, delta) && 0 <= delta < W32 && 0 < p < W32 && Has(f, s)
    ensures Denotes(f, p, s) <==> Denotes(ShiftAll(f, delta), (p + delta) % W32, s)
  {
    ShiftSpot(f, delta, s);
    ShiftedPhandle(At(f, s), delta);
    NoWrap(p, delta);
  }

  lemma {:induction false} RunDenotes(f: Forest, refs: seq<Ref>, delta: int, q: int, s: Spot)
    requires Proper(f, refs) && Has(f, s)
    ensures Denotes(Run(f, refs, delta), q, s) <==> Denotes(f, q, s)
  {
    RunUnlisted(f, refs, delta, s, PHANDLE);
    RunUnlisted(f, refs, delta, s, LINUX_PHANDLE);
  }

  lemma {:induction false} CellRangeAt(f: Forest, r: Ref)
    requires ByteValues(f) && Legal(f, r)
    ensures 0 <= CellOf(f, r) < W32
  {
    BytesGraft(f, r.spot, Empty);
    LookupBytes(At(f, r.spot).props, r.name);
  }

  /** Other properties than phandles are not shifted. */
  lemma {:induction false} ShiftUnlisted(f: Forest, delta: int, s: Spot, name: Bytes)
    requires Has(f, s) && ByteValues(f) && CanShiftAll(f, delta) && name != PHANDLE && name != LINUX_PHANDLE
    ensures ValueAt(ShiftAll(f, delta), s, name) == ValueAt(f, s, name)
  {
    ShiftSpot(f, delta, s);
    var g := Alone(At(f, s));
    ShiftOther(g, PHANDLE, delta, name);
    ShiftOther(Shift(g, PHANDLE, delta), LINUX_PHANDLE, delta, name);
  }

  lemma {:induction false} ShiftOther(g: Forest, name: Bytes, delta: int, other: Bytes)
    requires g.Node? && g.next.Empty? && other != name
    ensures Lookup(Shift(g, name, delta).props, other) == Lookup(g.props, other)
  {
    var w := ShiftIs(g, name, delta);
    if Shift(g, name, delta) != g {
      WithPropLaws(g, name, w, other);
    }
  }

  lemma {:induction false} ShiftSound(f: Forest, refs: seq<Ref>, delta: int)
    requires Proper(f, refs) && ByteValues(f) && CanShiftAll(f, delta)
    ensures Proper(ShiftAll(f, delta), refs)
  {
    forall i {:trigger refs[i]} | 0 <= i < |refs| ensures Legal(ShiftAll(f, delta), refs[i]) {
      ShiftUnlisted(f, delta, refs[i].spot, refs[i].name);
    }
  }

  /** A number means the same nodes after both, increased. */
  lemma {:induction false} MeansSame(f: Forest, refs: seq<Ref>, delta: int, p: int, s: Spot)
    requires ByteValues(f) && CanShiftAll(f, delta) && 0 <= delta < W32 && Proper(f, refs) && 0 < p < W32 && Has(f, s)
    ensures Denotes(f, p, s) <==> Denotes(Run(ShiftAll(f, delta), refs, delta), (p + delta) % W32, s)
  {
    ShiftSound(f, refs, delta);
    ShiftSpot(f, delta, s);
    RunDenotes(ShiftAll(f, delta), refs, delta, (p + delta) % W32, s);
    ShiftDenotes(f, delta, p, s);
  }

  lemma {:induction false} MeansNoBase(f: Forest, delta: int, p: int, s: Spot, base: Forest, t: Spot)
    requires ByteValues(f) && CanShiftAll(f, delta) && 0 <= delta < W32 && 0 < p < W32 && Denotes(f, p, s)
    requires AtMost(base, delta)
    ensures !Denotes(base, (p + delta) % W32, t)
  {
    if Has(base, t) {
      ShiftedApart(base, f, delta, s, t);
      ShiftSpot(f, delta, s);
      ShiftedPhandle(At(f, s), delta);
      NoWrap(p, delta);
    }
  }

  ghost predicate ReadsOpen(f: Forest, r: Ref, p: int) {
    Legal(f, r) && CellOf(f, r) == p
  }

  /** The cell holds the number p. */
  ghost predicate Reads(f: Forest, r: Ref, p: int) {
    forall g {:trigger Looked(g)} :: g == f ==> ReadsOpen(g, r, p)
  }

  lemma {:induction false} RunReads(f: Forest, refs: seq<Ref>, delta: int, j: int, p: int)
    requires 0 <= j < |refs| && Once(refs, j) && Reads(f, refs[j], p)
    ensures Reads(Run(f, refs, delta), refs[j], (p + delta) % W32)
  {
    assert Looked(f);
    RunCell(f, refs, delta, j);
    assert ReadsOpen(Run(f, refs, delta), refs[j], (p + delta) % W32);
  }

  /** Other cells than phandles are not shifted. */
  lemma {:induction false} ShiftReads(f: Forest, r: Ref, delta: int, p: int)
    requires ByteValues(f) && CanShiftAll(f, delta) && r.name != PHANDLE && r.name != LINUX_PHANDLE && Reads(f, r, p)
    ensures 0 <= p < W32 && Reads(ShiftAll(f, delta), r, p)
  {
    assert Looked(f);
    CellRangeAt(f, r);
    ShiftUnlisted(f, delta, r.spot, r.name);
    assert ReadsOpen(ShiftAll(f, delta), r, p);
  }

  /**
   * Phandles shifted and references increased by the same number: a cell that is listed once means after both exactly
   * the nodes of the overlay that it meant before, and none of the base.
   */
  lemma {:induction false} ReferencesKept(f: Forest, refs: seq<Ref>, delta: int, j: int, p: int, s: Spot, base: Forest,
                                          t: Spot)
    requires ByteValues(f) && CanShiftAll(f, delta) && 0 <= delta < W32 && Proper(f, refs)
    requires 0 <= j < |refs| && Once(refs, j) && Reads(f, refs[j], p) && Has(f, s) && AtMost(base, delta)
    ensures var g, q := Run(ShiftAll(f, delta), refs, delta), (p + delta) % W32;
            && Reads(g, refs[j], q) && (p != 0 ==> (Denotes(f, p, s) <==> Denotes(g, q, s)))
            && (Denotes(f, p, s) ==> !Denotes(base, q, t))
  {
    assert refs[j].name != PHANDLE && refs[j].name != LINUX_PHANDLE;
    ShiftReads(f, refs[j], delta, p);
    RunReads(ShiftAll(f, delta), refs, delta, j, p);
    if p != 0 {
      MeansSame(f, refs, delta, p, s);
      if Denotes(f, p, s) {
        MeansNoBase(f, delta, p, s, base, t);
      }
    }
  }
}
