/** Merging an overlay blob into its base (fdt_overlay.c). */
module FdtOverlay {
  import opened FdtFormat
  import opened FdtTree
  import opened FdtTokens
  import opened FdtEdits
  import opened FdtMerge
  import opened FdtBlob
  import opened FdtWalk

  // ----- Steps of a merge -----

  ghost predicate GraftedOpen(f: Forest, s: Spot, x: Forest, g: Forest) {
    Has(f, s) && x.Node? && x.next.Empty? && g == Graft(f, s, x)
  }

  /** The tree g is f with the node at s replaced by x. */
  ghost predicate Grafted(f: Forest, s: Spot, x: Forest, g: Forest) {
    forall h {:trigger Looked(h)} :: h == f ==> GraftedOpen(h, s, x, g)
  }

  lemma {:induction false} StartGraft(f: Forest, s: Spot)
    requires Has(f, s)
    ensures Grafted(f, s, Alone(At(f, s)), f)
  {
    GraftSame(f, s);
    assert GraftedOpen(f, s, Alone(At(f, s)), f);
  }

  /** A node that has become x and then y has become y. */
  lemma {:induction false} GraftAgain(f0: Forest, s: Spot, x: Forest, f: Forest, y: Forest, g: Forest)
    requires Grafted(f0, s, x, f) && Grafted(f, s, y, g)
    ensures Grafted(f0, s, y, g) && Has(f, s) && Alone(At(f, s)) == x
  {
    assert Looked(f0) && Looked(f);
    GraftTwice(f0, s, x, y);
    assert GraftedOpen(f0, s, y, g);
  }

  lemma {:induction false} SetGraft(f: Forest, s: Spot, name: Bytes, val: Bytes, g: Forest)
    requires PropSet(f, s, name, val, g)
    ensures Has(f, s) && Grafted(f, s, WithProp(Alone(At(f, s)), name, val), g)
  {
    assert Looked(f);
    assert GraftedOpen(f, s, WithProp(Alone(At(f, s)), name, val), g);
  }

  /** One property more. */
  lemma {:induction false} SetStep(f0: Forest, s: Spot, x: Forest, f: Forest, name: Bytes, val: Bytes, g: Forest)
    requires x.Node? && x.next.Empty? && Grafted(f0, s, x, f) && PropSet(f, s, name, val, g)
    ensures Grafted(f0, s, WithProp(x, name, val), g)
  {
    SetGraft(f, s, name, val, g);
    GraftAgain(f0, s, x, f, WithProp(Alone(At(f, s)), name, val), g);
  }

  lemma {:induction false} KidExists(f: Forest, s: Spot, name: Bytes, q: Spot, x: Forest, g: Forest, h: Forest)
    requires Has(f, s) && h == Alone(At(f, s)) && FirstKid(h.kids, name) == Some(q)
    requires Grafted(f, Extend(s, Down(q)), x, g)
    ensures Has(h.kids, q) && Has(f, Extend(s, Down(q))) && At(f, Extend(s, Down(q))) == At(h.kids, q)
    ensures Grafted(f, s, h.(kids := Graft(h.kids, q, x)), g)
  {
    assert Looked(f);
    BelowHas(f, s, q);
    GraftBelow(f, s, q, x);
    assert GraftedOpen(f, s, h.(kids := Graft(h.kids, q, x)), g);
  }

  lemma {:induction false} KidIsNew(f: Forest, s: Spot, name: Bytes, f1: Forest, x: Forest, g: Forest, h: Forest)
    requires Has(f, s) && h == Alone(At(f, s)) && KidAdded(f, s, name, f1) && Grafted(f1, Extend(s, Down(Here)), x, g)
    ensures Has(f1, s) && Has(f1, Extend(s, Down(Here))) && At(f1, Extend(s, Down(Here))) == WithKid(h, name).kids
    ensures Grafted(f, s, WithKid(h, name).(kids := Graft(WithKid(h, name).kids, Here, x)), g)
  {
    assert Looked(f) && Looked(f1);
    var y := WithKid(h, name);
    GraftTwice(f, s, y, y.(kids := Graft(y.kids, Here, x)));
    BelowHas(f1, s, Here);
    GraftBelow(f1, s, Here, x);
    assert GraftedOpen(f, s, y.(kids := Graft(y.kids, Here, x)), g);
  }

  /** One child more. */
  lemma {:induction false} KidStep(f0: Forest, s: Spot, x: Forest, f: Forest, y: Forest, g: Forest, ks: Forest)
    requires x.Node? && x.next.Empty? && ks.Node? && Grafted(f0, s, x, f) && Has(f, s) && Alone(At(f, s)) == y
    requires Grafted(f, s, MergeKid(y, ks.name, ks.props, ks.kids), g)
    ensures Grafted(f0, s, MergeKid(x, ks.name, ks.props, ks.kids), g)
    ensures MergeKids(x, ks) == MergeKids(MergeKid(x, ks.name, ks.props, ks.kids), ks.next)
  {
    GraftAgain(f0, s, x, f, MergeKid(y, ks.name, ks.props, ks.kids), g);
  }

  lemma {:induction false} StaysAbove(ts: seq<Token>, ts': seq<Token>, f: Forest, s: Spot, x: Forest, g: Forest, k: int)
    requires Placed(ts, f, s, k) && 0 <= k < |ts| && ts[..k + 1] <= ts' && Grafted(f, s, x, g)
    ensures k < |ts'| && ts'[k] == ts[k] && Offset(ts', k) == Offset(ts, k) && NodeSpot(ts', g, k) == s
  {
    assert Looked(f);
    NodeStays(ts, ts', f, s, x, g, k);
  }

  // ----- The space that a merge takes at most -----

  function PropCost(p: Property): nat {
    12 + TagAlign(|p.value|) + |p.name| + 1
  }

  function PropsCost(ps: seq<Property>): nat {
    if |ps| == 0 then 0 else PropCost(ps[0]) + PropsCost(ps[1..])
  }

  function KidsCost(ks: Forest): nat {
    match ks
    case Empty => 0
    case Node(name, props, kids, next) => 8 + TagAlign(|name| + 1) + PropsCost(props) + KidsCost(kids) + KidsCost(next)
  }

  // ----- Merging properties -----

  /** The base and the node in it that is merged into. */
  ghost predicate Target(b: Blob, o: int, k: int, s: Spot)
    reads b, b.buf
  {
    b.Valid() && b.Ordered() && b.Remains(o, k, s)
  }

  /** The overlay and the node of it that is merged. */
  ghost predicate Source(b: Blob, o: int, j: int)
    reads b, b.buf
  {
    b.Valid() && b.IsNode(j) && o == Offset(b.toks, j) && Has(b.forest, b.Spot(j))
  }

  lemma {:induction false} TargetPoints(b: Blob, o: int, k: int, s: Spot)
    requires Target(b, o, k, s)
    ensures b.Points(o, k) && 0 <= o && Has(b.forest, s) && Placed(b.toks, b.forest, s, k)
  {
    b.Opened();
    b.PointsAt(k);
    b.NodePlaced(k);
  }

  method ApplyProp(fdt: Blob, target: int, name: Bytes, val: Bytes, ghost k: int, ghost s: Spot) returns (ret: int)
    requires Target(fdt, target, k, s) && 0 !in name && |val| < HALF - 16
    modifies fdt.buf, fdt`version, fdt`sizeStruct, fdt`offStrings, fdt`sizeStrings, fdt`toks, fdt`forest
    ensures fdt.Valid() && Target(fdt, target, k, s) && old(fdt.toks[..k + 1]) <= fdt.toks
    ensures ret == 0 || ret == -NOSPACE
    ensures ret != 0 ==> PropCost(Property(name, val)) > old(fdt.Free())
    ensures ret == 0 ==> PropSet(old(fdt.forest), s, name, val, fdt.forest)
    ensures ret == 0 ==> fdt.Free() >= old(fdt.Free()) - PropCost(Property(name, val))
    ensures fdt.Ahead() == old(fdt.Ahead())
  {
    TargetPoints(fdt, target, k, s);
    ret := fdt.SetProp(target, name, val, k);
  }

  /** One turn of the loop over the properties. */
  method ApplyOne(fdt: Blob, target: int, fdto: Blob, property: int, ghost k: int, ghost s: Spot, ghost j: int,
                  ghost c: int)
    returns (ret: int, next: int)
    requires Target(fdt, target, k, s) && fdto.Valid() && fdto.IsNode(j) && Has(fdto.forest, fdto.Spot(j))
             && fdt != fdto && fdt.buf != fdto.buf
    requires 0 <= c < |fdto.Props(j)| && property == fdto.PropOffset(j, c)
    modifies fdt.buf, fdt`version, fdt`sizeStruct, fdt`offStrings, fdt`sizeStrings, fdt`toks, fdt`forest
    ensures Target(fdt, target, k, s) && old(fdt.toks[..k + 1]) <= fdt.toks && (ret == 0 || ret == -NOSPACE)
    ensures ret != 0 ==> PropCost(fdto.Props(j)[c]) > old(fdt.Free())
    ensures ret == 0 ==>
              && next == fdto.PropOffset(j, c + 1) && fdt.Free() >= old(fdt.Free()) - PropCost(fdto.Props(j)[c])
              && PropSet(old(fdt.forest), s, fdto.Props(j)[c].name, fdto.Props(j)[c].value, fdt.forest)
    ensures fdt.Ahead() == old(fdt.Ahead())
  {
    next := property;
    var name, val := GetpropByOffset(fdto, property, j, c);
    ret := ApplyProp(fdt, target, name, val, k, s);
    if ret == 0 {
      next := fdto.NextPropertyOffset(property, j, c);
    }
  }

  /** The node after the first c properties, */
  function SetSome(x: Forest, ps: seq<Property>, c: int): (y: Forest)
    requires x.Node? && x.next.Empty? && 0 <= c <= |ps|
    ensures y.Node? && y.next.Empty?
  {
    SetAll(x, ps[..c])
  }

  /** and what they cost. */
  function CostSome(ps: seq<Property>, c: int): nat
    requires 0 <= c <= |ps|
  {
    PropsCost(ps[..c])
  }

  lemma {:induction false} SetAllJoin(x: Forest, ps: seq<Property>, p: Property)
    requires x.Node? && x.next.Empty?
    ensures SetAll(x, ps + [p]) == WithProp(SetAll(x, ps), p.name, p.value)
    ensures PropsCost(ps + [p]) == PropsCost(ps) + PropCost(p)
    decreases |ps|
  {
    var qs := ps + [p];
    if |ps| == 0 {
      assert qs == [p] && |qs[1..]| == 0;
    } else {
      assert qs[1..] == ps[1..] + [p];
      SetAllJoin(WithProp(x, ps[0].name, ps[0].value), ps[1..], p);
    }
  }

  lemma {:induction false} PropsStart(f: Forest, s: Spot, ps: seq<Property>)
    requires Has(f, s)
    ensures Grafted(f, s, SetSome(Alone(At(f, s)), ps, 0), f) && CostSome(ps, 0) == 0
  {
    assert |ps[..0]| == 0;
    StartGraft(f, s);
  }

  lemma {:induction false} PropsStep(f0: Forest, s: Spot, x: Forest, ps: seq<Property>, c: int, f: Forest, g: Forest)
    requires x.Node? && x.next.Empty? && 0 <= c < |ps| && Grafted(f0, s, SetSome(x, ps, c), f)
    requires PropSet(f, s, ps[c].name, ps[c].value, g)
    ensures Grafted(f0, s, SetSome(x, ps, c + 1), g)
  {
    SetStep(f0, s, SetSome(x, ps, c), f, ps[c].name, ps[c].value, g);
    SetAllJoin(x, ps[..c], ps[c]);
    assert ps[..c + 1] == ps[..c] + [ps[c]];
  }

  lemma {:induction false} CostStep(ps: seq<Property>, c: int)
    requires 0 <= c < |ps|
    ensures CostSome(ps, c + 1) == CostSome(ps, c) + PropCost(ps[c]) <= PropsCost(ps)
    decreases |ps| - c
  {
    SetAllJoin(Node([], [], Empty, Empty), ps[..c], ps[c]);
    assert ps[..c + 1] == ps[..c] + [ps[c]];
    if c + 1 < |ps| {
      CostStep(ps, c + 1);
    } else {
      assert ps[..c + 1] == ps;
    }
  }

  lemma {:induction false} PropsEnd(x: Forest, ps: seq<Property>)
    requires x.Node? && x.next.Empty?
    ensures SetSome(x, ps, |ps|) == SetAll(x, ps) && CostSome(ps, |ps|) == PropsCost(ps)
  {
    assert ps[..|ps|] == ps;
  }

  /** The loop of overlay_apply_node over the properties */
  method ApplyProps(fdt: Blob, target: int, fdto: Blob, node: int, ghost k: int, ghost s: Spot,
                    ghost j: int) returns (ret: int)
    requires Target(fdt, target, k, s) && Source(fdto, node, j) && fdt != fdto && fdt.buf != fdto.buf
             && Has(fdt.forest, s)
    modifies fdt.buf, fdt`version, fdt`sizeStruct, fdt`offStrings, fdt`sizeStrings, fdt`toks, fdt`forest
    ensures Target(fdt, target, k, s) && old(fdt.toks[..k + 1]) <= fdt.toks && (ret == 0 || ret == -NOSPACE)
    ensures ret != 0 ==> PropsCost(fdto.Props(j)) > old(fdt.Free())
    ensures ret == 0 ==> fdt.Free() >= old(fdt.Free()) - PropsCost(fdto.Props(j))
    ensures ret == 0 ==> Grafted(old(fdt.forest), s, SetAll(old(Alone(At(fdt.forest, s))), fdto.Props(j)), fdt.forest)
    ensures fdt.Ahead() == old(fdt.Ahead())
  {
    var property := FirstProperty(fdto, node, j);
    ghost var ps, x, c := fdto.Props(j), Alone(At(fdt.forest, s)), 0;
    PropsStart(fdt.forest, s, ps);
    ret := 0;
    while property >= 0
      invariant fdt.Ahead() == old(fdt.Ahead())
      invariant Target(fdt, target, k, s) && old(fdt.toks[..k + 1]) <= fdt.toks && ret == 0
      invariant 0 <= c <= |ps| && property == fdto.PropOffset(j, c)
      invariant Grafted(old(fdt.forest), s, SetSome(x, ps, c), fdt.forest)
      invariant fdt.Free() >= old(fdt.Free()) - CostSome(ps, c)
      decreases |ps| - c
    {
      ghost var f := fdt.forest;
      CostStep(ps, c);
      ret, property := ApplyOne(fdt, target, fdto, property, k, s, j, c);
      if ret != 0 {
        return;
      }
      PropsStep(old(fdt.forest), s, x, ps, c, f, fdt.forest);
      c := c + 1;
    }
    fdto.PropEnd(j, c);
    PropsEnd(x, ps);
  }

  method FirstProperty(b: Blob, o: int, ghost j: int) returns (r: int)
    requires Source(b, o, j)
    ensures r == b.PropOffset(j, 0)
  {
    b.Opened();
    b.PointsAt(j);
    r := b.FirstPropertyOffset(o, j);
  }

  // ----- Merging children -----

  /** fdt_add_subnode, or fdt_subnode_offset if there is one of that name already */
  method FindOrAdd(fdt: Blob, target: int, name: Bytes, ghost k: int, ghost s: Spot) returns (nnode: int,
                   ghost kn: int, ghost q: Spot)
    requires Target(fdt, target, k, s) && 0 !in name && |name| < HALF - 16 && Has(fdt.forest, s)
    modifies fdt.buf, fdt`version, fdt`sizeStruct, fdt`offStrings, fdt`toks, fdt`forest
    ensures Target(fdt, target, k, s) && old(fdt.toks[..k + 1]) <= fdt.toks && (nnode < 0 ==> nnode == -NOSPACE)
    ensures nnode < 0 ==> 8 + TagAlign(|name| + 1) > old(fdt.Free())
    ensures nnode >= 0 ==>
              && Target(fdt, nnode, kn, Extend(s, Down(q))) && k < kn
                 && fdt.Free() >= old(fdt.Free()) - (8 + TagAlign(|name| + 1))
              && match old(FirstKid(At(fdt.forest, s).kids, name))
                 case None => q == Here && KidAdded(old(fdt.forest), s, name, fdt.forest)
                 case Some(p) => q == p && fdt.forest == old(fdt.forest)
    ensures fdt.Ahead() == old(fdt.Ahead())
  {
    TargetPoints(fdt, target, k, s);
    q := Here;
    nnode, kn := fdt.AddSubnode(target, name, k);
    if nnode == -EXISTS {
      TargetPoints(fdt, target, k, s);
      nnode := fdt.SubnodeOffset(target, name, k);
      if nnode == -NOTFOUND {
        assert false;
      }
      q := FirstKid(At(fdt.forest, s).kids, name).value;
      kn := FoundKid(fdt, k, q);
    }
  }

  /** The node of the overlay at token j. */
  ghost function Given(b: Blob, j: int): (g: Forest)
    requires b.IsNode(j) && Has(b.forest, b.Spot(j))
    reads b
    ensures g.Node?
  {
    At(b.forest, b.Spot(j))
  }

  function KidCost(g: Forest): nat
    requires g.Node?
  {
    8 + TagAlign(|g.name| + 1) + PropsCost(g.props) + KidsCost(g.kids)
  }

  /** A child that has been found or added, and has been merged into, is a merged child. */
  lemma {:induction false} KidMerged(f: Forest, s: Spot, name: Bytes, q: Spot, f1: Forest, props: seq<Property>,
                                     kids: Forest, g: Forest)
    requires Has(f, s)
    requires match FirstKid(At(f, s).kids, name)
             case None => q == Here && KidAdded(f, s, name, f1)
             case Some(p) => q == p && f1 == f
    requires Has(f1, Extend(s, Down(q)))
             && Grafted(f1, Extend(s, Down(q)), Merge(At(f1, Extend(s, Down(q))), props, kids), g)
    ensures Grafted(f, s, MergeKid(Alone(At(f, s)), name, props, kids), g)
  {
    var h, x := Alone(At(f, s)), Merge(At(f1, Extend(s, Down(q))), props, kids);
    match FirstKid(At(f, s).kids, name)
    case None => KidIsNew(f, s, name, f1, x, g, h);
    case Some(p) => KidExists(f, s, name, q, x, g, h);
  }

  /** The body of the loop of overlay_apply_node over the children */
  method ApplyKid(fdt: Blob, target: int, fdto: Blob, subnode: int, ghost k: int, ghost s: Spot,
                  ghost j: int) returns (ret: int)
    requires Target(fdt, target, k, s) && Source(fdto, subnode, j) && fdt != fdto && fdt.buf != fdto.buf
             && Has(fdt.forest, s)
    modifies fdt.buf, fdt`version, fdt`sizeStruct, fdt`offStrings, fdt`sizeStrings, fdt`toks, fdt`forest
    ensures fdt.Valid() && fdt.Ordered() && old(fdt.toks[..k + 1]) <= fdt.toks && (ret == 0 || ret == -NOSPACE)
    ensures ret != 0 ==> KidCost(Given(fdto, j)) > old(fdt.Free())
    ensures ret == 0 ==> Target(fdt, target, k, s) && fdt.Free() >= old(fdt.Free()) - KidCost(Given(fdto, j))
    ensures ret == 0 ==> var h := Given(fdto, j);
                         Grafted(old(fdt.forest), s, MergeKid(old(Alone(At(fdt.forest, s))), h.name, h.props,
                           h.kids), fdt.forest)
    ensures fdt.Ahead() == old(fdt.Ahead())
    decreases Nodes(Given(fdto, j).kids), 3
  {
    ghost var h, f, ts := Given(fdto, j), fdt.forest, fdt.toks;
    assert Placed(ts, f, s, k) && 0 <= k < |ts| by {
      TargetPoints(fdt, target, k, s);
    }
    var name := GetName(fdto, subnode, j);
    var nnode: int;
    ghost var kn, q;
    nnode, kn, q := FindOrAdd(fdt, target, name, k, s);
    if nnode < 0 {
      return nnode;
    }
    ghost var f1, ts1, u := fdt.forest, fdt.toks, Extend(s, Down(q));
    ghost var x := MergeKid(Alone(At(f, s)), h.name, h.props, h.kids);
    ret := ApplyFound(fdt, nnode, fdto, subnode, kn, u, j);
    PrefixOn(ts, ts1, fdt.toks, k, kn);
    if ret == 0 {
      KidMerged(f, s, name, q, f1, h.props, h.kids, fdt.forest);
      StaysAbove(ts, fdt.toks, f, s, x, fdt.forest, k);
    }
  }

  lemma {:induction false} PrefixOn(ts: seq<Token>, ts1: seq<Token>, ts2: seq<Token>, k: int, kn: int)
    requires 0 <= k <= kn && k < |ts| && kn < |ts1| && ts[..k + 1] <= ts1 && ts1[..kn + 1] <= ts2
    ensures ts[..k + 1] <= ts2
  {
    assert ts1[..k + 1] == ts1[..kn + 1][..k + 1];
  }

  /** The overlay child merged into the node at u. */
  method ApplyFound(fdt: Blob, target: int, fdto: Blob, node: int, ghost k: int, ghost u: Spot,
                    ghost j: int) returns (ret: int)
    requires Target(fdt, target, k, u) && Source(fdto, node, j) && fdt != fdto && fdt.buf != fdto.buf
    modifies fdt.buf, fdt`version, fdt`sizeStruct, fdt`offStrings, fdt`sizeStrings, fdt`toks, fdt`forest
    ensures fdt.Valid() && fdt.Ordered() && 0 <= k < |old(fdt.toks)| && old(fdt.toks[..k + 1]) <= fdt.toks
    ensures old(Has(fdt.forest, u)) && (ret == 0 || ret == -NOSPACE)
    ensures ret != 0 ==> PropsCost(Given(fdto, j).props) + KidsCost(Given(fdto, j).kids) > old(fdt.Free())
    ensures ret == 0 ==> fdt.Free() >= old(fdt.Free()) - PropsCost(Given(fdto, j).props) - KidsCost(Given(fdto, j).kids)
    ensures ret == 0 ==> var h := Given(fdto, j);
                         Grafted(old(fdt.forest), u, Merge(old(At(fdt.forest, u)), h.props, h.kids), fdt.forest)
    ensures fdt.Ahead() == old(fdt.Ahead())
    decreases Nodes(Given(fdto, j).kids), 2, 1
  {
    TargetPoints(fdt, target, k, u);
    ret := ApplyNode(fdt, target, fdto, node, k, u, j);
  }

  /** overlay_apply_node */
  method ApplyNode(fdt: Blob, target: int, fdto: Blob, node: int, ghost k: int, ghost s: Spot,
                   ghost j: int) returns (ret: int)
    requires Target(fdt, target, k, s) && Source(fdto, node, j) && fdt != fdto && fdt.buf != fdto.buf
             && Has(fdt.forest, s)
    modifies fdt.buf, fdt`version, fdt`sizeStruct, fdt`offStrings, fdt`sizeStrings, fdt`toks, fdt`forest
    ensures fdt.Valid() && fdt.Ordered() && old(fdt.toks[..k + 1]) <= fdt.toks && (ret == 0 || ret == -NOSPACE)
    ensures ret != 0 ==> PropsCost(Given(fdto, j).props) + KidsCost(Given(fdto, j).kids) > old(fdt.Free())
    ensures ret == 0 ==> fdt.Free() >= old(fdt.Free()) - PropsCost(Given(fdto, j).props) - KidsCost(Given(fdto, j).kids)
    ensures ret == 0 ==> Target(fdt, target, k, s)
    ensures ret == 0 ==> var h := Given(fdto, j);
                         Grafted(old(fdt.forest), s, Merge(old(At(fdt.forest, s)), h.props, h.kids), fdt.forest)
    ensures fdt.Ahead() == old(fdt.Ahead())
    decreases Nodes(Given(fdto, j).kids), 2, 0
  {
    ghost var h, f := Given(fdto, j), fdt.forest;
    ret := ApplyProps(fdt, target, fdto, node, k, s, j);
    if ret != 0 {
      return;
    }
    ghost var f1, x := fdt.forest, SetAll(Alone(At(f, s)), h.props);
    TargetPoints(fdt, target, k, s);
    ret := ApplyKids(fdt, target, fdto, node, k, s, j);
    if ret == 0 {
      GraftAgain(f, s, x, f1, MergeKids(Alone(At(f1, s)), h.kids), fdt.forest);
    }
  }

  lemma {:induction false} NextGiven(ks: Forest, c: nat)
    requires Has(ks, Nth(c))
    ensures Drop(ks, c).Node? && At(ks, Nth(c)) == Drop(ks, c) && Drop(ks, c + 1) == Drop(ks, c).next
    ensures Nodes(Drop(ks, c + 1)) < Nodes(Drop(ks, c)) && Nodes(Drop(ks, c).kids) < Nodes(ks)
    ensures KidsCost(Drop(ks, c)) == KidCost(Drop(ks, c)) + KidsCost(Drop(ks, c + 1))
  {
    NthIs(ks, c);
  }

  /** The node after the first c children, */
  function MergeSome(x: Forest, ks: Forest, c: nat): (y: Forest)
    requires x.Node? && x.next.Empty?
    ensures y.Node? && y.next.Empty?
  {
    if c == 0 then x
    else
      var y, h := MergeSome(x, ks, c - 1), Drop(ks, c - 1);
      if h.Node? then MergeKid(y, h.name, h.props, h.kids) else y
  }

  /** and what the others cost. */
  function CostLeft(ks: Forest, c: nat): nat {
    KidsCost(Drop(ks, c))
  }

  lemma {:induction false} MergeSomeAll(x: Forest, ks: Forest, c: nat)
    requires x.Node? && x.next.Empty?
    ensures MergeKids(MergeSome(x, ks, c), Drop(ks, c)) == MergeKids(x, ks)
  {
    if c > 0 {
      MergeSomeAll(x, ks, c - 1);
      NthIs(ks, c - 1);
      DropEnd(ks, c - 1);
    }
  }

  lemma {:induction false} DropEnd(ks: Forest, c: nat)
    ensures Drop(ks, c).Empty? ==> Drop(ks, c + 1).Empty?
  {
    if ks.Node? && c > 0 {
      DropEnd(ks.next, c - 1);
    }
  }

  ghost predicate SoFarOpen(f0: Forest, s: Spot, x: Forest, ks: Forest, c: nat, f: Forest) {
    x.Node? && x.next.Empty? && Grafted(f0, s, MergeSome(x, ks, c), f)
  }

  /** The first c children have been merged into the node at s, which was x. */
  ghost predicate SoFar(f0: Forest, s: Spot, x: Forest, ks: Forest, c: nat, f: Forest) {
    forall h {:trigger Looked(h)} :: h == f0 ==> SoFarOpen(h, s, x, ks, c, f)
  }

  lemma {:induction false} KidsStart(f: Forest, s: Spot, ks: Forest)
    requires Has(f, s)
    ensures SoFar(f, s, Alone(At(f, s)), ks, 0, f)
  {
    StartGraft(f, s);
    assert SoFarOpen(f, s, Alone(At(f, s)), ks, 0, f);
  }

  lemma {:induction false} KidsStep(f0: Forest, s: Spot, x: Forest, ks: Forest, c: nat, f: Forest, g: Forest)
    requires SoFar(f0, s, x, ks, c, f) && Drop(ks, c).Node? && Has(f, s)
    requires var h := Drop(ks, c); Grafted(f, s, MergeKid(Alone(At(f, s)), h.name, h.props, h.kids), g)
    ensures SoFar(f0, s, x, ks, c + 1, g) && Nodes(Drop(ks, c + 1)) < Nodes(Drop(ks, c))
  {
    assert Looked(f0);
    KidStep(f0, s, MergeSome(x, ks, c), f, Alone(At(f, s)), g, Drop(ks, c));
    NextLeft(ks, c);
    assert SoFarOpen(f0, s, x, ks, c + 1, g);
  }

  lemma {:induction false} KidsEnd(f0: Forest, s: Spot, x: Forest, ks: Forest, c: nat, f: Forest)
    requires SoFar(f0, s, x, ks, c, f) && Drop(ks, c).Empty?
    ensures x.Node? && x.next.Empty? && Grafted(f0, s, MergeKids(x, ks), f)
  {
    assert Looked(f0);
    MergeSomeAll(x, ks, c);
  }

  /** The search for child c of the overlay node at token j has answered r. */
  ghost predicate Answer(b: Blob, j: int, c: nat, r: int, jk: int)
    requires b.IsNode(j) && Has(b.forest, b.Spot(j))
    reads b
  {
    && (r >= 0 <==> Drop(Given(b, j).kids, c).Node?)
    && forall f {:trigger Looked(f)} :: f == b.forest ==> KidAnswer(b, j, c, r, jk)
  }

  /** One turn of the loop over the children. */
  method ApplyNext(fdt: Blob, target: int, fdto: Blob, subnode: int, ghost k: int, ghost s: Spot, ghost j: int,
                   ghost c: nat, ghost jk: int)
    returns (ret: int, next: int, ghost jn: int)
    requires Target(fdt, target, k, s) && fdto.Valid() && fdto.IsNode(j) && Has(fdto.forest, fdto.Spot(j))
             && fdt != fdto && fdt.buf != fdto.buf
    requires Has(fdt.forest, s) && subnode >= 0 && Answer(fdto, j, c, subnode, jk)
    modifies fdt.buf, fdt`version, fdt`sizeStruct, fdt`offStrings, fdt`sizeStrings, fdt`toks, fdt`forest
    ensures fdt.Valid() && fdt.Ordered() && old(fdt.toks[..k + 1]) <= fdt.toks && (ret == 0 || ret == -NOSPACE)
    ensures ret != 0 ==> CostLeft(Given(fdto, j).kids, c) > old(fdt.Free())
    ensures ret == 0 ==>
              && Target(fdt, target, k, s) && Answer(fdto, j, c + 1, next, jn)
              && fdt.Free() - CostLeft(Given(fdto, j).kids, c + 1) >= old(fdt.Free()) - CostLeft(Given(fdto, j).kids, c)
              && var h := Drop(Given(fdto, j).kids, c);
                 Grafted(old(fdt.forest), s, MergeKid(old(Alone(At(fdt.forest, s))), h.name, h.props, h.kids),
                   fdt.forest)
    ensures fdt.Ahead() == old(fdt.Ahead())
    decreases Nodes(Given(fdto, j).kids), 0, 0
  {
    next, jn := subnode, jk;
    assert Looked(fdto.forest);
    NthIs(Given(fdto, j).kids, c);
    NextGiven(Given(fdto, j).kids, c);
    GivenKid(fdto, j, c, subnode, jk);
    ret := ApplyKid(fdt, target, fdto, subnode, k, s, jk);
    if ret == 0 {
      next, jn := NextSubnode(fdto, subnode, j, c, jk);
      NthIs(Given(fdto, j).kids, c + 1);
      KidOffset(fdto, j, c + 1, next, jn);
    }
  }

  /** The loop of overlay_apply_node over the children */
  method ApplyKids(fdt: Blob, target: int, fdto: Blob, node: int, ghost k: int, ghost s: Spot,
                   ghost j: int) returns (ret: int)
    requires Target(fdt, target, k, s) && Source(fdto, node, j) && fdt != fdto && fdt.buf != fdto.buf
             && Has(fdt.forest, s)
    modifies fdt.buf, fdt`version, fdt`sizeStruct, fdt`offStrings, fdt`sizeStrings, fdt`toks, fdt`forest
    ensures fdt.Valid() && fdt.Ordered() && old(fdt.toks[..k + 1]) <= fdt.toks && (ret == 0 || ret == -NOSPACE)
    ensures ret != 0 ==> KidsCost(Given(fdto, j).kids) > old(fdt.Free())
    ensures ret == 0 ==> Target(fdt, target, k, s) && fdt.Free() >= old(fdt.Free()) - KidsCost(Given(fdto, j).kids)
    ensures ret == 0 ==>
              Grafted(old(fdt.forest), s, MergeKids(old(Alone(At(fdt.forest, s))), Given(fdto, j).kids), fdt.forest)
    ensures fdt.Ahead() == old(fdt.Ahead())
    decreases Nodes(Given(fdto, j).kids), 1
  {
    ghost var ts, f0, x, free, c := fdt.toks, fdt.forest, Alone(At(fdt.forest, s)), fdt.Free(), 0;
    KidsStart(f0, s, Given(fdto, j).kids);
    ret := 0;
    var subnode: int;
    ghost var jk;
    subnode, jk := FirstChild(fdto, node, j);
    while subnode >= 0
      invariant fdt.Ahead() == old(fdt.Ahead())
      invariant ret == 0 && 0 <= c && Joining(fdt, target, fdto, subnode, k, s, j, c, jk, ts, f0, x, free)
      decreases Nodes(Drop(Given(fdto, j).kids, c))
    {
      ret, subnode, jk := ApplyTurn(fdt, target, fdto, subnode, k, s, j, c, jk, ts, f0, x, free);
      if ret != 0 {
        return;
      }
      c := c + 1;
    }
    KidsEnd(f0, s, x, Given(fdto, j).kids, c, fdt.forest);
  }

  /** The loop over the children has come to child c, for which the search has answered subnode. */
  ghost predicate Joining(fdt: Blob, target: int, fdto: Blob, subnode: int, k: int, s: Spot, j: int, c: nat, jk: int,
                        ts: seq<Token>, f0: Forest, x: Forest, free: int)
    reads fdt, fdt.buf, fdto, fdto.buf
  {
    && Target(fdt, target, k, s) && 0 <= k < |ts| && ts[..k + 1] <= fdt.toks
    && fdto.Valid() && fdto.IsNode(j) && Has(fdto.forest, fdto.Spot(j)) && Answer(fdto, j, c, subnode, jk)
    && SoFar(f0, s, x, Given(fdto, j).kids, c, fdt.forest)
    && fdt.Free() - CostLeft(Given(fdto, j).kids, c) >= free - CostLeft(Given(fdto, j).kids, 0)
  }

  /** One turn of that loop, and what it adds to the merge. */
  method ApplyTurn(fdt: Blob, target: int, fdto: Blob, subnode: int, ghost k: int, ghost s: Spot, ghost j: int,
                   ghost c: nat, ghost jk: int, ghost ts: seq<Token>, ghost f0: Forest, ghost x: Forest,
                   ghost free: int)
    returns (ret: int, next: int, ghost jn: int)
    requires Joining(fdt, target, fdto, subnode, k, s, j, c, jk, ts, f0, x, free) && subnode >= 0
             && fdt != fdto && fdt.buf != fdto.buf
    modifies fdt.buf, fdt`version, fdt`sizeStruct, fdt`offStrings, fdt`sizeStrings, fdt`toks, fdt`forest
    ensures fdt.Valid() && fdt.Ordered() && ts[..k + 1] <= fdt.toks && (ret == 0 || ret == -NOSPACE)
    ensures ret != 0 ==> CostLeft(Given(fdto, j).kids, 0) > free
    ensures Nodes(Drop(Given(fdto, j).kids, c + 1)) < Nodes(Drop(Given(fdto, j).kids, c))
    ensures ret == 0 ==> Joining(fdt, target, fdto, next, k, s, j, c + 1, jn, ts, f0, x, free)
    ensures fdt.Ahead() == old(fdt.Ahead())
    decreases Nodes(Given(fdto, j).kids), 0, 1
  {
    ghost var f, ts1 := fdt.forest, fdt.toks;
    TargetPoints(fdt, target, k, s);
    NextLeft(Given(fdto, j).kids, c);
    ret, next, jn := ApplyNext(fdt, target, fdto, subnode, k, s, j, c, jk);
    PrefixOn(ts, ts1, fdt.toks, k, k);
    if ret == 0 {
      KidsStep(f0, s, x, Given(fdto, j).kids, c, f, fdt.forest);
    }
  }

  method FirstChild(b: Blob, o: int, ghost j: int) returns (r: int, ghost jk: int)
    requires Source(b, o, j)
    ensures Answer(b, j, 0, r, jk)
  {
    b.Opened();
    b.PointsAt(j);
    r, jk := FirstSubnode(b, o, j);
    NthIs(Given(b, j).kids, 0);
    KidOffset(b, j, 0, r, jk);
  }

  lemma {:induction false} KidOffset(b: Blob, j: int, c: nat, r: int, jk: int)
    requires b.Valid() && b.IsNode(j) && Has(b.forest, b.Spot(j)) && KidAnswer(b, j, c, r, jk)
    ensures r >= 0 <==> Has(Kids(b, j), Nth(c))
  {
  }

  lemma {:induction false} NextLeft(ks: Forest, c: nat)
    requires Drop(ks, c).Node?
    ensures Nodes(Drop(ks, c + 1)) < Nodes(Drop(ks, c))
  {
    NthIs(ks, c);
  }

  lemma {:induction false} GivenKid(b: Blob, j: int, c: nat, r: int, jk: int)
    requires b.Valid() && b.IsNode(j) && Has(b.forest, b.Spot(j)) && KidAnswer(b, j, c, r, jk)
             && Has(Kids(b, j), Nth(c))
    ensures Source(b, r, jk) && Given(b, jk) == Drop(Kids(b, j), c)
  {
    NthIs(Kids(b, j), c);
    BelowHas(b.forest, b.Spot(j), Nth(c));
  }
}
