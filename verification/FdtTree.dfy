/**
 * Device trees as values, and the flattening of a tree into the items that the tokens of a
 * structure block stand for.  Nothing here knows about bytes or offsets.
 */
module FdtTree {
  import opened FdtFormat

  datatype Property = Property(name: Bytes, value: Bytes)

  /** A list of sibling nodes, each with its properties and its own list of child nodes. */
  datatype Forest = Empty | Node(name: Bytes, props: seq<Property>, kids: Forest, next: Forest)

  datatype Item = Open(name: Bytes) | Attr(prop: Property) | Close

  // ----- Flattening -----

  function Attrs(ps: seq<Property>): (s: seq<Item>)
    ensures |s| == |ps| && forall i :: 0 <= i < |ps| ==> s[i] == Attr(ps[i])
  {
    seq(|ps|, i requires 0 <= i < |ps| => Attr(ps[i]))
  }

  function FlatNode(name: Bytes, props: seq<Property>, kids: Forest): seq<Item>
    decreases kids, 1
  {
    [Open(name)] + Attrs(props) + Flatten(kids) + [Close]
  }

  function Flatten(f: Forest): seq<Item>
    decreases f, 0
  {
    match f
    case Empty => []
    case Node(name, props, kids, next) => FlatNode(name, props, kids) + Flatten(next)
  }

  /** The nodes that the items open, less those they close. */
  function Net(s: seq<Item>): int {
    if |s| == 0 then 0
    else (match s[0] case Open(_) => 1 case Close => -1 case Attr(_) => 0) + Net(s[1..])
  }

  lemma {:induction false} NetJoin(s: seq<Item>, t: seq<Item>)
    ensures Net(s + t) == Net(s) + Net(t)
  {
    if s == [] {
      assert s + t == t;
    } else {
      assert (s + t)[1..] == s[1..] + t;
      NetJoin(s[1..], t);
    }
  }

  lemma {:induction false} NetAttrs(s: seq<Item>)
    requires forall i :: 0 <= i < |s| ==> s[i].Attr?
    ensures Net(s) == 0
  {
    if s != [] {
      NetAttrs(s[1..]);
    }
  }

  /** Inside a node at least one node is open; after it none is. */
  lemma {:induction false} NodeDepth(name: Bytes, props: seq<Property>, kids: Forest, i: int)
    requires 0 <= i <= |FlatNode(name, props, kids)|
    ensures var s := FlatNode(name, props, kids);
            Net(s[..i]) >= (if 0 < i < |s| then 1 else 0) && (i == |s| ==> Net(s[..i]) == 0)
    decreases kids, 1
  {
    var s := FlatNode(name, props, kids);
    var n := 1 + |props|;
    var k := Flatten(kids);
    var h := [Open(name)] + Attrs(props);
    if i <= n {
      assert s[..i] == h[..i];
      if i > 0 {
        assert h[..i] == [Open(name)] + Attrs(props)[..i - 1];
        NetJoin([Open(name)], Attrs(props)[..i - 1]);
        NetAttrs(Attrs(props)[..i - 1]);
      }
    } else {
      var j := if i == |s| then |k| else i - n;
      assert h == [Open(name)] + Attrs(props);
      NetJoin([Open(name)], Attrs(props));
      NetAttrs(Attrs(props));
      ForestDepth(kids, j);
      NetJoin(h, k[..j]);
      if i == |s| {
        assert s[..i] == (h + k[..j]) + [Close];
        NetJoin(h + k[..j], [Close]);
      } else {
        assert s[..i] == h + k[..j];
      }
    }
  }

  lemma {:induction false} ForestDepth(f: Forest, i: int)
    requires 0 <= i <= |Flatten(f)|
    ensures Net(Flatten(f)[..i]) >= 0 && (i == |Flatten(f)| ==> Net(Flatten(f)[..i]) == 0)
    decreases f, 0
  {
    match f
    case Empty =>
    case Node(name, props, kids, next) =>
      var a, b := FlatNode(name, props, kids), Flatten(next);
      if i <= |a| {
        NodeDepth(name, props, kids, i);
        assert Flatten(f)[..i] == a[..i];
        if i == |a| && b == [] {
        }
      } else {
        NodeDepth(name, props, kids, |a|);
        assert a[..|a|] == a;
        ForestDepth(next, i - |a|);
        assert Flatten(f)[..i] == a + b[..i - |a|];
        NetJoin(a, b[..i - |a|]);
      }
  }

  /** The items of a list of nodes, the first node apart. */
  lemma {:induction false} Peel(f: Forest, rest: seq<Item>)
    requires f.Node?
    ensures Flatten(f) + rest
         == [Open(f.name)] + (Attrs(f.props) + (Flatten(f.kids) + ([Close] + (Flatten(f.next) + rest))))
  {
  }

  ghost predicate Ends(s: seq<Item>) {
    s == [] || s[0].Close?
  }

  lemma {:induction false} StartsOpen(f: Forest, a: seq<Item>)
    requires Ends(a)
    ensures f.Node? <==> (Flatten(f) + a != [] && (Flatten(f) + a)[0].Open?)
  {
    if f.Node? {
      Peel(f, a);
    }
  }

  lemma {:induction false} Cancel(x: seq<Item>, y: seq<Item>, a: seq<Item>, b: seq<Item>)
    requires |x| == |y| && x + a == y + b
    ensures x == y && a == b
  {
    assert (x + a)[..|x|] == x && (y + b)[..|y|] == y;
    assert (x + a)[|x|..] == a && (y + b)[|y|..] == b;
  }

  /** The items determine the tree. */
  lemma {:induction false} FlattenInjective(f: Forest, g: Forest, a: seq<Item>, b: seq<Item>)
    requires Flatten(f) + a == Flatten(g) + b && Ends(a) && Ends(b)
    ensures f == g && a == b
    decreases f
  {
    StartsOpen(f, a);
    StartsOpen(g, b);
    if f.Node? {
      Peel(f, a);
      Peel(g, b);
      var x, y := [Close] + (Flatten(f.next) + a), [Close] + (Flatten(g.next) + b);
      var u, v := Flatten(f.kids) + x, Flatten(g.kids) + y;
      Cancel([Open(f.name)], [Open(g.name)], Attrs(f.props) + u, Attrs(g.props) + v);
      assert [Open(f.name)][0] == [Open(g.name)][0];
      AttrsInjective(f.props, g.props, f.kids, g.kids, x, y);
      FlattenInjective(f.kids, g.kids, x, y);
      Cancel([Close], [Close], Flatten(f.next) + a, Flatten(g.next) + b);
      FlattenInjective(f.next, g.next, a, b);
    } else {
      assert Flatten(f) + a == a && Flatten(g) + b == b;
    }
  }

  lemma {:induction false} NotAttr(f: Forest, x: seq<Item>)
    requires Ends(x) && x != []
    ensures Flatten(f) + x != [] && !(Flatten(f) + x)[0].Attr?
  {
    if f.Node? {
      Peel(f, x);
    }
  }

  lemma {:induction false} AttrsNotMore(p: seq<Property>, q: seq<Property>, u: seq<Item>, v: seq<Item>)
    requires Attrs(p) + u == Attrs(q) + v && u != [] && !u[0].Attr?
    ensures |q| <= |p|
  {
    assert (Attrs(p) + u)[|p|] == u[0];
    assert forall i :: 0 <= i < |q| ==> (Attrs(q) + v)[i] == Attr(q[i]);
  }

  lemma {:induction false} AttrsInjective(p: seq<Property>, q: seq<Property>, f: Forest, g: Forest, x: seq<Item>,
                                          y: seq<Item>)
    requires Attrs(p) + (Flatten(f) + x) == Attrs(q) + (Flatten(g) + y)
    requires Ends(x) && x != [] && Ends(y) && y != []
    ensures p == q && Flatten(f) + x == Flatten(g) + y
  {
    var u, v := Flatten(f) + x, Flatten(g) + y;
    NotAttr(f, x);
    NotAttr(g, y);
    AttrsNotMore(p, q, u, v);
    AttrsNotMore(q, p, v, u);
    Cancel(Attrs(p), Attrs(q), u, v);
    forall i | 0 <= i < |p| ensures p[i] == q[i] {
      assert Attrs(p)[i] == Attrs(q)[i];
    }
  }

  // ----- Places in a tree -----

  /** Where a node is: the first node of the list, a node below that node, or a node after it. */
  datatype Spot = Here | Down(below: Spot) | Next(after: Spot)

  predicate Has(f: Forest, s: Spot) {
    f.Node? && match s case Here => true case Down(q) => Has(f.kids, q) case Next(q) => Has(f.next, q)
  }

  function At(f: Forest, s: Spot): (g: Forest)
    requires Has(f, s)
    ensures g.Node?
  {
    match s case Here => f case Down(q) => At(f.kids, q) case Next(q) => At(f.next, q)
  }

  /** The items before the node, */
  function Before(f: Forest, s: Spot): seq<Item>
    requires Has(f, s)
  {
    match s
    case Here => []
    case Down(q) => [Open(f.name)] + Attrs(f.props) + Before(f.kids, q)
    case Next(q) => FlatNode(f.name, f.props, f.kids) + Before(f.next, q)
  }

  /** and those after it. */
  function After(f: Forest, s: Spot): seq<Item>
    requires Has(f, s)
  {
    match s
    case Here => Flatten(f.next)
    case Down(q) => After(f.kids, q) + [Close] + Flatten(f.next)
    case Next(q) => After(f.next, q)
  }

  function Append(f: Forest, g: Forest): Forest {
    match f case Empty => g case Node(_, _, _, next) => f.(next := Append(next, g))
  }

  /** The tree with the node at the spot replaced by the given nodes. */
  function Graft(f: Forest, s: Spot, g: Forest): Forest
    requires Has(f, s)
  {
    match s
    case Here => Append(g, f.next)
    case Down(q) => f.(kids := Graft(f.kids, q, g))
    case Next(q) => f.(next := Graft(f.next, q, g))
  }

  lemma {:induction false} FlattenAppend(f: Forest, g: Forest)
    ensures Flatten(Append(f, g)) == Flatten(f) + Flatten(g)
  {
    match f
    case Empty =>
    case Node(name, props, kids, next) =>
      FlattenAppend(next, g);
      assert FlatNode(name, props, kids) + (Flatten(next) + Flatten(g)) == Flatten(f) + Flatten(g);
  }

  lemma {:induction false} Regroup(h: seq<Item>, a: seq<Item>, b: seq<Item>, c: seq<Item>, d: seq<Item>, e: seq<Item>)
    ensures h + (a + b + c) + d + e == (h + a) + b + (c + d + e)
    ensures h + (a + b + c) == (h + a) + b + c
  {
  }

  /** The items of a node after its own: its properties, then its children or its end. */
  lemma {:induction false} AttrItem(f: Forest, s: Spot, c: int)
    requires Has(f, s) && 0 <= c <= |At(f, s).props|
    ensures var g, i := At(f, s), |Before(f, s)| + 1 + c;
            i < |Flatten(f)| && (if c < |g.props| then Flatten(f)[i] == Attr(g.props[c]) else !Flatten(f)[i].Attr?)
  {
    Around(f, s);
    var g := At(f, s);
    HeadItem(g.name, g.props, g.kids, c);
    var b, n := Before(f, s), FlatNode(g.name, g.props, g.kids);
    assert (b + n + After(f, s))[|b| + (1 + c)] == n[1 + c];
  }

  lemma {:induction false} HeadItem(name: Bytes, props: seq<Property>, kids: Forest, c: int)
    requires 0 <= c <= |props|
    ensures var n := FlatNode(name, props, kids);
            1 + c < |n| && (if c < |props| then n[1 + c] == Attr(props[c]) else !n[1 + c].Attr?)
  {
    var h := [Open(name)] + Attrs(props);
    var n := FlatNode(name, props, kids);
    assert n == h + (Flatten(kids) + [Close]);
    if c < |props| {
      assert n[1 + c] == h[1 + c] == Attrs(props)[c];
    } else {
      NotAttr(kids, [Close]);
      assert n[1 + c] == (Flatten(kids) + [Close])[0];
    }
  }

  /** Grafting changes the items of the node and no others. */
  lemma {:induction false} FlattenGraft(f: Forest, s: Spot, g: Forest)
    requires Has(f, s)
    ensures Flatten(Graft(f, s, g)) == Before(f, s) + Flatten(g) + After(f, s)
    decreases s
  {
    match s
    case Here => FlattenAppend(g, f.next);
    case Down(q) =>
      FlattenGraft(f.kids, q, g);
      Regroup([Open(f.name)] + Attrs(f.props), Before(f.kids, q), Flatten(g), After(f.kids, q), [Close],
              Flatten(f.next));
    case Next(q) =>
      FlattenGraft(f.next, q, g);
      Regroup(FlatNode(f.name, f.props, f.kids), Before(f.next, q), Flatten(g), After(f.next, q), [], []);
      assert After(f.next, q) + [] + [] == After(f.next, q);
  }

  /** A node on its own. */
  function Alone(f: Forest): (g: Forest)
    requires f.Node?
    ensures g.Node? && Flatten(g) == FlatNode(f.name, f.props, f.kids)
  {
    var g := f.(next := Empty);
    assert Flatten(g) == FlatNode(f.name, f.props, f.kids) + Flatten(Empty);
    g
  }

  lemma {:induction false} GraftSame(f: Forest, s: Spot)
    requires Has(f, s)
    ensures Graft(f, s, Alone(At(f, s))) == f
    decreases s
  {
    match s
    case Here => assert Append(f.(next := Empty), f.next) == f;
    case Down(q) => GraftSame(f.kids, q);
    case Next(q) => GraftSame(f.next, q);
  }

  /** The items of the tree around one of its nodes. */
  lemma {:induction false} Around(f: Forest, s: Spot)
    requires Has(f, s)
    ensures var g := At(f, s); Flatten(f) == Before(f, s) + FlatNode(g.name, g.props, g.kids) + After(f, s)
  {
    GraftSame(f, s);
    FlattenGraft(f, s, Alone(At(f, s)));
  }

  /** A node stays where it is when it is replaced by another. */
  lemma {:induction false} GraftStays(f: Forest, s: Spot, g: Forest)
    requires Has(f, s) && g.Node?
    ensures var h := Graft(f, s, g); Has(h, s) && Before(h, s) == Before(f, s)
    ensures g.next.Empty? ==> Alone(At(Graft(f, s, g), s)) == g && After(Graft(f, s, g), s) == After(f, s)
    decreases s
  {
    match s
    case Here => assert Append(g, f.next) == if g.next.Empty? then g.(next := f.next) else Append(g, f.next);
    case Down(q) => GraftStays(f.kids, q, g);
    case Next(q) => GraftStays(f.next, q, g);
  }

  // ----- The node at an item -----

  /** The node whose items start at index i. */
  function SpotAt(f: Forest, i: int): (s: Spot)
    requires 0 <= i < |Flatten(f)|
    decreases f
  {
    if i == 0 then Here
    else
      var n := |FlatNode(f.name, f.props, f.kids)|;
      if i >= n then Next(SpotAt(f.next, i - n))
      else if 0 <= i - 1 - |f.props| < |Flatten(f.kids)| then Down(SpotAt(f.kids, i - 1 - |f.props|))
      else Here
  }

  /** The nodes inside a node are its children and the nodes inside those. */
  lemma {:induction false} OpenInside(name: Bytes, props: seq<Property>, kids: Forest, i: int)
    requires 0 < i < |FlatNode(name, props, kids)| && FlatNode(name, props, kids)[i].Open?
    ensures var j := i - 1 - |props|; 0 <= j < |Flatten(kids)| && Flatten(kids)[j] == FlatNode(name, props, kids)[i]
  {
    var h := [Open(name)] + Attrs(props);
    assert forall k :: 1 <= k < |h| ==> h[k] == Attrs(props)[k - 1] && h[k].Attr?;
    assert FlatNode(name, props, kids) == h + (Flatten(kids) + [Close]);
  }

  lemma {:induction false} SpotAtIs(f: Forest, i: int)
    requires 0 <= i < |Flatten(f)| && Flatten(f)[i].Open?
    ensures Has(f, SpotAt(f, i)) && |Before(f, SpotAt(f, i))| == i
    decreases f
  {
    if i > 0 {
      var a := FlatNode(f.name, f.props, f.kids);
      var j := i - 1 - |f.props|;
      if i >= |a| {
        assert Flatten(f)[i] == Flatten(f.next)[i - |a|];
        SpotAtIs(f.next, i - |a|);
      } else {
        assert Flatten(f)[i] == a[i];
        OpenInside(f.name, f.props, f.kids, i);
        SpotAtIs(f.kids, j);
      }
    }
  }

  lemma {:induction false} SpotAtBefore(f: Forest, s: Spot)
    requires Has(f, s)
    ensures |Before(f, s)| < |Flatten(f)| && Flatten(f)[|Before(f, s)|] == Open(At(f, s).name)
    ensures SpotAt(f, |Before(f, s)|) == s
    decreases s
  {
    Around(f, s);
    match s
    case Here =>
    case Down(q) =>
      SpotAtBefore(f.kids, q);
    case Next(q) =>
      SpotAtBefore(f.next, q);
  }

  lemma {:induction false} BeforeIsPrefix(f: Forest, s: Spot)
    requires Has(f, s)
    ensures |Before(f, s)| <= |Flatten(f)| && Flatten(f)[..|Before(f, s)|] == Before(f, s)
  {
    Around(f, s);
  }

  // ----- Depth, parents and children -----

  function Depth(s: Spot): nat {
    match s case Here => 0 case Down(q) => 1 + Depth(q) case Next(q) => Depth(q)
  }

  lemma {:induction false} DepthIsNet(f: Forest, s: Spot)
    requires Has(f, s)
    ensures Net(Before(f, s)) == Depth(s)
    decreases s
  {
    match s
    case Here =>
    case Down(q) =>
      DepthIsNet(f.kids, q);
      var h := [Open(f.name)] + Attrs(f.props);
      NetJoin([Open(f.name)], Attrs(f.props));
      NetAttrs(Attrs(f.props));
      NetJoin(h, Before(f.kids, q));
    case Next(q) =>
      DepthIsNet(f.next, q);
      var a := FlatNode(f.name, f.props, f.kids);
      NodeDepth(f.name, f.props, f.kids, |a|);
      assert a[..|a|] == a;
      NetJoin(a, Before(f.next, q));
  }

  /** The spot t as seen from the node at s. */
  function Extend(s: Spot, t: Spot): Spot {
    match s case Here => t case Down(q) => Down(Extend(q, t)) case Next(q) => Next(Extend(q, t))
  }

  lemma {:induction false} BelowHas(f: Forest, s: Spot, q: Spot)
    requires Has(f, s)
    ensures Has(f, Extend(s, Down(q))) <==> Has(At(f, s).kids, q)
    ensures Has(At(f, s).kids, q) ==> At(f, Extend(s, Down(q))) == At(At(f, s).kids, q)
    decreases s
  {
    match s
    case Here =>
    case Down(p) => BelowHas(f.kids, p, q);
    case Next(p) => BelowHas(f.next, p, q);
  }

  lemma {:induction false} BelowBefore(f: Forest, s: Spot, q: Spot)
    requires Has(f, s) && Has(At(f, s).kids, q)
    ensures Has(f, Extend(s, Down(q)))
    ensures var g := At(f, s);
            Before(f, Extend(s, Down(q))) == Before(f, s) + ([Open(g.name)] + Attrs(g.props) + Before(g.kids, q))
    decreases s
  {
    BelowHas(f, s, q);
    match s
    case Here => assert Before(f, Down(q)) == [] + ([Open(f.name)] + Attrs(f.props) + Before(f.kids, q));
    case Down(p) => BelowBefore(f.kids, p, q);
    case Next(p) => BelowBefore(f.next, p, q);
  }

  lemma {:induction false} BelowDepth(s: Spot, q: Spot)
    ensures Depth(Extend(s, Down(q))) == Depth(s) + 1 + Depth(q)
  {
    match s
    case Here =>
    case Down(p) => BelowDepth(p, q);
    case Next(p) => BelowDepth(p, q);
  }

  /** The nodes below the node at s are the nodes of its list of children. */
  lemma {:induction false} Below(f: Forest, s: Spot, q: Spot)
    requires Has(f, s)
    ensures Has(f, Extend(s, Down(q))) <==> Has(At(f, s).kids, q)
    ensures Has(At(f, s).kids, q) ==>
              var g, t := At(f, s), Extend(s, Down(q));
              && At(f, t) == At(g.kids, q)
              && Before(f, t) == Before(f, s) + ([Open(g.name)] + Attrs(g.props) + Before(g.kids, q))
    ensures Depth(Extend(s, Down(q))) == Depth(s) + 1 + Depth(q)
  {
    BelowHas(f, s, q);
    BelowDepth(s, q);
    if Has(At(f, s).kids, q) {
      BelowBefore(f, s, q);
    }
  }

  function NodeSize(f: Forest, s: Spot): nat
    requires Has(f, s)
  {
    var g := At(f, s); |FlatNode(g.name, g.props, g.kids)|
  }

  lemma {:induction false} SpotFits(f: Forest, s: Spot)
    requires Has(f, s)
    ensures |Before(f, s)| + NodeSize(f, s) <= |Flatten(f)|
  {
    Around(f, s);
  }

  /** A node whose items start among those of the node at s is below that node. */
  lemma {:induction false} InsideSpot(f: Forest, s: Spot, t: Spot) returns (q: Spot)
    requires Has(f, s) && Has(f, t) && 0 < |Before(f, t)| - |Before(f, s)| < NodeSize(f, s)
    ensures Has(At(f, s).kids, q) && t == Extend(s, Down(q))
    decreases s
  {
    if t.Down? {
      SpotFits(f.kids, t.below);
    }
    match s {
      case Here =>
        q := t.below;
      case Down(p) =>
        SpotFits(f.kids, p);
        q := InsideSpot(f.kids, p, t.below);
      case Next(p) =>
        q := InsideSpot(f.next, p, t.after);
    }
  }

  datatype Option<T> = None | Some(value: T)

  const AT_SIGN: int := 64

  /** _fdt_nodename_eq: the name itself, or the part of it before the first '@'. */
  predicate Matches(nodeName: Bytes, s: Bytes) {
    && |s| <= |nodeName| && nodeName[..|s|] == s
    && (|s| == |nodeName| || (AT_SIGN !in s && nodeName[|s|] == AT_SIGN))
  }

  /** The first of the sibling nodes whose name matches. */
  function FirstKid(f: Forest, name: Bytes): (r: Option<Spot>)
    ensures r.Some? ==> Has(f, r.value) && Depth(r.value) == 0 && Matches(At(f, r.value).name, name)
  {
    match f
    case Empty => None
    case Node(n, _, _, next) =>
      if Matches(n, name) then Some(Here)
      else match FirstKid(next, name) case None => None case Some(q) => Some(Next(q))
  }

  lemma {:induction false} FirstKidIs(f: Forest, name: Bytes, q: Spot)
    requires Has(f, q) && Depth(q) == 0 && Matches(At(f, q).name, name)
    ensures FirstKid(f, name).Some? && |Before(f, FirstKid(f, name).value)| <= |Before(f, q)|
    decreases q
  {
    if q.Next? {
      FirstKidIs(f.next, name, q.after);
    }
  }

  /** The first of the properties with the name, or the number of properties. */
  function FindProp(ps: seq<Property>, name: Bytes): (i: nat)
    ensures i <= |ps| && (i < |ps| ==> ps[i].name == name)
    ensures forall j :: 0 <= j < i ==> ps[j].name != name
  {
    if |ps| == 0 || ps[0].name == name then 0 else 1 + FindProp(ps[1..], name)
  }

  lemma {:induction false} FirstProp(ps: seq<Property>, name: Bytes, c: int)
    requires 0 <= c <= |ps| && (c < |ps| ==> ps[c].name == name)
    requires forall i :: 0 <= i < c ==> ps[i].name != name
    ensures FindProp(ps, name) == c
  {
    var i := FindProp(ps, name);
    assert i < |ps| ==> ps[i].name == name;
  }

  // ----- Edits of a node -----

  /** The items with those from i to j replaced. */
  function Cut(t: seq<Item>, i: int, j: int, q: seq<Item>): seq<Item>
    requires 0 <= i <= j <= |t|
  {
    t[..i] + q + t[j..]
  }

  /** The node with properties c to d replaced. */
  function WithProps(g: Forest, c: int, d: int, qs: seq<Property>): (h: Forest)
    requires g.Node? && 0 <= c <= d <= |g.props|
    ensures h.Node? && h.next.Empty?
  {
    Node(g.name, g.props[..c] + qs + g.props[d..], g.kids, Empty)
  }

  /** The node without the first property of the name. */
  function WithoutProp(g: Forest, name: Bytes): Forest
    requires g.Node?
  {
    var c := FindProp(g.props, name);
    if c < |g.props| then WithProps(g, c, c + 1, []) else WithProps(g, 0, 0, [])
  }

  /** The node with the property set: in its place if it is there, else first. */
  function WithProp(g: Forest, name: Bytes, value: Bytes): Forest
    requires g.Node?
  {
    var c := FindProp(g.props, name);
    if c < |g.props| then WithProps(g, c, c + 1, [Property(name, value)])
    else WithProps(g, 0, 0, [Property(name, value)])
  }

  function Lookup(ps: seq<Property>, name: Bytes): Option<Bytes> {
    var c := FindProp(ps, name);
    if c < |ps| then Some(ps[c].value) else None
  }

  /** The value of the property, if any, with more bytes behind it. */
  function Longer(ps: seq<Property>, name: Bytes, more: Bytes): Bytes {
    match Lookup(ps, name) case None => more case Some(v) => v + more
  }

  lemma {:induction false} LookupIs(ps: seq<Property>, name: Bytes, c: int)
    requires 0 <= c < |ps| && ps[c].name == name && forall i :: 0 <= i < c ==> ps[i].name != name
    ensures Lookup(ps, name) == Some(ps[c].value)
  {
    FirstProp(ps, name, c);
  }

  lemma {:induction false} LookupNone(ps: seq<Property>, name: Bytes)
    requires forall i :: 0 <= i < |ps| ==> ps[i].name != name
    ensures Lookup(ps, name) == None
  {
    FirstProp(ps, name, |ps|);
  }

  /** Replacing one property, or adding or removing one, concerns no other name. */
  lemma {:induction false} LookupOther(ps: seq<Property>, c: int, d: int, qs: seq<Property>, name: Bytes, other: Bytes)
    requires 0 <= c <= d <= |ps| && name != other
    requires (forall i :: c <= i < d ==> ps[i].name == name) && (forall i :: 0 <= i < |qs| ==> qs[i].name == name)
    ensures Lookup(ps[..c] + qs + ps[d..], other) == Lookup(ps, other)
  {
    var rs := ps[..c] + qs + ps[d..];
    var k := FindProp(ps, other);
    var e := |qs| - (d - c);
    if k == |ps| {
      forall i | 0 <= i < |rs| ensures rs[i].name != other {
        assert rs[i] == if i < c then ps[i] else if i < c + |qs| then qs[i - c] else ps[i - e];
      }
      LookupNone(rs, other);
    } else {
      var k' := if k < c then k else k + e;
      assert rs[k'] == ps[k];
      forall i | 0 <= i < k' ensures rs[i].name != other {
        assert rs[i] == if i < c then ps[i] else if i < c + |qs| then qs[i - c] else ps[i - e];
      }
      LookupIs(rs, other, k');
    }
  }

  /** Setting a property sets that property, and changes neither another property nor the children. */
  lemma {:induction false} WithPropLaws(g: Forest, name: Bytes, value: Bytes, other: Bytes)
    requires g.Node?
    ensures var h := WithProp(g, name, value);
            && h.name == g.name && h.kids == g.kids && Lookup(h.props, name) == Some(value)
            && (other != name ==> Lookup(h.props, other) == Lookup(g.props, other))
  {
    var c := FindProp(g.props, name);
    var d := if c < |g.props| then c + 1 else 0;
    var at := if c < |g.props| then c else 0;
    LookupIs(WithProp(g, name, value).props, name, at);
    if other != name {
      LookupOther(g.props, at, d, [Property(name, value)], name, other);
    }
  }

  /** Deleting a property leaves the others and the children. */
  lemma {:induction false} WithoutPropLaws(g: Forest, name: Bytes, other: Bytes)
    requires g.Node?
    ensures var h := WithoutProp(g, name);
            && h.name == g.name && h.kids == g.kids
            && (other != name ==> Lookup(h.props, other) == Lookup(g.props, other))
            && |h.props| == |g.props| - (if Lookup(g.props, name).Some? then 1 else 0)
  {
    var c := FindProp(g.props, name);
    if other != name && c < |g.props| {
      LookupOther(g.props, c, c + 1, [], name, other);
    } else if other != name {
      LookupOther(g.props, 0, 0, [], name, other);
    }
  }

  /** The items of a node, its properties apart. */
  lemma {:induction false} FlatSplit(name: Bytes, props: seq<Property>, kids: Forest)
    ensures FlatNode(name, props, kids) == [Open(name)] + Attrs(props) + (Flatten(kids) + [Close])
  {
  }

  lemma {:induction false} GraftAlone(f: Forest, s: Spot, h: Forest)
    requires Has(f, s) && h.Node? && h.next.Empty?
    ensures Flatten(Graft(f, s, h)) == Before(f, s) + FlatNode(h.name, h.props, h.kids) + After(f, s)
  {
    FlattenGraft(f, s, h);
    assert Flatten(h) == FlatNode(h.name, h.props, h.kids) + Flatten(h.next);
  }

  lemma {:induction false} AttrsReplaced(ps: seq<Property>, c: int, d: int, qs: seq<Property>)
    requires 0 <= c <= d <= |ps|
    ensures Attrs(ps[..c] + qs + ps[d..]) == Attrs(ps)[..c] + Attrs(qs) + Attrs(ps)[d..]
  {
  }

  /** Replacing properties replaces their items. */
  lemma {:induction false} EditProps(f: Forest, s: Spot, c: int, d: int, qs: seq<Property>, i: int, j: int)
    requires Has(f, s) && 0 <= c <= d <= |At(f, s).props|
    requires i == |Before(f, s)| + 1 + c && j == |Before(f, s)| + 1 + d
    ensures j <= |Flatten(f)| && Cut(Flatten(f), i, j, Attrs(qs)) == Flatten(Graft(f, s, WithProps(At(f, s), c, d, qs)))
  {
    var g := At(f, s);
    var h := WithProps(g, c, d, qs);
    Around(f, s);
    GraftAlone(f, s, h);
    FlatSplit(g.name, g.props, g.kids);
    FlatSplit(h.name, h.props, h.kids);
    AttrsReplaced(g.props, c, d, qs);
    EditRun(Flatten(f), Flatten(Graft(f, s, h)), Before(f, s), [Open(g.name)], Attrs(g.props), Attrs(h.props),
            Flatten(g.kids) + [Close], After(f, s), c, d, Attrs(qs), i, j);
  }

  lemma {:induction false} EditRun(t: seq<Item>, t': seq<Item>, x: seq<Item>, o: seq<Item>, a: seq<Item>,
                                   a': seq<Item>, k: seq<Item>,
                                   y: seq<Item>, c: int, d: int, q: seq<Item>, i: int, j: int)
    requires 0 <= c <= d <= |a| && |o| == 1 && a' == a[..c] + q + a[d..] && i == |x| + 1 + c && j == |x| + 1 + d
    requires t == x + (o + a + k) + y && t' == x + (o + a' + k) + y
    ensures Cut(t, i, j, q) == t'
  {
    assert t[..i] == x + o + a[..c];
    assert t[j..] == a[d..] + k + y;
  }

  /** The node with a new first child. */
  function WithKid(g: Forest, name: Bytes): (h: Forest)
    requires g.Node?
    ensures h.Node? && h.next.Empty?
  {
    Node(g.name, g.props, Node(name, [], Empty, g.kids), Empty)
  }

  lemma {:induction false} EditKids(f: Forest, s: Spot, name: Bytes, i: int)
    requires Has(f, s) && i == |Before(f, s)| + 1 + |At(f, s).props|
    ensures i <= |Flatten(f)| && Cut(Flatten(f), i, i, [Open(name), Close]) == Flatten(Graft(f, s, WithKid(At(f, s),
            name)))
  {
    var g := At(f, s);
    var h, n := WithKid(g, name), |g.props|;
    Around(f, s);
    GraftAlone(f, s, h);
    FlatSplit(g.name, g.props, g.kids);
    FlatSplit(h.name, h.props, h.kids);
    FirstKidItems(g, name);
    var q, k := [Open(name), Close], Flatten(g.kids) + [Close];
    assert Flatten(h.kids) + [Close] == q + k;
    assert |[Open(g.name)] + Attrs(g.props)| == 1 + |g.props|;
    InsertRun(Flatten(f), Flatten(Graft(f, s, h)), Before(f, s), [Open(g.name)] + Attrs(g.props), q, k, After(f, s), i);
  }

  lemma {:induction false} FirstKidItems(g: Forest, name: Bytes)
    requires g.Node?
    ensures Flatten(WithKid(g, name).kids) == [Open(name), Close] + Flatten(g.kids)
  {
    assert FlatNode(name, [], Empty) == [Open(name), Close];
  }

  lemma {:induction false} InsertRun(t: seq<Item>, t': seq<Item>, x: seq<Item>, h: seq<Item>, q: seq<Item>,
                                     k: seq<Item>, y: seq<Item>, i: int)
    requires t == x + (h + k) + y && t' == x + (h + (q + k)) + y && i == |x| + |h|
    ensures Cut(t, i, i, q) == t'
  {
    assert t[..i] == x + h && t[i..] == k + y;
  }

  /** Removing a node removes its items. */
  lemma {:induction false} EditNode(f: Forest, s: Spot, i: int, j: int)
    requires Has(f, s) && i == |Before(f, s)| && j == i + NodeSize(f, s)
    ensures j <= |Flatten(f)| && Cut(Flatten(f), i, j, []) == Flatten(Graft(f, s, Empty))
  {
    Around(f, s);
    FlattenGraft(f, s, Empty);
    var g := At(f, s);
    RemoveRun(Flatten(f), Before(f, s), FlatNode(g.name, g.props, g.kids), After(f, s), i, j);
    assert Before(f, s) + [] == Before(f, s);
  }

  lemma {:induction false} RemoveRun(t: seq<Item>, x: seq<Item>, n: seq<Item>, y: seq<Item>, i: int, j: int)
    requires t == x + n + y && i == |x| && j == |x| + |n|
    ensures Cut(t, i, j, []) == x + y
  {
    assert t[..i] == x && t[j..] == y;
  }
}
