/** Merging one tree into another, as an overlay is merged into its base. */
module FdtMerge {
  import opened FdtFormat
  import opened FdtTree

  // ----- Siblings by number -----

  /** The sibling numbered n. */
  function Nth(n: nat): Spot {
    if n == 0 then Here else Next(Nth(n - 1))
  }

  /** The siblings from number n on. */
  function Drop(f: Forest, n: nat): Forest {
    if n == 0 || f.Empty? then f else Drop(f.next, n - 1)
  }

  function Nodes(f: Forest): nat {
    match f case Empty => 0 case Node(_, _, kids, next) => 1 + Nodes(kids) + Nodes(next)
  }

  lemma {:induction false} NthIs(f: Forest, n: nat)
    ensures Has(f, Nth(n)) <==> Drop(f, n).Node?
    ensures Has(f, Nth(n)) ==> At(f, Nth(n)) == Drop(f, n) && Drop(f, n + 1) == Drop(f, n).next
    ensures Depth(Nth(n)) == 0 && Nodes(Drop(f, n)) <= Nodes(f)
    decreases n
  {
    if n > 0 && f.Node? {
      NthIs(f.next, n - 1);
    } else if n > 0 {
      NthIs(f, n - 1);
    }
  }

  lemma {:induction false} NumberOf(f: Forest, q: Spot) returns (n: nat)
    requires Has(f, q) && Depth(q) == 0
    ensures q == Nth(n)
    decreases q
  {
    match q {
      case Here =>
        n := 0;
      case Next(p) =>
        n := NumberOf(f.next, p);
        n := n + 1;
    }
  }

  /** Earlier siblings come first. */
  lemma {:induction false} NthOrder(f: Forest, n: nat, k: nat)
    requires Has(f, Nth(k)) && n < k
    ensures Has(f, Nth(n)) && |Before(f, Nth(n))| < |Before(f, Nth(k))|
    decreases n
  {
    if n > 0 {
      NthOrder(f.next, n - 1, k - 1);
    }
  }

  // ----- Merging -----

  /** The node with the properties set one after the other. */
  function SetAll(g: Forest, ps: seq<Property>): (h: Forest)
    requires g.Node? && g.next.Empty?
    ensures h.Node? && h.next.Empty? && h.name == g.name && h.kids == g.kids
    decreases |ps|
  {
    if |ps| == 0 then g else SetAll(WithProp(g, ps[0].name, ps[0].value), ps[1..])
  }

  /** The node with an empty child of that name, unless one is found, */
  function WithKidNamed(g: Forest, name: Bytes): (h: Forest)
    requires g.Node? && g.next.Empty?
    ensures h.Node? && h.next.Empty? && h.name == g.name && h.props == g.props
  {
    if FirstKid(g.kids, name).Some? then g else WithKid(g, name)
  }

  /** and where that child is. */
  function KidNamed(g: Forest, name: Bytes): (q: Spot)
    requires g.Node? && g.next.Empty?
    ensures Has(WithKidNamed(g, name).kids, q)
  {
    match FirstKid(g.kids, name) case Some(q) => q case None => Here
  }

  /** overlay_apply_node: properties are set, and children are merged into those of their name. */
  function Merge(g: Forest, props: seq<Property>, kids: Forest): (h: Forest)
    requires g.Node?
    ensures h.Node? && h.next.Empty? && h.name == g.name
    decreases kids, 1
  {
    MergeKids(SetAll(Alone(g), props), kids)
  }

  function MergeKids(g: Forest, ks: Forest): (h: Forest)
    requires g.Node? && g.next.Empty?
    ensures h.Node? && h.next.Empty? && h.name == g.name && h.props == g.props
    decreases ks, 0
  {
    match ks case Empty => g case Node(name, props, kids, next) => MergeKids(MergeKid(g, name, props, kids), next)
  }

  function MergeKid(g: Forest, name: Bytes, props: seq<Property>, kids: Forest): (h: Forest)
    requires g.Node? && g.next.Empty?
    ensures h.Node? && h.next.Empty? && h.name == g.name && h.props == g.props
    decreases kids, 2
  {
    var y, q := WithKidNamed(g, name), KidNamed(g, name);
    y.(kids := Graft(y.kids, q, Merge(At(y.kids, q), props, kids)))
  }

  // ----- Grafts that follow one another -----

  lemma {:induction false} GraftTwice(f: Forest, s: Spot, x: Forest, y: Forest)
    requires Has(f, s) && x.Node? && x.next.Empty?
    ensures var h := Graft(f, s, x); Has(h, s) && Alone(At(h, s)) == x && Graft(h, s, y) == Graft(f, s, y)
    decreases s
  {
    match s
    case Here => assert Append(x, f.next) == x.(next := f.next);
    case Down(q) => GraftTwice(f.kids, q, x, y);
    case Next(q) => GraftTwice(f.next, q, x, y);
  }

  /** A change below a node is a change of that node. */
  lemma {:induction false} GraftBelow(f: Forest, s: Spot, q: Spot, x: Forest)
    requires Has(f, s) && Has(At(f, s).kids, q)
    ensures Has(f, Extend(s, Down(q)))
    ensures var g := At(f, s);
            Graft(f, Extend(s, Down(q)), x) == Graft(f, s, g.(kids := Graft(g.kids, q, x), next := Empty))
    decreases s
  {
    BelowHas(f, s, q);
    match s
    case Here =>
      var g := f.(kids := Graft(f.kids, q, x), next := Empty);
      assert Append(g, f.next) == g.(next := f.next);
    case Down(p) => GraftBelow(f.kids, p, q, x);
    case Next(p) => GraftBelow(f.next, p, q, x);
  }
}
