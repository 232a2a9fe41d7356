/** Ancestors of a node and its path (fdt_ro.c). */
module FdtPaths {
  import opened FdtFormat
  import opened FdtTree
  import opened FdtTokens
  import opened FdtEdits
  import opened FdtMerge
  import opened FdtBlob
  import opened FdtWalk

  // ----- Ancestors -----

  /** The ancestor of the node at s at the given depth; a node is its own ancestor. */
  function Ancestor(s: Spot, d: int): Spot {
    match s
    case Here => Here
    case Next(q) => Next(Ancestor(q, d))
    case Down(q) => if d <= 0 then Here else Down(Ancestor(q, d - 1))
  }

  lemma {:induction false} AncestorIs(f: Forest, s: Spot, d: int)
    requires Has(f, s) && 0 <= d <= Depth(s)
    ensures var a := Ancestor(s, d);
            && Has(f, a) && Depth(a) == d
            && |Before(f, a)| <= |Before(f, s)| < |Before(f, a)| + NodeSize(f, a)
    decreases s
  {
    match s
    case Here =>
    case Next(q) => AncestorIs(f.next, q, d);
    case Down(q) =>
      SpotFits(f.kids, q);
      if d > 0 {
        AncestorIs(f.kids, q, d - 1);
      }
  }

  /** The token of an ancestor comes first, and its end comes after. */
  lemma {:induction false} AncestorSpans(ts: seq<Token>, table: Bytes, f: Forest, s: Spot, d: int)
    requires Items(ts, table) == Flatten(f) && Has(f, s) && 0 <= d <= Depth(s)
    ensures var a := Ancestor(s, d);
            && Has(f, a) && Spanned(ts, NodePlace(ts, f, a), NodeEnd(ts, f, a), d)
            && 0 <= NodePlace(ts, f, a) <= NodePlace(ts, f, s) < NodeEnd(ts, f, a)
  {
    var a := Ancestor(s, d);
    AncestorIs(f, s, d);
    NodeSpans(ts, table, f, a);
    NodePlaceIs(ts, table, f, a);
    NodePlaceIs(ts, table, f, s);
    NodeEndIs(ts, table, f, a);
    var k, p, e := NodePlace(ts, f, s), NodePlace(ts, f, a), NodeEnd(ts, f, a);
    CountStep(ts, k);
    if k < p {
      CountMono(ts, k + 1, p);
    }
    if e <= k {
      CountMono(ts, e, k);
    }
  }

  /** The blob has one root, at the start of the structure block. */
  ghost predicate Rooted(b: Blob)
    reads b, b.buf
  {
    b.Valid() && b.IsNode(0) && b.forest.Node? && b.forest.next.Empty?
  }

  lemma {:induction false} AllInRoot(b: Blob, k: int)
    requires Rooted(b) && b.IsNode(k)
    ensures b.Spot(0) == Here && Has(b.forest, Here) && k < b.EndOf(0) && Level(b.toks, 0) == 0
  {
    b.Opened();
    b.NodeHere(0);
    b.NodeHere(k);
    assert |b.toks[..0]| == 0;
    var e := b.EndOf(0);
    NodeEndIs(b.toks, b.Strings(), b.forest, Here);
    NodePlaceIs(b.toks, b.Strings(), b.forest, b.Spot(k));
    SpotAtBefore(b.forest, b.Spot(k));
    assert Flatten(b.forest) == FlatNode(b.forest.name, b.forest.props, b.forest.kids) + Flatten(b.forest.next);
    if e <= k {
      CountMono(b.toks, e, k);
    }
  }

  /** Token p is the last one up to token i that opens a node at level d; there is none if p is negative. */
  ghost predicate LastAt(ts: seq<Token>, i: int, d: int, p: int)
    requires i < |ts|
  {
    && p <= i && (0 <= p ==> ts[p].BeginNode? && Level(ts, p) == d)
    && forall t {:trigger Level(ts, t)} :: 0 <= t <= i && p < t && ts[t].BeginNode? ==> Level(ts, t) != d
  }

  lemma {:induction false} LastHere(ts: seq<Token>, i: int, d: int, p: int)
    requires 0 <= i < |ts| && LastAt(ts, i - 1, d, p) && ts[i].BeginNode?
    ensures LastAt(ts, i, d, if Level(ts, i) == d then i else p)
  {
  }

  lemma {:induction false} LastOn(ts: seq<Token>, i: int, j: int, d: int, p: int)
    requires 0 <= i < j <= |ts| && LastAt(ts, i, d, p)
    requires forall t {:trigger ts[t]} :: i < t < j ==> !ts[t].BeginNode?
    ensures LastAt(ts, j - 1, d, p)
  {
  }

  /** The last node at level d, up to a node, is the ancestor of that node at that depth. */
  lemma {:induction false} LastIsAncestor(ts: seq<Token>, table: Bytes, f: Forest, s: Spot, d: int, p: int)
    requires Items(ts, table) == Flatten(f) && Has(f, s) && 0 <= d <= Depth(s)
    requires 0 <= NodePlace(ts, f, s) < |ts| && LastAt(ts, NodePlace(ts, f, s), d, p)
    ensures Has(f, Ancestor(s, d)) && p == NodePlace(ts, f, Ancestor(s, d)) && 0 <= p
  {
    AncestorSpans(ts, table, f, s, d);
    var a := NodePlace(ts, f, Ancestor(s, d));
    NodePlaceIs(ts, table, f, Ancestor(s, d));
    assert Level(ts, a) == d;
  }

  /** A node is the parent of its children. */
  lemma {:induction false} ParentOfKid(s: Spot, q: Spot)
    requires Depth(q) == 0
    ensures Ancestor(Extend(s, Down(q)), Depth(s)) == s && Depth(Extend(s, Down(q))) == Depth(s) + 1
  {
    var kid := Down(q);
    match s
    case Here => KidOfHere(q);
    case Next(p) =>
      ParentOfKid(p, q);
      assert Extend(s, kid) == Next(Extend(p, kid));
    case Down(p) =>
      ParentOfKid(p, q);
      assert Extend(s, kid) == Down(Extend(p, kid));
  }

  lemma {:induction false} KidOfHere(q: Spot)
    requires Depth(q) == 0
    ensures Ancestor(Down(q), 0) == Here
  {
  }

  lemma {:induction false} SameOffset(ts: seq<Token>, i: int, k: int)
    requires 0 <= i < |ts| && 0 <= k < |ts| && Offset(ts, i) == Offset(ts, k)
    ensures i == k
  {
    if i < k {
      OffsetMono(ts, i, k);
    } else if k < i {
      OffsetMono(ts, k, i);
    }
  }

  /** A walk over the nodes of the tree is at node i. */
  ghost predicate Visits(b: Blob, i: int, offset: int, depth: int)
    requires Rooted(b)
    reads b, b.buf
  {
    && b.Spot(0) == Here && 0 <= i < b.EndOf(0) && b.IsNode(i)
    && offset == Offset(b.toks, i) && depth == Level(b.toks, i) && Level(b.toks, 0) == 0
  }

  lemma {:induction false} VisitEqual(b: Blob, i: int, offset: int, depth: int, o: int, k: int)
    requires Rooted(b) && Has(b.forest, b.Spot(0)) && Visits(b, i, offset, depth) && b.Points(o, k)
    ensures offset == o <==> i == k
    ensures b.IsNode(k) && offset > o ==> i > k
  {
    b.Opened();
    b.PointsAt(i);
    b.Spans(i);
    if 0 <= k {
      if offset == o {
        SameOffset(b.toks, i, k);
      } else if i < k {
        OffsetMono(b.toks, i, k);
      }
    }
  }

  /** The walk goes on from node i. */
  method Step(b: Blob, offset: int, depth: int, ghost i: int) returns (r: int, d: int, ghost j: int)
    requires Rooted(b) && 0 <= offset && Has(b.forest, b.Spot(0))
    requires Visits(b, i, offset, depth) || (b.Points(offset, i) && !b.IsNode(i))
    ensures if b.IsNode(i) then
              && i < j < |b.toks| && (forall t {:trigger b.toks[t]} :: i < t < j ==> !b.toks[t].BeginNode?)
              && (if d >= 0 then Visits(b, j, r, d) else j == b.EndOf(0) && b.Points(r, j) && 0 <= r && !b.IsNode(j))
            else r == -BADOFFSET && j == i
  {
    if b.IsNode(i) {
      AllInRoot(b, i);
    }
    ghost var k := if b.IsNode(i) then 0 else i;
    r, d, j := b.Advance(offset, depth, k, i);
    if b.IsNode(i) && d < 0 {
      AfterRoot(b, j);
    }
  }

  lemma {:induction false} AfterRoot(b: Blob, j: int)
    requires Rooted(b) && Has(b.forest, b.Spot(0)) && j == b.EndOf(0)
    ensures 0 <= j < |b.toks| && b.Points(Offset(b.toks, j), j) && !b.IsNode(j)
  {
    b.NodeHere(0);
    b.Opened();
    b.PointsAt(j);
    if b.IsNode(j) {
      AllInRoot(b, j);
    }
  }

  /** The walk on its way to offset o: at node i, or, if there is no node at o, perhaps past the root or lost. */
  ghost predicate Walking(b: Blob, k: int, i: int, offset: int, depth: int)
    requires Rooted(b)
    reads b, b.buf
  {
    && (if offset < 0 then offset == -BADOFFSET
        else if b.IsNode(i) then Visits(b, i, offset, depth)
        else depth < 0 && b.Points(offset, i) && i == NodeEnd(b.toks, b.forest, Here))
    && (b.IsNode(k) ==> 0 <= offset && b.IsNode(i) && i <= k)
  }

  /** The offset behind the root node. */
  ghost function RootEnd(b: Blob): int
    requires Rooted(b)
    reads b, b.buf
  {
    var j := NodeEnd(b.toks, b.forest, Here);
    if 0 <= j < |b.toks| then Offset(b.toks, j) else 0
  }

  /** The error for an offset that is no node's. */
  ghost function Lost(b: Blob, o: int): int
    requires Rooted(b)
    reads b, b.buf
  {
    if o < RootEnd(b) then -BADOFFSET else if o == RootEnd(b) then -NOTFOUND else -BADSTRUCTURE
  }

  lemma {:induction false} InsideRoot(b: Blob, i: int, offset: int, depth: int)
    requires Rooted(b) && Visits(b, i, offset, depth)
    ensures offset < RootEnd(b)
  {
    AllInRoot(b, i);
    b.NodeSpan(0);
    OffsetMono(b.toks, i, b.EndOf(0));
  }

  lemma {:induction false} RootVisit(b: Blob, k: int)
    requires Rooted(b)
    ensures Walking(b, k, 0, 0, 0) && Visits(b, 0, 0, 0)
  {
    AllInRoot(b, 0);
    OffsetZero(b.toks);
  }

  /** One more step of the walk, which has not come to offset o. */
  method WalkOn(b: Blob, offset: int, depth: int, o: int, ghost k: int, ghost i: int) returns (r: int, d: int,
                ghost j: int)
    requires Rooted(b) && Walking(b, k, i, offset, depth) && 0 <= offset != o && b.Points(o, k)
    ensures Walking(b, k, j, r, d)
    ensures if b.IsNode(i)
            then 0 <= r && i < j < |b.toks| && (forall t {:trigger b.toks[t]} :: i < t < j ==> !b.toks[t].BeginNode?)
            else r == -BADOFFSET && j == i
  {
    AllInRoot(b, 0);
    if b.IsNode(i) {
      VisitEqual(b, i, offset, depth, o, k);
      if b.IsNode(k) {
        AllInRoot(b, k);
      }
    }
    r, d, j := Step(b, offset, depth, i);
  }

  /** The walk has come to offset o. */
  lemma {:induction false} Arrived(b: Blob, i: int, offset: int, depth: int, d: int, o: int, k: int, p: int)
    requires Rooted(b) && Visits(b, i, offset, depth) && offset == o && b.Points(o, k) && LastAt(b.toks, i, d, p)
    ensures i == k && Has(b.forest, b.Spot(k)) && depth == Depth(b.Spot(k))
    ensures 0 <= d <= depth ==>
              var a := Ancestor(b.Spot(k), d);
              Has(b.forest, a) && 0 <= p < |b.toks| && Offset(b.toks, p) == b.NodeOffset(a)
  {
    b.NodeHere(0);
    VisitEqual(b, i, offset, depth, o, k);
    b.NodeHere(k);
    b.Opened();
    if 0 <= d <= depth {
      LastIsAncestor(b.toks, b.Strings(), b.forest, b.Spot(k), d, p);
    }
  }

  /** fdt_supernode_atdepth_offset */
  method SupernodeAtDepth(b: Blob, o: int, superDepth: int, ghost k: int) returns (r: int, nodeDepth: int)
    requires Rooted(b) && b.Points(o, k)
    ensures superDepth < 0 ==> r == -NOTFOUND
    ensures 0 <= superDepth && !b.IsNode(k) ==> r == Lost(b, o)
    ensures 0 <= superDepth && b.IsNode(k) ==>
              && Has(b.forest, b.Spot(k)) && nodeDepth == Depth(b.Spot(k))
              && (if superDepth > nodeDepth then r == -NOTFOUND
                  else Has(b.forest, Ancestor(b.Spot(k), superDepth)) && 0 <= r == b.NodeOffset(Ancestor(b.Spot(k),
                    superDepth)))
  {
    nodeDepth := 0;
    if superDepth < 0 {
      return -NOTFOUND, 0;
    }
    var offset, depth, super := 0, 0, -INTERNAL;
    ghost var i, p := 0, -1;
    RootVisit(b, k);
    while 0 <= offset <= o
      invariant Walking(b, k, i, offset, depth) && (0 <= offset ==> 0 <= i < |b.toks|)
      invariant 0 <= offset && b.IsNode(i) ==> LastAt(b.toks, i - 1, superDepth, p)
      invariant p < |b.toks| && (0 <= p ==> super == Offset(b.toks, p))
      invariant offset < 0 ==> RootEnd(b) < o
      decreases |b.toks| - i, offset + BADOFFSET
    {
      if b.IsNode(i) {
        LastHere(b.toks, i, superDepth, p);
      }
      if depth == superDepth {
        super := offset;
        p := i;
      }
      if offset == o {
        nodeDepth := depth;
        if b.IsNode(i) {
          Arrived(b, i, offset, depth, superDepth, o, k, p);
        }
        if superDepth > depth {
          return -NOTFOUND, nodeDepth;
        }
        return super, nodeDepth;
      }
      ghost var j := i;
      offset, depth, i := WalkOn(b, offset, depth, o, k, i);
      if b.IsNode(j) {
        LastOn(b.toks, j, i, superDepth, p);
      }
    }
    if 0 <= offset && b.IsNode(i) {
      b.NodeHere(0);
      VisitEqual(b, i, offset, depth, o, k);
      InsideRoot(b, i, offset, depth);
    }
    if offset == -NOTFOUND || offset >= 0 {
      return -BADOFFSET, 0;
    } else if offset == -BADOFFSET {
      return -BADSTRUCTURE, 0;
    }
    r := offset;
  }

  /** fdt_node_depth */
  method NodeDepth(b: Blob, o: int, ghost k: int) returns (r: int)
    requires Rooted(b) && b.Points(o, k)
    ensures if b.IsNode(k) then Has(b.forest, b.Spot(k)) && r == Depth(b.Spot(k)) else r == Lost(b, o)
  {
    var err, depth := SupernodeAtDepth(b, o, 0, k);
    if b.IsNode(k) {
      RootAncestor(b, k);
    }
    if err != 0 {
      return if err < 0 then err else -INTERNAL;
    }
    r := depth;
  }

  lemma {:induction false} RootAncestor(b: Blob, k: int)
    requires Rooted(b) && b.IsNode(k) && Has(b.forest, b.Spot(k))
    ensures Ancestor(b.Spot(k), 0) == Here && Has(b.forest, Here) && b.NodeOffset(Here) == 0
  {
    RootVisit(b, k);
    b.NodeHere(0);
  }

  /** fdt_parent_offset */
  method ParentOffset(b: Blob, o: int, ghost k: int) returns (r: int)
    requires Rooted(b) && b.Points(o, k)
    ensures if !b.IsNode(k) then r == Lost(b, o)
            else Has(b.forest, b.Spot(k)) &&
                 var d := Depth(b.Spot(k));
                 if d == 0 then r == -NOTFOUND
                 else Has(b.forest, Ancestor(b.Spot(k), d - 1)) && 0 <= r == b.NodeOffset(Ancestor(b.Spot(k), d - 1))
  {
    var depth := NodeDepth(b, o, k);
    if depth < 0 {
      return depth;
    }
    r, depth := SupernodeAtDepth(b, o, depth - 1, k);
  }

  // ----- From a path to a node -----

  const SLASH: int := 47

  /** The next slash at or after index p, or the end. */
  function NextSlash(path: Bytes, p: int): (q: int)
    requires 0 <= p <= |path|
    ensures p <= q <= |path| && (q < |path| ==> path[q] == SLASH) && forall i :: p <= i < q ==> path[i] != SLASH
    decreases |path| - p
  {
    if p == |path| || path[p] == SLASH then p else NextSlash(path, p + 1)
  }

  /** The names between slashes. */
  function Components(path: Bytes, p: int): (ns: seq<Bytes>)
    requires 0 <= p <= |path|
    decreases |path| - p
  {
    if p == |path| then []
    else if path[p] == SLASH then Components(path, p + 1)
    else var q := NextSlash(path, p); [path[p..q]] + Components(path, q)
  }

  /** The node reached from the node at s by a path of names. */
  function Resolve(f: Forest, s: Spot, ns: seq<Bytes>): (r: Option<Spot>)
    requires Has(f, s)
    ensures r.Some? ==> Has(f, r.value)
    decreases |ns|
  {
    if |ns| == 0 then Some(s)
    else
      match FirstKid(At(f, s).kids, ns[0])
      case None => None
      case Some(q) => BelowHas(f, s, q); Resolve(f, Extend(s, Down(q)), ns[1..])
  }

  /** fdt_path_offset_namelen for a path that starts with a slash */
  method PathOffset(b: Blob, path: Bytes) returns (r: int)
    requires Rooted(b) && 0 !in path && 0 < |path| < HALF - 1 && path[0] == SLASH
    ensures match Resolve(b.forest, Here, Components(path, 0))
            case None => r == -NOTFOUND
            case Some(t) => 0 <= r == b.NodeOffset(t)
  {
    var end, p := |path|, 0;
    r := 0;
    ghost var i, s := 0, Here;
    RootVisit(b, 0);
    b.NodeHere(0);
    while p < end
      invariant 0 <= p <= end && b.Remains(r, i, s) && Has(b.forest, s) && 0 <= r == b.NodeOffset(s)
      invariant Resolve(b.forest, s, Components(path, p)) == Resolve(b.forest, Here, Components(path, 0))
      decreases end - p
    {
      while path[p] == SLASH
        invariant 0 <= p < end && Resolve(b.forest, s, Components(path, p)) == Resolve(b.forest, Here,
                  Components(path, 0))
        decreases end - p
      {
        p := p + 1;
        if p == end {
          return;
        }
      }
      var q := NextSlash(path, p);
      ghost var name := path[p..q];
      NamePart(path, p, q);
      r := Descend(b, r, path[p..q], i, s);
      if r < 0 {
        return;
      }
      ghost var kid := FirstKid(At(b.forest, s).kids, name).value;
      i := FoundKid(b, i, kid);
      s := Extend(s, Down(kid));
      p := q;
    }
  }

  lemma {:induction false} NamePart(path: Bytes, p: int, q: int)
    requires 0 <= p < |path| && path[p] != SLASH && q == NextSlash(path, p) && 0 !in path
    ensures p < q && 0 !in path[p..q]
    ensures Components(path, p) == [path[p..q]] + Components(path, q)
    ensures Components(path, p)[0] == path[p..q] && Components(path, p)[1..] == Components(path, q)
  {
    assert forall x :: x in path[p..q] ==> x in path;
  }

  method Descend(b: Blob, o: int, name: Bytes, ghost i: int, ghost s: Spot) returns (r: int)
    requires b.Valid() && b.Remains(o, i, s) && 0 !in name && |name| < HALF - 1
    ensures Has(b.forest, s)
    ensures match FirstKid(At(b.forest, s).kids, name)
            case None => r == -NOTFOUND
            case Some(q) => Has(b.forest, Extend(s, Down(q))) && 0 <= r == b.NodeOffset(Extend(s, Down(q)))
  {
    b.Opened();
    b.PointsAt(i);
    r := b.SubnodeOffset(o, name, i);
  }
}
