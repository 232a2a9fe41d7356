/** Trees and tokens of the same shape: edits in place that move nothing. */
module FdtShape {
  import opened FdtFormat
  import opened FdtTree
  import opened FdtTokens
  import opened FdtMerge

  // ----- Trees -----

  /** The trees differ in the values of properties only. */
  ghost predicate SameShape(f: Forest, g: Forest) {
    match f
    case Empty => g.Empty?
    case Node(name, props, kids, next) =>
      g.Node? && g.name == name && |g.props| == |props| && SameShape(kids, g.kids) && SameShape(next, g.next)
  }

  lemma {:induction false} ShapeSelf(f: Forest)
    ensures SameShape(f, f)
  {
    if f.Node? {
      ShapeSelf(f.kids);
      ShapeSelf(f.next);
    }
  }

  lemma {:induction false} ShapeTrans(f: Forest, g: Forest, h: Forest)
    requires SameShape(f, g) && SameShape(g, h)
    ensures SameShape(f, h)
  {
    if f.Node? {
      ShapeTrans(f.kids, g.kids, h.kids);
      ShapeTrans(f.next, g.next, h.next);
    }
  }

  lemma {:induction false} ShapeSize(f: Forest, g: Forest)
    requires SameShape(f, g)
    ensures |Flatten(f)| == |Flatten(g)|
  {
    if f.Node? {
      ShapeSize(f.kids, g.kids);
      ShapeSize(f.next, g.next);
    }
  }

  lemma {:induction false} ShapeSpot(f: Forest, g: Forest, s: Spot)
    requires SameShape(f, g)
    ensures Has(f, s) <==> Has(g, s)
    ensures Has(f, s) ==> SameShape(At(f, s), At(g, s)) && |Before(f, s)| == |Before(g, s)|
    decreases s
  {
    if f.Node? {
      ShapeSize(f.kids, g.kids);
      match s
      case Here =>
      case Down(q) => ShapeSpot(f.kids, g.kids, q);
      case Next(q) => ShapeSpot(f.next, g.next, q);
    }
  }

  lemma {:induction false} ShapeSpotAt(f: Forest, g: Forest, i: int)
    requires SameShape(f, g) && 0 <= i < |Flatten(f)|
    ensures i < |Flatten(g)| && SpotAt(f, i) == SpotAt(g, i)
    decreases f
  {
    ShapeSize(f, g);
    ShapeSize(f.kids, g.kids);
    ShapeSize(f.next, g.next);
    if i > 0 {
      var n, j := |FlatNode(f.name, f.props, f.kids)|, i - 1 - |f.props|;
      if i >= n {
        ShapeSpotAt(f.next, g.next, i - n);
      } else if 0 <= j < |Flatten(f.kids)| {
        ShapeSpotAt(f.kids, g.kids, j);
      }
    }
  }

  lemma {:induction false} ShapeAppend(x: Forest, y: Forest, f: Forest)
    requires SameShape(x, y)
    ensures SameShape(Append(x, f), Append(y, f))
  {
    if x.Node? {
      ShapeAppend(x.next, y.next, f);
    } else {
      ShapeSelf(f);
    }
  }

  /** Putting a node of the same shape in the place of a node. */
  lemma {:induction false} ShapeGraft(f: Forest, s: Spot, x: Forest)
    requires Has(f, s) && SameShape(Alone(At(f, s)), x)
    ensures SameShape(f, Graft(f, s, x))
    decreases s
  {
    match s
    case Here =>
      ShapeAppend(Alone(f), x, f.next);
      assert Append(Alone(f), f.next) == f;
    case Down(q) =>
      ShapeGraft(f.kids, q, x);
      ShapeSelf(f.next);
    case Next(q) =>
      ShapeGraft(f.next, q, x);
      ShapeSelf(f.kids);
  }

  // ----- Tokens -----

  /** The tokens have the same tags and sizes. */
  ghost predicate SameKind(ts: seq<Token>, us: seq<Token>) {
    && |us| == |ts|
    && forall i {:trigger ts[i]} {:trigger us[i]} :: 0 <= i < |ts| ==>
         Tag(us[i]) == Tag(ts[i]) && Size(us[i]) == Size(ts[i])
  }

  lemma {:induction false} KindPrefix(ts: seq<Token>, us: seq<Token>, k: int)
    requires SameKind(ts, us) && 0 <= k <= |ts|
    ensures Offset(us, k) == Offset(ts, k) && Count(us[..k]) == Count(ts[..k])
    decreases k
  {
    if k > 0 {
      KindPrefix(ts, us, k - 1);
      OffsetStep(ts, k - 1);
      OffsetStep(us, k - 1);
      CountStep(ts, k - 1);
      CountStep(us, k - 1);
      assert Tag(us[k - 1]) == Tag(ts[k - 1]);
    } else {
      assert |ts[..k]| == 0 && |us[..k]| == 0;
    }
  }

  lemma {:induction false} KindPlace(ts: seq<Token>, us: seq<Token>, c: int)
    requires SameKind(ts, us)
    ensures Place(us, c) == Place(ts, c) && Count(us) == Count(ts)
    decreases |ts|
  {
    KindPrefix(ts, us, |ts|);
    assert ts[..|ts|] == ts && us[..|us|] == us;
    if |ts| > 0 {
      var n := |ts| - 1;
      KindPrefix(ts, us, n);
      assert SameKind(ts[..n], us[..n]) by {
        assert forall i :: 0 <= i < n ==> ts[..n][i] == ts[i] && us[..n][i] == us[i];
      }
      KindPlace(ts[..n], us[..n], c);
    }
  }

  ghost predicate Compared(ts: seq<Token>) {
    true
  }

  /**
   * Tokens and tree after edits that move nothing: every node is where it was; to be opened by mentioning
   * Compared(ts).
   */
  ghost predicate Alike(ts: seq<Token>, f: Forest, us: seq<Token>, g: Forest) {
    |us| == |ts| && forall vs {:trigger Compared(vs)} :: vs == ts ==> SameKind(vs, us) && SameShape(f, g)
  }

  lemma {:induction false} AlikeNode(ts: seq<Token>, f: Forest, us: seq<Token>, g: Forest, s: Spot, k: int)
    requires Alike(ts, f, us, g) && 0 <= k < |ts|
    ensures Has(f, s) <==> Has(g, s)
    ensures Has(f, s) ==> NodePlace(us, g, s) == NodePlace(ts, f, s)
    ensures NodeSpot(us, g, k) == NodeSpot(ts, f, k) && Offset(us, k) == Offset(ts, k)
    ensures us[k].BeginNode? <==> ts[k].BeginNode?
  {
    assert Compared(ts);
    ShapeSpot(f, g, s);
    ShapeSize(f, g);
    KindPrefix(ts, us, k);
    if Has(f, s) {
      KindPlace(ts, us, |Before(f, s)|);
    }
    if Count(ts[..k]) < |Flatten(f)| {
      ShapeSpotAt(f, g, Count(ts[..k]));
    }
    assert Tag(us[k]) == Tag(ts[k]);
  }

  lemma {:induction false} AlikeTrans(ts: seq<Token>, f: Forest, us: seq<Token>, g: Forest, vs: seq<Token>, h: Forest)
    requires Alike(ts, f, us, g) && Alike(us, g, vs, h)
    ensures Alike(ts, f, vs, h)
  {
    assert Compared(ts) && Compared(us);
    ShapeTrans(f, g, h);
    forall i {:trigger vs[i]} | 0 <= i < |ts| ensures Tag(vs[i]) == Tag(ts[i]) && Size(vs[i]) == Size(ts[i]) {
      assert Tag(us[i]) == Tag(ts[i]);
    }
  }

  lemma {:induction false} AlikeSelf(ts: seq<Token>, f: Forest)
    ensures Alike(ts, f, ts, f)
  {
    ShapeSelf(f);
    assert SameKind(ts, ts);
  }
}
