/** Iterating over the properties and the children of a node (fdt.c, fdt_ro.c). */
module FdtWalk {
  import opened FdtFormat
  import opened FdtTree
  import opened FdtTokens
  import opened FdtEdits
  import opened FdtMerge
  import opened FdtBlob

  /** Child c of the node at s. */
  function KidSpot(s: Spot, c: nat): Spot {
    Extend(s, Down(Nth(c)))
  }

  ghost function Kids(b: Blob, k: int): Forest
    requires b.IsNode(k) && Has(b.forest, b.Spot(k))
    reads b
  {
    At(b.forest, b.Spot(k)).kids
  }

  /** No child of the node at token k starts after token i and before token j. */
  ghost predicate NoneBetween(ts: seq<Token>, k: int, i: int, j: int)
    requires 0 <= k && 0 <= i && j <= |ts| && k <= |ts|
  {
    forall t {:trigger Level(ts, t)} :: i < t < j && ts[t].BeginNode? ==> Level(ts, t) != Level(ts, k) + 1
  }

  lemma {:induction false} NoneNext(ts: seq<Token>, k: int, i: int, j: int, j': int)
    requires 0 <= k <= i <= j < j' <= |ts| && NoneBetween(ts, k, i, j) && (i < j ==> Level(ts, j) != Level(ts, k) + 1)
    requires forall t {:trigger ts[t]} :: j < t < j' ==> !ts[t].BeginNode?
    ensures NoneBetween(ts, k, i, j')
  {
  }

  lemma {:induction false} LevelNotUp(ts: seq<Token>, i: int, j: int)
    requires 0 <= i <= j <= |ts| && forall t {:trigger ts[t]} :: i <= t < j ==> !ts[t].BeginNode?
    ensures Level(ts, j) <= Level(ts, i)
    decreases j
  {
    if i < j {
      LevelNotUp(ts, i, j - 1);
      LevelStep(ts, j - 1);
    }
  }

  /** The token of child c, if there is one, or what the search for it answers. */
  ghost predicate KidToken(ts: seq<Token>, f: Forest, s: Spot, c: nat, j: int)
    requires Has(f, s)
  {
    && 0 <= j < |ts| && ts[j].BeginNode? && Has(f, KidSpot(s, c)) && NodePlace(ts, f, KidSpot(s, c)) == j
    && NodeSpot(ts, f, j) == KidSpot(s, c)
  }

  lemma {:induction false} KidTokenIs(ts: seq<Token>, table: Bytes, f: Forest, s: Spot, c: nat)
    requires Items(ts, table) == Flatten(f) && Has(f, s) && Has(At(f, s).kids, Nth(c))
    ensures Has(f, KidSpot(s, c))
    ensures var j := NodePlace(ts, f, KidSpot(s, c));
            && KidToken(ts, f, s, c, j) && 0 <= NodePlace(ts, f, s) < j < NodeEnd(ts, f, s) <= |ts|
            && Level(ts, j) == Depth(s) + 1 == Level(ts, NodePlace(ts, f, s)) + 1
  {
    NthIs(At(f, s).kids, c);
    TokenOfKid(ts, table, f, s, Nth(c));
    SpotOfNode(ts, table, f, KidSpot(s, c));
    NodeLevel(ts, table, f, KidSpot(s, c));
    NodeLevel(ts, table, f, s);
    NodeEndIs(ts, table, f, s);
  }

  /** Children follow one another in the order of their tokens. */
  lemma {:induction false} KidTokenOrder(ts: seq<Token>, table: Bytes, f: Forest, s: Spot, c: nat, d: nat)
    requires Items(ts, table) == Flatten(f) && Has(f, s) && Has(At(f, s).kids, Nth(d)) && c < d
    ensures Has(At(f, s).kids, Nth(c)) && Has(f, KidSpot(s, c)) && Has(f, KidSpot(s, d))
    ensures NodePlace(ts, f, KidSpot(s, c)) < NodePlace(ts, f, KidSpot(s, d))
  {
    var kids := At(f, s).kids;
    NthOrder(kids, c, d);
    TokenOfKid(ts, table, f, s, Nth(c));
    TokenOfKid(ts, table, f, s, Nth(d));
    SpotAtBefore(f, KidSpot(s, d));
    ItemsCount(ts, table);
    PlaceOrder(ts, |Before(f, KidSpot(s, c))|, |Before(f, KidSpot(s, d))|);
  }

  /** The next token after child c that starts a child of the same node starts child c + 1. */
  lemma {:induction false} NextKid(ts: seq<Token>, table: Bytes, f: Forest, s: Spot, c: nat, i: int, j: int)
    requires Items(ts, table) == Flatten(f) && Has(f, s) && Has(At(f, s).kids, Nth(c))
    requires Has(f, KidSpot(s, c)) && NodePlace(ts, f, KidSpot(s, c)) == i
    requires 0 <= i < j < NodeEnd(ts, f, s) <= |ts| && 0 <= NodePlace(ts, f, s) < |ts|
    requires ts[j].BeginNode? && Level(ts, j) == Depth(s) + 1 && NoneBetween(ts, NodePlace(ts, f, s), i, j)
    ensures Has(At(f, s).kids, Nth(c + 1)) && KidToken(ts, f, s, c + 1, j)
  {
    var kids := At(f, s).kids;
    KidTokenIs(ts, table, f, s, c);
    var q := KidOfToken(ts, table, f, s, j);
    NodeOfToken(ts, table, f, j);
    TokenOfKid(ts, table, f, s, q);
    NodeLevel(ts, table, f, Extend(s, Down(q)));
    var d := NumberOf(kids, q);
    if d < c {
      KidTokenOrder(ts, table, f, s, d, c);
    } else if d > c + 1 {
      KidTokenOrder(ts, table, f, s, c + 1, d);
      KidTokenIs(ts, table, f, s, c + 1);
      KidTokenOrder(ts, table, f, s, c, c + 1);
    }
  }

  lemma {:induction false} NoNextKid(ts: seq<Token>, table: Bytes, f: Forest, s: Spot, c: nat, i: int)
    requires Items(ts, table) == Flatten(f) && Has(f, s) && Has(At(f, s).kids, Nth(c))
    requires Has(f, KidSpot(s, c)) && NodePlace(ts, f, KidSpot(s, c)) == i
    requires 0 <= i && 0 <= NodePlace(ts, f, s) <= |ts| && NodeEnd(ts, f, s) <= |ts|
    requires NoneBetween(ts, NodePlace(ts, f, s), i, NodeEnd(ts, f, s))
    ensures !Has(At(f, s).kids, Nth(c + 1))
  {
    if Has(At(f, s).kids, Nth(c + 1)) {
      KidTokenIs(ts, table, f, s, c + 1);
      KidTokenOrder(ts, table, f, s, c, c + 1);
    }
  }

  lemma {:induction false} NoFirstKid(ts: seq<Token>, table: Bytes, f: Forest, s: Spot)
    requires Items(ts, table) == Flatten(f) && Has(f, s)
    requires forall t {:trigger ts[t]} :: NodePlace(ts, f, s) < t < NodeEnd(ts, f, s) && 0 <= t < |ts| ==>
               !ts[t].BeginNode?
    ensures At(f, s).kids.Empty?
  {
    if At(f, s).kids.Node? {
      KidTokenIs(ts, table, f, s, 0);
    }
  }

  lemma {:induction false} FirstKidAt(ts: seq<Token>, table: Bytes, f: Forest, s: Spot, j: int)
    requires Items(ts, table) == Flatten(f) && Has(f, s)
    requires 0 <= NodePlace(ts, f, s) < j < NodeEnd(ts, f, s) <= |ts| && ts[j].BeginNode?
             && Level(ts, j) == Depth(s) + 1
    requires forall t {:trigger ts[t]} :: NodePlace(ts, f, s) < t < j ==> !ts[t].BeginNode?
    ensures Has(At(f, s).kids, Nth(0)) && KidToken(ts, f, s, 0, j)
  {
    var q := KidOfToken(ts, table, f, s, j);
    NodeOfToken(ts, table, f, j);
    TokenOfKid(ts, table, f, s, q);
    NodeLevel(ts, table, f, Extend(s, Down(q)));
    var d := NumberOf(At(f, s).kids, q);
    if d > 0 {
      KidTokenOrder(ts, table, f, s, 0, d);
      KidTokenIs(ts, table, f, s, 0);
    }
  }

  /** The answer of a search for child c of the node at token k. */
  ghost predicate KidAnswer(b: Blob, k: int, c: nat, r: int, j: int)
    requires b.IsNode(k) && Has(b.forest, b.Spot(k))
    reads b
  {
    if Has(Kids(b, k), Nth(c)) then KidToken(b.toks, b.forest, b.Spot(k), c, j) && r == Offset(b.toks, j) && k < j
    else r == -NOTFOUND
  }

  /** Where child c of the node at token k starts, or the answer that there is none. */
  ghost function KidAt(b: Blob, k: int, c: nat): int
    requires b.IsNode(k) && Has(b.forest, b.Spot(k))
    reads b
  {
    var t := KidSpot(b.Spot(k), c);
    if Has(Kids(b, k), Nth(c)) && Has(b.forest, t) then b.NodeOffset(t) else -NOTFOUND
  }

  /** fdt_first_subnode */
  method FirstSubnode(b: Blob, o: int, ghost k: int) returns (r: int, ghost j: int)
    requires b.Valid() && b.Points(o, k) && 0 <= o
    ensures if b.IsNode(k) then Has(b.forest, b.Spot(k)) && KidAnswer(b, k, 0, r, j) else r == -NOTFOUND
    ensures b.IsNode(k) ==> r == KidAt(b, k, 0)
  {
    b.Opened();
    if b.IsNode(k) {
      b.NodeHere(k);
    }
    var depth: int;
    r, depth, j := b.Advance(o, 0, k, k);
    if b.IsNode(k) {
      if depth >= 0 {
        LevelNotUp(b.toks, k + 1, j);
        LevelStep(b.toks, k);
        FirstKidAt(b.toks, b.Strings(), b.forest, b.Spot(k), j);
      } else {
        NoFirstKid(b.toks, b.Strings(), b.forest, b.Spot(k));
      }
    }
    if r < 0 || depth != 1 {
      r := -NOTFOUND;
    }
  }

  /** fdt_next_subnode, from child c of the node at token k */
  method NextSubnode(b: Blob, o: int, ghost k: int, ghost c: nat, ghost i: int) returns (r: int, ghost j: int)
    requires b.Valid() && b.IsNode(k) && Has(b.forest, b.Spot(k)) && Has(Kids(b, k), Nth(c)) && KidAnswer(b, k, c, o, i)
    ensures KidAnswer(b, k, c + 1, r, j)
    ensures r == KidAt(b, k, c + 1)
  {
    b.Opened();
    b.NodeHere(k);
    KidTokenIs(b.toks, b.Strings(), b.forest, b.Spot(k), c);
    var depth := 1;
    r, j := o, i;
    while true
      invariant b.Cursor(k, j, r, depth) && 1 <= depth && i <= j && NoneBetween(b.toks, k, i, j)
      invariant j == i || depth > 1
      decreases |b.toks| - j
    {
      ghost var j0 := j;
      r, depth, j := b.Advance(r, depth, k, j);
      NoneNext(b.toks, k, i, j0, j);
      if r < 0 || depth < 1 {
        NoNextKid(b.toks, b.Strings(), b.forest, b.Spot(k), c, i);
        return -NOTFOUND, j;
      }
      if depth <= 1 {
        break;
      }
    }
    NextKid(b.toks, b.Strings(), b.forest, b.Spot(k), c, i, j);
  }

  lemma {:induction false} FoundKid(b: Blob, k: int, q: Spot) returns (kn: int)
    requires b.Valid() && b.IsNode(k) && Has(b.forest, b.Spot(k)) && Has(Kids(b, k), q)
    ensures var t := Extend(b.Spot(k), Down(q)); Has(b.forest, t) && k < kn && b.Remains(b.NodeOffset(t), kn, t)
  {
    b.Opened();
    b.NodeHere(k);
    var t := Extend(b.Spot(k), Down(q));
    TokenOfKid(b.toks, b.Strings(), b.forest, b.Spot(k), q);
    SpotOfNode(b.toks, b.Strings(), b.forest, t);
    kn := NodePlace(b.toks, b.forest, t);
  }

  /** fdt_get_name */
  method GetName(b: Blob, o: int, ghost k: int) returns (name: Bytes)
    requires b.Valid() && b.IsNode(k) && o == Offset(b.toks, k)
    ensures Has(b.forest, b.Spot(k)) && name == At(b.forest, b.Spot(k)).name && 0 !in name && |name| < HALF - 16
  {
    b.Opened();
    b.NodeHere(k);
    b.PointsAt(k);
    NodePlaceIs(b.toks, b.Strings(), b.forest, b.Spot(k));
    var next := b.CheckNodeOffset(o, k);
    if next < 0 {
      assert false;
    }
    NameRoom(b, k);
    name := ReadName(b, b.offStruct + o + 4, k);
  }

  method ReadName(b: Blob, p: int, ghost k: int) returns (name: Bytes)
    requires b.Tokens() && 0 <= k < |b.toks| && b.toks[k].BeginNode? && p == b.offStruct + Offset(b.toks, k) + 4
    ensures name == b.toks[k].name
  {
    HoldsAt(b.buf[..], b.offStruct, b.toks, k);
    NameReads(b.buf[..], p - 4, b.toks[k]);
    var n := b.StrLen(p, b.toks[k].name);
    name := b.buf[p..p + n];
    assert name == b.buf[..][p..p + n];
  }

  lemma {:induction false} NameRoom(b: Blob, k: int)
    requires b.Valid() && b.IsNode(k)
    ensures |b.toks[k].name| < HALF - 16 && 0 !in b.toks[k].name
  {
    b.Opened();
    b.NodeHere(k);
    var n := |b.toks|;
    b.Spans(k);
    OffsetStep(b.toks, k);
    OffsetMono(b.toks, k + 1, n - 1);
    OffsetMono(b.toks, n - 1, n);
    OffsetEnd(b.toks, n);
    OffsetAligned(b.toks, n);
    AlignFrom(4, |b.toks[k].name| + 1);
    TokenSize(b.toks[k]);
    assert TokenOk(b.toks[k]);
  }

  lemma {:induction false} ValueRoom(b: Blob, i: int)
    requires b.Valid() && 0 <= i < |b.toks| - 1 && b.toks[i].Prop?
    ensures |b.toks[i].value| < HALF - 16
  {
    b.Opened();
    b.Bounds(i);
    OffsetMono(b.toks, i + 1, |b.toks|);
    OffsetEnd(b.toks, |b.toks|);
  }

  /** fdt_string: the string at an offset of the strings block */
  method ReadString(b: Blob, o: int) returns (s: Bytes)
    requires b.Laid() && Terminated(b.Strings(), o)
    ensures s == NameAt(b.Strings(), o)
  {
    var p := b.offStrings + o;
    ghost var t := NameAt(b.Strings(), o);
    assert b.Strings() == b.buf[..][b.offStrings..b.offStrings + b.sizeStrings];
    StringInBlock(b.buf[..], b.offStrings, b.sizeStrings, o, t, p);
    var n := b.StrLen(p, t);
    s := b.buf[p..p + n];
    assert s == b.buf[..][p..p + n];
  }

  method ReadValue(b: Blob, o: int, ghost i: int) returns (val: Bytes)
    requires b.Tokens() && 0 <= i < |b.toks| && b.toks[i].Prop? && o == Offset(b.toks, i)
    ensures val == b.toks[i].value
  {
    b.PropHere(i);
    var n, p := b.Load(b.offStruct + o + 4), b.offStruct + o + 12;
    val := b.buf[p..p + n];
    PartSlice(b.buf[..], p, b.toks[i].value);
    assert val == b.buf[..][p..p + n];
  }

  /** fdt_getprop_by_offset, at property c of the node at token k */
  method GetpropByOffset(b: Blob, o: int, ghost k: int, ghost c: int) returns (name: Bytes, val: Bytes)
    requires b.Valid() && b.IsNode(k) && Has(b.forest, b.Spot(k)) && 0 <= c < |b.Props(k)| && o == b.PropOffset(k, c)
    ensures Property(name, val) == b.Props(k)[c] && 0 !in name && |val| < HALF - 16
  {
    b.Opened();
    b.PropIs(k, c);
    ghost var i := b.PropToken(k, c);
    var next := b.CheckPropOffset(o, i);
    if next < 0 {
      assert false;
    }
    ValueRoom(b, i);
    val := ReadValue(b, o, i);
    var x := b.ReadNameOff(o, i);
    name := ReadString(b, x);
  }
}
