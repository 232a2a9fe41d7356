/**
 * The tokens of a structure block as the items of a tree: NOP tokens count for nothing and
 * property names are looked up in the strings block.
 */
module FdtTokens {
  import opened FdtFormat
  import opened FdtTree

  predicate Kept(t: Token) {
    !t.Nop? && !t.End?
  }

  /** The string at offset o of the table, up to its terminator. */
  function NameAt(table: Bytes, o: int): (s: Bytes)
    ensures 0 <= o && o + |s| <= |table| ==> table[o..o + |s|] == s
    ensures 0 !in s
    decreases |table| - o
  {
    if !(0 <= o < |table|) || table[o] == 0 then []
    else
      var s := NameAt(table, o + 1);
      assert o + 1 + |s| <= |table| ==> table[o..o + 1 + |s|] == [table[o]] + table[o + 1..o + 1 + |s|];
      [table[o]] + s
  }

  ghost predicate Terminated(table: Bytes, o: int) {
    StringAt(table, o, NameAt(table, o))
  }

  lemma {:induction false} NameAtIs(table: Bytes, o: int, s: Bytes)
    requires StringAt(table, o, s)
    ensures NameAt(table, o) == s && Terminated(table, o)
    decreases |s|
  {
    if s == [] {
    } else {
      assert s[0] == table[o..o + |s|][0] && s[0] in s;
      assert table[o + 1..o + |s|] == table[o..o + |s|][1..];
      NameAtIs(table, o + 1, s[1..]);
    }
  }

  ghost predicate Resolved(ts: seq<Token>, table: Bytes) {
    forall i {:trigger Terminated(table, ts[i].nameoff)} :: 0 <= i < |ts| && ts[i].Prop? ==>
      Terminated(table, ts[i].nameoff)
  }

  function ItemOf(t: Token, table: Bytes): Item
    requires Kept(t)
  {
    match t
    case BeginNode(name, _) => Open(name)
    case EndNode => Close
    case Prop(nameoff, value, _) => Attr(Property(NameAt(table, nameoff), value))
  }

  function Items(ts: seq<Token>, table: Bytes): seq<Item> {
    if |ts| == 0 then []
    else (if Kept(ts[0]) then [ItemOf(ts[0], table)] else []) + Items(ts[1..], table)
  }

  function Count(ts: seq<Token>): nat {
    if |ts| == 0 then 0 else (if Kept(ts[0]) then 1 else 0) + Count(ts[1..])
  }

  lemma {:induction false} ItemsJoin(s: seq<Token>, t: seq<Token>, table: Bytes)
    ensures Items(s + t, table) == Items(s, table) + Items(t, table)
  {
    if s == [] {
      assert s + t == t;
    } else {
      assert (s + t)[1..] == s[1..] + t;
      ItemsJoin(s[1..], t, table);
    }
  }

  lemma {:induction false} ItemsCount(ts: seq<Token>, table: Bytes)
    ensures |Items(ts, table)| == Count(ts)
  {
    if ts != [] {
      ItemsCount(ts[1..], table);
    }
  }

  lemma {:induction false} ItemsOne(t: Token, table: Bytes)
    ensures Items([t], table) == if Kept(t) then [ItemOf(t, table)] else []
  {
    assert Items([t], table) == (if Kept(t) then [ItemOf(t, table)] else []) + Items([], table);
  }

  /** Names that both tables spell alike give the same items. */
  lemma {:induction false} ItemsSame(ts: seq<Token>, table: Bytes, table': Bytes)
    requires forall i :: 0 <= i < |ts| && ts[i].Prop? ==> NameAt(table, ts[i].nameoff) == NameAt(table', ts[i].nameoff)
    ensures Items(ts, table) == Items(ts, table')
  {
    if ts != [] {
      assert forall i :: 0 <= i < |ts[1..]| ==> ts[1..][i] == ts[i + 1];
      ItemsSame(ts[1..], table, table');
    }
  }

  /** The tokens before index k stand for the first items. */
  lemma {:induction false} ItemsPrefix(ts: seq<Token>, k: int, table: Bytes)
    requires 0 <= k <= |ts|
    ensures Count(ts[..k]) <= |Items(ts, table)| == Count(ts)
    ensures Items(ts[..k], table) == Items(ts, table)[..Count(ts[..k])]
    ensures Items(ts[k..], table) == Items(ts, table)[Count(ts[..k])..]
  {
    assert ts == ts[..k] + ts[k..];
    ItemsJoin(ts[..k], ts[k..], table);
    ItemsCount(ts[..k], table);
    ItemsCount(ts, table);
  }

  lemma {:induction false} CountStep(ts: seq<Token>, k: int)
    requires 0 <= k < |ts|
    ensures Count(ts[..k + 1]) == Count(ts[..k]) + if Kept(ts[k]) then 1 else 0
  {
    assert ts[..k + 1] == ts[..k] + [ts[k]];
    ItemsJoin(ts[..k], [ts[k]], []);
    ItemsCount(ts[..k], []);
    ItemsCount(ts[..k + 1], []);
    ItemsOne(ts[k], []);
  }

  lemma {:induction false} CountMono(ts: seq<Token>, j: int, k: int)
    requires 0 <= j <= k <= |ts|
    ensures Count(ts[..j]) <= Count(ts[..k])
    decreases k
  {
    if j < k {
      CountMono(ts, j, k - 1);
      CountStep(ts, k - 1);
    }
  }

  /** A token that is not skipped stands for the item at its count. */
  lemma {:induction false} ItemAt(ts: seq<Token>, k: int, table: Bytes)
    requires 0 <= k < |ts| && Kept(ts[k])
    ensures Count(ts[..k]) < |Items(ts, table)| && Items(ts, table)[Count(ts[..k])] == ItemOf(ts[k], table)
  {
    ItemsPrefix(ts, k, table);
    assert ts[k..] == [ts[k]] + ts[k + 1..];
    ItemsJoin([ts[k]], ts[k + 1..], table);
    ItemsOne(ts[k], table);
    assert Items(ts[k..], table)[0] == ItemOf(ts[k], table);
  }

  /** The index of the token that stands for item c. */
  function Place(ts: seq<Token>, c: int): (k: nat)
    ensures k <= |ts|
  {
    if |ts| == 0 then 0
    else if c < Count(ts[..|ts| - 1]) then Place(ts[..|ts| - 1], c)
    else |ts| - 1
  }

  lemma {:induction false} PlaceIs(ts: seq<Token>, c: nat)
    requires c < Count(ts)
    ensures var k := Place(ts, c); k < |ts| && Kept(ts[k]) && Count(ts[..k]) == c
  {
    var us := ts[..|ts| - 1];
    CountStep(ts, |ts| - 1);
    assert ts[..|ts|] == ts;
    if c < Count(us) {
      PlaceIs(us, c);
      assert us[..Place(us, c)] == ts[..Place(us, c)];
    }
  }

  lemma {:induction false} PlaceUnique(ts: seq<Token>, k: int)
    requires 0 <= k < |ts| && Kept(ts[k])
    ensures Count(ts[..k]) < Count(ts) && Place(ts, Count(ts[..k])) == k
  {
    CountStep(ts, k);
    CountMono(ts, k + 1, |ts|);
    assert ts[..|ts|] == ts;
    var p := Place(ts, Count(ts[..k]));
    PlaceIs(ts, Count(ts[..k]));
    CountStep(ts, p);
    if p < k {
      CountMono(ts, p + 1, k);
    } else if k < p {
      CountMono(ts, k + 1, p);
    }
  }

  // ----- Levels -----

  /** The nodes open before token k. */
  function Level(ts: seq<Token>, k: int): int
    requires 0 <= k <= |ts|
  {
    Net(Items(ts[..k], []))
  }

  lemma {:induction false} NetAnyTable(ts: seq<Token>, table: Bytes)
    ensures Net(Items(ts, table)) == Net(Items(ts, []))
  {
    if ts != [] {
      NetAnyTable(ts[1..], table);
      var rest, rest' := Items(ts[1..], table), Items(ts[1..], []);
      if Kept(ts[0]) {
        NetJoin([ItemOf(ts[0], table)], rest);
        NetJoin([ItemOf(ts[0], [])], rest');
      } else {
        assert [] + rest == rest && [] + rest' == rest';
      }
    }
  }

  lemma {:induction false} LevelIsNet(ts: seq<Token>, k: int, table: Bytes)
    requires 0 <= k <= |ts|
    ensures Count(ts[..k]) <= |Items(ts, table)| && Level(ts, k) == Net(Items(ts, table)[..Count(ts[..k])])
  {
    NetAnyTable(ts[..k], table);
    ItemsPrefix(ts, k, table);
  }

  lemma {:induction false} LevelStep(ts: seq<Token>, k: int)
    requires 0 <= k < |ts|
    ensures Level(ts, k + 1) == Level(ts, k) + (if ts[k].BeginNode? then 1 else if ts[k].EndNode? then -1 else 0)
  {
    assert ts[..k + 1] == ts[..k] + [ts[k]];
    ItemsJoin(ts[..k], [ts[k]], []);
    ItemsOne(ts[k], []);
    NetJoin(Items(ts[..k], []), Items([ts[k]], []));
    if Kept(ts[k]) {
      var i := ItemOf(ts[k], []);
      assert Net([i]) == (match i case Open(_) => 1 case Close => -1 case Attr(_) => 0) + Net([i][1..]);
    }
  }

  // ----- Tokens of a tree -----

  /** The tokens, up to the final END, stand for the tree. */
  ghost predicate Stands(ts: seq<Token>, table: Bytes, f: Forest) {
    && ts != [] && AllOk(ts) && Resolved(ts, table)
    && (forall i {:trigger ts[i].End?} :: 0 <= i < |ts| ==> (ts[i].End? <==> i == |ts| - 1))
    && Items(ts, table) == Flatten(f)
  }

  /** The BEGIN_NODE token of the node at a spot. */
  function NodePlace(ts: seq<Token>, f: Forest, s: Spot): int
    requires Has(f, s)
  {
    if |Before(f, s)| < Count(ts) then Place(ts, |Before(f, s)|) else -1
  }

  lemma {:induction false} NodePlaceIs(ts: seq<Token>, table: Bytes, f: Forest, s: Spot)
    requires Items(ts, table) == Flatten(f) && Has(f, s)
    ensures var k := NodePlace(ts, f, s);
            && 0 <= k < |ts| && ts[k].BeginNode? && ts[k].name == At(f, s).name
            && Count(ts[..k]) == |Before(f, s)| && Items(ts[..k], table) == Before(f, s)
  {
    SpotAtBefore(f, s);
    BeforeIsPrefix(f, s);
    ItemsCount(ts, table);
    var k := NodePlace(ts, f, s);
    PlaceIs(ts, |Before(f, s)|);
    ItemAt(ts, k, table);
    ItemsPrefix(ts, k, table);
  }

  lemma {:induction false} NodeLevel(ts: seq<Token>, table: Bytes, f: Forest, s: Spot)
    requires Items(ts, table) == Flatten(f) && Has(f, s)
    ensures var k := NodePlace(ts, f, s); 0 <= k < |ts| && Level(ts, k) == Depth(s)
  {
    NodePlaceIs(ts, table, f, s);
    NetAnyTable(ts[..NodePlace(ts, f, s)], table);
    DepthIsNet(f, s);
  }

  /** The node that a BEGIN_NODE token opens. */
  function NodeSpot(ts: seq<Token>, f: Forest, k: int): Spot
    requires 0 <= k <= |ts|
  {
    if Count(ts[..k]) < |Flatten(f)| then SpotAt(f, Count(ts[..k])) else Here
  }

  /** Every BEGIN_NODE token is a node of the tree. */
  lemma {:induction false} NodeOfToken(ts: seq<Token>, table: Bytes, f: Forest, k: int)
    requires Items(ts, table) == Flatten(f) && 0 <= k < |ts| && ts[k].BeginNode?
    ensures Has(f, NodeSpot(ts, f, k)) && NodePlace(ts, f, NodeSpot(ts, f, k)) == k
  {
    ItemAt(ts, k, table);
    SpotAtIs(f, Count(ts[..k]));
    PlaceUnique(ts, k);
  }

  lemma {:induction false} SpotOfNode(ts: seq<Token>, table: Bytes, f: Forest, s: Spot)
    requires Items(ts, table) == Flatten(f) && Has(f, s)
    ensures var k := NodePlace(ts, f, s); 0 <= k < |ts| && ts[k].BeginNode? && NodeSpot(ts, f, k) == s
  {
    NodePlaceIs(ts, table, f, s);
    SpotAtBefore(f, s);
  }

  /** The index after the END_NODE token that closes the node. */
  function NodeEnd(ts: seq<Token>, f: Forest, s: Spot): int
    requires Has(f, s)
  {
    var g := At(f, s);
    var c := |Before(f, s)| + |FlatNode(g.name, g.props, g.kids)| - 1;
    if 0 <= c < Count(ts) then Place(ts, c) + 1 else -1
  }

  lemma {:induction false} LastOfRun(ts: seq<Token>, table: Bytes, b: seq<Item>, n: seq<Item>, r: seq<Item>)
    requires Items(ts, table) == b + n + r && |n| > 1
    ensures |b| + |n| <= Count(ts)
    ensures var c := |b| + |n| - 1; var e := Place(ts, c) + 1;
            && Place(ts, |b|) < e <= |ts| && Kept(ts[e - 1]) && ItemOf(ts[e - 1], table) == n[|n| - 1]
               && Count(ts[..e]) == |b| + |n|
  {
    ItemsCount(ts, table);
    var c := |b| + |n| - 1;
    PlaceIs(ts, c);
    var k, e := Place(ts, |b|), Place(ts, c) + 1;
    PlaceIs(ts, |b|);
    ItemAt(ts, e - 1, table);
    assert (b + n + r)[c] == n[|n| - 1];
    CountStep(ts, e - 1);
    assert k < e by {
      if e - 1 <= k {
        CountMono(ts, e - 1, k);
      }
    }
  }

  lemma {:induction false} NodeEndIs(ts: seq<Token>, table: Bytes, f: Forest, s: Spot)
    requires Items(ts, table) == Flatten(f) && Has(f, s)
    ensures var k, e, g := NodePlace(ts, f, s), NodeEnd(ts, f, s), At(f, s);
            && 0 <= k < e <= |ts| && ts[e - 1].EndNode?
            && Count(ts[..e]) == |Before(f, s)| + |FlatNode(g.name, g.props, g.kids)|
  {
    var g := At(f, s);
    Around(f, s);
    LastOfRun(ts, table, Before(f, s), FlatNode(g.name, g.props, g.kids), After(f, s));
  }

  /** Between the two at least one more node is open than outside. */
  lemma {:induction false} LevelsWithin(ts: seq<Token>, table: Bytes, f: Forest, s: Spot, t: int)
    requires Items(ts, table) == Flatten(f) && Has(f, s)
    requires NodePlace(ts, f, s) <= t <= NodeEnd(ts, f, s) <= |ts| && 0 <= t
    ensures if NodePlace(ts, f, s) < t < NodeEnd(ts, f, s) then Level(ts, t) > Depth(s) else Level(ts, t) == Depth(s)
  {
    var k, e := NodePlace(ts, f, s), NodeEnd(ts, f, s);
    NodePlaceIs(ts, table, f, s);
    NodeEndIs(ts, table, f, s);
    CountStep(ts, k);
    CountStep(ts, e - 1);
    CountMono(ts, k, t);
    CountMono(ts, t, e);
    if k < t < e {
      CountMono(ts, k + 1, t);
      CountMono(ts, t, e - 1);
    }
    LevelInside(ts, table, f, s, t);
  }

  lemma {:induction false} Middle<T>(a: seq<T>, b: seq<T>, c: seq<T>, i: int)
    requires 0 <= i <= |b|
    ensures (a + b + c)[..|a| + i] == a + b[..i]
  {
  }

  lemma {:induction false} LevelOfRun(ts: seq<Token>, table: Bytes, b: seq<Item>, n: seq<Item>, r: seq<Item>, t: int)
    requires Items(ts, table) == b + n + r && 0 <= t <= |ts| && 0 <= Count(ts[..t]) - |b| <= |n|
    ensures Level(ts, t) == Net(b) + Net(n[..Count(ts[..t]) - |b|])
  {
    var i := Count(ts[..t]) - |b|;
    LevelIsNet(ts, t, table);
    Middle(b, n, r, i);
    NetJoin(b, n[..i]);
  }

  lemma {:induction false} LevelInside(ts: seq<Token>, table: Bytes, f: Forest, s: Spot, t: int)
    requires Items(ts, table) == Flatten(f) && Has(f, s) && 0 <= t <= |ts|
    requires var g := At(f, s); 0 <= Count(ts[..t]) - |Before(f, s)| <= |FlatNode(g.name, g.props, g.kids)|
    ensures var g := At(f, s); var n := FlatNode(g.name, g.props, g.kids);
            var i := Count(ts[..t]) - |Before(f, s)|;
            && Level(ts, t) == Depth(s) + Net(n[..i])
            && (0 < i < |n| ==> Net(n[..i]) >= 1) && (i == |n| ==> Net(n[..i]) == 0)
  {
    var g := At(f, s);
    Around(f, s);
    LevelOfRun(ts, table, Before(f, s), FlatNode(g.name, g.props, g.kids), After(f, s), t);
    DepthIsNet(f, s);
    NodeDepth(g.name, g.props, g.kids, Count(ts[..t]) - |Before(f, s)|);
  }

  // ----- Walks -----

  /**
   * How a walk that is at the given depth before token i goes on: it stops at token j, which opens a
   * node, closes the node that the depth is counted from, or ends the block.
   */
  ghost predicate Walked(ts: seq<Token>, i: int, depth: int, j: int)
    requires 0 <= i
  {
    && i <= j < |ts|
    && (forall t {:trigger ts[t]} :: i <= t < j ==>
          && !ts[t].BeginNode? && !ts[t].End?
          && (ts[t].EndNode? ==> depth + Level(ts, t + 1) - Level(ts, i) >= 0))
    && match ts[j]
       case BeginNode(_, _) => true
       case EndNode => depth + Level(ts, j + 1) - Level(ts, i) < 0
       case End => true
       case _ => false
  }

  /** Tokens k to e are one node at the given level. */
  ghost predicate Spanned(ts: seq<Token>, k: int, e: int, level: int) {
    && 0 <= k < e <= |ts| && ts[k].BeginNode? && ts[e - 1].EndNode? && Level(ts, k) == level && Level(ts, e) == level
    && forall t {:trigger Level(ts, t)} :: k < t < e ==> Level(ts, t) > level
  }

  lemma {:induction false} NodeSpans(ts: seq<Token>, table: Bytes, f: Forest, s: Spot)
    requires Items(ts, table) == Flatten(f) && Has(f, s)
    ensures Spanned(ts, NodePlace(ts, f, s), NodeEnd(ts, f, s), Depth(s))
  {
    var k, e := NodePlace(ts, f, s), NodeEnd(ts, f, s);
    NodePlaceIs(ts, table, f, s);
    NodeLevel(ts, table, f, s);
    NodeEndIs(ts, table, f, s);
    LevelsWithin(ts, table, f, s, e);
    forall t {:trigger Level(ts, t)} | k < t < e ensures Level(ts, t) > Depth(s) {
      LevelsWithin(ts, table, f, s, t);
    }
  }

  /** A walk from a node inside a node stops at a node inside it, or at its end. */
  lemma {:induction false} StaysWithin(ts: seq<Token>, k: int, e: int, level: int, i: int, j: int)
    requires Spanned(ts, k, e, level) && k <= i < e && ts[i].BeginNode?
    requires Walked(ts, i + 1, Level(ts, i) - level, j) && (ts[j].End? ==> j == |ts| - 1)
    ensures var d := Level(ts, i) - level + Level(ts, j + 1) - Level(ts, i + 1);
            if ts[j].BeginNode? then i < j < e && d == Level(ts, j) - level && d > 0
            else ts[j].EndNode? && j + 1 == e && d == -1
  {
    LevelStep(ts, i);
    LevelStep(ts, j);
    assert ts[e - 1].EndNode? && j < e;
    assert j < e - 1 ==> Level(ts, j + 1) > level;
  }

  // ----- The nodes inside a node -----

  /** Token places follow item order. */
  lemma {:induction false} PlaceOrder(ts: seq<Token>, c: nat, d: nat)
    requires c < d < Count(ts)
    ensures Place(ts, c) < Place(ts, d)
  {
    PlaceIs(ts, c);
    PlaceIs(ts, d);
    CountStep(ts, Place(ts, d));
    if Place(ts, d) < Place(ts, c) {
      CountMono(ts, Place(ts, d) + 1, Place(ts, c));
    }
  }

  /** The node at spot q of the children of the node at s. */
  lemma {:induction false} TokenOfKid(ts: seq<Token>, table: Bytes, f: Forest, s: Spot, q: Spot)
    requires Items(ts, table) == Flatten(f) && Has(f, s) && Has(At(f, s).kids, q)
    ensures var t := Extend(s, Down(q));
            && Has(f, t) && At(f, t) == At(At(f, s).kids, q)
            && 0 <= NodePlace(ts, f, s) < NodePlace(ts, f, t) < NodeEnd(ts, f, s)
            && Depth(t) == Depth(s) + 1 + Depth(q)
            && |Before(f, t)| == |Before(f, s)| + 1 + |At(f, s).props| + |Before(At(f, s).kids, q)|
  {
    var g, t := At(f, s), Extend(s, Down(q));
    Below(f, s, q);
    SpotAtBefore(g.kids, q);
    NodePlaceIs(ts, table, f, s);
    NodePlaceIs(ts, table, f, t);
    NodeEndIs(ts, table, f, s);
    ItemsCount(ts, table);
    Around(f, s);
    var c := |Before(f, s)| + |FlatNode(g.name, g.props, g.kids)| - 1;
    PlaceOrder(ts, |Before(f, s)|, |Before(f, t)|);
    PlaceOrder(ts, |Before(f, t)|, c);
  }

  /** A BEGIN_NODE token inside a node opens a node below it. */
  lemma {:induction false} KidOfToken(ts: seq<Token>, table: Bytes, f: Forest, s: Spot, j: int) returns (q: Spot)
    requires Items(ts, table) == Flatten(f) && Has(f, s)
    requires NodePlace(ts, f, s) < j < NodeEnd(ts, f, s) <= |ts| && 0 <= j && ts[j].BeginNode?
    ensures Has(At(f, s).kids, q) && NodeSpot(ts, f, j) == Extend(s, Down(q))
  {
    var k, e := NodePlace(ts, f, s), NodeEnd(ts, f, s);
    NodePlaceIs(ts, table, f, s);
    NodeEndIs(ts, table, f, s);
    CountStep(ts, k);
    CountMono(ts, k + 1, j);
    CountStep(ts, j);
    CountMono(ts, j + 1, e);
    NodeOfToken(ts, table, f, j);
    NodePlaceIs(ts, table, f, NodeSpot(ts, f, j));
    q := InsideSpot(f, s, NodeSpot(ts, f, j));
  }

  lemma {:induction false} PrefixFits(m: Bytes, a: int, name: Bytes, s: Bytes)
    requires StringAt(m, a, name) && 0 !in s && a + |s| <= |m| && m[a..a + |s|] == s
    ensures |s| <= |name|
  {
    assert forall i :: 0 <= i < |s| ==> s[i] == m[a..a + |s|][i] == m[a + i] && s[i] in s;
  }

  /** Comparing as many bytes as s has with a name in memory, and looking at the byte after them. */
  lemma {:induction false} NamePrefix(m: Bytes, a: int, name: Bytes, s: Bytes)
    requires StringAt(m, a, name) && 0 !in s
    ensures Matches(name, s) <==>
              && a + |s| < |m| && |s| <= |name| && m[a..a + |s|] == s
              && (m[a + |s|] == 0 || (AT_SIGN !in s && m[a + |s|] == AT_SIGN))
    ensures a + |s| <= |m| && m[a..a + |s|] == s ==> |s| <= |name|
  {
    if |s| <= |name| {
      assert m[a..a + |s|] == m[a..a + |name|][..|s|];
      StringReads(m, a, name, |s|);
    }
    if a + |s| <= |m| && m[a..a + |s|] == s {
      PrefixFits(m, a, name, s);
    }
  }

  /** No child of the node whose token lies before token j has a matching name. */
  ghost predicate NoKidBefore(ts: seq<Token>, k: int, j: int, name: Bytes)
    requires 0 <= k && j <= |ts|
  {
    forall t {:trigger Level(ts, t)} :: k < t < j && ts[t].BeginNode? && Level(ts, t) == Level(ts, k) + 1 ==>
      !Matches(ts[t].name, name)
  }

  lemma {:induction false} NoKidNext(ts: seq<Token>, k: int, i: int, j: int, name: Bytes)
    requires 0 <= k <= i < j <= |ts| && NoKidBefore(ts, k, i, name)
    requires i > k && ts[i].BeginNode? && Level(ts, i) == Level(ts, k) + 1 ==> !Matches(ts[i].name, name)
    requires forall t {:trigger ts[t]} :: i < t < j ==> !ts[t].BeginNode?
    ensures NoKidBefore(ts, k, j, name)
  {
  }

  lemma {:induction false} KidFound(ts: seq<Token>, table: Bytes, f: Forest, s: Spot, name: Bytes, j: int)
    requires Items(ts, table) == Flatten(f) && Has(f, s)
    requires 0 <= NodePlace(ts, f, s) < j < NodeEnd(ts, f, s) <= |ts| && ts[j].BeginNode?
    requires Level(ts, j) == Depth(s) + 1 && Matches(ts[j].name, name)
    requires NoKidBefore(ts, NodePlace(ts, f, s), j, name)
    ensures var r := FirstKid(At(f, s).kids, name);
            r.Some? && Has(f, Extend(s, Down(r.value))) && NodePlace(ts, f, Extend(s, Down(r.value))) == j
  {
    var kids := At(f, s).kids;
    var q := KidOfToken(ts, table, f, s, j);
    NodeOfToken(ts, table, f, j);
    TokenOfKid(ts, table, f, s, q);
    NodePlaceIs(ts, table, f, Extend(s, Down(q)));
    NodeLevel(ts, table, f, Extend(s, Down(q)));
    FirstKidIs(kids, name, q);
    var r := FirstKid(kids, name).value;
    NodeLevel(ts, table, f, s);
    KidMatches(ts, table, f, s, name, r);
    if |Before(kids, r)| < |Before(kids, q)| {
      ItemsCount(ts, table);
      SpotAtBefore(f, Extend(s, Down(q)));
      PlaceOrder(ts, |Before(f, Extend(s, Down(r)))|, |Before(f, Extend(s, Down(q)))|);
    } else {
      SpotAtBefore(kids, r);
      SpotAtBefore(kids, q);
    }
  }

  lemma {:induction false} KidMatches(ts: seq<Token>, table: Bytes, f: Forest, s: Spot, name: Bytes, r: Spot)
    requires Items(ts, table) == Flatten(f) && Has(f, s) && Has(At(f, s).kids, r) && Depth(r) == 0
    requires Matches(At(At(f, s).kids, r).name, name)
    ensures Has(f, Extend(s, Down(r)))
    ensures var t := NodePlace(ts, f, Extend(s, Down(r)));
            && 0 <= NodePlace(ts, f, s) < t < NodeEnd(ts, f, s) <= |ts| && ts[t].BeginNode?
            && Level(ts, t) == Level(ts, NodePlace(ts, f, s)) + 1 && Matches(ts[t].name, name)
    ensures |Before(f, Extend(s, Down(r)))| == |Before(f, s)| + 1 + |At(f, s).props| + |Before(At(f, s).kids, r)|
  {
    TokenOfKid(ts, table, f, s, r);
    NodePlaceIs(ts, table, f, Extend(s, Down(r)));
    NodeLevel(ts, table, f, Extend(s, Down(r)));
    NodeLevel(ts, table, f, s);
    NodeEndIs(ts, table, f, s);
  }

  lemma {:induction false} KidNotFound(ts: seq<Token>, table: Bytes, f: Forest, s: Spot, name: Bytes)
    requires Items(ts, table) == Flatten(f) && Has(f, s)
    requires 0 <= NodePlace(ts, f, s) && NodeEnd(ts, f, s) <= |ts|
    requires NoKidBefore(ts, NodePlace(ts, f, s), NodeEnd(ts, f, s), name)
    ensures FirstKid(At(f, s).kids, name).None?
  {
    var r := FirstKid(At(f, s).kids, name);
    if r.Some? {
      KidMatches(ts, table, f, s, name, r.value);
    }
  }

  // ----- The properties of a node -----

  /** The token of property c of a node, or, for c the number of properties, what follows them. */
  function PropPlace(ts: seq<Token>, f: Forest, s: Spot, c: int): int
    requires Has(f, s)
  {
    Place(ts, |Before(f, s)| + 1 + c)
  }

  lemma {:induction false} PropPlaceIs(ts: seq<Token>, table: Bytes, f: Forest, s: Spot, c: int)
    requires Items(ts, table) == Flatten(f) && Has(f, s) && 0 <= c <= |At(f, s).props|
    ensures var ps, k := At(f, s).props, PropPlace(ts, f, s, c);
            && 0 <= k < |ts| && Kept(ts[k]) && Count(ts[..k]) == |Before(f, s)| + 1 + c
            && (ts[k].Prop? <==> c < |ps|)
            && (c < |ps| ==> NameAt(table, ts[k].nameoff) == ps[c].name && ts[k].value == ps[c].value)
  {
    AttrItem(f, s, c);
    ItemsCount(ts, table);
    PlaceIs(ts, |Before(f, s)| + 1 + c);
    ItemAt(ts, PropPlace(ts, f, s, c), table);
  }

  /** The first token after the BEGIN_NODE token of a node that is neither a property nor a NOP. */
  lemma {:induction false} AfterProps(ts: seq<Token>, table: Bytes, f: Forest, s: Spot, j: int)
    requires Items(ts, table) == Flatten(f) && Has(f, s)
    requires 0 <= NodePlace(ts, f, s) < j < |ts| && !ts[j].Prop? && !ts[j].Nop? && (ts[j].End? ==> j == |ts| - 1)
    requires forall t {:trigger ts[t]} :: NodePlace(ts, f, s) < t < j ==> ts[t].Prop? || ts[t].Nop?
    ensures Kept(ts[j]) && Count(ts[..j]) == |Before(f, s)| + 1 + |At(f, s).props|
  {
    var k, p := NodePlace(ts, f, s), PropPlace(ts, f, s, |At(f, s).props|);
    NodePlaceIs(ts, table, f, s);
    CountStep(ts, k);
    PropPlaceIs(ts, table, f, s, |At(f, s).props|);
    if p <= k {
      CountMono(ts, p, k);
    }
    assert j <= p;
    CountMono(ts, k + 1, j);
    CountMono(ts, j, p);
    if j < p {
      CountStep(ts, j);
      CountMono(ts, j + 1, p);
      AmongProps(ts, table, f, s, j, Count(ts[..j]) - |Before(f, s)| - 1);
    }
  }

  /** A token that is neither NOP nor END, and has the number of property c, is that property. */
  lemma {:induction false} AmongProps(ts: seq<Token>, table: Bytes, f: Forest, s: Spot, j: int, c: int)
    requires Items(ts, table) == Flatten(f) && Has(f, s) && 0 <= c < |At(f, s).props|
    requires 0 <= j < |ts| && Kept(ts[j]) && Count(ts[..j]) == |Before(f, s)| + 1 + c
    ensures ts[j].Prop?
  {
    PropPlaceIs(ts, table, f, s, c);
    PlaceUnique(ts, j);
  }

  /** Only NOP tokens are skipped between one item and the next. */
  lemma {:induction false} SkipNops(ts: seq<Token>, i: int, j: int)
    requires 0 <= i <= j < |ts| && Kept(ts[j]) && forall t {:trigger ts[t]} :: i <= t < j ==> ts[t].Nop?
    ensures Count(ts[..j]) == Count(ts[..i]) && j == Place(ts, Count(ts[..i]))
  {
    NopCount(ts, i, j);
    PlaceUnique(ts, j);
  }

  lemma {:induction false} NopCount(ts: seq<Token>, i: int, j: int)
    requires 0 <= i <= j <= |ts| && forall t {:trigger ts[t]} :: i <= t < j ==> ts[t].Nop?
    ensures Count(ts[..j]) == Count(ts[..i])
    decreases j
  {
    if i < j {
      CountStep(ts, j - 1);
      NopCount(ts, i, j - 1);
    }
  }

  // ----- Replacing tokens -----

  ghost predicate NoEnd(ts: seq<Token>) {
    forall i {:trigger ts[i].End?} :: 0 <= i < |ts| ==> !ts[i].End?
  }

  lemma {:induction false} ItemsSpliced(ts: seq<Token>, table: Bytes, i: int, j: int, us: seq<Token>, a: int, b: int)
    requires 0 <= i <= j <= |ts| && a == Count(ts[..i]) && b == Count(ts[..j])
    ensures 0 <= a <= b <= |Items(ts, table)|
    ensures Items(ts[..i] + us + ts[j..], table) == Cut(Items(ts, table), a, b, Items(us, table))
  {
    ItemsPrefix(ts, i, table);
    ItemsPrefix(ts, j, table);
    CountMono(ts, i, j);
    ItemsJoin(ts[..i], us, table);
    ItemsJoin(ts[..i] + us, ts[j..], table);
  }

  /** The tokens stand for the edited tree if their items are those of the edited tree. */
  lemma {:induction false} StandsSpliced(ts: seq<Token>, table: Bytes, f: Forest, i: int, j: int, us: seq<Token>,
                                         a: int, b: int, f': Forest)
    requires Stands(ts, table, f) && 0 <= i <= j < |ts| && a == Count(ts[..i]) && b == Count(ts[..j])
    requires AllOk(us) && Resolved(us, table) && NoEnd(us)
    requires 0 <= a <= b <= |Flatten(f)| && Cut(Flatten(f), a, b, Items(us, table)) == Flatten(f')
    ensures Stands(ts[..i] + us + ts[j..], table, f')
  {
    ItemsSpliced(ts, table, i, j, us, a, b);
    var ts' := ts[..i] + us + ts[j..];
    var d := i + |us| - j;
    forall k | 0 <= k < |ts'|
      ensures TokenOk(ts'[k]) && (ts'[k].Prop? ==> Terminated(table, ts'[k].nameoff))
      ensures ts'[k].End? <==> k == |ts'| - 1
    {
      assert ts'[k] == if k < i then ts[k] else if k < i + |us| then us[k - i] else ts[k - d];
    }
  }

  lemma {:induction false} NameKept(table: Bytes, more: Bytes, o: int)
    requires Terminated(table, o)
    ensures NameAt(table + more, o) == NameAt(table, o) && Terminated(table + more, o)
  {
    StringKept([], table, more, o, NameAt(table, o));
    assert [] + table + more == table + more;
    NameAtIs(table + more, o, NameAt(table, o));
  }

  /** Strings added at the end of the table do not change what the tokens stand for. */
  lemma {:induction false} StandsMore(ts: seq<Token>, table: Bytes, f: Forest, more: Bytes)
    requires Stands(ts, table, f)
    ensures Stands(ts, table + more, f)
  {
    forall i {:trigger ts[i]} | 0 <= i < |ts| && ts[i].Prop?
      ensures NameAt(table, ts[i].nameoff) == NameAt(table + more, ts[i].nameoff)
              && Terminated(table + more, ts[i].nameoff)
    {
      NameKept(table, more, ts[i].nameoff);
    }
    ItemsSame(ts, table, table + more);
  }
}
