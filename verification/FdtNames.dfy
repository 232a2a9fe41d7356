/** The path of a node as text, and back (fdt_get_path and fdt_path_offset). */
module FdtNames {
  import opened FdtFormat
  import opened FdtTree
  import opened FdtTokens
  import opened FdtEdits
  import opened FdtMerge
  import opened FdtBlob
  import opened FdtWalk
  import opened FdtPaths

  // ----- The names above a node -----

  function Push(st: seq<Bytes>, i: Item): seq<Bytes> {
    match i case Open(n) => st + [n] case Attr(_) => st case Close => if |st| > 0 then st[..|st| - 1] else st
  }

  /** The names of the nodes that are open after the items. */
  function Fold(st: seq<Bytes>, s: seq<Item>): seq<Bytes>
    decreases |s|
  {
    if |s| == 0 then st else Fold(Push(st, s[0]), s[1..])
  }

  lemma {:induction false} FoldJoin(st: seq<Bytes>, s: seq<Item>, t: seq<Item>)
    ensures Fold(st, s + t) == Fold(Fold(st, s), t)
    decreases |s|
  {
    if |s| == 0 {
      assert s + t == t;
    } else {
      assert (s + t)[1..] == s[1..] + t;
      FoldJoin(Push(st, s[0]), s[1..], t);
    }
  }

  lemma {:induction false} FoldOne(st: seq<Bytes>, i: Item)
    ensures Fold(st, [i]) == Push(st, i)
  {
    assert |[i][1..]| == 0;
  }

  lemma {:induction false} FoldAttrs(st: seq<Bytes>, s: seq<Item>)
    requires forall i :: 0 <= i < |s| ==> s[i].Attr?
    ensures Fold(st, s) == st
    decreases |s|
  {
    if |s| > 0 {
      FoldAttrs(st, s[1..]);
    }
  }

  lemma {:induction false} FoldHead(st: seq<Bytes>, name: Bytes, props: seq<Property>, rest: seq<Item>)
    ensures Fold(st, [Open(name)] + Attrs(props) + rest) == Fold(st + [name], rest)
  {
    FoldJoin(st, [Open(name)] + Attrs(props), rest);
    FoldJoin(st, [Open(name)], Attrs(props));
    FoldOne(st, Open(name));
    FoldAttrs(st + [name], Attrs(props));
  }

  lemma {:induction false} FoldNode(st: seq<Bytes>, name: Bytes, props: seq<Property>, kids: Forest)
    ensures Fold(st, FlatNode(name, props, kids)) == st
    decreases kids, 1
  {
    assert FlatNode(name, props, kids) == [Open(name)] + Attrs(props) + (Flatten(kids) + [Close]);
    FoldHead(st, name, props, Flatten(kids) + [Close]);
    FoldForest(st + [name], kids);
    FoldJoin(st + [name], Flatten(kids), [Close]);
    FoldOne(st + [name], Close);
  }

  lemma {:induction false} FoldForest(st: seq<Bytes>, f: Forest)
    ensures Fold(st, Flatten(f)) == st
    decreases f, 0
  {
    if f.Node? {
      FoldNode(st, f.name, f.props, f.kids);
      FoldForest(st, f.next);
      FoldJoin(st, FlatNode(f.name, f.props, f.kids), Flatten(f.next));
    }
  }

  /** The names of the nodes above the node at s, from the root on. */
  function Ups(f: Forest, s: Spot): (ns: seq<Bytes>)
    requires Has(f, s)
    ensures |ns| == Depth(s)
  {
    match s case Here => [] case Down(q) => [f.name] + Ups(f.kids, q) case Next(q) => Ups(f.next, q)
  }

  /** The names on the path to the node at s, its own included. */
  function Names(f: Forest, s: Spot): (ns: seq<Bytes>)
    requires Has(f, s)
    ensures |ns| == Depth(s) + 1
  {
    Ups(f, s) + [At(f, s).name]
  }

  lemma {:induction false} FoldBefore(st: seq<Bytes>, f: Forest, s: Spot)
    requires Has(f, s)
    ensures Fold(st, Before(f, s)) == st + Ups(f, s)
    decreases s
  {
    match s
    case Here =>
    case Down(q) =>
      FoldHead(st, f.name, f.props, Before(f.kids, q));
      FoldBefore(st + [f.name], f.kids, q);
    case Next(q) =>
      FoldNode(st, f.name, f.props, f.kids);
      FoldJoin(st, FlatNode(f.name, f.props, f.kids), Before(f.next, q));
      FoldBefore(st, f.next, q);
  }

  /** The names of the nodes that are open before token k. */
  function Stack(ts: seq<Token>, k: int): seq<Bytes>
    requires 0 <= k <= |ts|
  {
    Fold([], Items(ts[..k], []))
  }

  lemma {:induction false} FoldAnyTable(st: seq<Bytes>, ts: seq<Token>, table: Bytes)
    ensures Fold(st, Items(ts, table)) == Fold(st, Items(ts, []))
    decreases |ts|
  {
    if |ts| > 0 {
      var rest, rest' := Items(ts[1..], table), Items(ts[1..], []);
      if Kept(ts[0]) {
        var i, i' := ItemOf(ts[0], table), ItemOf(ts[0], []);
        FoldJoin(st, [i], rest);
        FoldJoin(st, [i'], rest');
        FoldOne(st, i);
        FoldOne(st, i');
        FoldAnyTable(Push(st, i), ts[1..], table);
      } else {
        assert [] + rest == rest && [] + rest' == rest';
        FoldAnyTable(st, ts[1..], table);
      }
    }
  }

  lemma {:induction false} StackStep(ts: seq<Token>, k: int)
    requires 0 <= k < |ts|
    ensures Stack(ts, k + 1) == if Kept(ts[k]) then Push(Stack(ts, k), ItemOf(ts[k], [])) else Stack(ts, k)
  {
    assert ts[..k + 1] == ts[..k] + [ts[k]];
    ItemsJoin(ts[..k], [ts[k]], []);
    ItemsOne(ts[k], []);
    FoldJoin([], Items(ts[..k], []), Items([ts[k]], []));
    if Kept(ts[k]) {
      FoldOne(Stack(ts, k), ItemOf(ts[k], []));
    }
  }

  lemma {:induction false} NodeStack(ts: seq<Token>, table: Bytes, f: Forest, s: Spot)
    requires Items(ts, table) == Flatten(f) && Has(f, s)
    ensures var k := NodePlace(ts, f, s);
            && 0 <= k < |ts| && ts[k].BeginNode? && Stack(ts, k) == Ups(f, s) && Stack(ts, k + 1) == Names(f, s)
  {
    var k := NodePlace(ts, f, s);
    NodePlaceIs(ts, table, f, s);
    FoldAnyTable([], ts[..k], table);
    FoldBefore([], f, s);
    assert [] + Ups(f, s) == Ups(f, s);
    StackStep(ts, k);
  }

  /** Where no node is opened, nodes are only closed. */
  lemma {:induction false} OnlyPops(ts: seq<Token>, i: int, j: int)
    requires 0 <= i <= j <= |ts| && forall t {:trigger ts[t]} :: i <= t < j ==> !ts[t].BeginNode?
    ensures |Stack(ts, j)| <= |Stack(ts, i)| && Stack(ts, j) == Stack(ts, i)[..|Stack(ts, j)|]
    decreases j
  {
    if i < j {
      OnlyPops(ts, i, j - 1);
      StackStep(ts, j - 1);
    }
  }

  // ----- Spelling a path -----

  /** The names, each followed by a slash. */
  function Spell(ns: seq<Bytes>): Bytes {
    if |ns| == 0 then [] else Spell(ns[..|ns| - 1]) + ns[|ns| - 1] + [SLASH]
  }

  /** How many of the names can be spelled in n bytes. */
  function Fit(ns: seq<Bytes>, n: int): (m: nat)
    ensures m <= |ns|
  {
    if |ns| == 0 then 0
    else
      var m := Fit(ns[..|ns| - 1], n);
      if m == |ns| - 1 && |Spell(ns)| <= n then |ns| else m
  }

  lemma {:induction false} FitPrefix(ns: seq<Bytes>, n: int, d: int)
    requires 0 <= d <= |ns|
    ensures Fit(ns[..d], n) == if Fit(ns, n) <= d then Fit(ns, n) else d
    decreases |ns|
  {
    if d < |ns| {
      var us := ns[..|ns| - 1];
      FitPrefix(us, n, d);
      assert us[..d] == ns[..d];
    } else {
      assert ns[..d] == ns;
    }
  }

  lemma {:induction false} SpellGrows(ns: seq<Bytes>, d: int)
    requires 0 <= d <= |ns|
    ensures |Spell(ns[..d])| <= |Spell(ns)|
    decreases |ns|
  {
    if d < |ns| {
      var us := ns[..|ns| - 1];
      SpellGrows(us, d);
      assert us[..d] == ns[..d];
    } else {
      assert ns[..d] == ns;
    }
  }

  lemma {:induction false} FitAll(ns: seq<Bytes>, n: int)
    requires |ns| > 0
    ensures Fit(ns, n) == |ns| <==> |Spell(ns)| <= n
    decreases |ns|
  {
    var us := ns[..|ns| - 1];
    if |us| > 0 {
      FitAll(us, n);
    }
    SpellGrows(ns, |us|);
  }

  ghost predicate Slashless(ns: seq<Bytes>) {
    forall i :: 0 <= i < |ns| ==> SLASH !in ns[i]
  }

  /** No name in the tree has a slash. */
  ghost predicate AllSlashless(f: Forest) {
    match f case Empty => true case Node(n, _, kids, next) => SLASH !in n && AllSlashless(kids) && AllSlashless(next)
  }

  lemma {:induction false} NamesSlashless(f: Forest, s: Spot)
    requires Has(f, s) && AllSlashless(f)
    ensures Slashless(Names(f, s))
    decreases s
  {
    match s
    case Here =>
    case Down(q) =>
      NamesSlashless(f.kids, q);
      assert Names(f, s) == [f.name] + Names(f.kids, q);
    case Next(q) => NamesSlashless(f.next, q);
  }

  // ----- The buffer -----

  ghost predicate Heard(ns: seq<Bytes>) {
    true
  }

  ghost predicate ShowsOpen(m: Bytes, p: int, pdepth: int, ns: seq<Bytes>, buflen: int) {
    && pdepth == Fit(ns, buflen) && Prefix(m, p, ns, pdepth) && p <= buflen
  }

  /** The first p bytes spell as many of the names as fit. */
  ghost predicate Shows(m: Bytes, p: int, pdepth: int, ns: seq<Bytes>, buflen: int) {
    forall us {:trigger Heard(us)} :: us == ns ==> ShowsOpen(m, p, pdepth, us, buflen)
  }

  ghost predicate Prefix(m: Bytes, p: int, ns: seq<Bytes>, d: int) {
    0 <= d <= |ns| && 0 <= p <= |m| && m[..p] == Spell(ns[..d])
  }

  lemma {:induction false} FirstShow(m: Bytes, buflen: int)
    requires 0 <= buflen
    ensures Shows(m, 0, 0, [], buflen)
  {
    assert ShowsOpen(m, 0, 0, [], buflen);
  }

  lemma {:induction false} PrefixLast(m: Bytes, p: int, ns: seq<Bytes>, d: int)
    requires Prefix(m, p, ns, d) && d >= 2 && SLASH !in ns[d - 1]
    ensures var n := |Spell(ns[..d - 1])|;
            && 0 < n && p == n + |ns[d - 1]| + 1 && m[n - 1] == SLASH && Prefix(m, n, ns, d - 1)
            && forall x {:trigger m[x]} :: n <= x < p - 1 ==> m[x] != SLASH
  {
    var us, last := ns[..d - 1], ns[d - 1];
    assert ns[..d][..d - 1] == us && ns[..d][d - 1] == last;
    var w := Spell(us);
    assert m[..p] == w + last + [SLASH];
    var n := |w|;
    assert m[..n] == m[..p][..n] == w;
    assert w[n - 1] == SLASH && m[n - 1] == m[..p][n - 1];
    forall x {:trigger m[x]} | n <= x < p - 1 ensures m[x] != SLASH {
      assert m[x] == m[..p][x] == last[x - n];
    }
  }

  /** Takes the last name away. */
  method Pop(buf: array<int>, p: int, ghost ns: seq<Bytes>, ghost d: int) returns (q: int)
    requires Prefix(buf[..], p, ns, d) && d >= 2 && SLASH !in ns[d - 1]
    ensures Prefix(buf[..], q, ns, d - 1) && q < p
  {
    PrefixLast(buf[..], p, ns, d);
    ghost var n := |Spell(ns[..d - 1])|;
    assert forall x {:trigger buf[x]} :: 0 <= x < buf.Length ==> buf[x] == buf[..][x];
    q := p - 1;
    while buf[q - 1] != SLASH
      invariant n <= q <= p - 1 && 0 < n
      decreases q
    {
      q := q - 1;
    }
  }

  /** Takes names away until those of the nodes above are left. */
  method PopTo(buf: array<int>, p0: int, pdepth0: int, depth: int, buflen: int,
               ghost ns: seq<Bytes>) returns (p: int, pdepth: int)
    requires Shows(buf[..], p0, pdepth0, ns, buflen) && Slashless(ns) && 0 <= depth <= |ns| && (depth == 0 ==> ns == [])
    ensures Shows(buf[..], p, pdepth, ns[..depth], buflen) && pdepth <= depth
  {
    assert Heard(ns);
    p, pdepth := p0, pdepth0;
    while pdepth > depth
      invariant Prefix(buf[..], p, ns, pdepth) && p <= buflen
      invariant pdepth0 <= depth ==> pdepth == pdepth0
      invariant pdepth0 > depth ==> depth <= pdepth
    {
      p := Pop(buf, p, ns, pdepth);
      pdepth := pdepth - 1;
    }
    FitPrefix(ns, buflen, depth);
    assert ns[..depth][..pdepth] == ns[..pdepth];
    assert ShowsOpen(buf[..], p, pdepth, ns[..depth], buflen);
  }

  lemma {:induction false} NamePut(m: Bytes, p: int, ns: seq<Bytes>, name: Bytes, m': Bytes, q: int)
    requires Prefix(m, p, ns, |ns|) && q == p + |name| && q + 1 <= |m|
    requires m' == Put(Put(m, p, name), q, [SLASH])
    ensures Prefix(m', q + 1, ns + [name], |ns| + 1)
  {
    var us := ns + [name];
    assert us[..|us|] == us && us[..|us| - 1] == ns && ns[..|ns|] == ns;
    assert m'[..q + 1] == m[..p] + name + [SLASH];
  }

  /** Adds a name if there is room. */
  method Add(buf: array<int>, name: Bytes, p0: int, pdepth0: int, buflen: int, ghost ns: seq<Bytes>) returns (p: int,
             pdepth: int)
    requires Shows(buf[..], p0, pdepth0, ns, buflen) && pdepth0 == |ns| && buflen <= buf.Length
    modifies buf
    ensures Shows(buf[..], p, pdepth, ns + [name], buflen)
  {
    assert Heard(ns);
    p, pdepth := p0, pdepth0;
    ghost var us := ns + [name];
    assert us[..|us| - 1] == ns && ns[..|ns|] == ns && us[..|us|] == us;
    if p + |name| + 1 <= buflen {
      ghost var m := buf[..];
      CopyIn(buf, p, name);
      CopyIn(buf, p + |name|, [SLASH]);
      NamePut(m, p, ns, name, buf[..], p + |name|);
      p := p + |name| + 1;
      pdepth := pdepth + 1;
    }
    assert us[..pdepth] == if pdepth <= |ns| then ns[..pdepth] else us;
    assert ShowsOpen(buf[..], p, pdepth, us, buflen);
  }

  method CopyIn(buf: array<int>, p: int, e: Bytes)
    requires 0 <= p && p + |e| <= buf.Length
    modifies buf
    ensures buf[..] == Put(old(buf[..]), p, e)
  {
    forall i | 0 <= i < |e| {
      buf[p + i] := e[i];
    }
  }

  /** The path as text: without the last slash, unless it is all there is. */
  function Text(ns: seq<Bytes>): Bytes {
    var t := Spell(ns);
    if |t| > 1 then t[..|t| - 1] else t
  }

  /** The tree can be asked for the path of whatever is at offset o. */
  ghost predicate Askable(b: Blob, o: int, k: int)
    reads b, b.buf
  {
    && Rooted(b) && b.Points(o, k) && AllSlashless(b.forest) && Has(b.forest, b.Spot(0))
    && 0 <= b.EndOf(0) < |b.toks| && o < Offset(b.toks, b.EndOf(0))
  }

  /** The buffer after node h, or at the start, and the names above node i, which is next. */
  ghost predicate Turn(b: Blob, i: int, offset: int, depth: int, ns: seq<Bytes>)
    requires Rooted(b)
    reads b, b.buf
  {
    && Slashless(ns)
    && (b.IsNode(i) ==>
          && Visits(b, i, offset, depth) && 0 <= depth <= |ns| && Stack(b.toks, i) == ns[..depth]
          && (depth == 0 ==> ns == []))
  }

  lemma {:induction false} FirstTurn(b: Blob)
    requires Rooted(b)
    ensures Turn(b, 0, 0, 0, [])
  {
    RootVisit(b, 0);
    assert |b.toks[..0]| == 0;
  }

  lemma {:induction false} HereNames(b: Blob, i: int)
    requires Rooted(b) && b.IsNode(i) && AllSlashless(b.forest)
    ensures Has(b.forest, b.Spot(i)) && Stack(b.toks, i) == Ups(b.forest, b.Spot(i))
            && Stack(b.toks, i + 1) == Names(b.forest, b.Spot(i))
    ensures Slashless(Names(b.forest, b.Spot(i))) && Level(b.toks, i) == Depth(b.Spot(i))
  {
    b.Opened();
    b.NodeHere(i);
    NodeStack(b.toks, b.Strings(), b.forest, b.Spot(i));
    NamesSlashless(b.forest, b.Spot(i));
  }

  lemma {:induction false} NextTurn(b: Blob, i: int, j: int, r: int, d: int, ns: seq<Bytes>)
    requires Rooted(b) && b.IsNode(i) && AllSlashless(b.forest) && Has(b.forest, b.Spot(i))
             && ns == Names(b.forest, b.Spot(i))
    requires i < j < |b.toks| && forall t {:trigger b.toks[t]} :: i < t < j ==> !b.toks[t].BeginNode?
    requires b.IsNode(j) ==> Visits(b, j, r, d)
    ensures Turn(b, j, r, d, ns)
  {
    HereNames(b, i);
    if b.IsNode(j) {
      HereNames(b, j);
      OnlyPops(b.toks, i + 1, j);
      AllInRoot(b, j);
      b.NodeHere(0);
      assert Level(b.toks, j) > 0;
    }
  }

  ghost predicate DueOpen(b: Blob, o: int, k: int, i: int, offset: int, depth: int, ns: seq<Bytes>)
    requires Rooted(b)
    reads b, b.buf
  {
    && 0 <= i < |b.toks| && 0 <= offset
    && if offset <= o then b.IsNode(i) && Turn(b, i, offset, depth, ns) && (b.IsNode(k) ==> i <= k) else !b.IsNode(k)
  }

  /** Node i is next on the way to offset o, or there is no node at offset o. */
  ghost predicate Due(b: Blob, o: int, k: int, i: int, offset: int, depth: int, ns: seq<Bytes>)
    requires Rooted(b)
    reads b, b.buf
  {
    forall f {:trigger Looked(f)} :: f == b.forest ==> DueOpen(b, o, k, i, offset, depth, ns)
  }

  lemma {:induction false} FirstDue(b: Blob, o: int, k: int)
    requires Askable(b, o, k)
    ensures Due(b, o, k, 0, 0, 0, [])
  {
    FirstTurn(b);
    if b.IsNode(k) {
      b.Opened();
      b.PointsAt(k);
    }
    assert DueOpen(b, o, k, 0, 0, 0, []);
  }

  /** Adds the name of node i, after taking away the names that are not above it. */
  method Visit(b: Blob, offset: int, depth: int, o: int, buf: array<int>, buflen: int, p0: int, pdepth0: int,
               ghost k: int, ghost i: int, ghost ns: seq<Bytes>)
    returns (p: int, pdepth: int, ghost us: seq<Bytes>)
    requires Askable(b, o, k) && Due(b, o, k, i, offset, depth, ns) && offset <= o && buf != b.buf
    requires Shows(buf[..], p0, pdepth0, ns, buflen) && buflen <= buf.Length
    modifies buf
    ensures Shows(buf[..], p, pdepth, us, buflen) && b.IsNode(i) && Has(b.forest, b.Spot(i))
            && us == Names(b.forest, b.Spot(i))
  {
    assert Looked(b.forest);
    HereNames(b, i);
    us := Names(b.forest, b.Spot(i));
    p, pdepth := PopTo(buf, p0, pdepth0, depth, buflen, ns);
    if pdepth >= depth {
      var name := GetName(b, offset, i);
      p, pdepth := Add(buf, name, p, pdepth, buflen, ns[..depth]);
    } else {
      NoAdd(buf[..], p, pdepth, ns[..depth], us, buflen);
    }
  }

  /** On to the next node. */
  method Onward(b: Blob, offset: int, depth: int, o: int, ghost k: int, ghost i: int, ghost ns: seq<Bytes>,
                ghost us: seq<Bytes>)
    returns (r: int, d: int, ghost j: int)
    requires Askable(b, o, k) && Due(b, o, k, i, offset, depth, ns) && offset < o
    requires b.IsNode(i) && Has(b.forest, b.Spot(i)) && us == Names(b.forest, b.Spot(i))
    ensures 0 <= r && Due(b, o, k, j, r, d, us) && i < j < |b.toks|
  {
    assert Looked(b.forest);
    AllInRoot(b, i);
    if b.IsNode(k) {
      AllInRoot(b, k);
      VisitEqual(b, i, offset, depth, o, k);
    }
    r, d, j := Step(b, offset, depth, i);
    NextTurn(b, i, j, r, d, us);
    if b.IsNode(k) {
      if j < k {
        OffsetMono(b.toks, j, k);
      }
    } else if r <= o && !b.IsNode(j) {
      assert false;
    }
    assert DueOpen(b, o, k, j, r, d, us);
  }

  lemma {:induction false} NoAdd(m: Bytes, p: int, pdepth: int, ns: seq<Bytes>, us: seq<Bytes>, buflen: int)
    requires Shows(m, p, pdepth, ns, buflen) && pdepth < |ns| && |us| == |ns| + 1 && us[..|ns|] == ns
    ensures Shows(m, p, pdepth, us, buflen)
  {
    assert Heard(ns);
    assert us[..pdepth] == ns[..pdepth];
    assert ShowsOpen(m, p, pdepth, us, buflen);
  }

  /** Ends the text. */
  method EndText(buf: array<int>, p0: int, ghost ns: seq<Bytes>)
    requires Prefix(buf[..], p0, ns, |ns|) && 0 < p0 && 2 <= buf.Length
    modifies buf
    ensures |Text(ns)| < buf.Length && buf[..|Text(ns)| + 1] == Text(ns) + [0]
  {
    var p := p0;
    assert ns[..|ns|] == ns;
    ghost var t := Spell(ns);
    assert buf[..p] == t;
    if p > 1 {
      p := p - 1;
    }
    assert buf[..p] == Text(ns);
    buf[p] := 0;
  }

  ghost predicate ToldOpen(m: Bytes, ns: seq<Bytes>, buflen: int, r: int) {
    && r == (if |Spell(ns)| <= buflen then 0 else -NOSPACE)
    && (r == 0 ==> |Text(ns)| < |m| && m[..|Text(ns)| + 1] == Text(ns) + [0])
  }

  /** The answer r and the contents m of the buffer are right for a path of these names. */
  ghost predicate Told(m: Bytes, ns: seq<Bytes>, buflen: int, r: int) {
    forall us {:trigger Heard(us)} :: us == ns ==> ToldOpen(m, us, buflen, r)
  }

  /** The walk is at the node that was asked for. */
  method Deliver(buf: array<int>, p: int, pdepth: int, depth: int, buflen: int, ghost ns: seq<Bytes>) returns (r: int)
    requires Shows(buf[..], p, pdepth, ns, buflen) && |ns| == depth + 1 && 2 <= buflen <= buf.Length && 0 <= depth
    modifies buf
    ensures Told(buf[..], ns, buflen, r)
  {
    assert Heard(ns);
    FitAll(ns, buflen);
    if pdepth < depth + 1 {
      assert ToldOpen(buf[..], ns, buflen, -NOSPACE);
      return -NOSPACE;
    }
    SpellSome(ns);
    EndText(buf, p, ns);
    r := 0;
    assert ToldOpen(buf[..], ns, buflen, r);
  }

  lemma {:induction false} Reached(b: Blob, o: int, k: int, i: int, offset: int, depth: int, ns: seq<Bytes>)
    requires Askable(b, o, k) && Due(b, o, k, i, offset, depth, ns) && offset == o
    ensures i == k && b.IsNode(k) && Has(b.forest, b.Spot(k)) && depth == Depth(b.Spot(k))
  {
    assert Looked(b.forest);
    b.NodeHere(0);
    VisitEqual(b, i, offset, depth, o, k);
    b.NodeHere(k);
  }

  lemma {:induction false} Missed(b: Blob, o: int, k: int, i: int, offset: int, depth: int, ns: seq<Bytes>)
    requires Askable(b, o, k) && Due(b, o, k, i, offset, depth, ns) && o < offset
    ensures !b.IsNode(k)
  {
    assert Looked(b.forest);
  }

  /** fdt_get_path */
  method GetPath(b: Blob, o: int, buf: array<int>, buflen: int, ghost k: int) returns (r: int)
    requires Askable(b, o, k) && buf != b.buf && buflen <= buf.Length
    modifies buf
    ensures buflen < 2 ==> r == -NOSPACE
    ensures buflen >= 2 && !b.IsNode(k) ==> r == -BADOFFSET
    ensures buflen >= 2 && b.IsNode(k) ==>
              Has(b.forest, b.Spot(k)) && Told(buf[..], Names(b.forest, b.Spot(k)), buflen, r)
  {
    if buflen < 2 {
      return -NOSPACE;
    }
    var offset, depth, p, pdepth := 0, 0, 0, 0;
    ghost var i, ns: seq<Bytes> := 0, [];
    FirstDue(b, o, k);
    FirstShow(buf[..], buflen);
    while 0 <= offset <= o
      invariant 0 <= offset && Due(b, o, k, i, offset, depth, ns) && Shows(buf[..], p, pdepth, ns, buflen)
                && i < |b.toks|
      decreases |b.toks| - i
    {
      ghost var us;
      p, pdepth, us := Visit(b, offset, depth, o, buf, buflen, p, pdepth, k, i, ns);
      if offset == o {
        Reached(b, o, k, i, offset, depth, ns);
        r := Deliver(buf, p, pdepth, depth, buflen, us);
        return;
      }
      offset, depth, i := Onward(b, offset, depth, o, k, i, ns, us);
      ns := us;
    }
    Missed(b, o, k, i, offset, depth, ns);
    r := -BADOFFSET;
  }

  lemma {:induction false} SpellSome(ns: seq<Bytes>)
    requires |ns| > 0
    ensures |Spell(ns)| > 0 && ns[..|ns|] == ns
  {
  }

  // ----- From a node to its path and back -----

  /** A slash before each name. */
  function Slashed(ns: seq<Bytes>): Bytes {
    if |ns| == 0 then [] else [SLASH] + ns[0] + Slashed(ns[1..])
  }

  lemma {:induction false} SpellCons(ns: seq<Bytes>)
    requires |ns| > 0
    ensures Spell(ns) == ns[0] + [SLASH] + Spell(ns[1..])
    decreases |ns|
  {
    var n := |ns| - 1;
    if n > 0 {
      SpellCons(ns[..n]);
      assert ns[1..][..n - 1] == ns[..n][1..] && ns[1..][n - 1] == ns[n];
      var u, v := ns[0] + [SLASH], Spell(ns[..n][1..]);
      assert u + v + ns[n] + [SLASH] == u + (v + ns[n] + [SLASH]);
    } else {
      assert |ns[..n]| == 0 && |ns[1..]| == 0;
    }
  }

  lemma {:induction false} SpellSlashed(ns: seq<Bytes>)
    ensures [SLASH] + Spell(ns) == Slashed(ns) + [SLASH]
    decreases |ns|
  {
    if |ns| > 0 {
      SpellCons(ns);
      SpellSlashed(ns[1..]);
      assert [SLASH] + (ns[0] + [SLASH] + Spell(ns[1..])) == [SLASH] + ns[0] + ([SLASH] + Spell(ns[1..]));
    }
  }

  lemma {:induction false} TextIs(ns: seq<Bytes>)
    requires |ns| > 0 && ns[0] == []
    ensures Text(ns) == if |ns| == 1 then [SLASH] else Slashed(ns[1..])
  {
    SpellCons(ns);
    SpellSlashed(ns[1..]);
    assert Spell(ns) == [SLASH] + Spell(ns[1..]);
    if |ns| > 1 {
      assert |Slashed(ns[1..])| >= 1;
      assert (Slashed(ns[1..]) + [SLASH])[..|Slashed(ns[1..])|] == Slashed(ns[1..]);
    } else {
      assert |ns[1..]| == 0;
    }
  }

  lemma {:induction false} NextSlashFrom(c: Bytes, b: Bytes, n: int, p: int, x: int)
    requires 0 <= p <= |b| && x == n + p && 0 <= n <= |c| && b == c[n..]
    ensures NextSlash(c, x) == n + NextSlash(b, p)
    decreases |b| - p
  {
    if p < |b| {
      assert b[p] == c[x];
      if b[p] != SLASH {
        NextSlashFrom(c, b, n, p + 1, x + 1);
      }
    }
  }

  /** The names after an index depend on what comes after it only. */
  lemma {:induction false} ComponentsFrom(c: Bytes, b: Bytes, n: int, p: int, x: int)
    requires 0 <= p <= |b| && x == n + p && 0 <= n <= |c| && b == c[n..]
    ensures Components(c, x) == Components(b, p)
    decreases |b| - p
  {
    if p < |b| {
      assert b[p] == c[x];
      if b[p] == SLASH {
        ComponentsFrom(c, b, n, p + 1, x + 1);
      } else {
        var q, y := NextSlash(b, p), NextSlash(c, x);
        NextSlashFrom(c, b, n, p, x);
        NextSlashFrom(c, b, n, p + 1, x + 1);
        ComponentsFrom(c, b, n, q, y);
        assert c[x..y] == b[p..q];
      }
    }
  }

  lemma {:induction false} NameEnds(name: Bytes, rest: Bytes, p: int)
    requires 0 <= p <= |name| && SLASH !in name && (rest == [] || rest[0] == SLASH)
    ensures NextSlash(name + rest, p) == |name|
    decreases |name| - p
  {
    if p < |name| {
      assert (name + rest)[p] == name[p] && name[p] in name;
      NameEnds(name, rest, p + 1);
    }
  }

  lemma {:induction false} ComponentsSlashed(ns: seq<Bytes>)
    requires Slashless(ns) && forall i :: 0 <= i < |ns| ==> ns[i] != []
    ensures Components(Slashed(ns), 0) == ns
    decreases |ns|
  {
    if |ns| > 0 {
      var name, rest := ns[0], Slashed(ns[1..]);
      ComponentsSlashed(ns[1..]);
      assert Slashed(ns) == [SLASH] + (name + rest);
      assert Slashed(ns)[1..] == name + rest;
      ComponentsFrom(Slashed(ns), name + rest, 1, 0, 1);
      FirstComponent(name, rest);
      assert ns == [name] + ns[1..];
    }
  }

  lemma {:induction false} FirstComponent(name: Bytes, rest: Bytes)
    requires name != [] && SLASH !in name && (rest == [] || rest[0] == SLASH)
    ensures Components(name + rest, 0) == [name] + Components(rest, 0)
  {
    NameEnds(name, rest, 0);
    assert (name + rest)[0] == name[0] && name[0] in name;
    assert (name + rest)[0..|name|] == name;
    assert (name + rest)[|name|..] == rest;
    ComponentsFrom(name + rest, rest, |name|, 0, |name|);
  }

  /** What is left of a spot below its top. */
  function Rest(q: Spot): (r: Spot)
    ensures Depth(r) == Depth(q) && !r.Next?
  {
    match q case Here => Here case Next(p) => Rest(p) case Down(p) => Down(p)
  }

  lemma {:induction false} TopAndRest(f: Forest, q: Spot)
    requires Has(f, q)
    ensures var a := Ancestor(q, 0);
            && Has(f, a) && Depth(a) == 0 && Extend(a, Rest(q)) == q && Has(At(f, a), Rest(q))
            && Names(f, q) == Names(At(f, a), Rest(q)) && Names(f, q)[0] == At(f, a).name
    decreases q
  {
    match q
    case Here =>
    case Next(p) => TopAndRest(f.next, p);
    case Down(p) =>
  }

  lemma {:induction false} TopOfExtend(q: Spot, w: Spot)
    requires Depth(q) == 0 && !w.Next?
    ensures Ancestor(Extend(q, w), 0) == q
  {
    if q.Next? {
      TopOfExtend(q.after, w);
    }
  }

  lemma {:induction false} ExtendTwice(s: Spot, t: Spot, u: Spot)
    ensures Extend(Extend(s, t), u) == Extend(s, Extend(t, u)) && Extend(s, Here) == s
  {
    match s
    case Here =>
    case Down(q) => ExtendTwice(q, t, u);
    case Next(q) => ExtendTwice(q, t, u);
  }

  lemma {:induction false} ExtendSame(s: Spot, t: Spot, u: Spot)
    requires Extend(s, t) == Extend(s, u)
    ensures t == u
  {
    match s
    case Here =>
    case Down(q) => ExtendSame(q, t, u);
    case Next(q) => ExtendSame(q, t, u);
  }

  /** Every node on the way down to s is the first of its siblings that its name finds. */
  predicate Foremost(g: Forest, s: Spot)
    requires Has(g, s)
    decreases Depth(s)
  {
    match s
    case Here => true
    case Next(_) => false
    case Down(q) =>
      TopAndRest(g.kids, q);
      var a := Ancestor(q, 0);
      FirstKid(g.kids, At(g.kids, a).name) == Some(a) && Foremost(At(g.kids, a), Rest(q))
  }

  lemma {:induction false} ResolveBelow(f: Forest, t: Spot, ns: seq<Bytes>) returns (w: Spot)
    requires Has(f, t) && Resolve(f, t, ns).Some?
    ensures Resolve(f, t, ns) == Some(Extend(t, w)) && !w.Next?
    decreases |ns|
  {
    if |ns| == 0 {
      w := Here;
      ExtendTwice(t, Here, Here);
    } else {
      var q := FirstKid(At(f, t).kids, ns[0]).value;
      BelowHas(f, t, q);
      var v := ResolveBelow(f, Extend(t, Down(q)), ns[1..]);
      w := Extend(Down(q), v);
      ExtendTwice(t, Down(q), v);
    }
  }

  lemma {:induction false} KidMatchesItself(f: Forest, a: Spot)
    requires Has(f, a) && Depth(a) == 0
    ensures FirstKid(f, At(f, a).name).Some?
  {
    FirstKidIs(f, At(f, a).name, a);
  }

  lemma {:induction false} NamesDown(g: Forest, q: Spot)
    requires g.Node? && Has(g.kids, q)
    ensures Names(g, Down(q))[1..] == Names(g.kids, q)
  {
    assert Names(g, Down(q)) == [g.name] + Names(g.kids, q);
  }

  /** The names below the node at t lead from it to the node at s, exactly when they find no other on the way. */
  lemma {:induction false} ResolveExactlyWhen(f: Forest, t: Spot, s: Spot)
    requires Has(f, t) && Has(At(f, t), s) && !s.Next?
    ensures Resolve(f, t, Names(At(f, t), s)[1..]) == Some(Extend(t, s)) <==> Foremost(At(f, t), s)
    decreases Depth(s)
  {
    var g := At(f, t);
    if s.Here? {
      ExtendTwice(t, Here, Here);
      assert |Names(g, s)[1..]| == 0;
    } else {
      var q, a := s.below, Ancestor(s.below, 0);
      TopAndRest(g.kids, q);
      NamesDown(g, q);
      KidMatchesItself(g.kids, a);
      var ns := Names(g.kids, q);
      var p := FirstKid(g.kids, ns[0]).value;
      BelowHas(f, t, p);
      BelowHas(f, t, a);
      ExtendTwice(t, Down(a), Rest(q));
      if p == a {
        ResolveExactlyWhen(f, Extend(t, Down(a)), Rest(q));
      } else if Resolve(f, t, ns) == Some(Extend(t, s)) {
        var w := ResolveBelow(f, Extend(t, Down(p)), ns[1..]);
        ExtendTwice(t, Down(p), w);
        ExtendSame(t, Down(Extend(p, w)), s);
        TopOfExtend(p, w);
      }
    }
  }

  lemma {:induction false} NamesHead(f: Forest, s: Spot)
    requires Has(f, s) && !s.Next?
    ensures Names(f, s)[0] == f.name
  {
  }

  /**
   * The text of a node's path, taken apart, leads back to the node exactly when no name on it finds another node
   * first.
   */
  lemma {:induction false} PathRoundTrip(f: Forest, s: Spot)
    requires Has(f, s) && !s.Next? && f.name == [] && AllSlashless(f)
    requires forall i :: 1 <= i < |Names(f, s)| ==> Names(f, s)[i] != []
    ensures var text := Text(Names(f, s));
            && |text| > 0 && text[0] == SLASH && Components(text, 0) == Names(f, s)[1..]
            && (Resolve(f, Here, Components(text, 0)) == Some(s) <==> Foremost(f, s))
  {
    var ns := Names(f, s);
    NamesSlashless(f, s);
    NamesHead(f, s);
    TextIs(ns);
    if |ns| > 1 {
      ComponentsSlashed(ns[1..]);
    } else {
      assert |ns[1..]| == 0;
      assert Components([SLASH], 0) == Components([SLASH], 1);
    }
    ResolveExactlyWhen(f, Here, s);
  }

  // ----- Names alone -----

  /** No later sibling is found by way of this name. */
  predicate Unfound(name: Bytes, later: Forest) {
    match later case Empty => true case Node(m, _, _, next) => !Matches(name, m) && Unfound(name, next)
  }

  /** No sibling has the name of a later one, or that name with a unit address; and so on below. */
  predicate Clean(f: Forest) {
    match f case Empty => true case Node(n, _, kids, next) => Unfound(n, next) && Clean(kids) && Clean(next)
  }

  lemma {:induction false} UnfoundAt(name: Bytes, later: Forest, a: Spot)
    requires Unfound(name, later) && Has(later, a) && Depth(a) == 0
    ensures !Matches(name, At(later, a).name)
  {
    if a.Next? {
      UnfoundAt(name, later.next, a.after);
    }
  }

  lemma {:induction false} CleanFirst(f: Forest, a: Spot)
    requires Clean(f) && Has(f, a) && Depth(a) == 0
    ensures FirstKid(f, At(f, a).name) == Some(a) && Clean(At(f, a).kids)
  {
    match a
    case Here => assert Matches(f.name, f.name);
    case Next(p) =>
      UnfoundAt(f.name, f.next, p);
      CleanFirst(f.next, p);
  }

  lemma {:induction false} CleanForemost(g: Forest, s: Spot)
    requires Has(g, s) && !s.Next? && Clean(g.kids)
    ensures Foremost(g, s)
    decreases Depth(s)
  {
    if s.Down? {
      TopAndRest(g.kids, s.below);
      var a := Ancestor(s.below, 0);
      CleanFirst(g.kids, a);
      CleanForemost(At(g.kids, a), Rest(s.below));
    }
  }

  lemma {:induction false} FoundLater(name: Bytes, later: Forest) returns (a: Spot)
    requires !Unfound(name, later)
    ensures Has(later, a) && Depth(a) == 0 && Matches(name, At(later, a).name)
  {
    if Matches(name, later.name) {
      a := Here;
    } else {
      a := FoundLater(name, later.next);
      a := Next(a);
    }
  }

  lemma {:induction false} DepthZero(a: Spot)
    requires Depth(a) == 0
    ensures Ancestor(a, 0) == a && Rest(a) == Here
  {
    if a.Next? {
      DepthZero(a.after);
    }
  }

  /** Among siblings that are not clean, some node is not found by its names. */
  lemma {:induction false} NotForemost(g: Forest) returns (q: Spot)
    requires g.Node? && !Clean(g.kids)
    ensures Has(g.kids, q) && !Foremost(g, Down(q))
    decreases g.kids
  {
    var f := g.kids;
    if !Unfound(f.name, f.next) {
      var a := FoundLater(f.name, f.next);
      q := Next(a);
      DepthZero(q);
      assert FirstKid(f, At(f, q).name) == Some(Here);
    } else if !Clean(f.kids) {
      q := NotForemost(f);
      q := Down(q);
      TopAndRest(f, q);
    } else {
      var h := f.(kids := f.next);
      var p := NotForemost(h);
      q := Next(p);
      TopAndRest(f.next, p);
      TopAndRest(f, q);
      var a := Ancestor(p, 0);
      assert Ancestor(q, 0) == Next(a) && Rest(q) == Rest(p) && At(f, Next(a)) == At(f.next, a);
    }
  }

  /** Every node is found by its own path exactly when the names of siblings are clean. */
  lemma {:induction false} CleanExactlyWhen(g: Forest)
    requires g.Node?
    ensures Clean(g.kids) <==> forall s :: Has(g, s) && !s.Next? ==> Foremost(g, s)
  {
    if Clean(g.kids) {
      forall s | Has(g, s) && !s.Next? ensures Foremost(g, s) {
        CleanForemost(g, s);
      }
    } else {
      var q := NotForemost(g);
      var s := Down(q);
      assert Has(g, s) && !Foremost(g, s);
    }
  }

  // ----- The round trip in memory -----

  ghost predicate Zeroless(f: Forest) {
    forall t {:trigger Has(f, t)} :: Has(f, t) ==> 0 !in At(f, t).name
  }

  lemma {:induction false} NodesZeroless(b: Blob)
    requires b.Valid()
    ensures Zeroless(b.forest)
  {
    b.Opened();
    forall t {:trigger Has(b.forest, t)} | Has(b.forest, t) ensures 0 !in At(b.forest, t).name {
      NodePlaceIs(b.toks, b.Strings(), b.forest, t);
      NameRoom(b, NodePlace(b.toks, b.forest, t));
    }
  }

  lemma {:induction false} NamesZeroless(f: Forest, s: Spot)
    requires Has(f, s) && Zeroless(f)
    ensures forall i :: 0 <= i < |Names(f, s)| ==> 0 !in Names(f, s)[i]
    decreases s
  {
    match s
    case Here => assert Has(f, Here) && At(f, Here) == f;
    case Down(q) =>
      forall t {:trigger Has(f.kids, t)} | Has(f.kids, t) ensures 0 !in At(f.kids, t).name {
        assert Has(f, Down(t)) && At(f, Down(t)) == At(f.kids, t);
      }
      NamesZeroless(f.kids, q);
      assert Has(f, Here) && At(f, Here) == f;
      assert Names(f, s) == [f.name] + Names(f.kids, q);
    case Next(q) =>
      forall t {:trigger Has(f.next, t)} | Has(f.next, t) ensures 0 !in At(f.next, t).name {
        assert Has(f, Next(t)) && At(f, Next(t)) == At(f.next, t);
      }
      NamesZeroless(f.next, q);
      assert Names(f, s) == Names(f.next, q);
  }

  lemma {:induction false} SpellZeroless(ns: seq<Bytes>)
    requires forall i :: 0 <= i < |ns| ==> 0 !in ns[i]
    ensures 0 !in Spell(ns) && 0 !in Text(ns)
    decreases |ns|
  {
    if |ns| > 0 {
      SpellZeroless(ns[..|ns| - 1]);
    }
  }

  /** No name of the list, or below it, is empty. */
  predicate AllNamed(f: Forest) {
    match f case Empty => true case Node(n, _, kids, next) => n != [] && AllNamed(kids) && AllNamed(next)
  }

  lemma {:induction false} NamesNamed(f: Forest, s: Spot)
    requires Has(f, s) && AllNamed(f)
    ensures forall i :: 0 <= i < |Names(f, s)| ==> Names(f, s)[i] != []
    decreases s
  {
    match s
    case Here =>
    case Down(q) =>
      NamesNamed(f.kids, q);
      assert Names(f, s) == [f.name] + Names(f.kids, q);
    case Next(q) =>
      NamesNamed(f.next, q);
      assert Names(f, s) == Names(f.next, q);
  }

  lemma {:induction false} RootSpot(b: Blob, k: int)
    requires Rooted(b) && b.IsNode(k)
    ensures Has(b.forest, b.Spot(k)) && !b.Spot(k).Next?
  {
    b.NodeHere(k);
  }

  /** The text that leads back to a node. */
  lemma {:induction false} TextBack(b: Blob, k: int, text: Bytes)
    requires Rooted(b) && b.IsNode(k) && Has(b.forest, b.Spot(k)) && AllSlashless(b.forest) && b.forest.name == []
             && AllNamed(b.forest.kids)
    requires text == Text(Names(b.forest, b.Spot(k)))
    ensures 0 !in text && |text| > 0 && text[0] == SLASH
    ensures Resolve(b.forest, Here, Components(text, 0)) == Some(b.Spot(k)) <==> Foremost(b.forest, b.Spot(k))
  {
    var f, s := b.forest, b.Spot(k);
    RootSpot(b, k);
    NodesZeroless(b);
    NamesZeroless(f, s);
    SpellZeroless(Names(f, s));
    if s.Down? {
      NamesNamed(f.kids, s.below);
      NamesDown(f, s.below);
    }
    PathRoundTrip(f, s);
  }

  lemma {:induction false} SameOffset(b: Blob, k: int, t: Spot)
    requires b.Valid() && b.IsNode(k) && Has(b.forest, t)
    ensures Has(b.forest, b.Spot(k)) && b.NodeOffset(b.Spot(k)) == Offset(b.toks, k)
    ensures b.NodeOffset(t) == Offset(b.toks, k) <==> t == b.Spot(k)
  {
    b.Opened();
    b.NodeHere(k);
    SpotOfNode(b.toks, b.Strings(), b.forest, t);
    var j := NodePlace(b.toks, b.forest, t);
    if j < k {
      OffsetMono(b.toks, j, k);
    } else if k < j {
      OffsetMono(b.toks, k, j);
    }
  }

  /**
   * fdt_get_path, and fdt_path_offset of what it has written: the offset comes back exactly when no name on the path
   * finds another node first.
   */
  method PathAndBack(b: Blob, o: int, buf: array<int>, buflen: int, ghost k: int) returns (err: int, r: int)
    requires Askable(b, o, k) && buf != b.buf && buflen <= buf.Length < HALF - 1
    requires b.forest.name == [] && AllNamed(b.forest.kids)
    modifies buf
    ensures buflen < 2 ==> err == -NOSPACE
    ensures buflen >= 2 && !b.IsNode(k) ==> err == -BADOFFSET
    ensures buflen >= 2 && b.IsNode(k) ==>
              Has(b.forest, b.Spot(k)) && Told(buf[..], Names(b.forest, b.Spot(k)), buflen, err)
    ensures err == 0 ==> b.IsNode(k) && Has(b.forest, b.Spot(k)) && (r == o <==> Foremost(b.forest, b.Spot(k)))
  {
    r := -NOTFOUND;
    err := GetPath(b, o, buf, buflen, k);
    if err != 0 {
      return;
    }
    r := BackFrom(b, o, buf, buflen, k);
  }

  /** fdt_path_offset of the text that fdt_get_path has left in the buffer */
  method BackFrom(b: Blob, o: int, buf: array<int>, ghost buflen: int, ghost k: int) returns (r: int)
    requires Rooted(b) && b.IsNode(k) && o == Offset(b.toks, k) && AllSlashless(b.forest) && b.forest.name == []
    requires AllNamed(b.forest.kids) && Has(b.forest, b.Spot(k)) && buf.Length < HALF - 1
    requires Told(buf[..], Names(b.forest, b.Spot(k)), buflen, 0)
    ensures r == o <==> Foremost(b.forest, b.Spot(k))
  {
    ghost var text := ToldText(b, buf[..], buflen, k);
    var n := Length(buf, text);
    r := Back(b, o, buf[..n], k);
  }

  lemma {:induction false} ToldText(b: Blob, m: Bytes, buflen: int, k: int) returns (text: Bytes)
    requires Rooted(b) && b.IsNode(k) && Has(b.forest, b.Spot(k)) && AllSlashless(b.forest) && b.forest.name == []
             && AllNamed(b.forest.kids) && Told(m, Names(b.forest, b.Spot(k)), buflen, 0)
    ensures |text| < |m| && m[..|text| + 1] == text + [0] && 0 !in text && |text| > 0 && text[0] == SLASH
    ensures Resolve(b.forest, Here, Components(text, 0)) == Some(b.Spot(k)) <==> Foremost(b.forest, b.Spot(k))
  {
    assert Heard(Names(b.forest, b.Spot(k)));
    text := Text(Names(b.forest, b.Spot(k)));
    TextBack(b, k, text);
  }

  /** fdt_path_offset of a path that leads to the node at token k, or elsewhere */
  method Back(b: Blob, o: int, path: Bytes, ghost k: int) returns (r: int)
    requires Rooted(b) && b.IsNode(k) && o == Offset(b.toks, k)
    requires 0 !in path && 0 < |path| < HALF - 1 && path[0] == SLASH
    ensures Has(b.forest, b.Spot(k))
    ensures r == o <==> Resolve(b.forest, Here, Components(path, 0)) == Some(b.Spot(k))
  {
    b.NodeHere(k);
    r := PathOffset(b, path);
    match Resolve(b.forest, Here, Components(path, 0)) {
      case None =>
      case Some(t) => SameOffset(b, k, t);
    }
  }

  /** strlen */
  method Length(buf: array<int>, ghost text: Bytes) returns (n: int)
    requires 0 !in text && |text| < buf.Length && buf[..][..|text| + 1] == text + [0]
    ensures n == |text| && buf[..n] == text
  {
    n := 0;
    assert forall i :: 0 <= i <= |text| ==> buf[i] == buf[..][..|text| + 1][i];
    while buf[n] != 0
      invariant 0 <= n <= |text|
      decreases |text| - n
    {
      assert n != |text|;
      n := n + 1;
    }
  }
}
