/** What merging means for a reader: paths and properties of the merged tree are those of the two trees. */
module FdtUnion {
  import opened FdtFormat
  import opened FdtTree
  import opened FdtMerge

  /** The node reached from g by a path of names. */
  function Find(g: Forest, path: seq<Bytes>): (r: Option<Forest>)
    requires g.Node?
    ensures r.Some? ==> r.value.Node?
    decreases |path|
  {
    if |path| == 0 then Some(g)
    else match FirstKid(g.kids, path[0]) case None => None case Some(q) => Find(At(g.kids, q), path[1..])
  }

  /** The value of a property of that node. */
  function Value(g: Forest, path: seq<Bytes>, name: Bytes): Option<Bytes>
    requires g.Node?
  {
    match Find(g, path) case None => None case Some(h) => Lookup(h.props, name)
  }

  /** The node reached when every name has to be the whole name of a child, */
  function Reach(g: Forest, path: seq<Bytes>): (r: Option<Forest>)
    requires g.Node?
    ensures r.Some? ==> r.value.Node?
    decreases |path|
  {
    if |path| == 0 then Some(g)
    else match Named(g.kids, path[0]) case None => None case Some(k) => Reach(k, path[1..])
  }

  /** and the value of a property of that node. */
  function Read(g: Forest, path: seq<Bytes>, name: Bytes): Option<Bytes>
    requires g.Node?
  {
    match Reach(g, path) case None => None case Some(h) => Lookup(h.props, name)
  }

  /** The first sibling of exactly that name. */
  function Named(f: Forest, name: Bytes): (r: Option<Forest>)
    ensures r.Some? ==> r.value.Node? && r.value.next.Empty? && r.value.name == name
  {
    match f case Empty => None case Node(n, _, _, next) => if n == name then Some(Alone(f)) else Named(next, name)
  }

  function Over<T>(a: Option<T>, b: Option<T>): Option<T> {
    if a.Some? then a else b
  }

  // ----- Properties -----

  /** The value of the last property of that name. */
  function LastValue(ps: seq<Property>, name: Bytes): Option<Bytes> {
    if |ps| == 0 then None
    else if ps[|ps| - 1].name == name then Some(ps[|ps| - 1].value) else LastValue(ps[..|ps| - 1], name)
  }

  lemma {:induction false} LastOrFirst(ps: seq<Property>, name: Bytes)
    requires |ps| > 0
    ensures LastValue(ps, name)
         == Over(LastValue(ps[1..], name), if ps[0].name == name then Some(ps[0].value) else None)
    decreases |ps|
  {
    var n := |ps| - 1;
    if n == 0 {
      assert |ps[1..]| == 0 && |ps[..n]| == 0;
    } else {
      assert ps[1..][n - 1] == ps[n] && ps[1..][..n - 1] == ps[..n][1..];
      if ps[n].name != name {
        LastOrFirst(ps[..n], name);
      }
    }
  }

  /** Setting properties one after the other leaves the last value of each. */
  lemma {:induction false} SetAllValue(g: Forest, ps: seq<Property>, name: Bytes)
    requires g.Node? && g.next.Empty?
    ensures Lookup(SetAll(g, ps).props, name) == Over(LastValue(ps, name), Lookup(g.props, name))
    decreases |ps|
  {
    if |ps| > 0 {
      var h := WithProp(g, ps[0].name, ps[0].value);
      WithPropLaws(g, ps[0].name, ps[0].value, name);
      SetAllValue(h, ps[1..], name);
      LastOrFirst(ps, name);
    }
  }

  ghost predicate OneEach(ps: seq<Property>) {
    forall i, j :: 0 <= i < j < |ps| ==> ps[i].name != ps[j].name
  }

  lemma {:induction false} LastIsFirst(ps: seq<Property>, name: Bytes)
    requires OneEach(ps)
    ensures LastValue(ps, name) == Lookup(ps, name)
    decreases |ps|
  {
    if |ps| > 0 {
      var n := |ps| - 1;
      LastIsFirst(ps[..n], name);
      var c := FindProp(ps[..n], name);
      if ps[n].name == name {
        LookupIs(ps, name, n);
      } else if c < n {
        LookupIs(ps, name, c);
      } else {
        LookupNone(ps, name);
      }
    } else {
      LookupNone(ps, name);
    }
  }

  /** The last property of every name has the value of the first. */
  ghost predicate Single(ps: seq<Property>) {
    forall n {:trigger LastValue(ps, n)} :: LastValue(ps, n) == Lookup(ps, n)
  }

  lemma {:induction false} LastSome(ps: seq<Property>, name: Bytes)
    ensures LastValue(ps, name).Some? == Lookup(ps, name).Some?
    decreases |ps|
  {
    if |ps| > 0 {
      var n := |ps| - 1;
      LastSome(ps[..n], name);
      var c := FindProp(ps[..n], name);
      if c < n {
        LookupIs(ps, name, c);
      } else if ps[n].name == name {
        LookupIs(ps, name, n);
      } else {
        LookupNone(ps, name);
      }
    } else {
      LookupNone(ps, name);
    }
  }

  /** The properties of the merged node are the union exactly when no overlay property is set to a second value. */
  lemma {:induction false} PropsExactlyWhen(g: Forest, ps: seq<Property>, kids: Forest)
    requires g.Node?
    ensures (forall n :: Lookup(Merge(g, ps, kids).props, n) == Over(Lookup(ps, n), Lookup(g.props, n))) <==> Single(ps)
  {
    var r := Merge(g, ps, kids);
    forall n ensures Lookup(r.props, n) == Over(LastValue(ps, n), Lookup(g.props, n))
                     && LastValue(ps, n).Some? == Lookup(ps, n).Some? {
      SetAllValue(Alone(g), ps, n);
      LastSome(ps, n);
    }
    if !Single(ps) {
      var n :| LastValue(ps, n) != Lookup(ps, n);
      assert Lookup(r.props, n) != Over(Lookup(ps, n), Lookup(g.props, n));
    }
  }

  // ----- Children by name -----

  /** No sibling has the name. */
  ghost predicate Fresh(f: Forest, name: Bytes) {
    match f case Empty => true case Node(n, _, _, next) => n != name && Fresh(next, name)
  }

  lemma {:induction false} FreshNamed(f: Forest, m: Bytes)
    ensures Fresh(f, m) <==> Named(f, m).None?
  {
    if f.Node? {
      FreshNamed(f.next, m);
    }
  }

  /** What fdt_subnode_offset finds for the name is a child of exactly that name, or nothing. */
  predicate Lands(f: Forest, name: Bytes) {
    match FirstKid(f, name) case None => true case Some(q) => At(f, q).name == name
  }

  lemma {:induction false} LandsNamed(f: Forest, m: Bytes)
    ensures FirstKid(f, m).None? ==> Named(f, m).None?
    ensures FirstKid(f, m).Some? ==> var e := At(f, FirstKid(f, m).value); Named(f, e.name) == Some(Alone(e))
  {
    if f.Node? {
      assert Matches(f.name, f.name);
      LandsNamed(f.next, m);
    }
  }

  /** Replacing a child that was found by one of its name. */
  lemma {:induction false} NamedGraft(f: Forest, asked: Bytes, x: Forest, m: Bytes)
    requires FirstKid(f, asked).Some? && x.Node? && x.next.Empty? && x.name == At(f, FirstKid(f, asked).value).name
    ensures var h := Graft(f, FirstKid(f, asked).value, x);
            && Named(h, m) == (if m == x.name then Some(x) else Named(f, m))
            && FirstKid(h, m) == FirstKid(f, m) && Lands(h, m) == Lands(f, m)
  {
    if Matches(f.name, asked) {
      assert Append(x, f.next) == x.(next := Append(x.next, f.next));
      assert Graft(f, Here, x) == x.(next := f.next);
      assert Alone(x.(next := f.next)) == x;
    } else {
      NamedGraft(f.next, asked, x, m);
    }
  }

  /** The child that an overlay child is merged into, where it lands. */
  function Base(f: Forest, name: Bytes): (g: Forest)
    ensures g.Node?
  {
    match Named(f, name) case Some(g) => g case None => Node(name, [], Empty, Empty)
  }

  lemma {:induction false} MergeAlone(g: Forest, props: seq<Property>, kids: Forest)
    requires g.Node?
    ensures Merge(Alone(g), props, kids) == Merge(g, props, kids)
  {
    assert Alone(Alone(g)) == Alone(g);
  }

  /** The child that one overlay child is really merged into: the one found, or an empty one of its name. */
  function Found(f: Forest, name: Bytes): (g: Forest)
    ensures g.Node?
  {
    match FirstKid(f, name) case Some(q) => Alone(At(f, q)) case None => Node(name, [], Empty, Empty)
  }

  /** Merging one child changes the child found, and no other name. */
  lemma {:induction false} MergeKidNamed(g: Forest, name: Bytes, props: seq<Property>, kids: Forest, m: Bytes)
    requires g.Node? && g.next.Empty?
    ensures var h, x := MergeKid(g, name, props, kids), Found(g.kids, name);
            && Named(h.kids, m) == (if m == x.name then Some(Merge(x, props, kids)) else Named(g.kids, m))
            && Named(g.kids, x.name) == (if FirstKid(g.kids, name).Some? then Some(x) else None)
            && (FirstKid(g.kids, name).Some? ==> Lands(h.kids, m) == Lands(g.kids, m))
            && (FirstKid(g.kids, name).None? ==>
                  Lands(h.kids, m) == if Matches(name, m) then m == name else Lands(g.kids, m))
  {
    var y, q := WithKidNamed(g, name), KidNamed(g, name);
    var x := At(y.kids, q);
    LandsNamed(g.kids, name);
    assert Matches(name, name);
    MergeAlone(x, props, kids);
    assert Alone(x) == Found(g.kids, name);
    NamedGraft(y.kids, name, Merge(x, props, kids), m);
  }

  // ----- Where every overlay child is merged into a child of its name -----

  /** No later sibling has the name or, if the base lacks a child of that name, finds the new one. */
  predicate Unhindered(gk: Forest, name: Bytes, later: Forest) {
    match later
    case Empty => true
    case Node(m, _, _, next) =>
      && m != name && (Named(gk, name).None? ==> !Matches(name, m)) && Unhindered(gk, name, next)
  }

  /**
   * Names only: every name of an overlay child finds no child of the base or the one of exactly that name, overlay
   * siblings differ and do not find one another; and so on below, where a child of the base and one of the overlay
   * meet.
   */
  predicate Sound(gk: Forest, ks: Forest)
    decreases ks
  {
    match ks
    case Empty => true
    case Node(n, _, kids, next) =>
      && Lands(gk, n) && Unhindered(gk, n, next) && Sound(Base(gk, n).kids, kids) && Sound(gk, next)
  }

  /** No property of a node is set to a second value, throughout the list. */
  ghost predicate Plain(f: Forest) {
    match f case Empty => true case Node(_, props, kids, next) => Single(props) && Plain(kids) && Plain(next)
  }

  /** The later siblings are as sound in the merged node as they are in the base. */
  lemma {:induction false} SoundAfter(g: Forest, n: Bytes, props: seq<Property>, kids: Forest, ks: Forest)
    requires g.Node? && g.next.Empty? && Lands(g.kids, n) && Fresh(ks, n)
    ensures Sound(MergeKid(g, n, props, kids).kids, ks) <==> Sound(g.kids, ks) && Unhindered(g.kids, n, ks)
    decreases ks
  {
    if ks.Node? {
      var h := MergeKid(g, n, props, kids);
      MergeKidNamed(g, n, props, kids, ks.name);
      LandsNamed(g.kids, n);
      UnhinderedAfter(g, n, props, kids, ks.name, ks.next);
      SoundAfter(g, n, props, kids, ks.next);
    }
  }

  lemma {:induction false} UnhinderedAfter(g: Forest, n: Bytes, props: seq<Property>, kids: Forest, m: Bytes,
                                           ks: Forest)
    requires g.Node? && g.next.Empty? && Lands(g.kids, n) && m != n
    ensures Unhindered(MergeKid(g, n, props, kids).kids, m, ks) == Unhindered(g.kids, m, ks)
    decreases ks
  {
    if ks.Node? {
      MergeKidNamed(g, n, props, kids, m);
      UnhinderedAfter(g, n, props, kids, m, ks.next);
    }
  }

  lemma {:induction false} UnhinderedFresh(gk: Forest, n: Bytes, ks: Forest)
    requires Unhindered(gk, n, ks)
    ensures Fresh(ks, n)
  {
    if ks.Node? {
      UnhinderedFresh(gk, n, ks.next);
    }
  }

  /** Merging the children one after the other merges each into the one of its name. */
  lemma {:induction false} MergeKidsNamed(g: Forest, ks: Forest, m: Bytes)
    requires g.Node? && g.next.Empty? && Sound(g.kids, ks)
    ensures Named(MergeKids(g, ks).kids, m)
         == match Named(ks, m)
            case None => Named(g.kids, m)
            case Some(k) => Some(Merge(Base(g.kids, m), k.props, k.kids))
    decreases ks
  {
    if ks.Node? {
      var h := MergeKid(g, ks.name, ks.props, ks.kids);
      UnhinderedFresh(g.kids, ks.name, ks.next);
      SoundAfter(g, ks.name, ks.props, ks.kids, ks.next);
      MergeKidNamed(g, ks.name, ks.props, ks.kids, m);
      LandsNamed(g.kids, ks.name);
      MergeKidsNamed(h, ks.next, m);
      FreshNamed(ks.next, ks.name);
    }
  }

  // ----- The union -----

  lemma {:induction false} NothingBelow(name: Bytes, path: seq<Bytes>, n: Bytes)
    ensures var g := Node(name, [], Empty, Empty); Read(g, path, n) == None && (Reach(g, path).Some? <==> |path| == 0)
  {
    LookupNone([], n);
  }

  lemma {:induction false} NamedParts(gk: Forest, ks: Forest, m: Bytes)
    requires Named(ks, m).Some?
    ensures Plain(ks) ==> Single(Named(ks, m).value.props) && Plain(Named(ks, m).value.kids)
    ensures Sound(gk, ks) ==> Sound(Base(gk, m).kids, Named(ks, m).value.kids)
  {
    if ks.name != m {
      NamedParts(gk, ks.next, m);
    }
  }

  /** At the path the merged node is the union: the overlay's value, or that of the base where the overlay has none. */
  ghost predicate Law(g: Forest, h: Forest, path: seq<Bytes>, n: Bytes)
    requires g.Node? && h.Node?
  {
    var r := Merge(g, h.props, h.kids);
    && Read(r, path, n) == Over(Read(h, path, n), Read(g, path, n))
    && (Reach(r, path).Some? <==> Reach(g, path).Some? || Reach(h, path).Some?)
  }

  lemma {:induction false} MergeIsUnion(g: Forest, h: Forest, path: seq<Bytes>, n: Bytes)
    requires g.Node? && h.Node? && Single(h.props) && Plain(h.kids) && Sound(g.kids, h.kids)
    ensures Law(g, h, path, n)
    decreases |path|
  {
    var x := SetAll(Alone(g), h.props);
    if |path| == 0 {
      SetAllValue(Alone(g), h.props, n);
    } else {
      var m, rest := path[0], path[1..];
      MergeKidsNamed(x, h.kids, m);
      match Named(h.kids, m)
      case None =>
      case Some(k) =>
        NamedParts(g.kids, h.kids, m);
        MergeIsUnion(Base(g.kids, m), k, rest, n);
        if Named(g.kids, m).None? {
          NothingBelow(m, rest, n);
        }
    }
  }

  // ----- What the library's own search sees -----

  /** No sibling but one of that name is found by it. */
  predicate Only(f: Forest, m: Bytes) {
    match f case Empty => true case Node(n, _, _, next) => (Matches(n, m) ==> n == m) && Only(next, m)
  }

  /** At every step of the path the name finds no child but those of that name. */
  predicate Clear(g: Forest, path: seq<Bytes>)
    requires g.Node?
    decreases |path|
  {
    |path| > 0 ==>
      && Only(g.kids, path[0])
      && match Named(g.kids, path[0]) case None => true case Some(k) => Clear(k, path[1..])
  }

  lemma {:induction false} OnlyLands(f: Forest, m: Bytes)
    requires Only(f, m)
    ensures Lands(f, m) && (FirstKid(f, m).Some? <==> Named(f, m).Some?)
  {
    if f.Node? {
      assert Matches(f.name, f.name);
      OnlyLands(f.next, m);
    }
  }

  /** On such a path the library finds the node of exactly those names. */
  lemma {:induction false} ClearReads(g: Forest, path: seq<Bytes>, n: Bytes)
    requires g.Node? && Clear(g, path)
    ensures Find(g, path).Some? == Reach(g, path).Some? && Value(g, path, n) == Read(g, path, n)
    decreases |path|
  {
    if |path| > 0 {
      OnlyLands(g.kids, path[0]);
      LandsNamed(g.kids, path[0]);
      if FirstKid(g.kids, path[0]).Some? {
        var e := At(g.kids, FirstKid(g.kids, path[0]).value);
        FindAlone(e, path[1..], n);
        ClearReads(Alone(e), path[1..], n);
      }
    }
  }

  lemma {:induction false} FindAlone(g: Forest, path: seq<Bytes>, n: Bytes)
    requires g.Node?
    ensures Find(g, path).Some? == Find(Alone(g), path).Some? && Value(g, path, n) == Value(Alone(g), path, n)
  {
  }

  lemma {:induction false} OnlyGraft(f: Forest, asked: Bytes, x: Forest, m: Bytes)
    requires FirstKid(f, asked).Some? && x.Node? && x.next.Empty? && x.name == At(f, FirstKid(f, asked).value).name
    ensures Only(Graft(f, FirstKid(f, asked).value, x), m) == Only(f, m)
  {
    if Matches(f.name, asked) {
      assert Append(x, f.next) == x.(next := Append(x.next, f.next));
    } else {
      OnlyGraft(f.next, asked, x, m);
    }
  }

  lemma {:induction false} OnlyMerged(g: Forest, ks: Forest, m: Bytes)
    requires g.Node? && g.next.Empty? && Only(g.kids, m) && Only(ks, m)
    ensures Only(MergeKids(g, ks).kids, m)
    decreases ks
  {
    if ks.Node? {
      var y, q := WithKidNamed(g, ks.name), KidNamed(g, ks.name);
      assert Matches(ks.name, ks.name);
      OnlyGraft(y.kids, ks.name, Merge(At(y.kids, q), ks.props, ks.kids), m);
      OnlyMerged(MergeKid(g, ks.name, ks.props, ks.kids), ks.next, m);
    }
  }

  lemma {:induction false} ClearMerged(g: Forest, h: Forest, path: seq<Bytes>)
    requires g.Node? && h.Node? && Sound(g.kids, h.kids) && Clear(g, path) && Clear(h, path)
    ensures Clear(Merge(g, h.props, h.kids), path)
    decreases |path|
  {
    if |path| > 0 {
      var m, rest := path[0], path[1..];
      var x := SetAll(Alone(g), h.props);
      OnlyMerged(x, h.kids, m);
      MergeKidsNamed(x, h.kids, m);
      match Named(h.kids, m)
      case None =>
      case Some(k) =>
        NamedParts(g.kids, h.kids, m);
        if Named(g.kids, m).None? {
          ClearNothing(m, rest);
        }
        ClearMerged(Base(g.kids, m), k, rest);
    }
  }

  lemma {:induction false} ClearNothing(name: Bytes, path: seq<Bytes>)
    ensures Clear(Node(name, [], Empty, Empty), path)
  {
  }

  /** So a reader of the merged tree, who asks by the library's search, sees the union as well. */
  lemma {:induction false} ReadersSeeUnion(g: Forest, h: Forest, path: seq<Bytes>, n: Bytes)
    requires g.Node? && h.Node? && Single(h.props) && Plain(h.kids) && Sound(g.kids, h.kids)
    requires Clear(g, path) && Clear(h, path)
    ensures var r := Merge(g, h.props, h.kids);
            && Value(r, path, n) == Over(Value(h, path, n), Value(g, path, n))
            && (Find(r, path).Some? <==> Find(g, path).Some? || Find(h, path).Some?)
  {
    MergeIsUnion(g, h, path, n);
    ClearMerged(g, h, path);
    ClearReads(g, path, n);
    ClearReads(h, path, n);
    ClearReads(Merge(g, h.props, h.kids), path, n);
  }

  // ----- Where merging is not a union -----

  lemma {:induction false} OnlyKid(g: Forest, name: Bytes, n: Bytes)
    requires g.Node? && g.kids.Node? && g.kids.next.Empty?
    ensures Value(g, [name], n) == if Matches(g.kids.name, name) then Lookup(g.kids.props, n) else None
  {
    var path := [name];
    assert path[0] == name && |path[1..]| == 0;
    assert FirstKid(g.kids.next, name) == None;
    if Matches(g.kids.name, name) {
      assert FirstKid(g.kids, name) == Some(Here) && At(g.kids, Here) == g.kids;
      assert Find(g.kids, path[1..]) == Some(g.kids);
      assert Find(g, path) == Find(g.kids, path[1..]);
    } else {
      assert Find(g, path) == None;
    }
  }

  /**
   * An overlay node without a unit address is merged into a base node with one: a value changes at a path that the
   * overlay does not have.
   */
  lemma {:induction false} AddressIsMerged(n: Bytes, u: Bytes, v: Bytes)
    ensures var a, at := [97], [97, AT_SIGN];
            var g := Node([], [], Node(at, [Property(n, u)], Empty, Empty), Empty);
            var h := Node([], [], Node(a, [Property(n, v)], Empty, Empty), Empty);
            && Value(Merge(g, h.props, h.kids), [at], n) == Some(v)
            && Value(h, [at], n) == None && Value(g, [at], n) == Some(u)
  {
    var a, at := [97], [97, AT_SIGN];
    var x := Node(at, [Property(n, u)], Empty, Empty);
    var g, h := Node([], [], x, Empty), Node([], [], Node(a, [Property(n, v)], Empty, Empty), Empty);
    assert Matches(at, a) by {
      assert at[..1] == a;
    }
    assert Matches(at, at) && !Matches(a, at);
    LookupIs(x.props, n, 0);
    OnlyKid(g, at, n);
    OnlyKid(h, at, n);
    var z := Merge(x, [Property(n, v)], Empty);
    assert FirstKid(g.kids, a) == Some(Here);
    MergedAlone(g, a, [Property(n, v)], z);
    var ps := [Property(n, v)];
    SetAllValue(Alone(x), ps, n);
    assert LastValue(ps, n) == Some(v) && z == SetAll(Alone(x), ps);
    OnlyKid(g.(kids := z), at, n);
  }

  lemma {:induction false} MergedAlone(g: Forest, a: Bytes, ps: seq<Property>, z: Forest)
    requires g.Node? && g.next.Empty? && g.props == [] && g.kids.Node? && g.kids.next.Empty?
             && FirstKid(g.kids, a) == Some(Here)
    requires z == Merge(g.kids, ps, Empty)
    ensures Merge(g, [], Node(a, ps, Empty, Empty)) == g.(kids := z)
  {
    assert SetAll(Alone(g), []) == g;
    assert Append(z, g.kids.next) == z.(next := Append(z.next, g.kids.next));
    var y := MergeKid(g, a, ps, Empty);
    assert y == g.(kids := z);
    assert MergeKids(y, Empty) == y;
    assert MergeKids(g, Node(a, ps, Empty, Empty)) == MergeKids(y, Empty);
  }

  /** Of two overlay properties of one name the last counts in the merged node, but the first is read in the overlay. */
  lemma {:induction false} LastIsMerged(g: Forest, n: Bytes, u: Bytes, v: Bytes)
    requires g.Node?
    ensures var ps := [Property(n, u), Property(n, v)];
            Lookup(Merge(g, ps, Empty).props, n) == Some(v) && Lookup(ps, n) == Some(u)
  {
    var ps := [Property(n, u), Property(n, v)];
    SetAllValue(Alone(g), ps, n);
    LookupIs(ps, n, 0);
  }
}
