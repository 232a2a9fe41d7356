/** The names for which merging is a union are no more than those of FdtUnion.Sound. */
module FdtConverse {
  import opened FdtFormat
  import opened FdtTree
  import opened FdtMerge
  import opened FdtUnion

  /** The same nodes without properties. */
  function Bare(f: Forest): (g: Forest)
    ensures g.Node? == f.Node?
  {
    match f case Empty => Empty case Node(n, _, kids, next) => Node(n, [], Bare(kids), Bare(next))
  }

  /** Two trees with the same names in the same places. */
  predicate SameNames(f: Forest, g: Forest) {
    match f
    case Empty => g.Empty?
    case Node(n, _, kids, next) => g.Node? && g.name == n && SameNames(kids, g.kids) && SameNames(next, g.next)
  }

  lemma {:induction false} BareIs(f: Forest)
    ensures SameNames(Bare(f), f) && Plain(Bare(f))
  {
    if f.Node? {
      BareIs(f.kids);
      BareIs(f.next);
      NoProps();
    }
  }

  lemma {:induction false} NoProps()
    ensures Single([])
  {
    forall n ensures LastValue([], n) == Lookup([], n) {
      LookupNone([], n);
    }
  }

  lemma {:induction false} SameNamed(f: Forest, g: Forest, m: Bytes)
    requires SameNames(f, g)
    ensures Named(f, m).Some? == Named(g, m).Some?
  {
    if f.Node? {
      SameNamed(f.next, g.next, m);
    }
  }

  lemma {:induction false} BareNamed(f: Forest, m: Bytes)
    ensures Named(Bare(f), m) == match Named(f, m) case None => None case Some(k) => Some(Bare(k))
  {
    if f.Node? {
      BareNamed(f.next, m);
    }
  }

  /** Nothing is read in nodes without properties. */
  lemma {:induction false} BareReads(name: Bytes, ks: Forest, next: Forest, path: seq<Bytes>, n: Bytes)
    ensures Read(Node(name, [], Bare(ks), next), path, n) == None
    decreases |path|
  {
    LookupNone([], n);
    if |path| > 0 {
      BareNamed(ks, path[0]);
      match Named(ks, path[0])
      case None =>
      case Some(k) => BareReads(k.name, k.kids, Empty, path[1..], n);
    }
  }

  lemma {:induction false} ReadKid(g: Forest, path: seq<Bytes>, n: Bytes)
    requires g.Node? && |path| > 0
    ensures Read(g, path, n) == match Named(g.kids, path[0]) case None => None case Some(k) => Read(k, path[1..], n)
  {
  }

  /** Merging nodes without properties changes no value, wherever they land. */
  lemma {:induction false} BareStill(g: Forest, ks: Forest, path: seq<Bytes>, n: Bytes)
    requires g.Node? && g.next.Empty?
    ensures Read(MergeKids(g, Bare(ks)), path, n) == Read(g, path, n)
    decreases |path|, ks
  {
    if ks.Node? {
      BareKid(g, ks.name, ks.kids, path, n);
      BareStill(MergeKid(g, ks.name, [], Bare(ks.kids)), ks.next, path, n);
    }
  }

  lemma {:induction false} BareKid(g: Forest, name: Bytes, kids: Forest, path: seq<Bytes>, n: Bytes)
    requires g.Node? && g.next.Empty?
    ensures Read(MergeKid(g, name, [], Bare(kids)), path, n) == Read(g, path, n)
    decreases |path|, kids
  {
    if |path| > 0 {
      var h, x := MergeKid(g, name, [], Bare(kids)), Found(g.kids, name);
      ReadKid(g, path, n);
      ReadKid(h, path, n);
      MergeKidNamed(g, name, [], Bare(kids), path[0]);
      if path[0] == x.name {
        BareStill(Alone(x), kids, path[1..], n);
        ReadAlone(x, path[1..], n);
        assert SetAll(Alone(x), []) == Alone(x);
        NothingBelow(name, path[1..], n);
      }
    }
  }

  lemma {:induction false} ReadAlone(g: Forest, path: seq<Bytes>, n: Bytes)
    requires g.Node?
    ensures Read(Alone(g), path, n) == Read(g, path, n)
  {
  }

  // ----- A value that no child has -----

  /** One more than the longest value that the siblings have for the name. */
  function Room(f: Forest, n: Bytes): nat {
    match f
    case Empty => 0
    case Node(_, props, _, next) =>
      match Lookup(props, n)
      case None => Room(next, n)
      case Some(v) => if |v| < Room(next, n) then Room(next, n) else |v| + 1
  }

  function Novel(f: Forest, n: Bytes): Bytes {
    seq(Room(f, n), _ => 0)
  }

  lemma {:induction false} RoomEnough(f: Forest, n: Bytes, m: Bytes)
    ensures match Named(f, m)
            case None => true
            case Some(k) => Lookup(k.props, n).Some? ==> |Lookup(k.props, n).value| < Room(f, n)
  {
    if f.Node? {
      RoomEnough(f.next, n, m);
    }
  }

  lemma {:induction false} NovelReads(g: Forest, n: Bytes, m: Bytes)
    requires g.Node?
    ensures Read(g, [m], n) != Some(Novel(g.kids, n))
  {
    RoomEnough(g.kids, n, m);
    ReadKid(g, [m], n);
    if Named(g.kids, m).Some? {
      ReadHere(Named(g.kids, m).value, [m][1..], n);
    }
  }

  lemma {:induction false} ReadHere(g: Forest, path: seq<Bytes>, n: Bytes)
    requires g.Node? && |path| == 0
    ensures Read(g, path, n) == Lookup(g.props, n)
  {
  }

  // ----- One overlay node with one property -----

  /** The same nodes, of which only the first sibling of the name has a property. */
  function Mark(f: Forest, m: Bytes, p: Property): (g: Forest)
    ensures g.Node? == f.Node?
  {
    match f
    case Empty => Empty
    case Node(n, _, kids, next) =>
      if n == m then Node(n, [p], Bare(kids), Bare(next)) else Node(n, [], Bare(kids), Mark(next, m, p))
  }

  lemma {:induction false} OneProp(p: Property)
    ensures Single([p]) && Lookup([p], p.name) == Some(p.value) && LastValue([p], p.name) == Some(p.value)
  {
    forall n ensures LastValue([p], n) == Lookup([p], n) {
      LastIsFirst([p], n);
    }
    LookupIs([p], p.name, 0);
  }

  lemma {:induction false} MarkIs(f: Forest, m: Bytes, p: Property)
    ensures SameNames(Mark(f, m, p), f) && Plain(Mark(f, m, p))
  {
    if f.Node? {
      OneProp(p);
      NoProps();
      BareIs(f.kids);
      BareIs(f.next);
      MarkIs(f.next, m, p);
    }
  }

  /** No other name reads anything there. */
  lemma {:induction false} MarkReads(f: Forest, m: Bytes, p: Property, y: Bytes, n: Bytes)
    requires y != m
    ensures match Named(Mark(f, m, p), y) case None => true case Some(k) => k.props == []
  {
    if f.Node? && f.name != y {
      BareNamed(f.next, y);
      MarkReads(f.next, m, p, y, n);
    }
  }

  /** The property arrives at the child found. */
  lemma {:induction false} MarkLands(g: Forest, name: Bytes, p: Property, kids: Forest, later: Forest)
    requires g.Node? && g.next.Empty?
    ensures var y := Found(g.kids, name).name;
            Read(MergeKids(MergeKid(g, name, [p], Bare(kids)), Bare(later)), [y], p.name) == Some(p.value)
  {
    var h, x := MergeKid(g, name, [p], Bare(kids)), Found(g.kids, name);
    BareStill(h, later, [x.name], p.name);
    MergeKidNamed(g, name, [p], Bare(kids), x.name);
    ReadKid(h, [x.name], p.name);
    SetAllValue(Alone(x), [p], p.name);
    OneProp(p);
    ReadHere(Merge(x, [p], Bare(kids)), [x.name][1..], p.name);
  }

  /** Merged, the property is at some child. */
  lemma {:induction false} MarkedSomewhere(g: Forest, ks: Forest, m: Bytes, p: Property) returns (y: Bytes)
    requires g.Node? && g.next.Empty? && !Fresh(ks, m)
    ensures Read(MergeKids(g, Mark(ks, m, p)), [y], p.name) == Some(p.value)
    decreases ks
  {
    if ks.name == m {
      y := Found(g.kids, m).name;
      MarkLands(g, m, p, ks.kids, ks.next);
    } else {
      y := MarkedSomewhere(MergeKid(g, ks.name, [], Bare(ks.kids)), ks.next, m, p);
    }
  }

  // ----- The converse -----

  /** An overlay of these names for which the merged node is not the union. */
  ghost predicate Breaks(g: Forest, ks: Forest, hs: Forest, path: seq<Bytes>, n: Bytes)
    requires g.Node? && g.next.Empty?
  {
    && SameNames(hs, ks) && Plain(hs)
    && Read(MergeKids(g, hs), path, n) != Over(Read(Node([], [], hs, Empty), path, n), Read(g, path, n))
  }

  lemma {:induction false} BreaksAstray(g: Forest, ks: Forest, n: Bytes) returns (hs: Forest, path: seq<Bytes>)
    requires g.Node? && g.next.Empty? && ks.Node? && !Lands(g.kids, ks.name)
    ensures Breaks(g, ks, hs, path, n)
  {
    var p := Property(n, Novel(g.kids, n));
    var y := Found(g.kids, ks.name).name;
    hs, path := Mark(ks, ks.name, p), [y];
    MarkIs(ks, ks.name, p);
    MarkLands(g, ks.name, p, ks.kids, ks.next);
    NovelReads(g, n, y);
    MarkReads(ks, ks.name, p, y, n);
    Unread(hs, y, n);
  }

  lemma {:induction false} Unread(hs: Forest, y: Bytes, n: Bytes)
    requires match Named(hs, y) case None => true case Some(k) => k.props == []
    ensures Read(Node([], [], hs, Empty), [y], n) == None
  {
    ReadKid(Node([], [], hs, Empty), [y], n);
    LookupNone([], n);
    if Named(hs, y).Some? {
      ReadHere(Named(hs, y).value, [y][1..], n);
    }
  }

  lemma {:induction false} BreaksTwice(g: Forest, ks: Forest, n: Bytes) returns (hs: Forest, path: seq<Bytes>)
    requires g.Node? && g.next.Empty? && ks.Node? && !Fresh(ks.next, ks.name)
    ensures Breaks(g, ks, hs, path, n)
  {
    var m := ks.name;
    var p := Property(n, Novel(g.kids, n));
    var h := MergeKid(g, m, [], Bare(ks.kids));
    var y := MarkedSomewhere(h, ks.next, m, p);
    hs, path := Node(m, [], Bare(ks.kids), Mark(ks.next, m, p)), [y];
    MarkIs(ks.next, m, p);
    BareIs(ks.kids);
    NoProps();
    NovelReads(g, n, y);
    if y != m {
      MarkReads(ks.next, m, p, y, n);
    }
    Unread(hs, y, n);
  }

  lemma {:induction false} BreaksBelow(g: Forest, ks: Forest, hk: Forest, path: seq<Bytes>, n: Bytes)
    requires g.Node? && g.next.Empty? && ks.Node? && Lands(g.kids, ks.name)
             && Breaks(Base(g.kids, ks.name), ks.kids, hk, path, n)
    ensures Breaks(g, ks, Node(ks.name, [], hk, Bare(ks.next)), [ks.name] + path, n)
  {
    var m, x := ks.name, Base(g.kids, ks.name);
    var hs, long := Node(ks.name, [], hk, Bare(ks.next)), [ks.name] + path;
    assert long[0] == m && long[1..] == path;
    BareIs(ks.next);
    NoProps();
    var h := MergeKid(g, m, [], hk);
    BareStill(h, ks.next, long, n);
    MergeKidNamed(g, m, [], hk, m);
    LandsNamed(g.kids, m);
    assert Found(g.kids, m) == x;
    assert SetAll(Alone(x), []) == Alone(x) == x;
    ReadKid(h, long, n);
    ReadKid(g, long, n);
    ReadKid(Node([], [], hs, Empty), long, n);
    NothingBelow(m, path, n);
    ReadName(Node(m, [], hk, Empty), [], path, n);
  }

  /** The name of a node is nothing that is read. */
  lemma {:induction false} ReadName(g: Forest, name: Bytes, path: seq<Bytes>, n: Bytes)
    requires g.Node?
    ensures Read(g, path, n) == Read(g.(name := name), path, n)
  {
  }

  lemma {:induction false} BreaksLater(g: Forest, ks: Forest, hs: Forest, path: seq<Bytes>, n: Bytes)
    requires g.Node? && g.next.Empty? && ks.Node? && Fresh(ks.next, ks.name)
    requires Breaks(MergeKid(g, ks.name, [], Bare(ks.kids)), ks.next, hs, path, n)
    ensures Breaks(g, ks, Node(ks.name, [], Bare(ks.kids), hs), path, n)
  {
    var m := ks.name;
    var all := Node(m, [], Bare(ks.kids), hs);
    BareKid(g, m, ks.kids, path, n);
    BareIs(ks.kids);
    NoProps();
    if |path| > 0 {
      ReadKid(Node([], [], all, Empty), path, n);
      ReadKid(Node([], [], hs, Empty), path, n);
      if path[0] == m {
        SameNamed(hs, ks.next, m);
        FreshNamed(ks.next, m);
        BareReads(m, ks.kids, Empty, path[1..], n);
      }
    }
  }

  /** Names that are not sound break the union for some properties. */
  lemma {:induction false} UnsoundBreaks(g: Forest, ks: Forest, n: Bytes) returns (hs: Forest, path: seq<Bytes>)
    requires g.Node? && g.next.Empty? && !Sound(g.kids, ks)
    ensures Breaks(g, ks, hs, path, n)
    decreases ks
  {
    var m := ks.name;
    if !Lands(g.kids, m) {
      hs, path := BreaksAstray(g, ks, n);
    } else if !Fresh(ks.next, m) {
      hs, path := BreaksTwice(g, ks, n);
    } else if !Sound(Base(g.kids, m).kids, ks.kids) {
      hs, path := UnsoundBreaks(Base(g.kids, m), ks.kids, n);
      BreaksBelow(g, ks, hs, path, n);
      hs, path := Node(m, [], hs, Bare(ks.next)), [m] + path;
    } else {
      SoundAfter(g, m, [], Bare(ks.kids), ks.next);
      hs, path := UnsoundBreaks(MergeKid(g, m, [], Bare(ks.kids)), ks.next, n);
      BreaksLater(g, ks, hs, path, n);
      hs := Node(m, [], Bare(ks.kids), hs);
    }
  }

  /** The merged node is the union at every path, whatever the properties are. */
  ghost predicate AlwaysUnion(g: Forest, ks: Forest)
    requires g.Node?
  {
    forall h: Forest, path, n {:trigger Law(g, h, path, n)} ::
      h.Node? && SameNames(h.kids, ks) && Single(h.props) && Plain(h.kids) ==> Law(g, h, path, n)
  }

  lemma {:induction false} SameNamesSound(gk: Forest, hs: Forest, ks: Forest)
    requires SameNames(hs, ks) && Sound(gk, ks)
    ensures Sound(gk, hs)
    decreases ks
  {
    if ks.Node? {
      SameUnhindered(gk, ks.name, hs.next, ks.next);
      SameNamesSound(Base(gk, ks.name).kids, hs.kids, ks.kids);
      SameNamesSound(gk, hs.next, ks.next);
    }
  }

  lemma {:induction false} SameUnhindered(gk: Forest, n: Bytes, hs: Forest, ks: Forest)
    requires SameNames(hs, ks) && Unhindered(gk, n, ks)
    ensures Unhindered(gk, n, hs)
    decreases ks
  {
    if ks.Node? {
      SameUnhindered(gk, n, hs.next, ks.next);
    }
  }

  /** Merging an overlay of these names is always a union exactly when the names are sound. */
  lemma {:induction false} UnionExactlyWhen(g: Forest, ks: Forest)
    requires g.Node?
    ensures AlwaysUnion(g, ks) <==> Sound(g.kids, ks)
  {
    if Sound(g.kids, ks) {
      forall h: Forest, path, n | h.Node? && SameNames(h.kids, ks) && Single(h.props) && Plain(h.kids)
        ensures Law(g, h, path, n)
      {
        SameNamesSound(g.kids, h.kids, ks);
        MergeIsUnion(g, h, path, n);
      }
    } else {
      var hs, path := UnsoundBreaks(Alone(g), ks, []);
      NoProps();
      assert SetAll(Alone(g), []) == Alone(g);
      ReadAlone(g, path, []);
      assert !Law(g, Node([], [], hs, Empty), path, []);
    }
  }
}
