/** How a trie is laid out in the words of its chunks. */
module TreeLinks {
  import opened Layout
  import opened Rings
  import opened Tries
  import TreeIndex

  /** The chunk linked at position q, or null. */
  ghost function HeadAt(t: Trie, q: Path): int {
    if q in t && t[q] != [] then t[q][0] else 0
  }

  ghost function Up(q: Path): Path
    requires q != []
  {
    q[..|q| - 1]
  }

  /** The parent word of the chunk at q: a chunk, or the bin's own cell for the root. */
  ghost function ParentAt(i: int, t: Trie, q: Path): int {
    if q == [] then BinCell(i) else HeadAt(t, Up(q))
  }

  /** Address of the word that points to the chunk at q. */
  ghost function ChildCell(i: int, t: Trie, q: Path): int {
    if q == [] then BinCell(i) else HeadAt(t, Up(q)) + if q[|q| - 1] then RIGHT else LEFT
  }

  /** The words every member of a ring has: its bin index, and no tree links if chained. */
  ghost predicate MemberOk(mem: Memory, i: int, a: int, chained: bool) {
    && STATIC_END <= a && a + 64 <= |mem|
    && mem[a + INDEX] == Val(i)
    && (chained ==> mem[a + LEFT] == Val(0) && mem[a + RIGHT] == Val(0) && mem[a + PARENT] == Val(0))
  }

  ghost predicate NodeOk(mem: Memory, i: int, t: Trie, q: Path)
    requires q in t
  {
    && t[q] != []
    && var x := t[q][0];
    && (forall k :: 0 <= k < |t[q]| ==> MemberOk(mem, i, t[q][k], k > 0))
    && STATIC_END <= x && x + 64 <= |mem|
    && mem[x + LEFT] == Val(HeadAt(t, q + [false]))
    && mem[x + RIGHT] == Val(HeadAt(t, q + [true]))
    && mem[x + PARENT] == Val(ParentAt(i, t, q))
  }

  /** The tree links of bin i. */
  ghost predicate Linked(mem: Memory, i: int, t: Trie) {
    && 0 <= i < TreeIndex.NTREEBINS && STATIC_END <= |mem|
    && mem[BinCell(i)] == Val(HeadAt(t, []))
    && (forall q {:trigger NodeOk(mem, i, t, q)} :: q in t ==> NodeOk(mem, i, t, q))
  }

  ghost predicate RingsOk(mem: Memory, t: Trie) {
    forall q {:trigger Ring(mem, t[q])} :: q in t ==> Ring(mem, t[q])
  }

  /** All the words of a tree chunk that hold links. */
  ghost predicate SameNode(mem: Memory, mem': Memory, a: int) {
    && 0 <= a && a + 64 <= |mem| <= |mem'|
    && mem'[a + FD] == mem[a + FD] && mem'[a + BK] == mem[a + BK]
    && mem'[a + LEFT] == mem[a + LEFT] && mem'[a + RIGHT] == mem[a + RIGHT]
    && mem'[a + PARENT] == mem[a + PARENT] && mem'[a + INDEX] == mem[a + INDEX]
  }

  /** Different large chunks do not share link words. */
  lemma {:induction false} FarApart(cs: Chunks, lo: int, hi: int, a: int, b: int)
    requires Layout.Tiled(cs, lo, hi) && a in cs && b in cs && a != b
    requires TreeIndex.MIN_LARGE_SIZE <= cs[a].size && TreeIndex.MIN_LARGE_SIZE <= cs[b].size
    ensures a + 64 <= b || b + 64 <= a
  {
    assert Apart(cs, a, b) && Apart(cs, b, a);
  }

  /** A chunk is a member of at most one position, and there only once. */
  lemma {:induction false} OnePlace(cs: Chunks, i: int, t: Trie, q: Path, k: int, r: Path, m: int)
    requires TrieOk(cs, i, t) && q in t && r in t && 0 <= k < |t[q]| && 0 <= m < |t[r]|
    requires t[q][k] == t[r][m]
    ensures q == r && k == m
  {
    assert PosOk(cs, i, t, q) && PosOk(cs, i, t, r) && Differ(cs, t, q, r);
  }

  lemma {:induction false} UpStep(q: Path, b: bool)
    ensures Up(q + [b]) == q && (q + [b])[|q|] == b
  {
  }

  lemma {:induction false} StepUp(q: Path)
    requires q != []
    ensures Up(q) + [q[|q| - 1]] == q
  {
  }

  lemma {:induction false} ParentOf(q: Path, r: Path)
    requires r != []
    ensures Up(r) == q <==> r == q + [false] || r == q + [true]
  {
    StepUp(r);
    if Up(r) == q {
      if r[|r| - 1] {
        assert r == q + [true];
      } else {
        assert r == q + [false];
      }
    }
    UpStep(q, false);
    UpStep(q, true);
  }

  /** A node whose own words and neighbours stay the same. */
  lemma {:induction false} NodeSame(mem: Memory, mem': Memory, i: int, t: Trie, t': Trie, r: Path)
    requires r in t && r in t' && t'[r] == t[r] && NodeOk(mem, i, t, r)
    requires forall k :: 0 <= k < |t[r]| ==> SameNode(mem, mem', t[r][k])
    requires HeadAt(t', r + [false]) == HeadAt(t, r + [false])
    requires HeadAt(t', r + [true]) == HeadAt(t, r + [true])
    requires ParentAt(i, t', r) == ParentAt(i, t, r)
    ensures NodeOk(mem', i, t', r)
  {
    forall k | 0 <= k < |t[r]|
      ensures MemberOk(mem', i, t[r][k], k > 0)
    {
      assert MemberOk(mem, i, t[r][k], k > 0);
      assert SameNode(mem, mem', t[r][k]);
    }
    assert SameNode(mem, mem', t[r][0]);
  }

  /** A position other than q, its parent and its children has the same neighbours in t and t'. */
  lemma {:induction false} SameNeighbours(i: int, t: Trie, t': Trie, q: Path, r: Path)
    requires t' - {q} == t - {q} && r != q
    ensures q == [] || r != Up(q) ==>
              HeadAt(t', r + [false]) == HeadAt(t, r + [false]) && HeadAt(t', r + [true]) == HeadAt(t, r + [true])
    ensures q != [] ==> HeadAt(t', r + [!q[|q| - 1]]) == HeadAt(t, r + [!q[|q| - 1]])
    ensures r == [] || Up(r) != q ==> ParentAt(i, t', r) == ParentAt(i, t, r)
  {
    forall p: Path | p != q
      ensures HeadAt(t', p) == HeadAt(t, p)
    {
      assert p in t <==> p in t - {q};
      assert p in t' <==> p in t' - {q};
      if p in t {
        assert t[p] == (t - {q})[p];
        assert t'[p] == (t' - {q})[p];
      }
    }
    UpStep(r, false);
    UpStep(r, true);
  }

  /** Members of other positions are far from x and, but for q's parent, from that parent. */
  lemma {:induction false} Elsewhere(cs: Chunks, lo: int, hi: int, i: int, t: Trie, p: Path, r: Path, k: int)
    requires Layout.Tiled(cs, lo, hi) && TrieOk(cs, i, t) && p in t && r in t && 0 <= k < |t[r]|
    requires r != p || k != 0
    ensures t[p] != [] && (t[r][k] + 64 <= t[p][0] || t[p][0] + 64 <= t[r][k])
  {
    assert PosOk(cs, i, t, p) && PosOk(cs, i, t, r);
    if t[r][k] == t[p][0] {
      OnePlace(cs, i, t, r, k, p, 0);
    } else {
      FarApart(cs, lo, hi, t[r][k], t[p][0]);
    }
  }

  ghost predicate SameMembers(mem: Memory, mem': Memory, t: Trie) {
    forall q, k :: q in t && 0 <= k < |t[q]| ==> SameNode(mem, mem', t[q][k])
  }

  /** Tree links do not depend on words outside the members and the bin's cell. */
  lemma {:induction false} LinkedFrame(mem: Memory, mem': Memory, i: int, t: Trie)
    requires Linked(mem, i, t) && |mem| <= |mem'| && SameMembers(mem, mem', t)
    requires mem'[BinCell(i)] == mem[BinCell(i)]
    ensures Linked(mem', i, t)
  {
    forall q | q in t
      ensures NodeOk(mem', i, t, q)
    {
      assert NodeOk(mem, i, t, q);
      NodeSame(mem, mem', i, t, t, q);
    }
  }

  ghost predicate NotMember(t: Trie, x: int) {
    forall r, k :: r in t && 0 <= k < |t[r]| ==> t[r][k] != x
  }

  /** The words of x that attaching it sets, apart from its ring links. */
  ghost predicate LeafWords(mem: Memory, i: int, t: Trie, q: Path, x: int) {
    && MemberOk(mem, i, x, false)
    && mem[x + LEFT] == Val(0) && mem[x + RIGHT] == Val(0) && mem[x + PARENT] == Val(ParentAt(i, t, q))
  }

  ghost predicate Attachable(mem: Memory, cs: Chunks, lo: int, hi: int, i: int, t: Trie, q: Path, x: int) {
    && Layout.Tiled(cs, lo, hi) && TrieOk(cs, i, t) && Linked(mem, i, t)
    && q !in t && (q == [] ==> t == map[]) && (q != [] ==> Up(q) in t)
    && q + [false] !in t && q + [true] !in t
    && InBin(cs, i, x) && NotMember(t, x) && LeafWords(mem, i, t, q, x)
  }

  lemma {:induction false} CellInside(mem: Memory, cs: Chunks, i: int, t: Trie, q: Path)
    requires TrieOk(cs, i, t) && Linked(mem, i, t) && (q != [] ==> Up(q) in t)
    ensures 0 <= ChildCell(i, t, q) < |mem|
    ensures q != [] ==> t[Up(q)] != [] && ChildCell(i, t, q) == t[Up(q)][0] + (if q[|q| - 1] then RIGHT else LEFT)
  {
    if q != [] {
      assert PosOk(cs, i, t, Up(q));
      assert NodeOk(mem, i, t, Up(q));
    }
  }

  /** Pointing q's cell elsewhere leaves the nodes that are not next to q alone. */
  lemma {:induction false} AttachOther(mem: Memory, cs: Chunks, lo: int, hi: int, i: int, t: Trie, q: Path, x: int,
                                       r: Path)
    requires Attachable(mem, cs, lo, hi, i, t, q, x) && 0 <= ChildCell(i, t, q) < |mem|
    requires r in t && q != []
    ensures NodeOk(mem[ChildCell(i, t, q) := Val(x)], i, t[q := [x]], r)
  {
    var mem', t', p := mem[ChildCell(i, t, q) := Val(x)], t[q := [x]], Up(q);
    assert PosOk(cs, i, t, r);
    assert NodeOk(mem, i, t, r);
    CellInside(mem, cs, i, t, q);
    SameNeighbours(i, t, t', q, r);
    if r != [] {
      assert Up(r) in t by { assert Closed(t, r); }
    }
    forall k | 0 <= k < |t[r]| && (r != p || k != 0)
      ensures SameNode(mem, mem', t[r][k])
    {
      assert MemberOk(mem, i, t[r][k], k > 0);
      Elsewhere(cs, lo, hi, i, t, p, r, k);
    }
    if r != p {
      NodeSame(mem, mem', i, t, t', r);
    } else {
      StepUp(q);
      forall k | 0 <= k < |t[r]|
        ensures MemberOk(mem', i, t[r][k], k > 0)
      {
        assert MemberOk(mem, i, t[r][k], k > 0);
      }
    }
  }

  /** Link the leaf x, whose own words are set, at position q. */
  lemma {:induction false} AttachLinks(mem: Memory, cs: Chunks, lo: int, hi: int, i: int, t: Trie, q: Path, x: int)
    requires Attachable(mem, cs, lo, hi, i, t, q, x)
    ensures 0 <= ChildCell(i, t, q) < |mem|
    ensures Linked(mem[ChildCell(i, t, q) := Val(x)], i, t[q := [x]])
  {
    CellInside(mem, cs, i, t, q);
    var mem', t' := mem[ChildCell(i, t, q) := Val(x)], t[q := [x]];
    forall r | r in t'
      ensures NodeOk(mem', i, t', r)
    {
      if r == q {
        if q != [] {
          assert PosOk(cs, i, t, Up(q));
          FarApart(cs, lo, hi, t[Up(q)][0], x);
          assert Up(q) != q;
        }
        assert q + [false] != q && q + [true] != q;
      } else {
        AttachOther(mem, cs, lo, hi, i, t, q, x, r);
      }
    }
  }

  // ----- Taking a leaf out -----

  ghost predicate Detachable(mem: Memory, cs: Chunks, lo: int, hi: int, i: int, t: Trie, q: Path) {
    && Layout.Tiled(cs, lo, hi) && TrieOk(cs, i, t) && Linked(mem, i, t)
    && q in t && q + [false] !in t && q + [true] !in t
  }

  lemma {:induction false} DetachMember(mem: Memory, cs: Chunks, lo: int, hi: int, i: int, t: Trie, q: Path, r: Path,
                                        k: int)
    requires Detachable(mem, cs, lo, hi, i, t, q) && 0 <= ChildCell(i, t, q) < |mem|
    requires r in t && q != [] && Up(q) in t && 0 <= k < |t[r]| && (r != Up(q) || k != 0)
    ensures SameNode(mem, mem[ChildCell(i, t, q) := Val(0)], t[r][k])
  {
    assert PosOk(cs, i, t, r);
    assert NodeOk(mem, i, t, r);
    assert MemberOk(mem, i, t[r][k], k > 0);
    Elsewhere(cs, lo, hi, i, t, Up(q), r, k);
  }

  lemma {:induction false} DetachOther(mem: Memory, cs: Chunks, lo: int, hi: int, i: int, t: Trie, q: Path, r: Path)
    requires Detachable(mem, cs, lo, hi, i, t, q) && 0 <= ChildCell(i, t, q) < |mem|
    requires r in t && r != q && q != [] && Up(q) in t && r != Up(q)
    ensures NodeOk(mem[ChildCell(i, t, q) := Val(0)], i, t - {q}, r)
  {
    var mem', t' := mem[ChildCell(i, t, q) := Val(0)], t - {q};
    assert NodeOk(mem, i, t, r);
    SameNeighbours(i, t, t', q, r);
    if r != [] {
      StepUp(r);
      assert r == Up(r) + (if r[|r| - 1] then [true] else [false]);
    }
    forall k | 0 <= k < |t[r]| ensures SameNode(mem, mem', t[r][k]) {
      DetachMember(mem, cs, lo, hi, i, t, q, r, k);
    }
    NodeSame(mem, mem', i, t, t', r);
  }

  lemma {:induction false} DetachParent(mem: Memory, cs: Chunks, lo: int, hi: int, i: int, t: Trie, q: Path, p: Path)
    requires Detachable(mem, cs, lo, hi, i, t, q) && 0 <= ChildCell(i, t, q) < |mem|
    requires p in t && p != q && q != [] && p == Up(q)
    ensures NodeOk(mem[ChildCell(i, t, q) := Val(0)], i, t - {q}, p)
  {
    var mem', t' := mem[ChildCell(i, t, q) := Val(0)], t - {q};
    assert NodeOk(mem, i, t, p);
    var x := t[p][0];
    assert ChildCell(i, t, q) == if q[|q| - 1] then x + RIGHT else x + LEFT;
    SameNeighbours(i, t, t', q, p);
    StepUp(q);
    if p != [] {
      assert |Up(p)| < |q|;
    }
    assert HeadAt(t', q) == 0;
    forall k | 0 <= k < |t[p]| ensures MemberOk(mem', i, t[p][k], k > 0) {
      assert MemberOk(mem, i, t[p][k], k > 0);
      if k != 0 {
        DetachMember(mem, cs, lo, hi, i, t, q, p, k);
      }
    }
  }

  lemma {:induction false} DetachBelow(mem: Memory, cs: Chunks, lo: int, hi: int, i: int, t: Trie, q: Path, r: Path)
    requires Detachable(mem, cs, lo, hi, i, t, q) && 0 <= ChildCell(i, t, q) < |mem|
    requires r in t && r != q && q != [] && Up(q) in t
    ensures NodeOk(mem[ChildCell(i, t, q) := Val(0)], i, t - {q}, r)
  {
    if r == Up(q) {
      DetachParent(mem, cs, lo, hi, i, t, q, r);
    } else {
      DetachOther(mem, cs, lo, hi, i, t, q, r);
    }
  }

  /** Clear the word that points to the leaf at q. */
  lemma {:induction false} DetachLinks(mem: Memory, cs: Chunks, lo: int, hi: int, i: int, t: Trie, q: Path)
    requires Detachable(mem, cs, lo, hi, i, t, q)
    ensures 0 <= ChildCell(i, t, q) < |mem|
    ensures Linked(mem[ChildCell(i, t, q) := Val(0)], i, t - {q})
  {
    assert PosOk(cs, i, t, q);
    if q != [] {
      assert Up(q) in t by { assert Closed(t, q); }
    }
    CellInside(mem, cs, i, t, q);
    var mem', t' := mem[ChildCell(i, t, q) := Val(0)], t - {q};
    forall r | r in t'
      ensures NodeOk(mem', i, t', r)
    {
      if q == [] {
        NoDescendants(cs, i, t, q, r);
      } else {
        DetachBelow(mem, cs, lo, hi, i, t, q, r);
      }
    }
    if q != [] {
      assert PosOk(cs, i, t, Up(q));
      assert NodeOk(mem, i, t, Up(q));
    }
  }

  // ----- Putting another ring in the place of a node -----

  /** The words that linking the first chunk of c at position q needs. */
  ghost predicate Transplantable(mem: Memory, cs: Chunks, lo: int, hi: int, i: int, t: Trie, q: Path, c: seq<int>) {
    && Layout.Tiled(cs, lo, hi) && TrieOk(cs, i, t) && Linked(mem, i, t)
    && q in t && c != []
    && (forall k :: 0 <= k < |c| ==> InBin(cs, i, c[k]) && NotMember(t, c[k]) && MemberOk(mem, i, c[k], k > 0))
    && mem[c[0] + LEFT] == Val(HeadAt(t, q + [false]))
    && mem[c[0] + RIGHT] == Val(HeadAt(t, q + [true]))
    && mem[c[0] + PARENT] == Val(ParentAt(i, t, q))
    && (forall k :: 0 < k < |c| ==> c[k] != c[0])
  }

  /** Address of the parent word of the chunk at r, or -1 when r is empty. */
  ghost function ParentWord(t: Trie, r: Path): int {
    if r in t then HeadAt(t, r) + PARENT else -1
  }

  /** mem' is mem with the words that point to the chunk at q pointing to x instead. */
  ghost predicate Relinked(mem: Memory, mem': Memory, i: int, t: Trie, q: Path, x: int) {
    && |mem'| == |mem|
    && 0 <= ChildCell(i, t, q) < |mem| && mem'[ChildCell(i, t, q)] == Val(x)
    && (q + [false] in t ==> 0 <= ParentWord(t, q + [false]) < |mem| && mem'[ParentWord(t, q + [false])] == Val(x))
    && (q + [true] in t ==> 0 <= ParentWord(t, q + [true]) < |mem| && mem'[ParentWord(t, q + [true])] == Val(x))
    && (forall y :: 0 <= y < |mem| && y !in {ChildCell(i, t, q), ParentWord(t, q + [false]), ParentWord(t, q + [true])}
          ==> mem'[y] == mem[y])
  }

  /** The words next to q lie in chunks other than the member a, or in the bin's cell. */
  ghost predicate Untouched(i: int, t: Trie, q: Path, a: int) {
    && (ChildCell(i, t, q) < a + 16 || a + 64 <= ChildCell(i, t, q))
    && (ParentWord(t, q + [false]) < a + 16 || a + 64 <= ParentWord(t, q + [false]))
    && (ParentWord(t, q + [true]) < a + 16 || a + 64 <= ParentWord(t, q + [true]))
  }

  lemma {:induction false} UntouchedSame(mem: Memory, mem': Memory, i: int, t: Trie, q: Path, x: int, a: int)
    requires Relinked(mem, mem', i, t, q, x) && Untouched(i, t, q, a) && 0 <= a && a + 64 <= |mem|
    ensures SameNode(mem, mem', a)
  {
  }

  /** Words next to q are not in a chunk that is none of q's neighbours. */
  lemma {:induction false} TransplantAway(cs: Chunks, lo: int, hi: int, i: int, t: Trie, q: Path, a: int)
    requires Layout.Tiled(cs, lo, hi) && TrieOk(cs, i, t) && q in t && STATIC_END <= a && InBin(cs, i, a)
    requires q != [] ==> a != HeadAt(t, Up(q))
    requires a != HeadAt(t, q + [false]) && a != HeadAt(t, q + [true])
    ensures Untouched(i, t, q, a)
  {
    assert PosOk(cs, i, t, q);
    if q != [] {
      assert Up(q) in t by { assert Closed(t, q); }
      assert PosOk(cs, i, t, Up(q));
      FarApart(cs, lo, hi, a, t[Up(q)][0]);
    }
    if q + [false] in t {
      assert PosOk(cs, i, t, q + [false]);
      FarApart(cs, lo, hi, a, t[q + [false]][0]);
    }
    if q + [true] in t {
      assert PosOk(cs, i, t, q + [true]);
      FarApart(cs, lo, hi, a, t[q + [true]][0]);
    }
  }

  /** A member is the chunk linked at p only if it is the first of p's ring. */
  lemma {:induction false} MemberIsHead(cs: Chunks, i: int, t: Trie, r: Path, k: int, p: Path)
    requires TrieOk(cs, i, t) && r in t && 0 <= k < |t[r]| && STATIC_END <= t[r][k]
    ensures t[r][k] == HeadAt(t, p) <==> r == p && k == 0
  {
    assert PosOk(cs, i, t, r);
    if p in t {
      assert PosOk(cs, i, t, p);
      if t[r][k] == t[p][0] {
        OnePlace(cs, i, t, r, k, p, 0);
      }
    }
  }

  /** Members other than the parent and the children of q keep their words. */
  lemma {:induction false} TransplantSame(mem: Memory, mem': Memory, cs: Chunks, lo: int, hi: int, i: int, t: Trie,
                                          q: Path, x: int,
                       r: Path, k: int)
    requires Layout.Tiled(cs, lo, hi) && TrieOk(cs, i, t) && Linked(mem, i, t) && q in t
    requires Relinked(mem, mem', i, t, q, x)
    requires r in t && 0 <= k < |t[r]|
    requires k == 0 ==> (q == [] || r != Up(q)) && r != q + [false] && r != q + [true]
    ensures SameNode(mem, mem', t[r][k])
  {
    assert NodeOk(mem, i, t, r);
    assert MemberOk(mem, i, t[r][k], k > 0);
    assert PosOk(cs, i, t, r);
    MemberIsHead(cs, i, t, r, k, q + [false]);
    MemberIsHead(cs, i, t, r, k, q + [true]);
    if q != [] {
      MemberIsHead(cs, i, t, r, k, Up(q));
    }
    TransplantAway(cs, lo, hi, i, t, q, t[r][k]);
    UntouchedSame(mem, mem', i, t, q, x, t[r][k]);
  }

  lemma {:induction false} TransplantOther(mem: Memory, mem': Memory, cs: Chunks, lo: int, hi: int, i: int, t: Trie,
                                           q: Path,
                        c: seq<int>, r: Path)
    requires Transplantable(mem, cs, lo, hi, i, t, q, c) && Relinked(mem, mem', i, t, q, c[0])
    requires r in t && r != q && (q == [] || r != Up(q)) && r != q + [false] && r != q + [true]
    ensures NodeOk(mem', i, t[q := c], r)
  {
    assert NodeOk(mem, i, t, r);
    SameNeighbours(i, t, t[q := c], q, r);
    if r != [] {
      ParentOf(q, r);
    }
    forall k | 0 <= k < |t[r]|
      ensures SameNode(mem, mem', t[r][k])
    {
      TransplantSame(mem, mem', cs, lo, hi, i, t, q, c[0], r, k);
    }
    NodeSame(mem, mem', i, t, t[q := c], r);
  }

  lemma {:induction false} TransplantMember(mem: Memory, mem': Memory, cs: Chunks, lo: int, hi: int, i: int, t: Trie,
                                            q: Path, c: seq<int>, k: int)
    requires Transplantable(mem, cs, lo, hi, i, t, q, c) && Relinked(mem, mem', i, t, q, c[0]) && 0 <= k < |c|
    ensures SameNode(mem, mem', c[k]) && MemberOk(mem', i, c[k], k > 0)
  {
    assert PosOk(cs, i, t, q);
    assert MemberOk(mem, i, c[k], k > 0);
    if q != [] {
      assert Up(q) in t by { assert Closed(t, q); }
    }
    TransplantAway(cs, lo, hi, i, t, q, c[k]);
    UntouchedSame(mem, mem', i, t, q, c[0], c[k]);
  }

  lemma {:induction false} TransplantSelf(mem: Memory, mem': Memory, cs: Chunks, lo: int, hi: int, i: int, t: Trie,
                                          q: Path, c: seq<int>)
    requires Transplantable(mem, cs, lo, hi, i, t, q, c) && Relinked(mem, mem', i, t, q, c[0])
    ensures NodeOk(mem', i, t[q := c], q)
  {
    var t' := t[q := c];
    assert PosOk(cs, i, t, q);
    forall k | 0 <= k < |c|
      ensures SameNode(mem, mem', c[k]) && MemberOk(mem', i, c[k], k > 0)
    {
      TransplantMember(mem, mem', cs, lo, hi, i, t, q, c, k);
    }
    assert SameNode(mem, mem', c[0]);
    assert q + [false] != q && q + [true] != q;
    assert q != [] ==> Up(q) != q;
  }

  lemma {:induction false} TransplantParent(mem: Memory, mem': Memory, cs: Chunks, lo: int, hi: int, i: int, t: Trie,
                                            q: Path, c: seq<int>)
    requires Transplantable(mem, cs, lo, hi, i, t, q, c) && Relinked(mem, mem', i, t, q, c[0])
    requires q != [] && Up(q) in t
    ensures NodeOk(mem', i, t[q := c], Up(q))
  {
    var t', p := t[q := c], Up(q);
    assert NodeOk(mem, i, t, p);
    SameNeighbours(i, t, t', q, p);
    StepUp(q);
    if q + [false] in t {
      Elsewhere(cs, lo, hi, i, t, q + [false], p, 0);
    }
    if q + [true] in t {
      Elsewhere(cs, lo, hi, i, t, q + [true], p, 0);
    }
    forall k | 0 <= k < |t[p]|
      ensures MemberOk(mem', i, t[p][k], k > 0)
    {
      assert MemberOk(mem, i, t[p][k], k > 0);
      if k > 0 {
        TransplantSame(mem, mem', cs, lo, hi, i, t, q, c[0], p, k);
      }
    }
  }

  lemma {:induction false} TransplantChild(mem: Memory, mem': Memory, cs: Chunks, lo: int, hi: int, i: int, t: Trie,
                                           q: Path,
                        c: seq<int>, b: bool)
    requires Transplantable(mem, cs, lo, hi, i, t, q, c) && Relinked(mem, mem', i, t, q, c[0])
    requires q + [b] in t
    ensures NodeOk(mem', i, t[q := c], q + [b])
  {
    var t', r := t[q := c], q + [b];
    assert NodeOk(mem, i, t, r);
    assert PosOk(cs, i, t, q);
    SameNeighbours(i, t, t', q, r);
    UpStep(q, b);
    if q != [] {
      assert Up(q) in t by { assert Closed(t, q); }
      Elsewhere(cs, lo, hi, i, t, Up(q), r, 0);
    }
    if q + [!b] in t {
      Elsewhere(cs, lo, hi, i, t, q + [!b], r, 0);
    }
    forall k | 0 <= k < |t[r]|
      ensures MemberOk(mem', i, t[r][k], k > 0)
    {
      assert MemberOk(mem, i, t[r][k], k > 0);
      if k > 0 {
        TransplantSame(mem, mem', cs, lo, hi, i, t, q, c[0], r, k);
      }
    }
  }

  /** Put the ring c, whose own words are set, in the place of the node at q. */
  lemma {:induction false} TransplantLinks(mem: Memory, mem': Memory, cs: Chunks, lo: int, hi: int, i: int, t: Trie,
                                           q: Path, c: seq<int>)
    requires Transplantable(mem, cs, lo, hi, i, t, q, c) && Relinked(mem, mem', i, t, q, c[0])
    ensures Linked(mem', i, t[q := c])
  {
    var t' := t[q := c];
    forall r | r in t'
      ensures NodeOk(mem', i, t', r)
    {
      if r == q {
        TransplantSelf(mem, mem', cs, lo, hi, i, t, q, c);
      } else if r == q + [false] {
        TransplantChild(mem, mem', cs, lo, hi, i, t, q, c, false);
      } else if r == q + [true] {
        TransplantChild(mem, mem', cs, lo, hi, i, t, q, c, true);
      } else if q != [] && r == Up(q) {
        TransplantParent(mem, mem', cs, lo, hi, i, t, q, c);
      } else {
        TransplantOther(mem, mem', cs, lo, hi, i, t, q, c, r);
      }
    }
    assert PosOk(cs, i, t, q);
    if q != [] {
      assert Up(q) in t by { assert Closed(t, q); }
      assert NodeOk(mem, i, t, Up(q));
    }
    if q + [false] in t {
      assert NodeOk(mem, i, t, q + [false]);
    }
    if q + [true] in t {
      assert NodeOk(mem, i, t, q + [true]);
    }
  }
}
