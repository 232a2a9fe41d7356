/** insert_large_chunk and unlink_large_chunk, case by case, on one treebin. */
module TreeBins {
  import opened Layout
  import opened Rings
  import opened Tries
  import opened TreeLinks
  import opened Bins
  import TreeIndex
  import opened Words

  /** Apart from the bin's cell, only link words of the chunks in w have changed. */
  ghost predicate LinkWrites(mem: Memory, mem': Memory, i: int, w: set<int>) {
    |mem'| == |mem| && forall y :: 0 <= y < |mem| && mem'[y] != mem[y] ==> y == BinCell(i) || LinkWord(w, y)
  }

  ghost predicate LinkWord(w: set<int>, y: int) {
    exists a :: a in w && a + 16 <= y < a + 64
  }

  /** The chunks that an operation on bin i touches are large and not in use. */
  ghost predicate Touchable(cs: Chunks, w: set<int>) {
    forall a :: a in w ==> a in cs && cs[a].kind != Used && MIN_LARGE_SIZE <= cs[a].size
  }

  /** Writing links of some chunks keeps the inside of all others. */
  lemma {:induction false} LinkWritesKeep(mem: Memory, mem': Memory, cs: Chunks, lo: int, hi: int, i: int,
                                          w: set<int>, a: int)
    requires Placed(mem, cs, lo, hi) && LinkWrites(mem, mem', i, w) && Touchable(cs, w) && 0 <= i < NBINS
    requires a in cs && a !in w
    ensures SameInside(mem, mem', a, cs[a])
  {
    Placement(cs, lo, hi, a, hi);
    forall x | a + 16 <= x < a + cs[a].size && 0 <= x < |mem|
      ensures mem'[x] == mem[x]
    {
      forall b | b in w
        ensures !(b + 16 <= x < b + 64)
      {
        Placement(cs, lo, hi, a, b);
        Placement(cs, lo, hi, b, a);
      }
      assert !LinkWord(w, x);
    }
  }

  lemma {:induction false} LinkWritesFrame(mem: Memory, mem': Memory, cs: Chunks, lo: int, hi: int, i: int, w: set<int>)
    requires Placed(mem, cs, lo, hi) && LinkWrites(mem, mem', i, w) && Touchable(cs, w) && 0 <= i < NBINS
    ensures InteriorOnly(mem, mem', cs)
    ensures STATIC_END <= |mem| ==> StaticKept(mem, mem', {BinCell(i)})
  {
    forall x | STATIC_END <= x < |mem|
      ensures InteriorAt(mem, mem', cs, x)
    {
      if LinkWord(w, x) {
        var b :| b in w && b + 16 <= x < b + 64;
        assert b in cs && cs[b].kind != Used && b + 16 <= x < b + cs[b].size;
      }
    }
    forall x | 0 <= x < STATIC_END && x < |mem| && x != BinCell(i)
      ensures mem'[x] == mem[x]
    {
      forall b | b in w
        ensures !(b + 16 <= x < b + 64)
      {
        Placement(cs, lo, hi, b, hi);
      }
      assert !LinkWord(w, x);
    }
  }

  lemma {:induction false} LinkWritesTrans(m0: Memory, m1: Memory, m2: Memory, i: int, w: set<int>)
    requires LinkWrites(m0, m1, i, w) && LinkWrites(m1, m2, i, w)
    ensures LinkWrites(m0, m2, i, w)
  {
    forall y | 0 <= y < |m0| && m2[y] != m0[y]
      ensures y == BinCell(i) || LinkWord(w, y)
    {
      assert m1[y] != m0[y] || m2[y] != m1[y];
    }
  }

  lemma {:induction false} LinkWriteOne(mem: Memory, i: int, w: set<int>, a: int, off: int, v: Cell)
    requires a in w && 16 <= off < 64 && 0 <= a + off < |mem|
    ensures LinkWrites(mem, mem[a + off := v], i, w)
  {
    forall y | 0 <= y < |mem| && mem[a + off := v][y] != mem[y]
      ensures y == BinCell(i) || LinkWord(w, y)
    {
      assert a in w && a + 16 <= y < a + 64;
    }
  }

  /** Ring links of members that are not among the written words survive. */
  lemma {:induction false} RingsKept(mem: Memory, mem': Memory, cs: Chunks, i: int, t: Trie, q: Path)
    requires TrieOk(cs, i, t) && TreeLinks.Linked(mem, i, t) && q in t && Ring(mem, t[q]) && |mem'| == |mem|
    requires forall k :: 0 <= k < |t[q]| && 0 <= t[q][k] && t[q][k] + 64 <= |mem| ==>
               mem'[t[q][k] + FD] == mem[t[q][k] + FD] && mem'[t[q][k] + BK] == mem[t[q][k] + BK]
    ensures Ring(mem', t[q])
  {
    assert NodeOk(mem, i, t, q);
    forall k | 0 <= k < |t[q]|
      ensures mem'[t[q][k] + FD] == mem[t[q][k] + FD] && mem'[t[q][k] + BK] == mem[t[q][k] + BK]
    {
      assert MemberOk(mem, i, t[q][k], k > 0);
    }
    RingFrame(mem, mem', t[q]);
  }

  // ----- Insertion as a new leaf -----

  ghost function AttachMem(mem: Memory, i: int, cell: int, par: int, x: int): Memory
    requires 0 <= x && x + 64 <= |mem| && 0 <= cell < |mem|
  {
    mem[x + INDEX := Val(i)][x + LEFT := Val(0)][x + RIGHT := Val(0)]
       [cell := Val(x)][x + PARENT := Val(par)][x + BK := Val(x)][x + FD := Val(x)]
  }

  /** The words of x alone, before anything points to it. */
  ghost function LeafMem(mem: Memory, i: int, par: int, x: int): Memory
    requires 0 <= x && x + 64 <= |mem|
  {
    mem[x + INDEX := Val(i)][x + LEFT := Val(0)][x + RIGHT := Val(0)]
       [x + PARENT := Val(par)][x + BK := Val(x)][x + FD := Val(x)]
  }

  lemma {:induction false} AttachOrder(mem: Memory, i: int, cell: int, par: int, x: int)
    requires 0 <= x && x + 64 <= |mem| && 0 <= cell < |mem| && (cell < x + 16 || x + 64 <= cell)
    ensures AttachMem(mem, i, cell, par, x) == LeafMem(mem, i, par, x)[cell := Val(x)]
  {
  }

  /** A chunk outside the trie is far from all members. */
  lemma {:induction false} Outsider(cs: Chunks, lo: int, hi: int, i: int, t: Trie, x: int, q: Path, k: int)
    requires Layout.Tiled(cs, lo, hi) && TrieOk(cs, i, t) && InBin(cs, i, x) && NotMember(t, x)
    requires q in t && 0 <= k < |t[q]|
    ensures x + 64 <= t[q][k] || t[q][k] + 64 <= x
  {
    assert PosOk(cs, i, t, q);
    FarApart(cs, lo, hi, t[q][k], x);
  }

  /** Setting the words of an outsider does not disturb the trie. */
  lemma {:induction false} OutsiderWords(mem: Memory, mem': Memory, cs: Chunks, lo: int, hi: int, i: int, t: Trie,
                                         x: int)
    requires Placed(mem, cs, lo, hi) && TreeOk(mem, cs, i, t) && InBin(cs, i, x) && NotMember(t, x)
    requires |mem'| == |mem| && forall y :: 0 <= y < |mem| && (y < x + 16 || x + 64 <= y) ==> mem'[y] == mem[y]
    ensures TreeOk(mem', cs, i, t)
  {
    Placement(cs, lo, hi, x, hi);
    forall q, k | q in t && 0 <= k < |t[q]|
      ensures SameNode(mem, mem', t[q][k])
    {
      assert NodeOk(mem, i, t, q);
      assert MemberOk(mem, i, t[q][k], k > 0);
      Outsider(cs, lo, hi, i, t, x, q, k);
    }
    LinkedFrame(mem, mem', i, t);
    forall q | q in t
      ensures Ring(mem', t[q])
    {
      RingFrame(mem, mem', t[q]);
    }
  }

  ghost predicate FreshLeaf(cs: Chunks, i: int, t: Trie, q: Path, x: int) {
    && InBin(cs, i, x) && NotMember(t, x) && Spells(i, cs[x].size, q)
    && q !in t && (q == [] ==> t == map[]) && (q != [] ==> Up(q) in t)
    && (forall r :: r in t && r < q ==> t[r] != [] && t[r][0] in cs && SizeAt(cs, t, r) != cs[x].size)
  }

  lemma {:induction false} ParentPresent(cs: Chunks, i: int, t: Trie, q: Path, b: bool)
    requires TrieOk(cs, i, t) && q + [b] in t
    ensures q in t
  {
    assert PosOk(cs, i, t, q + [b]);
    PrefixOfStep(q, b, |q|);
    assert q[..|q|] == q;
  }

  lemma {:induction false} NoChildrenYet(cs: Chunks, i: int, t: Trie, q: Path, b: bool)
    requires TrieOk(cs, i, t) && q !in t
    ensures q + [b] !in t
  {
    if q + [b] in t {
      ParentPresent(cs, i, t, q, b);
    }
  }

  lemma {:induction false} AttachTreeBin(mem: Memory, cs: Chunks, lo: int, hi: int, i: int, t: Trie, q: Path, x: int)
    requires Placed(mem, cs, lo, hi) && TreeOk(mem, cs, i, t) && FreshLeaf(cs, i, t, q, x)
    ensures 0 <= x && x + 64 <= |mem| && 0 <= ChildCell(i, t, q) < |mem|
    ensures TreeOk(AttachMem(mem, i, ChildCell(i, t, q), ParentAt(i, t, q), x), cs, i, t[q := [x]])
  {
    Placement(cs, lo, hi, x, hi);
    var cell, par, t' := ChildCell(i, t, q), ParentAt(i, t, q), t[q := [x]];
    var m1 := LeafMem(mem, i, par, x);
    OutsiderWords(mem, m1, cs, lo, hi, i, t, x);
    NoChildrenYet(cs, i, t, q, false);
    NoChildrenYet(cs, i, t, q, true);
    CellInside(m1, cs, i, t, q);
    if q != [] {
      Outsider(cs, lo, hi, i, t, x, Up(q), 0);
    }
    AttachOrder(mem, i, cell, par, x);
    AttachLinks(m1, cs, lo, hi, i, t, q, x);
    AttachTrie(cs, i, t, q, x);
    AttachRings(m1, cs, lo, hi, i, t, q, x);
  }

  lemma {:induction false} AttachRings(m1: Memory, cs: Chunks, lo: int, hi: int, i: int, t: Trie, q: Path, x: int)
    requires Placed(m1, cs, lo, hi) && TreeOk(m1, cs, i, t) && FreshLeaf(cs, i, t, q, x)
    requires 0 <= x && x + 64 <= |m1| && m1[x + FD] == Val(x) && m1[x + BK] == Val(x)
    requires 0 <= ChildCell(i, t, q) < |m1|
    ensures RingsOk(m1[ChildCell(i, t, q) := Val(x)], t[q := [x]])
  {
    var cell, t' := ChildCell(i, t, q), t[q := [x]];
    var mem' := m1[cell := Val(x)];
    CellInside(m1, cs, i, t, q);
    Placement(cs, lo, hi, x, hi);
    if q != [] {
      Outsider(cs, lo, hi, i, t, x, Up(q), 0);
    }
    forall r | r in t'
      ensures Ring(mem', t'[r])
    {
      if r == q {
        assert LinkOk(mem', [x], 0);
      } else {
        forall k | 0 <= k < |t[r]| && 0 <= t[r][k] && t[r][k] + 64 <= |m1|
          ensures mem'[t[r][k] + FD] == m1[t[r][k] + FD] && mem'[t[r][k] + BK] == m1[t[r][k] + BK]
        {
          if q != [] && (r != Up(q) || k != 0) {
            Elsewhere(cs, lo, hi, i, t, Up(q), r, k);
          }
        }
        RingsKept(m1, mem', cs, i, t, r);
      }
    }
  }

  // ----- Insertion into the ring of an equal-sized chunk -----

  ghost function ChainMem(mem: Memory, i: int, tt: int, f: int, x: int): Memory
    requires 0 <= x && x + 64 <= |mem| && 0 <= tt && tt + 64 <= |mem| && 0 <= f && f + 64 <= |mem|
  {
    mem[x + INDEX := Val(i)][x + LEFT := Val(0)][x + RIGHT := Val(0)]
       [f + BK := Val(x)][tt + FD := Val(x)][x + FD := Val(f)][x + BK := Val(tt)][x + PARENT := Val(0)]
  }

  lemma {:induction false} RingSpaced(cs: Chunks, lo: int, hi: int, i: int, t: Trie, q: Path)
    requires Layout.Tiled(cs, lo, hi) && TrieOk(cs, i, t) && q in t
    ensures Spaced(t[q])
  {
    assert PosOk(cs, i, t, q);
    forall k, m | 0 <= k < |t[q]| && 0 <= m < |t[q]|
      ensures Gap(t[q], k, m)
    {
      if k != m {
        FarApart(cs, lo, hi, t[q][k], t[q][m]);
      }
    }
  }

  /** The words of a tree chunk other than its ring links. */
  ghost predicate SameTree(mem: Memory, mem': Memory, a: int) {
    && 0 <= a && a + 64 <= |mem| <= |mem'|
    && mem'[a + LEFT] == mem[a + LEFT] && mem'[a + RIGHT] == mem[a + RIGHT]
    && mem'[a + PARENT] == mem[a + PARENT] && mem'[a + INDEX] == mem[a + INDEX]
  }

  /** Another ring behind the same first chunk leaves the tree links alone. */
  lemma {:induction false} RelistNode(mem: Memory, mem': Memory, i: int, t: Trie, t': Trie, r: Path)
    requires r in t && r in t' && t'[r] != [] && NodeOk(mem, i, t, r) && t'[r][0] == t[r][0]
    requires forall p: Path :: HeadAt(t', p) == HeadAt(t, p)
    requires SameTree(mem, mem', t[r][0])
    requires forall k :: 0 < k < |t'[r]| ==> MemberOk(mem', i, t'[r][k], true)
    ensures NodeOk(mem', i, t', r)
  {
    assert MemberOk(mem, i, t[r][0], false);
  }

  lemma {:induction false} RelistLinks(mem: Memory, mem': Memory, i: int, t: Trie, q: Path, c: seq<int>)
    requires TreeLinks.Linked(mem, i, t) && q in t && c != [] && t[q] != [] && c[0] == t[q][0]
    requires |mem| <= |mem'| && mem'[BinCell(i)] == mem[BinCell(i)]
    requires forall r, k :: r in t && 0 <= k < |t[r]| ==> SameTree(mem, mem', t[r][k])
    requires forall k :: 0 < k < |c| ==> MemberOk(mem', i, c[k], true)
    ensures TreeLinks.Linked(mem', i, t[q := c])
  {
    var t' := t[q := c];
    forall r | r in t'
      ensures NodeOk(mem', i, t', r)
    {
      assert NodeOk(mem, i, t, r);
      forall k | 0 < k < |t'[r]|
        ensures MemberOk(mem', i, t'[r][k], true)
      {
        if r != q {
          assert MemberOk(mem, i, t[r][k], k > 0);
          assert SameTree(mem, mem', t[r][k]);
        }
      }
      RelistNode(mem, mem', i, t, t', r);
    }
  }

  /** The words of x alone, before the ring points to it. */
  ghost function ChainedMem(mem: Memory, i: int, tt: int, f: int, x: int): Memory
    requires 0 <= x && x + 64 <= |mem|
  {
    mem[x + INDEX := Val(i)][x + LEFT := Val(0)][x + RIGHT := Val(0)]
       [x + FD := Val(f)][x + BK := Val(tt)][x + PARENT := Val(0)]
  }

  lemma {:induction false} ChainOrder(mem: Memory, i: int, tt: int, f: int, x: int)
    requires 0 <= x && x + 64 <= |mem| && 0 <= tt && tt + 64 <= |mem| && 0 <= f && f + 64 <= |mem|
    requires (tt + 64 <= x || x + 64 <= tt) && (f + 64 <= x || x + 64 <= f) && (tt == f || tt + 64 <= f || f + 64 <= tt)
    ensures ChainMem(mem, i, tt, f, x) == ChainedMem(mem, i, tt, f, x)[tt + FD := Val(x)][f + BK := Val(x)]
    ensures var m1 := ChainedMem(mem, i, tt, f, x)[tt + FD := Val(x)][f + BK := Val(x)];
            m1 == m1[x + FD := Val(f)][x + BK := Val(tt)]
  {
  }

  lemma {:induction false} ChainRing(m1: Memory, cs: Chunks, lo: int, hi: int, i: int, t: Trie, q: Path, x: int)
    requires Placed(m1, cs, lo, hi) && TreeOk(m1, cs, i, t) && InBin(cs, i, x) && NotMember(t, x) && q in t
    requires 0 <= x && x + 64 <= |m1| && t[q] != []
    requires m1[x + FD] == Val(Next(t[q], 0)) && m1[x + BK] == Val(t[q][0])
    ensures 0 <= t[q][0] && t[q][0] + 64 <= |m1| && 0 <= Next(t[q], 0) && Next(t[q], 0) + 64 <= |m1|
    ensures Ring(m1[t[q][0] + FD := Val(x)][Next(t[q], 0) + BK := Val(x)], InsertSecond(t[q], x))
  {
    var c := t[q];
    assert NodeOk(m1, i, t, q);
    assert MemberOk(m1, i, c[0], false) && MemberOk(m1, i, Next(c, 0), |c| > 1);
    RingSpaced(cs, lo, hi, i, t, q);
    forall k | 0 <= k < |c|
      ensures c[k] + 64 <= x || x + 64 <= c[k]
    {
      Outsider(cs, lo, hi, i, t, x, q, k);
    }
    InsertRing(m1, c, x);
    var m2 := m1[c[0] + FD := Val(x)][Next(c, 0) + BK := Val(x)];
    assert m2 == m2[x + FD := Val(Next(c, 0))][x + BK := Val(c[0])];
  }

  /** Writing ring links of two members changes no tree link. */
  lemma {:induction false} RingWordsOnly(mem: Memory, cs: Chunks, lo: int, hi: int, i: int, t: Trie, a: int, b: int,
                                         u: Cell, v: Cell,
                      r: Path, k: int)
    requires Layout.Tiled(cs, lo, hi) && TrieOk(cs, i, t) && TreeLinks.Linked(mem, i, t)
    requires InBin(cs, i, a) && InBin(cs, i, b) && 0 <= a && a + 64 <= |mem| && 0 <= b && b + 64 <= |mem|
    requires r in t && 0 <= k < |t[r]|
    ensures SameTree(mem, mem[a + FD := u][b + BK := v], t[r][k])
    ensures t[r][k] != a && t[r][k] != b ==> SameNode(mem, mem[a + FD := u][b + BK := v], t[r][k])
  {
    assert NodeOk(mem, i, t, r);
    assert MemberOk(mem, i, t[r][k], k > 0);
    assert PosOk(cs, i, t, r);
    if t[r][k] != a {
      FarApart(cs, lo, hi, t[r][k], a);
    }
    if t[r][k] != b {
      FarApart(cs, lo, hi, t[r][k], b);
    }
  }

  /** Rings at other positions survive changes to ring links of members of q. */
  lemma {:induction false} OtherRings(mem: Memory, mem': Memory, cs: Chunks, i: int, t: Trie, q: Path, a: int,
                                      b: int, r: Path)
    requires TreeOk(mem, cs, i, t) && q in t && r in t && r != q && |mem'| == |mem|
    requires a in t[q] && b in t[q]
    requires forall k :: 0 <= k < |t[r]| && t[r][k] != a && t[r][k] != b ==> SameNode(mem, mem', t[r][k])
    ensures Ring(mem', t[r])
  {
    assert PosOk(cs, i, t, r) && PosOk(cs, i, t, q) && Differ(cs, t, q, r);
    RingsKept(mem, mem', cs, i, t, r);
  }

  lemma {:induction false} SecondTrie(cs: Chunks, i: int, t: Trie, q: Path, x: int)
    requires TrieOk(cs, i, t) && InBin(cs, i, x) && NotMember(t, x) && q in t
    requires t[q] != [] && t[q][0] in cs && SizeAt(cs, t, q) == cs[x].size
    ensures TrieOk(cs, i, t[q := InsertSecond(t[q], x)])
  {
    var c, c' := t[q], InsertSecond(t[q], x);
    assert PosOk(cs, i, t, q);
    assert forall k :: 2 <= k < |c'| ==> c'[k] == c[k - 1];
    ReringTrie(cs, i, t, q, c');
  }

  lemma {:induction false} ChainTreeBin(mem: Memory, cs: Chunks, lo: int, hi: int, i: int, t: Trie, q: Path, x: int)
    requires Placed(mem, cs, lo, hi) && TreeOk(mem, cs, i, t) && InBin(cs, i, x) && NotMember(t, x) && q in t
    requires t[q] != [] && t[q][0] in cs && SizeAt(cs, t, q) == cs[x].size
    ensures STATIC_END <= x && x + 64 <= |mem|
    ensures 0 <= t[q][0] && t[q][0] + 64 <= |mem| && 0 <= Next(t[q], 0) && Next(t[q], 0) + 64 <= |mem|
    ensures TreeOk(ChainMem(mem, i, t[q][0], Next(t[q], 0), x), cs, i, t[q := InsertSecond(t[q], x)])
  {
    Placement(cs, lo, hi, x, hi);
    var c, tt, f := t[q], t[q][0], Next(t[q], 0);
    var m1 := ChainedMem(mem, i, tt, f, x);
    OutsiderWords(mem, m1, cs, lo, hi, i, t, x);
    assert PosOk(cs, i, t, q);
    ChainRing(m1, cs, lo, hi, i, t, q, x);
    var mem' := m1[tt + FD := Val(x)][f + BK := Val(x)];
    Outsider(cs, lo, hi, i, t, x, q, 0);
    Outsider(cs, lo, hi, i, t, x, q, if |c| > 1 then 1 else 0);
    if tt != f {
      FarApart(cs, lo, hi, tt, f);
    }
    ChainOrder(mem, i, tt, f, x);
    ChainRest(m1, cs, lo, hi, i, t, q, x);
    SecondTrie(cs, i, t, q, x);
  }

  lemma {:induction false} ChainRest(m1: Memory, cs: Chunks, lo: int, hi: int, i: int, t: Trie, q: Path, x: int)
    requires Placed(m1, cs, lo, hi) && TreeOk(m1, cs, i, t) && InBin(cs, i, x) && NotMember(t, x) && q in t
    requires MemberOk(m1, i, x, true) && t[q] != []
    requires 0 <= t[q][0] && t[q][0] + 64 <= |m1| && 0 <= Next(t[q], 0) && Next(t[q], 0) + 64 <= |m1|
    requires Ring(m1[t[q][0] + FD := Val(x)][Next(t[q], 0) + BK := Val(x)], InsertSecond(t[q], x))
    ensures var mem', t' := m1[t[q][0] + FD := Val(x)][Next(t[q], 0) + BK := Val(x)], t[q := InsertSecond(t[q], x)];
            TreeLinks.Linked(mem', i, t') && RingsOk(mem', t')
  {
    var c, tt, f := t[q], t[q][0], Next(t[q], 0);
    var mem', c' := m1[tt + FD := Val(x)][f + BK := Val(x)], InsertSecond(c, x);
    assert PosOk(cs, i, t, q);
    assert NodeOk(m1, i, t, q);
    assert f == c[if |c| > 1 then 1 else 0];
    forall r, k | r in t && 0 <= k < |t[r]|
      ensures SameTree(m1, mem', t[r][k])
      ensures t[r][k] != tt && t[r][k] != f ==> SameNode(m1, mem', t[r][k])
    {
      RingWordsOnly(m1, cs, lo, hi, i, t, tt, f, Val(x), Val(x), r, k);
    }
    ChainMembers(m1, mem', cs, lo, hi, i, t, q, x);
    assert MemberOk(m1, i, tt, false) && MemberOk(m1, i, f, |c| > 1);
    RelistLinks(m1, mem', i, t, q, c');
    forall r | r in t && r != q
      ensures Ring(mem', t[r])
    {
      OtherRings(m1, mem', cs, i, t, q, tt, f, r);
    }
  }

  lemma {:induction false} ChainMembers(m1: Memory, mem': Memory, cs: Chunks, lo: int, hi: int, i: int, t: Trie,
                                        q: Path, x: int)
    requires Placed(m1, cs, lo, hi) && TreeOk(m1, cs, i, t) && InBin(cs, i, x) && NotMember(t, x) && q in t
    requires MemberOk(m1, i, x, true) && t[q] != []
    requires 0 <= t[q][0] && t[q][0] + 64 <= |m1| && 0 <= Next(t[q], 0) && Next(t[q], 0) + 64 <= |m1|
    requires mem' == m1[t[q][0] + FD := Val(x)][Next(t[q], 0) + BK := Val(x)]
    requires forall k :: 0 <= k < |t[q]| ==> SameTree(m1, mem', t[q][k])
    ensures forall k :: 0 < k < |InsertSecond(t[q], x)| ==> MemberOk(mem', i, InsertSecond(t[q], x)[k], true)
  {
    var c, c' := t[q], InsertSecond(t[q], x);
    assert NodeOk(m1, i, t, q);
    Outsider(cs, lo, hi, i, t, x, q, 0);
    Outsider(cs, lo, hi, i, t, x, q, if |c| > 1 then 1 else 0);
    forall k | 0 < k < |c'|
      ensures MemberOk(mem', i, c'[k], true)
    {
      if k > 1 {
        assert c'[k] == c[k - 1];
        assert MemberOk(m1, i, c[k - 1], k - 1 > 0);
        assert SameTree(m1, mem', t[q][k - 1]);
      }
    }
  }

  // ----- Unlinking a chained chunk -----

  ghost function UnchainMem(mem: Memory, f: int, b: int): Memory
    requires 0 <= f && f + 64 <= |mem| && 0 <= b && b + 64 <= |mem|
  {
    mem[f + BK := Val(b)][b + FD := Val(f)]
  }

  lemma {:induction false} UnchainTreeBin(mem: Memory, cs: Chunks, lo: int, hi: int, i: int, t: Trie, q: Path, k: int)
    requires Placed(mem, cs, lo, hi) && TreeOk(mem, cs, i, t) && q in t && 0 < k < |t[q]|
    ensures var f, b := Next(t[q], k), t[q][k - 1];
            && 0 <= f && f + 64 <= |mem| && 0 <= b && b + 64 <= |mem|
            && TreeOk(UnchainMem(mem, f, b), cs, i, t[q := RemoveAt(t[q], k)])
  {
    var c, f, b := t[q], Next(t[q], k), t[q][k - 1];
    assert PosOk(cs, i, t, q);
    assert NodeOk(mem, i, t, q);
    assert MemberOk(mem, i, b, k - 1 > 0) && MemberOk(mem, i, f, k + 1 < |c|);
    RingSpaced(cs, lo, hi, i, t, q);
    UnlinkRing(mem, c, k);
    RemovedTrie(cs, i, t, q, k);
    UnchainLinks(mem, cs, lo, hi, i, t, q, k);
  }

  lemma {:induction false} UnchainLinks(mem: Memory, cs: Chunks, lo: int, hi: int, i: int, t: Trie, q: Path, k: int)
    requires Placed(mem, cs, lo, hi) && TreeOk(mem, cs, i, t) && q in t && 0 < k < |t[q]|
    requires var f, b := Next(t[q], k), t[q][k - 1];
             0 <= f && f + 64 <= |mem| && 0 <= b && b + 64 <= |mem| &&
             Ring(UnchainMem(mem, f, b), RemoveAt(t[q], k))
    ensures var mem', t' := UnchainMem(mem, Next(t[q], k), t[q][k - 1]), t[q := RemoveAt(t[q], k)];
            TreeLinks.Linked(mem', i, t') && RingsOk(mem', t')
  {
    var c, f, b := t[q], Next(t[q], k), t[q][k - 1];
    var mem' := UnchainMem(mem, f, b);
    assert PosOk(cs, i, t, q);
    UnchainWords(mem, cs, lo, hi, i, t, b, f);
    UnchainMembers(mem, mem', cs, i, t, q, k);
    forall r | r in t && r != q
      ensures Ring(mem', t[r])
    {
      OtherRings(mem, mem', cs, i, t, q, b, f, r);
    }
  }

  /** The tree links with one member of a ring left out. */
  lemma {:induction false} UnchainMembers(mem: Memory, mem': Memory, cs: Chunks, i: int, t: Trie, q: Path, k: int)
    requires TreeOk(mem, cs, i, t) && q in t && 0 < k < |t[q]|
    requires |mem'| == |mem| && 0 <= BinCell(i) < |mem| && mem'[BinCell(i)] == mem[BinCell(i)]
    requires forall r, m :: r in t && 0 <= m < |t[r]| ==> SameTree(mem, mem', t[r][m])
    ensures TreeLinks.Linked(mem', i, t[q := RemoveAt(t[q], k)])
  {
    var c, c' := t[q], RemoveAt(t[q], k);
    assert NodeOk(mem, i, t, q);
    forall m | 0 < m < |c'|
      ensures MemberOk(mem', i, c'[m], true)
    {
      var o := if m < k then m else m + 1;
      assert c'[m] == c[o];
      assert MemberOk(mem, i, c[o], o > 0);
      assert SameTree(mem, mem', t[q][o]);
    }
    RelistLinks(mem, mem', i, t, q, c');
  }

  lemma {:induction false} UnchainWords(mem: Memory, cs: Chunks, lo: int, hi: int, i: int, t: Trie, b: int, f: int)
    requires Layout.Tiled(cs, lo, hi) && TrieOk(cs, i, t) && TreeLinks.Linked(mem, i, t)
    requires InBin(cs, i, b) && InBin(cs, i, f) && 0 <= b && b + 64 <= |mem| && 0 <= f && f + 64 <= |mem|
    ensures forall r, m :: r in t && 0 <= m < |t[r]| ==> SameTree(mem, UnchainMem(mem, f, b), t[r][m])
    ensures forall r, m :: r in t && 0 <= m < |t[r]| && t[r][m] != b && t[r][m] != f ==>
              SameNode(mem, UnchainMem(mem, f, b), t[r][m])
  {
    var mem' := UnchainMem(mem, f, b);
    assert mem' == mem[b + FD := Val(f)][f + BK := Val(b)] by {
      if b != f {
        FarApart(cs, lo, hi, b, f);
      }
    }
    forall r, m | r in t && 0 <= m < |t[r]|
      ensures SameTree(mem, mem', t[r][m])
      ensures t[r][m] != b && t[r][m] != f ==> SameNode(mem, mem', t[r][m])
    {
      RingWordsOnly(mem, cs, lo, hi, i, t, b, f, Val(f), Val(b), r, m);
    }
  }

  lemma {:induction false} RemovedTrie(cs: Chunks, i: int, t: Trie, q: Path, k: int)
    requires TrieOk(cs, i, t) && q in t && 0 < k < |t[q]|
    ensures TrieOk(cs, i, t[q := RemoveAt(t[q], k)])
  {
    var c, c' := t[q], RemoveAt(t[q], k);
    assert PosOk(cs, i, t, q);
    assert forall m :: 0 <= m < |c'| ==> c'[m] == c[if m < k then m else m + 1];
    ReringTrie(cs, i, t, q, c');
  }

  // ----- Replacing a node by another ring -----

  /** The last part of unlink_large_chunk: link r in the place of the chunk below `cell`. */
  ghost function ReplaceMem(mem: Memory, cell: int, r: int, par: int, c0: int, c1: int): Memory
    requires 0 <= cell < |mem| && 0 <= r && r + 64 <= |mem|
    requires 0 <= c0 && c0 + 64 <= |mem| && 0 <= c1 && c1 + 64 <= |mem|
  {
    TakeOverMem(mem[cell := Val(r)], r, par, c0, c1)
  }

  /** Parent and children given to r. */
  ghost function TakeOverMem(mem: Memory, r: int, par: int, c0: int, c1: int): Memory
    requires 0 <= r && r + 64 <= |mem| && 0 <= c0 && c0 + 64 <= |mem| && 0 <= c1 && c1 + 64 <= |mem|
  {
    var m1 := mem[r + PARENT := Val(par)];
    var m2 := if c0 != 0 then m1[r + LEFT := Val(c0)][c0 + PARENT := Val(r)] else m1;
    if c1 != 0 then m2[r + RIGHT := Val(c1)][c1 + PARENT := Val(r)] else m2
  }

  /** The words of r alone. */
  ghost function AdoptMem(mem: Memory, r: int, par: int, c0: int, c1: int): Memory
    requires 0 <= r && r + 64 <= |mem|
  {
    mem[r + PARENT := Val(par)][r + LEFT := Val(c0)][r + RIGHT := Val(c1)]
  }

  predicate ClearOf(a: int, b: int) {
    a + 64 <= b || b + 64 <= a
  }

  lemma {:induction false} ReplacePoints(mem: Memory, cell: int, r: int, par: int, c0: int, c1: int)
    requires 0 <= cell < |mem| && 0 <= r && r + 64 <= |mem| && (cell < r + 16 || r + 64 <= cell)
    requires 0 <= c0 && c0 + 64 <= |mem| && 0 <= c1 && c1 + 64 <= |mem|
    requires c0 != 0 ==> ClearOf(r, c0) && cell != c0 + PARENT
    requires c1 != 0 ==> ClearOf(r, c1) && cell != c1 + PARENT
    requires c0 != 0 && c1 != 0 ==> ClearOf(c0, c1)
    requires mem[r + LEFT] == Val(0) && mem[r + RIGHT] == Val(0)
    ensures var mem', m1 := ReplaceMem(mem, cell, r, par, c0, c1), AdoptMem(mem, r, par, c0, c1);
            && |mem'| == |m1| == |mem| && mem'[cell] == Val(r)
            && (c0 != 0 ==> mem'[c0 + PARENT] == Val(r))
            && (c1 != 0 ==> mem'[c1 + PARENT] == Val(r))
            && forall y | 0 <= y < |mem| && y != cell
                          && (c0 != 0 ==> y != c0 + PARENT) && (c1 != 0 ==> y != c1 + PARENT) :: mem'[y] == m1[y]
  {
  }

  /** What a ring needs to take the place of the node at q. */
  ghost predicate Replaceable(mem: Memory, cs: Chunks, lo: int, hi: int, i: int, t: Trie, q: Path, c: seq<int>) {
    && Placed(mem, cs, lo, hi) && TrieOk(cs, i, t) && TreeLinks.Linked(mem, i, t) && q in t && c != []
    && (forall k :: 0 <= k < |c| ==> InBin(cs, i, c[k]) && NotMember(t, c[k]) && MemberOk(mem, i, c[k], k > 0))
    && mem[c[0] + LEFT] == Val(0) && mem[c[0] + RIGHT] == Val(0)
    && (forall k :: 0 < k < |c| ==> c[k] != c[0])
  }

  lemma {:induction false} ReplaceInside(mem: Memory, cs: Chunks, lo: int, hi: int, i: int, t: Trie, q: Path,
                                         c: seq<int>)
    requires Replaceable(mem, cs, lo, hi, i, t, q, c)
    ensures 0 <= ChildCell(i, t, q) < |mem| && 0 <= c[0] && c[0] + 64 <= |mem|
    ensures 0 <= HeadAt(t, q + [false]) && HeadAt(t, q + [false]) + 64 <= |mem|
    ensures 0 <= HeadAt(t, q + [true]) && HeadAt(t, q + [true]) + 64 <= |mem|
    ensures ChildCell(i, t, q) < c[0] + 16 || c[0] + 64 <= ChildCell(i, t, q)
    ensures q + [false] in t ==> STATIC_END <= HeadAt(t, q + [false]) && ClearOf(c[0], HeadAt(t, q + [false]))
    ensures q + [true] in t ==> STATIC_END <= HeadAt(t, q + [true]) && ClearOf(c[0], HeadAt(t, q + [true]))
    ensures q + [false] !in t ==> HeadAt(t, q + [false]) == 0
    ensures q + [true] !in t ==> HeadAt(t, q + [true]) == 0
  {
    assert MemberOk(mem, i, c[0], false);
    assert PosOk(cs, i, t, q);
    if q != [] {
      assert Up(q) in t by { assert Closed(t, q); }
      assert NodeOk(mem, i, t, Up(q));
      Outsider(cs, lo, hi, i, t, c[0], Up(q), 0);
    }
    CellInside(mem, cs, i, t, q);
    if q + [false] in t {
      assert NodeOk(mem, i, t, q + [false]);
      Outsider(cs, lo, hi, i, t, c[0], q + [false], 0);
    }
    if q + [true] in t {
      assert NodeOk(mem, i, t, q + [true]);
      Outsider(cs, lo, hi, i, t, c[0], q + [true], 0);
    }
  }

  /** The neighbours of a node are chunks apart. */
  lemma {:induction false} NeighboursApart(mem: Memory, cs: Chunks, lo: int, hi: int, i: int, t: Trie, q: Path)
    requires Layout.Tiled(cs, lo, hi) && TrieOk(cs, i, t) && TreeLinks.Linked(mem, i, t) && q in t
    ensures q + [false] in t && q + [true] in t ==>
              var a, b := HeadAt(t, q + [false]), HeadAt(t, q + [true]); a + 64 <= b || b + 64 <= a
    ensures q + [false] in t ==> ChildCell(i, t, q) != HeadAt(t, q + [false]) + PARENT
    ensures q + [true] in t ==> ChildCell(i, t, q) != HeadAt(t, q + [true]) + PARENT
  {
    assert PosOk(cs, i, t, q);
    assert (q + [false])[|q|] != (q + [true])[|q|];
    if q + [false] in t && q + [true] in t {
      assert PosOk(cs, i, t, q + [true]);
      Elsewhere(cs, lo, hi, i, t, q + [false], q + [true], 0);
    }
    if q != [] {
      assert Up(q) in t by { assert Closed(t, q); }
      assert PosOk(cs, i, t, Up(q));
      if q + [false] in t {
        Elsewhere(cs, lo, hi, i, t, q + [false], Up(q), 0);
      }
      if q + [true] in t {
        Elsewhere(cs, lo, hi, i, t, q + [true], Up(q), 0);
      }
    }
    if q + [false] in t {
      assert NodeOk(mem, i, t, q + [false]);
    }
    if q + [true] in t {
      assert NodeOk(mem, i, t, q + [true]);
    }
  }

  lemma {:induction false} ReplaceRelinks(mem: Memory, cs: Chunks, lo: int, hi: int, i: int, t: Trie, q: Path,
                                          c: seq<int>)
    requires Replaceable(mem, cs, lo, hi, i, t, q, c)
    ensures 0 <= ChildCell(i, t, q) < |mem| && 0 <= c[0] && c[0] + 64 <= |mem|
    ensures 0 <= HeadAt(t, q + [false]) && HeadAt(t, q + [false]) + 64 <= |mem|
    ensures 0 <= HeadAt(t, q + [true]) && HeadAt(t, q + [true]) + 64 <= |mem|
    ensures var par, c0, c1 := ParentAt(i, t, q), HeadAt(t, q + [false]), HeadAt(t, q + [true]);
            Relinked(AdoptMem(mem, c[0], par, c0, c1),
                     ReplaceMem(mem, ChildCell(i, t, q), c[0], par, c0, c1), i, t, q, c[0])
  {
    ReplaceInside(mem, cs, lo, hi, i, t, q, c);
    NeighboursApart(mem, cs, lo, hi, i, t, q);
    ReplacePoints(mem, ChildCell(i, t, q), c[0], ParentAt(i, t, q), HeadAt(t, q + [false]), HeadAt(t, q + [true]));
  }

  lemma {:induction false} OutsiderLinks(mem: Memory, mem': Memory, cs: Chunks, lo: int, hi: int, i: int, t: Trie,
                                         x: int)
    requires Placed(mem, cs, lo, hi) && TrieOk(cs, i, t) && TreeLinks.Linked(mem, i, t)
    requires InBin(cs, i, x) && NotMember(t, x)
    requires |mem'| == |mem| && forall y :: 0 <= y < |mem| && (y < x + 16 || x + 64 <= y) ==> mem'[y] == mem[y]
    ensures TreeLinks.Linked(mem', i, t)
  {
    Placement(cs, lo, hi, x, hi);
    forall q, k | q in t && 0 <= k < |t[q]|
      ensures SameNode(mem, mem', t[q][k])
    {
      assert NodeOk(mem, i, t, q);
      assert MemberOk(mem, i, t[q][k], k > 0);
      Outsider(cs, lo, hi, i, t, x, q, k);
    }
    LinkedFrame(mem, mem', i, t);
  }

  ghost function ReplacedMem(mem: Memory, i: int, t: Trie, q: Path, r: int): Memory
    requires 0 <= ChildCell(i, t, q) < |mem| && 0 <= r && r + 64 <= |mem|
    requires 0 <= HeadAt(t, q + [false]) && HeadAt(t, q + [false]) + 64 <= |mem|
    requires 0 <= HeadAt(t, q + [true]) && HeadAt(t, q + [true]) + 64 <= |mem|
  {
    ReplaceMem(mem, ChildCell(i, t, q), r, ParentAt(i, t, q), HeadAt(t, q + [false]), HeadAt(t, q + [true]))
  }

  lemma {:induction false} ReplaceTree(mem: Memory, cs: Chunks, lo: int, hi: int, i: int, t: Trie, q: Path, c: seq<int>)
    requires Replaceable(mem, cs, lo, hi, i, t, q, c)
    ensures 0 <= ChildCell(i, t, q) < |mem| && 0 <= c[0] && c[0] + 64 <= |mem|
    ensures 0 <= HeadAt(t, q + [false]) && HeadAt(t, q + [false]) + 64 <= |mem|
    ensures 0 <= HeadAt(t, q + [true]) && HeadAt(t, q + [true]) + 64 <= |mem|
    ensures TreeLinks.Linked(ReplacedMem(mem, i, t, q, c[0]), i, t[q := c])
  {
    ReplaceRelinks(mem, cs, lo, hi, i, t, q, c);
    var m1 := AdoptMem(mem, c[0], ParentAt(i, t, q), HeadAt(t, q + [false]), HeadAt(t, q + [true]));
    OutsiderLinks(mem, m1, cs, lo, hi, i, t, c[0]);
    assert MemberOk(mem, i, c[0], false);
    forall k | 0 <= k < |c|
      ensures MemberOk(m1, i, c[k], k > 0)
    {
      assert MemberOk(mem, i, c[k], k > 0);
      if k > 0 {
        FarApart(cs, lo, hi, c[k], c[0]);
      }
    }
    TransplantLinks(m1, ReplacedMem(mem, i, t, q, c[0]), cs, lo, hi, i, t, q, c);
  }

  /** Only tree links are written: fd and bk words of large chunks stay the same. */
  ghost predicate RingWordsKept(mem: Memory, mem': Memory, cs: Chunks) {
    |mem'| == |mem| && forall a {:trigger SameRingWords(mem, mem', a)} ::
      a in cs && MIN_LARGE_SIZE <= cs[a].size && 0 <= a && a + 64 <= |mem| ==> SameRingWords(mem, mem', a)
  }

  ghost predicate SameRingWords(mem: Memory, mem': Memory, a: int)
    requires 0 <= a && a + 64 <= |mem| && |mem'| == |mem|
  {
    mem'[a + FD] == mem[a + FD] && mem'[a + BK] == mem[a + BK]
  }

  lemma {:induction false} TreeWordWrite(mem: Memory, cs: Chunks, lo: int, hi: int, y: int, off: int, v: Cell)
    requires Placed(mem, cs, lo, hi) && y in cs && MIN_LARGE_SIZE <= cs[y].size && 32 <= off < 64
    ensures 0 <= y && y + off < |mem| && RingWordsKept(mem, mem[y + off := v], cs)
  {
    Placement(cs, lo, hi, y, hi);
    forall a | a in cs && MIN_LARGE_SIZE <= cs[a].size && 0 <= a && a + 64 <= |mem|
      ensures SameRingWords(mem, mem[y + off := v], a)
    {
      if a != y {
        FarApart(cs, lo, hi, a, y);
      }
    }
  }

  lemma {:induction false} RingWordsTrans(m0: Memory, m1: Memory, m2: Memory, cs: Chunks)
    requires RingWordsKept(m0, m1, cs) && RingWordsKept(m1, m2, cs)
    ensures RingWordsKept(m0, m2, cs)
  {
    forall a | a in cs && MIN_LARGE_SIZE <= cs[a].size && 0 <= a && a + 64 <= |m0|
      ensures SameRingWords(m0, m2, a)
    {
      assert SameRingWords(m0, m1, a) && SameRingWords(m1, m2, a);
    }
  }

  /** Writing the word that points to q touches no ring link. */
  lemma {:induction false} CellWrite(mem: Memory, cs: Chunks, lo: int, hi: int, i: int, t: Trie, q: Path, v: Cell)
    requires Placed(mem, cs, lo, hi) && TrieOk(cs, i, t) && TreeLinks.Linked(mem, i, t) && (q != [] ==> Up(q) in t)
    requires STATIC_END <= |mem|
    ensures 0 <= ChildCell(i, t, q) < |mem| && RingWordsKept(mem, mem[ChildCell(i, t, q) := v], cs)
  {
    CellInside(mem, cs, i, t, q);
    if q != [] {
      assert PosOk(cs, i, t, Up(q));
      TreeWordWrite(mem, cs, lo, hi, t[Up(q)][0], if q[|q| - 1] then RIGHT else LEFT, v);
    } else {
      forall a | a in cs && MIN_LARGE_SIZE <= cs[a].size && 0 <= a && a + 64 <= |mem|
        ensures SameRingWords(mem, mem[ChildCell(i, t, q) := v], a)
      {
        Placement(cs, lo, hi, a, hi);
      }
    }
  }

  lemma {:induction false} ReplaceRings(mem: Memory, cs: Chunks, lo: int, hi: int, i: int, t: Trie, q: Path,
                                        c: seq<int>)
    requires Replaceable(mem, cs, lo, hi, i, t, q, c) && STATIC_END <= |mem|
    ensures 0 <= ChildCell(i, t, q) < |mem| && 0 <= c[0] && c[0] + 64 <= |mem|
    ensures 0 <= HeadAt(t, q + [false]) && HeadAt(t, q + [false]) + 64 <= |mem|
    ensures 0 <= HeadAt(t, q + [true]) && HeadAt(t, q + [true]) + 64 <= |mem|
    ensures RingWordsKept(mem, ReplacedMem(mem, i, t, q, c[0]), cs)
  {
    ReplaceInside(mem, cs, lo, hi, i, t, q, c);
    assert PosOk(cs, i, t, q);
    if q != [] {
      assert Up(q) in t by { assert Closed(t, q); }
    }
    var r, c0, c1 := c[0], HeadAt(t, q + [false]), HeadAt(t, q + [true]);
    assert Large(cs, r) && (c0 != 0 ==> Large(cs, c0)) && (c1 != 0 ==> Large(cs, c1)) by {
      assert InBin(cs, i, c[0]);
      assert q + [false] in t ==> PosOk(cs, i, t, q + [false]);
      assert q + [true] in t ==> PosOk(cs, i, t, q + [true]);
    }
    CellWrite(mem, cs, lo, hi, i, t, q, Val(r));
    TakeOverRings(mem, mem[ChildCell(i, t, q) := Val(r)], cs, lo, hi, r, ParentAt(i, t, q), c0, c1);
  }

  ghost predicate Large(cs: Chunks, a: int) {
    a in cs && MIN_LARGE_SIZE <= cs[a].size
  }

  /** Giving parent and children to r touches no ring link. */
  lemma {:induction false} TakeOverRings(mem: Memory, m: Memory, cs: Chunks, lo: int, hi: int, r: int, par: int,
                                         c0: int, c1: int)
    requires Placed(mem, cs, lo, hi) && RingWordsKept(mem, m, cs) && Large(cs, r)
    requires 0 <= r && r + 64 <= |mem| && 0 <= c0 && c0 + 64 <= |mem| && 0 <= c1 && c1 + 64 <= |mem|
    requires (c0 != 0 ==> Large(cs, c0)) && (c1 != 0 ==> Large(cs, c1))
    ensures RingWordsKept(mem, TakeOverMem(m, r, par, c0, c1), cs)
  {
    var m1 := m[r + PARENT := Val(par)];
    TreeWordWrite(m, cs, lo, hi, r, PARENT, Val(par));
    RingWordsTrans(mem, m, m1, cs);
    ChildRings(mem, m1, cs, lo, hi, r, LEFT, c0);
    var m2 := if c0 != 0 then m1[r + LEFT := Val(c0)][c0 + PARENT := Val(r)] else m1;
    ChildRings(mem, m2, cs, lo, hi, r, RIGHT, c1);
  }

  lemma {:induction false} ChildRings(mem: Memory, m: Memory, cs: Chunks, lo: int, hi: int, r: int, side: int, c: int)
    requires Placed(mem, cs, lo, hi) && RingWordsKept(mem, m, cs) && (side == LEFT || side == RIGHT)
    requires Large(cs, r) && 0 <= r && r + 64 <= |mem| && 0 <= c && c + 64 <= |mem| && (c != 0 ==> Large(cs, c))
    ensures RingWordsKept(mem, if c != 0 then m[r + side := Val(c)][c + PARENT := Val(r)] else m, cs)
  {
    if c != 0 {
      ChildWrites(m, cs, lo, hi, r, side, c);
      RingWordsTrans(mem, m, m[r + side := Val(c)][c + PARENT := Val(r)], cs);
    }
  }

  /** Linking a child to its parent, both ways. */
  lemma {:induction false} ChildWrites(mem: Memory, cs: Chunks, lo: int, hi: int, r: int, side: int, c: int)
    requires Placed(mem, cs, lo, hi) && (side == LEFT || side == RIGHT)
    requires r in cs && c in cs && cs[r].size >= MIN_LARGE_SIZE && cs[c].size >= MIN_LARGE_SIZE
    requires 0 <= r && r + 64 <= |mem| && 0 <= c && c + 64 <= |mem|
    ensures RingWordsKept(mem, mem[r + side := Val(c)][c + PARENT := Val(r)], cs)
  {
    var m := mem[r + side := Val(c)];
    TreeWordWrite(mem, cs, lo, hi, r, side, Val(c));
    TreeWordWrite(m, cs, lo, hi, c, PARENT, Val(r));
    RingWordsTrans(mem, m, m[c + PARENT := Val(r)], cs);
  }

  /** A ring survives writes that keep ring words. */
  lemma {:induction false} RingThrough(mem: Memory, mem': Memory, cs: Chunks, lo: int, hi: int, i: int, c: seq<int>)
    requires Placed(mem, cs, lo, hi) && RingWordsKept(mem, mem', cs) && Ring(mem, c)
    requires forall k :: 0 <= k < |c| ==> InBin(cs, i, c[k])
    ensures Ring(mem', c)
  {
    forall k | 0 <= k < |c| && c[k] + BK < |mem| && 0 <= c[k]
      ensures mem'[c[k] + FD] == mem[c[k] + FD] && mem'[c[k] + BK] == mem[c[k] + BK]
    {
      Placement(cs, lo, hi, c[k], hi);
      assert SameRingWords(mem, mem', c[k]);
    }
    RingFrame(mem, mem', c);
  }

  lemma {:induction false} RingsThrough(mem: Memory, mem': Memory, cs: Chunks, lo: int, hi: int, i: int, t: Trie)
    requires Placed(mem, cs, lo, hi) && RingWordsKept(mem, mem', cs) && TrieOk(cs, i, t) && RingsOk(mem, t)
    ensures RingsOk(mem', t)
  {
    forall q | q in t
      ensures Ring(mem', t[q])
    {
      assert PosOk(cs, i, t, q);
      RingThrough(mem, mem', cs, lo, hi, i, t[q]);
    }
  }

  // ----- The three ways a node leaves the tree -----

  /** A leaf that was the last of its size. */
  lemma {:induction false} DropTreeBin(mem: Memory, cs: Chunks, lo: int, hi: int, i: int, t: Trie, q: Path)
    requires Placed(mem, cs, lo, hi) && TreeOk(mem, cs, i, t) && STATIC_END <= |mem|
    requires q in t && q + [false] !in t && q + [true] !in t
    ensures 0 <= ChildCell(i, t, q) < |mem|
    ensures TreeOk(mem[ChildCell(i, t, q) := Val(0)], cs, i, t - {q})
  {
    assert PosOk(cs, i, t, q);
    if q != [] {
      assert Up(q) in t by { assert Closed(t, q); }
    }
    DetachLinks(mem, cs, lo, hi, i, t, q);
    DetachTrie(cs, i, t, q);
    CellWrite(mem, cs, lo, hi, i, t, q, Val(0));
    RingsThrough(mem, mem[ChildCell(i, t, q) := Val(0)], cs, lo, hi, i, t - {q});
  }

  /** A node that was the last of its size, replaced by the leaf r below it. */
  lemma {:induction false} PromoteTreeBin(mem: Memory, cs: Chunks, lo: int, hi: int, i: int, t: Trie, q: Path, r: Path)
    requires Placed(mem, cs, lo, hi) && TreeOk(mem, cs, i, t) && STATIC_END <= |mem|
    requires q in t && r in t && q < r && r + [false] !in t && r + [true] !in t
    ensures t[r] != [] && 0 <= ChildCell(i, t, r) < |mem|
    ensures var m1, t1, x := mem[ChildCell(i, t, r) := Val(0)], t - {r}, t[r][0];
            && 0 <= ChildCell(i, t1, q) < |mem| && 0 <= x && x + 64 <= |mem|
            && 0 <= HeadAt(t1, q + [false]) && HeadAt(t1, q + [false]) + 64 <= |mem|
            && 0 <= HeadAt(t1, q + [true]) && HeadAt(t1, q + [true]) + 64 <= |mem|
            && TreeOk(ReplacedMem(m1, i, t1, q, x), cs, i, t1[q := t[r]])
  {
    DropTreeBin(mem, cs, lo, hi, i, t, r);
    var m1, t1, c := mem[ChildCell(i, t, r) := Val(0)], t - {r}, t[r];
    PromoteReady(mem, cs, lo, hi, i, t, q, r);
    ReplaceTree(m1, cs, lo, hi, i, t1, q, c);
    ReplaceRings(m1, cs, lo, hi, i, t1, q, c);
    MoveTrie(cs, i, t, q, r);
    var mem', t' := ReplacedMem(m1, i, t1, q, c[0]), t1[q := c];
    RingsThrough(m1, mem', cs, lo, hi, i, t1);
    assert PosOk(cs, i, t, r);
    RingThrough(m1, mem', cs, lo, hi, i, c);
  }

  lemma {:induction false} PromoteReady(mem: Memory, cs: Chunks, lo: int, hi: int, i: int, t: Trie, q: Path, r: Path)
    requires Placed(mem, cs, lo, hi) && TreeOk(mem, cs, i, t) && STATIC_END <= |mem|
    requires q in t && r in t && q < r && r + [false] !in t && r + [true] !in t
    requires 0 <= ChildCell(i, t, r) < |mem| && TreeOk(mem[ChildCell(i, t, r) := Val(0)], cs, i, t - {r})
    ensures Replaceable(mem[ChildCell(i, t, r) := Val(0)], cs, lo, hi, i, t - {r}, q, t[r])
    ensures Ring(mem[ChildCell(i, t, r) := Val(0)], t[r])
  {
    var m1, t1, c := mem[ChildCell(i, t, r) := Val(0)], t - {r}, t[r];
    assert PosOk(cs, i, t, r);
    assert NodeOk(mem, i, t, r);
    assert Up(r) in t by { assert Closed(t, r); }
    CellInside(mem, cs, i, t, r);
    forall k | 0 <= k < |c|
      ensures InBin(cs, i, c[k]) && NotMember(t1, c[k]) && MemberOk(m1, i, c[k], k > 0)
      ensures SameNode(mem, m1, c[k])
    {
      assert MemberOk(mem, i, c[k], k > 0);
      Elsewhere(cs, lo, hi, i, t, Up(r), r, k);
      forall p, m | p in t1 && 0 <= m < |t1[p]|
        ensures t1[p][m] != c[k]
      {
        if t1[p][m] == c[k] {
          OnePlace(cs, i, t, p, m, r, k);
        }
      }
    }
    assert SameNode(mem, m1, c[0]);
    CellWrite(mem, cs, lo, hi, i, t, r, Val(0));
    RingThrough(mem, m1, cs, lo, hi, i, c);
  }

  /** The first of several equal-sized chunks, replaced by the last of its ring. */
  lemma {:induction false} SucceedTreeBin(mem: Memory, cs: Chunks, lo: int, hi: int, i: int, t: Trie, q: Path)
    requires Placed(mem, cs, lo, hi) && TreeOk(mem, cs, i, t) && STATIC_END <= |mem|
    requires q in t && |t[q]| > 1
    ensures var f, r := t[q][1], t[q][|t[q]| - 1];
            && 0 <= f && f + 64 <= |mem| && 0 <= r && r + 64 <= |mem|
            && 0 <= ChildCell(i, t, q) < |mem|
            && 0 <= HeadAt(t, q + [false]) && HeadAt(t, q + [false]) + 64 <= |mem|
            && 0 <= HeadAt(t, q + [true]) && HeadAt(t, q + [true]) + 64 <= |mem|
            && TreeOk(ReplacedMem(UnchainMem(mem, f, r), i, t, q, r), cs, i, t[q := RemoveFirst(t[q])])
  {
    var c, f, r := t[q], t[q][1], t[q][|t[q]| - 1];
    assert PosOk(cs, i, t, q);
    assert NodeOk(mem, i, t, q);
    assert MemberOk(mem, i, f, true) && MemberOk(mem, i, r, true);
    var m1, t1, c' := UnchainMem(mem, f, r), t[q := [c[0]]], RemoveFirst(c);
    SucceedReady(mem, cs, lo, hi, i, t, q);
    ReplaceTree(m1, cs, lo, hi, i, t1, q, c');
    ReplaceRings(m1, cs, lo, hi, i, t1, q, c');
    SameHeads(t, q, i);
    var mem' := ReplacedMem(m1, i, t1, q, r);
    assert t1[q := c'] == t[q := c'];
    assert forall k :: 0 <= k < |c'| ==> c'[k] == c[if k == 0 then |c| - 1 else k];
    ReringTrie(cs, i, t, q, c');
    RingThrough(m1, mem', cs, lo, hi, i, c');
    forall p | p in t && p != q
      ensures Ring(mem', t[p])
    {
      assert PosOk(cs, i, t, p);
      assert t1[p] == t[p];
      RingThrough(m1, mem', cs, lo, hi, i, t[p]);
    }
  }

  lemma {:induction false} SameHeads(t: Trie, q: Path, i: int)
    requires q in t && t[q] != []
    ensures var t1 := t[q := [t[q][0]]];
            && ChildCell(i, t1, q) == ChildCell(i, t, q) && ParentAt(i, t1, q) == ParentAt(i, t, q)
            && HeadAt(t1, q + [false]) == HeadAt(t, q + [false]) && HeadAt(t1, q + [true]) == HeadAt(t, q + [true])
  {
  }

  lemma {:induction false} SucceedReady(mem: Memory, cs: Chunks, lo: int, hi: int, i: int, t: Trie, q: Path)
    requires Placed(mem, cs, lo, hi) && TreeOk(mem, cs, i, t) && STATIC_END <= |mem|
    requires q in t && |t[q]| > 1
    requires 0 <= t[q][1] && t[q][1] + 64 <= |mem| && 0 <= t[q][|t[q]| - 1] && t[q][|t[q]| - 1] + 64 <= |mem|
    ensures var m1 := UnchainMem(mem, t[q][1], t[q][|t[q]| - 1]);
            && Replaceable(m1, cs, lo, hi, i, t[q := [t[q][0]]], q, RemoveFirst(t[q]))
            && Ring(m1, RemoveFirst(t[q]))
            && (forall p {:trigger t[p]} :: p in t && p != q ==> Ring(m1, t[p]))
  {
    var c, f, r := t[q], t[q][1], t[q][|t[q]| - 1];
    assert PosOk(cs, i, t, q);
    UnchainWords(mem, cs, lo, hi, i, t, r, f);
    SucceedLinks(mem, cs, i, t, q);
    ReringTrie(cs, i, t, q, [c[0]]);
    SucceedMembers(mem, cs, i, t, q);
    SucceedRing(mem, cs, lo, hi, i, t, q, c, UnchainMem(mem, f, r));
    forall p | p in t && p != q
      ensures Ring(UnchainMem(mem, f, r), t[p])
    {
      OtherRings(mem, UnchainMem(mem, f, r), cs, i, t, q, r, f, p);
    }
  }

  lemma {:induction false} SucceedRing(mem: Memory, cs: Chunks, lo: int, hi: int, i: int, t: Trie, q: Path,
                                       c: seq<int>, m1: Memory)
    requires Placed(mem, cs, lo, hi) && TreeOk(mem, cs, i, t) && q in t && c == t[q] && |c| > 1
    requires 0 <= c[1] && c[1] + 64 <= |mem| && 0 <= c[|c| - 1] && c[|c| - 1] + 64 <= |mem|
    requires m1 == UnchainMem(mem, c[1], c[|c| - 1])
    ensures Ring(m1, RemoveFirst(c))
  {
    RingSpaced(cs, lo, hi, i, t, q);
    UnlinkFirst(mem, c);
  }

  lemma {:induction false} SucceedLinks(mem: Memory, cs: Chunks, i: int, t: Trie, q: Path)
    requires TreeOk(mem, cs, i, t) && q in t && |t[q]| > 1
    requires 0 <= t[q][1] && t[q][1] + 64 <= |mem| && 0 <= t[q][|t[q]| - 1] && t[q][|t[q]| - 1] + 64 <= |mem|
    requires forall r, m :: r in t && 0 <= m < |t[r]| ==>
               SameTree(mem, UnchainMem(mem, t[q][1], t[q][|t[q]| - 1]), t[r][m])
    ensures TreeLinks.Linked(UnchainMem(mem, t[q][1], t[q][|t[q]| - 1]), i, t[q := [t[q][0]]])
  {
    var c, f, r := t[q], t[q][1], t[q][|t[q]| - 1];
    assert NodeOk(mem, i, t, q);
    assert MemberOk(mem, i, f, true) && MemberOk(mem, i, r, true);
    RelistLinks(mem, UnchainMem(mem, f, r), i, t, q, [c[0]]);
  }

  lemma {:induction false} SucceedMembers(mem: Memory, cs: Chunks, i: int, t: Trie, q: Path)
    requires TreeOk(mem, cs, i, t) && q in t && |t[q]| > 1
    requires 0 <= t[q][1] && t[q][1] + 64 <= |mem| && 0 <= t[q][|t[q]| - 1] && t[q][|t[q]| - 1] + 64 <= |mem|
    requires forall r, m :: r in t && 0 <= m < |t[r]| ==>
               SameTree(mem, UnchainMem(mem, t[q][1], t[q][|t[q]| - 1]), t[r][m])
    ensures var m1, t1, c := UnchainMem(mem, t[q][1], t[q][|t[q]| - 1]), t[q := [t[q][0]]], RemoveFirst(t[q]);
            && (forall k :: 0 <= k < |c| ==> InBin(cs, i, c[k]) && NotMember(t1, c[k]) && MemberOk(m1, i, c[k], k > 0))
            && m1[c[0] + LEFT] == Val(0) && m1[c[0] + RIGHT] == Val(0)
            && (forall k :: 0 < k < |c| ==> c[k] != c[0])
  {
    var c := t[q];
    var m1, t1, c' := UnchainMem(mem, t[q][1], t[q][|t[q]| - 1]), t[q := [c[0]]], RemoveFirst(c);
    assert PosOk(cs, i, t, q);
    assert NodeOk(mem, i, t, q);
    forall k | 0 <= k < |c'|
      ensures InBin(cs, i, c'[k]) && NotMember(t1, c'[k]) && MemberOk(m1, i, c'[k], true)
    {
      var o := if k == 0 then |c| - 1 else k;
      assert c'[k] == c[o];
      assert MemberOk(mem, i, c[o], o > 0);
      assert SameTree(mem, m1, t[q][o]);
      forall p, m | p in t1 && 0 <= m < |t1[p]|
        ensures t1[p][m] != c'[k]
      {
        if t1[p][m] == c[o] {
          assert p in t && t[p][m] == t[q][o];
          OnePlace(cs, i, t, p, m, q, o);
        }
      }
    }
    assert forall k :: 0 < k < |c'| ==> c'[k] == c[k];
  }

  // ----- Which words each case writes -----

  lemma {:induction false} CellIsLink(mem: Memory, cs: Chunks, i: int, t: Trie, q: Path, w: set<int>)
    requires TrieOk(cs, i, t) && TreeLinks.Linked(mem, i, t) && (q != [] ==> Up(q) in t) && Members(t) <= w
    ensures 0 <= ChildCell(i, t, q) < |mem|
    ensures ChildCell(i, t, q) == BinCell(i) || LinkWord(w, ChildCell(i, t, q))
  {
    CellInside(mem, cs, i, t, q);
    if q != [] {
      var p := t[Up(q)][0];
      assert p in Members(t);
      assert p in w && p + 16 <= ChildCell(i, t, q) < p + 64;
    }
  }

  lemma {:induction false} AttachWrites(mem: Memory, i: int, cell: int, par: int, x: int, w: set<int>)
    requires 0 <= x && x + 64 <= |mem| && 0 <= cell < |mem| && x in w && (cell == BinCell(i) || LinkWord(w, cell))
    ensures LinkWrites(mem, AttachMem(mem, i, cell, par, x), i, w)
  {
    forall y | 0 <= y < |mem| && AttachMem(mem, i, cell, par, x)[y] != mem[y]
      ensures y == BinCell(i) || LinkWord(w, y)
    {
      if y != cell {
        assert x in w && x + 16 <= y < x + 64;
      }
    }
  }

  lemma {:induction false} ChainWrites(mem: Memory, i: int, tt: int, f: int, x: int, w: set<int>)
    requires 0 <= x && x + 64 <= |mem| && 0 <= tt && tt + 64 <= |mem| && 0 <= f && f + 64 <= |mem|
    requires x in w && tt in w && f in w
    ensures LinkWrites(mem, ChainMem(mem, i, tt, f, x), i, w)
  {
    forall y | 0 <= y < |mem| && ChainMem(mem, i, tt, f, x)[y] != mem[y]
      ensures y == BinCell(i) || LinkWord(w, y)
    {
      if y == f + BK {
        assert f in w && f + 16 <= y < f + 64;
      } else if y == tt + FD {
        assert tt in w && tt + 16 <= y < tt + 64;
      } else {
        assert x in w && x + 16 <= y < x + 64;
      }
    }
  }

  lemma {:induction false} UnchainWrites(mem: Memory, i: int, f: int, b: int, w: set<int>)
    requires 0 <= f && f + 64 <= |mem| && 0 <= b && b + 64 <= |mem| && f in w && b in w
    ensures LinkWrites(mem, UnchainMem(mem, f, b), i, w)
  {
    LinkWriteOne(mem, i, w, f, BK, Val(b));
    LinkWriteOne(mem[f + BK := Val(b)], i, w, b, FD, Val(f));
    LinkWritesTrans(mem, mem[f + BK := Val(b)], UnchainMem(mem, f, b), i, w);
  }

  lemma {:induction false} CellWrites(mem: Memory, i: int, cell: int, v: Cell, w: set<int>)
    requires 0 <= cell < |mem| && (cell == BinCell(i) || LinkWord(w, cell))
    ensures LinkWrites(mem, mem[cell := v], i, w)
  {
  }

  lemma {:induction false} ReplaceWrites(mem: Memory, i: int, cell: int, r: int, par: int, c0: int, c1: int,
                                         w: set<int>)
    requires 0 <= cell < |mem| && 0 <= r && r + 64 <= |mem| && (cell == BinCell(i) || LinkWord(w, cell))
    requires 0 <= c0 && c0 + 64 <= |mem| && 0 <= c1 && c1 + 64 <= |mem|
    requires r in w && (c0 != 0 ==> c0 in w) && (c1 != 0 ==> c1 in w)
    ensures LinkWrites(mem, ReplaceMem(mem, cell, r, par, c0, c1), i, w)
  {
    forall y | 0 <= y < |mem| && ReplaceMem(mem, cell, r, par, c0, c1)[y] != mem[y]
      ensures y == BinCell(i) || LinkWord(w, y)
    {
      if y != cell {
        if r + 16 <= y < r + 64 {
          assert r in w && r + 16 <= y < r + 64;
        } else if c0 != 0 && y == c0 + PARENT {
          assert c0 in w && c0 + 16 <= y < c0 + 64;
        } else {
          assert c1 in w && c1 + 16 <= y < c1 + 64;
        }
      }
    }
  }

  /** Any change to the links of bin i is a change to that bin alone. */
  lemma {:induction false} TreeBinChanged(mem: Memory, mem': Memory, cs: Chunks, cs': Chunks, lo: int, hi: int,
                       sb: seq<seq<int>>, tb: seq<Trie>, smallmap: Word, treemap: Word, i: int, t': Trie, x: int)
    requires Placed(mem, cs, lo, hi) && BinsOk(mem, cs, sb, tb, smallmap, treemap) && 0 <= i < NBINS
    requires x in cs && cs[x].kind != Used && MIN_LARGE_SIZE <= cs[x].size
    requires LinkWrites(mem, mem', i, Members(tb[i]) + {x}) && TreeOk(mem', cs', i, t')
    requires cs'.Keys == cs.Keys && forall a :: a in cs && a != x ==> cs'[a] == cs[a]
    requires Members(tb[i]) - {x} <= Members(t') && (x in Members(t') || cs'[x].kind != Binned)
    requires cs[x].kind != Binned || x in Members(tb[i])
    ensures BinsOk(mem', cs', sb, tb[i := t'], smallmap, treemap[i := [] in t'])
    ensures InteriorOnly(mem, mem', cs)
  {
    assert Looked(mem, cs, sb, tb, smallmap, treemap);
    var w := Members(tb[i]) + {x};
    assert TreeOk(mem, cs, i, tb[i]);
    forall a | a in w
      ensures a in cs && cs[a].kind != Used && MIN_LARGE_SIZE <= cs[a].size
    {
      if a != x {
        var q, k :| q in tb[i] && 0 <= k < |tb[i][q]| && tb[i][q][k] == a;
        assert PosOk(cs, i, tb[i], q);
      }
    }
    LinkWritesFrame(mem, mem', cs, lo, hi, i, w);
    forall a | a in cs && cs[a].kind == Binned && a !in Members(tb[i])
      ensures Kept(mem, mem', cs, cs', a)
    {
      LinkWritesKeep(mem, mem', cs, lo, hi, i, w, a);
    }
    ChangeTree(mem, mem', cs, cs', sb, tb, smallmap, treemap, i, t');
  }

  // ----- Whole insertions -----

  /** A chunk about to enter bin i. */
  ghost predicate Entering(mem: Memory, cs: Chunks, lo: int, hi: int, sb: seq<seq<int>>, tb: seq<Trie>,
                           smallmap: Word, treemap: Word, i: int, x: int) {
    && Placed(mem, cs, lo, hi) && BinsOk(mem, cs, sb, tb, smallmap, treemap) && 0 <= i < NBINS
    && x in cs && cs[x].kind != Binned && cs[x].kind != Used
    && MIN_LARGE_SIZE <= cs[x].size < TreeIndex.SPAN && TreeIndex.Index(cs[x].size) == i
  }

  lemma {:induction false} EnterTrie(mem: Memory, cs: Chunks, lo: int, hi: int, sb: seq<seq<int>>, tb: seq<Trie>,
                  smallmap: Word, treemap: Word, i: int, x: int)
    requires Entering(mem, cs, lo, hi, sb, tb, smallmap, treemap, i, x)
    ensures var cs' := cs[x := Chunk(cs[x].size, Binned)];
            Placed(mem, cs', lo, hi) && TreeOk(mem, cs', i, tb[i]) && InBin(cs', i, x) && NotMember(tb[i], x)
  {
    assert Looked(mem, cs, sb, tb, smallmap, treemap);
    var cs' := cs[x := Chunk(cs[x].size, Binned)];
    KindTiled(cs, lo, hi, x, Binned);
    assert TreeOk(mem, cs, i, tb[i]);
    forall q, k | q in tb[i] && 0 <= k < |tb[i][q]|
      ensures Kept(mem, mem, cs, cs', tb[i][q][k]) && tb[i][q][k] != x
    {
      assert PosOk(cs, i, tb[i], q);
    }
    TreeFrame(mem, mem, cs, cs', i, tb[i]);
  }

  lemma {:induction false} AttachMembers(t: Trie, q: Path, x: int)
    requires q !in t
    ensures Members(t[q := [x]]) == Members(t) + {x} && (q == [] || [] in t ==> [] in t[q := [x]])
  {
    var t' := t[q := [x]];
    forall a | a in Members(t)
      ensures a in Members(t')
    {
      var r, k :| r in t && 0 <= k < |t[r]| && t[r][k] == a;
      assert r in t' && t'[r][k] == a;
    }
    assert t'[q][0] == x;
  }

  /** A leaf linked at the empty position q: the whole set of bins is in order again. */
  lemma {:induction false} AttachStep(mem: Memory, cs: Chunks, lo: int, hi: int, sb: seq<seq<int>>, tb: seq<Trie>,
                   smallmap: Word, treemap: Word, i: int, q: Path, x: int)
    requires Entering(mem, cs, lo, hi, sb, tb, smallmap, treemap, i, x) && STATIC_END <= |mem|
    requires Spells(i, cs[x].size, q) && q !in tb[i] && (q == [] ==> tb[i] == map[]) && (q != [] ==> Up(q) in tb[i])
    requires forall r :: r in tb[i] && r < q ==>
               tb[i][r] != [] && tb[i][r][0] in cs && SizeAt(cs, tb[i], r) != cs[x].size
    ensures var t, cs' := tb[i], cs[x := Chunk(cs[x].size, Binned)];
            && STATIC_END <= x && x + 64 <= |mem| && 0 <= ChildCell(i, t, q) < |mem|
            && var mem' := AttachMem(mem, i, ChildCell(i, t, q), ParentAt(i, t, q), x);
            && Placed(mem', cs', lo, hi) && InteriorOnly(mem, mem', cs)
            && BinsOk(mem', cs', sb, tb[i := t[q := [x]]], smallmap, treemap[i := true])
  {
    assert Looked(mem, cs, sb, tb, smallmap, treemap);
    var t, cs' := tb[i], cs[x := Chunk(cs[x].size, Binned)];
    EnterTrie(mem, cs, lo, hi, sb, tb, smallmap, treemap, i, x);
    forall r | r in t && r < q
      ensures t[r] != [] && t[r][0] in cs' && SizeAt(cs', t, r) != cs'[x].size
    {
    }
    AttachTreeBin(mem, cs', lo, hi, i, t, q, x);
    var cell, t' := ChildCell(i, t, q), t[q := [x]];
    var mem' := AttachMem(mem, i, cell, ParentAt(i, t, q), x);
    CellIsLink(mem, cs', i, t, q, Members(t) + {x});
    AttachWrites(mem, i, cell, ParentAt(i, t, q), x, Members(t) + {x});
    AttachMembers(t, q, x);
    if q != [] {
      assert PosOk(cs', i, t, Up(q));
      assert [] in t by { assert Up(q)[..0] in t; }
    }
    TreeBinChanged(mem, mem', cs, cs', lo, hi, sb, tb, smallmap, treemap, i, t', x);
  }

  lemma {:induction false} ChainMembersSet(t: Trie, q: Path, x: int)
    requires q in t && t[q] != []
    ensures Members(t[q := InsertSecond(t[q], x)]) == Members(t) + {x}
  {
    var c, t' := InsertSecond(t[q], x), t[q := InsertSecond(t[q], x)];
    forall a | a in Members(t)
      ensures a in Members(t')
    {
      var r, k :| r in t && 0 <= k < |t[r]| && t[r][k] == a;
      if r == q {
        assert t'[q][if k == 0 then 0 else k + 1] == a;
      } else {
        assert t'[r][k] == a;
      }
    }
    forall a | a in Members(t')
      ensures a in Members(t) + {x}
    {
      var r, k :| r in t' && 0 <= k < |t'[r]| && t'[r][k] == a;
      if r == q {
        if k > 1 {
          assert t[q][k - 1] == a;
        }
      }
    }
    assert t'[q][1] == x;
  }

  /** A chunk chained behind an equal-sized one at q. */
  lemma {:induction false} ChainStep(mem: Memory, cs: Chunks, lo: int, hi: int, sb: seq<seq<int>>, tb: seq<Trie>,
                  smallmap: Word, treemap: Word, i: int, q: Path, x: int)
    requires Entering(mem, cs, lo, hi, sb, tb, smallmap, treemap, i, x) && STATIC_END <= |mem|
    requires q in tb[i] && tb[i][q] != [] && tb[i][q][0] in cs && SizeAt(cs, tb[i], q) == cs[x].size
    ensures var t, cs' := tb[i], cs[x := Chunk(cs[x].size, Binned)];
            && STATIC_END <= x && x + 64 <= |mem|
            && 0 <= t[q][0] && t[q][0] + 64 <= |mem| && 0 <= Next(t[q], 0) && Next(t[q], 0) + 64 <= |mem|
            && mem[t[q][0] + FD] == Val(Next(t[q], 0)) && ClearOf(x, t[q][0])
            && var mem' := ChainMem(mem, i, t[q][0], Next(t[q], 0), x);
            && Placed(mem', cs', lo, hi) && InteriorOnly(mem, mem', cs)
            && BinsOk(mem', cs', sb, tb[i := t[q := InsertSecond(t[q], x)]], smallmap, treemap)
  {
    assert Looked(mem, cs, sb, tb, smallmap, treemap);
    var t, cs' := tb[i], cs[x := Chunk(cs[x].size, Binned)];
    EnterTrie(mem, cs, lo, hi, sb, tb, smallmap, treemap, i, x);
    assert PosOk(cs', i, t, q);
    Outsider(cs', lo, hi, i, t, x, q, 0);
    ChainTreeBin(mem, cs', lo, hi, i, t, q, x);
    assert LinkOk(mem, t[q], 0) by { assert Ring(mem, t[q]); }
    var tt, f, t' := t[q][0], Next(t[q], 0), t[q := InsertSecond(t[q], x)];
    var mem' := ChainMem(mem, i, tt, f, x);
    assert f == t[q][if |t[q]| > 1 then 1 else 0];
    ChainWrites(mem, i, tt, f, x, Members(t) + {x});
    ChainMembersSet(t, q, x);
    assert treemap[i := [] in t'] == treemap;
    TreeBinChanged(mem, mem', cs, cs', lo, hi, sb, tb, smallmap, treemap, i, t', x);
  }

  // ----- Whole removals -----

  /** Chunk x is member k of position q in bin i. */
  ghost predicate Leaving(mem: Memory, cs: Chunks, lo: int, hi: int, sb: seq<seq<int>>, tb: seq<Trie>,
                          smallmap: Word, treemap: Word, i: int, q: Path, k: int) {
    && Placed(mem, cs, lo, hi) && BinsOk(mem, cs, sb, tb, smallmap, treemap) && 0 <= i < NBINS
    && q in tb[i] && 0 <= k < |tb[i][q]| && STATIC_END <= |mem|
  }

  /** Once x is out of the trie it may go into limbo. */
  lemma {:induction false} LeaveTrie(mem: Memory, mem': Memory, cs: Chunks, lo: int, hi: int, sb: seq<seq<int>>,
                                     tb: seq<Trie>,
                  smallmap: Word, treemap: Word, i: int, q: Path, k: int, t': Trie)
    requires Leaving(mem, cs, lo, hi, sb, tb, smallmap, treemap, i, q, k)
    requires TreeOk(mem', cs, i, t') && LinkWrites(mem, mem', i, Members(tb[i]))
    requires Members(t') == Members(tb[i]) - {tb[i][q][k]}
    ensures var x := tb[i][q][k];
            && x in cs && cs[x].kind == Binned
            && var cs' := cs[x := Chunk(cs[x].size, Limbo)];
            && Placed(mem', cs', lo, hi) && InteriorOnly(mem, mem', cs)
            && BinsOk(mem', cs', sb, tb[i := t'], smallmap, treemap[i := [] in t'])
  {
    assert Looked(mem, cs, sb, tb, smallmap, treemap);
    var t, x := tb[i], tb[i][q][k];
    assert TreeOk(mem, cs, i, t);
    assert PosOk(cs, i, t, q);
    assert x in Members(t);
    var cs' := cs[x := Chunk(cs[x].size, Limbo)];
    KindTiled(cs, lo, hi, x, Limbo);
    forall p, m | p in t' && 0 <= m < |t'[p]|
      ensures t'[p][m] != x && Kept(mem', mem', cs, cs', t'[p][m])
    {
      assert t'[p][m] in Members(t');
      assert PosOk(cs, i, t', p);
    }
    TreeFrame(mem', mem', cs, cs', i, t');
    assert Members(t) + {x} == Members(t);
    TreeBinChanged(mem, mem', cs, cs', lo, hi, sb, tb, smallmap, treemap, i, t', x);
  }

  /** Some place of t other than element k of position q holds a. */
  ghost predicate HeldElsewhere(t: Trie, q: Path, k: int, a: int) {
    exists r, n :: MemberAt(t, r, n, a) && (r != q || n != k)
  }

  /** The members of a trie that loses one chunk. */
  lemma {:induction false} MembersMinus(cs: Chunks, i: int, t: Trie, q: Path, k: int, t': Trie)
    requires TrieOk(cs, i, t) && q in t && 0 <= k < |t[q]|
    requires forall p, m :: p in t' && 0 <= m < |t'[p]| ==> HeldElsewhere(t, q, k, t'[p][m])
    requires forall r, n :: r in t && 0 <= n < |t[r]| && (r != q || n != k) ==> Member(t', t[r][n])
    ensures Members(t') == Members(t) - {t[q][k]}
  {
    var x := t[q][k];
    forall a | a in Members(t')
      ensures a in Members(t) && a != x
    {
      var p, m :| p in t' && 0 <= m < |t'[p]| && t'[p][m] == a;
      var r, n :| MemberAt(t, r, n, t'[p][m]) && (r != q || n != k);
      if a == x {
        OnePlace(cs, i, t, r, n, q, k);
      }
    }
    forall a | a in Members(t) && a != x
      ensures a in Members(t')
    {
      var r, n :| r in t && 0 <= n < |t[r]| && t[r][n] == a;
      assert Member(t', t[r][n]);
      var p, m :| MemberAt(t', p, m, a);
    }
  }

  /** Replacing the ring at q by the same ring without its element k. */
  lemma {:induction false} RingMinus(cs: Chunks, i: int, t: Trie, q: Path, k: int, c: seq<int>)
    requires TrieOk(cs, i, t) && q in t && 0 <= k < |t[q]|
    requires forall m :: 0 <= m < |c| ==> exists n :: 0 <= n < |t[q]| && n != k && t[q][n] == c[m]
    requires forall n :: 0 <= n < |t[q]| && n != k ==> t[q][n] in c
    ensures Members(t[q := c]) == Members(t) - {t[q][k]}
  {
    var t' := t[q := c];
    forall p, m | p in t' && 0 <= m < |t'[p]|
      ensures HeldElsewhere(t, q, k, t'[p][m])
    {
      if p == q {
        var n :| 0 <= n < |t[q]| && n != k && t[q][n] == c[m];
        assert MemberAt(t, q, n, t'[p][m]);
      } else {
        assert MemberAt(t, p, m, t'[p][m]);
      }
    }
    forall r, n | r in t && 0 <= n < |t[r]| && (r != q || n != k)
      ensures Member(t', t[r][n])
    {
      NotLost(t, q, k, c, r, n);
    }
    MembersMinus(cs, i, t, q, k, t');
  }

  lemma {:induction false} NotLost(t: Trie, q: Path, k: int, c: seq<int>, r: Path, n: int)
    requires q in t && forall n :: 0 <= n < |t[q]| && n != k ==> t[q][n] in c
    requires r in t && 0 <= n < |t[r]| && (r != q || n != k)
    ensures Member(t[q := c], t[r][n])
  {
    var t' := t[q := c];
    if r == q {
      assert t[q][n] in c;
      var m :| 0 <= m < |c| && c[m] == t[q][n];
      assert MemberAt(t', q, m, t[r][n]);
    } else {
      assert MemberAt(t', r, n, t[r][n]);
    }
  }

  lemma {:induction false} UnchainStep(mem: Memory, cs: Chunks, lo: int, hi: int, sb: seq<seq<int>>, tb: seq<Trie>,
                    smallmap: Word, treemap: Word, i: int, q: Path, k: int)
    requires Leaving(mem, cs, lo, hi, sb, tb, smallmap, treemap, i, q, k) && k > 0
    ensures var c := tb[i][q];
            var x, f, b, t' := c[k], Next(c, k), c[k - 1], tb[i][q := RemoveAt(c, k)];
            && x in cs && cs[x].kind == Binned && 0 <= f && f + 64 <= |mem| && 0 <= b && b + 64 <= |mem|
            && var mem', cs' := UnchainMem(mem, f, b), cs[x := Chunk(cs[x].size, Limbo)];
            && Placed(mem', cs', lo, hi) && InteriorOnly(mem, mem', cs)
            && BinsOk(mem', cs', sb, tb[i := t'], smallmap, treemap)
  {
    assert Looked(mem, cs, sb, tb, smallmap, treemap);
    var t, c, c' := tb[i], tb[i][q], RemoveAt(tb[i][q], k);
    assert TreeOk(mem, cs, i, t);
    assert PosOk(cs, i, t, q);
    UnchainTreeBin(mem, cs, lo, hi, i, t, q, k);
    var f, b, t' := Next(c, k), c[k - 1], t[q := c'];
    assert f in Members(t) by { assert f == t[q][if k + 1 < |c| then k + 1 else 0]; }
    assert b in Members(t);
    UnchainWrites(mem, i, f, b, Members(t));
    forall m | 0 <= m < |c'|
      ensures exists n :: 0 <= n < |c| && n != k && c[n] == c'[m]
    {
      var n := if m < k then m else m + 1;
      assert c[n] == c'[m];
    }
    forall n | 0 <= n < |c| && n != k
      ensures c[n] in c'
    {
      assert c'[if n < k then n else n - 1] == c[n];
    }
    RingMinus(cs, i, t, q, k, c');
    assert treemap[i := [] in t'] == treemap;
    LeaveTrie(mem, UnchainMem(mem, f, b), cs, lo, hi, sb, tb, smallmap, treemap, i, q, k, t');
  }

  lemma {:induction false} DropStep(mem: Memory, cs: Chunks, lo: int, hi: int, sb: seq<seq<int>>, tb: seq<Trie>,
                 smallmap: Word, treemap: Word, i: int, q: Path)
    requires Leaving(mem, cs, lo, hi, sb, tb, smallmap, treemap, i, q, 0) && |tb[i][q]| == 1
    requires q + [false] !in tb[i] && q + [true] !in tb[i]
    ensures var x, cell := tb[i][q][0], ChildCell(i, tb[i], q);
            && x in cs && cs[x].kind == Binned && 0 <= cell < |mem| && Unlinkable(mem, cs, i, tb[i], q)
            && var mem', cs' := mem[cell := Val(0)], cs[x := Chunk(cs[x].size, Limbo)];
            && Placed(mem', cs', lo, hi) && InteriorOnly(mem, mem', cs)
            && BinsOk(mem', cs', sb, tb[i := tb[i] - {q}], smallmap, treemap[i := q != []])
  {
    assert Looked(mem, cs, sb, tb, smallmap, treemap);
    var t, t' := tb[i], tb[i] - {q};
    assert TreeOk(mem, cs, i, t);
    assert PosOk(cs, i, t, q);
    if q != [] {
      assert Up(q) in t by { assert Closed(t, q); }
      assert [] in t by { assert q[..0] in t; }
    }
    DropTreeBin(mem, cs, lo, hi, i, t, q);
    NodeUnlinkable(mem, cs, i, t, q);
    CellIsLink(mem, cs, i, t, q, Members(t));
    CellWrites(mem, i, ChildCell(i, t, q), Val(0), Members(t));
    forall p, m | p in t' && 0 <= m < |t'[p]|
      ensures HeldElsewhere(t, q, 0, t'[p][m])
    {
      assert MemberAt(t, p, m, t'[p][m]);
    }
    forall r, n | r in t && 0 <= n < |t[r]| && (r != q || n != 0)
      ensures Member(t', t[r][n])
    {
      assert MemberAt(t', r, n, t[r][n]);
    }
    MembersMinus(cs, i, t, q, 0, t');
    LeaveTrie(mem, mem[ChildCell(i, t, q) := Val(0)], cs, lo, hi, sb, tb, smallmap, treemap, i, q, 0, t');
  }

  lemma {:induction false} NeighboursAreMembers(cs: Chunks, i: int, t: Trie, q: Path)
    requires TrieOk(cs, i, t)
    ensures HeadAt(t, q) != 0 ==> HeadAt(t, q) in Members(t)
  {
    if q in t {
      assert PosOk(cs, i, t, q);
    }
  }

  /** The node at q is ready to be replaced. */
  ghost predicate Unlinkable(mem: Memory, cs: Chunks, i: int, t: Trie, q: Path) {
    && TrieOk(cs, i, t) && TreeLinks.Linked(mem, i, t) && q in t
    && 0 <= ChildCell(i, t, q) < |mem|
    && 0 <= HeadAt(t, q + [false]) && HeadAt(t, q + [false]) + 64 <= |mem|
    && 0 <= HeadAt(t, q + [true]) && HeadAt(t, q + [true]) + 64 <= |mem|
  }

  lemma {:induction false} NodeUnlinkable(mem: Memory, cs: Chunks, i: int, t: Trie, q: Path)
    requires TrieOk(cs, i, t) && TreeLinks.Linked(mem, i, t) && q in t
    ensures Unlinkable(mem, cs, i, t, q)
  {
    assert PosOk(cs, i, t, q);
    assert NodeOk(mem, i, t, q);
    if q != [] {
      assert Up(q) in t by { assert Closed(t, q); }
    }
    CellInside(mem, cs, i, t, q);
    if q + [false] in t {
      assert NodeOk(mem, i, t, q + [false]);
    }
    if q + [true] in t {
      assert NodeOk(mem, i, t, q + [true]);
    }
  }

  lemma {:induction false} SucceedStep(mem: Memory, cs: Chunks, lo: int, hi: int, sb: seq<seq<int>>, tb: seq<Trie>,
                    smallmap: Word, treemap: Word, i: int, q: Path)
    requires Leaving(mem, cs, lo, hi, sb, tb, smallmap, treemap, i, q, 0) && |tb[i][q]| > 1
    ensures var t, c := tb[i], tb[i][q];
            var x, f, r, t' := c[0], c[1], c[|c| - 1], t[q := RemoveFirst(c)];
            && x in cs && cs[x].kind == Binned && 0 <= f && f + 64 <= |mem| && 0 <= r && r + 64 <= |mem|
            && Unlinkable(UnchainMem(mem, f, r), cs, i, t[q := [x]], q)
            && var mem', cs' := ReplacedMem(UnchainMem(mem, f, r), i, t[q := [x]], q, r),
                                cs[x := Chunk(cs[x].size, Limbo)];
            && Placed(mem', cs', lo, hi) && InteriorOnly(mem, mem', cs)
            && BinsOk(mem', cs', sb, tb[i := t'], smallmap, treemap)
  {
    assert Looked(mem, cs, sb, tb, smallmap, treemap);
    var t, c, c' := tb[i], tb[i][q], RemoveFirst(tb[i][q]);
    assert TreeOk(mem, cs, i, t);
    SucceedTreeBin(mem, cs, lo, hi, i, t, q);
    var f, r, t' := c[1], c[|c| - 1], t[q := c'];
    var mem' := ReplacedMem(UnchainMem(mem, f, r), i, t, q, r);
    SucceedUnlinkable(mem, cs, lo, hi, i, t, q);
    SameHeads(t, q, i);
    SucceedWrites(mem, cs, i, t, q);
    SucceedMinus(cs, i, t, q);
    assert treemap[i := [] in t'] == treemap;
    LeaveTrie(mem, mem', cs, lo, hi, sb, tb, smallmap, treemap, i, q, 0, t');
  }

  lemma {:induction false} SucceedUnlinkable(mem: Memory, cs: Chunks, lo: int, hi: int, i: int, t: Trie, q: Path)
    requires Placed(mem, cs, lo, hi) && TreeOk(mem, cs, i, t) && q in t && |t[q]| > 1
    requires 0 <= t[q][1] && t[q][1] + 64 <= |mem| && 0 <= t[q][|t[q]| - 1] && t[q][|t[q]| - 1] + 64 <= |mem|
    ensures Unlinkable(UnchainMem(mem, t[q][1], t[q][|t[q]| - 1]), cs, i, t[q := [t[q][0]]], q)
  {
    assert PosOk(cs, i, t, q);
    UnchainWords(mem, cs, lo, hi, i, t, t[q][|t[q]| - 1], t[q][1]);
    SucceedLinks(mem, cs, i, t, q);
    ReringTrie(cs, i, t, q, [t[q][0]]);
    NodeUnlinkable(UnchainMem(mem, t[q][1], t[q][|t[q]| - 1]), cs, i, t[q := [t[q][0]]], q);
  }

  lemma {:induction false} SucceedMinus(cs: Chunks, i: int, t: Trie, q: Path)
    requires TrieOk(cs, i, t) && q in t && |t[q]| > 1
    ensures Members(t[q := RemoveFirst(t[q])]) == Members(t) - {t[q][0]}
  {
    var c, c' := t[q], RemoveFirst(t[q]);
    forall m | 0 <= m < |c'|
      ensures exists n :: 0 <= n < |c| && n != 0 && c[n] == c'[m]
    {
      var n := if m == 0 then |c| - 1 else m;
      assert c[n] == c'[m];
    }
    forall n | 0 <= n < |c| && n != 0
      ensures c[n] in c'
    {
      assert c'[if n == |c| - 1 then 0 else n] == c[n];
    }
    RingMinus(cs, i, t, q, 0, c');
  }

  lemma {:induction false} SucceedWrites(mem: Memory, cs: Chunks, i: int, t: Trie, q: Path)
    requires TreeOk(mem, cs, i, t) && q in t && |t[q]| > 1
    requires 0 <= t[q][1] && t[q][1] + 64 <= |mem| && 0 <= t[q][|t[q]| - 1] && t[q][|t[q]| - 1] + 64 <= |mem|
    requires 0 <= ChildCell(i, t, q) < |mem|
    requires 0 <= HeadAt(t, q + [false]) && HeadAt(t, q + [false]) + 64 <= |mem|
    requires 0 <= HeadAt(t, q + [true]) && HeadAt(t, q + [true]) + 64 <= |mem|
    ensures var f, r := t[q][1], t[q][|t[q]| - 1];
            LinkWrites(mem, ReplacedMem(UnchainMem(mem, f, r), i, t, q, r), i, Members(t))
  {
    var f, r := t[q][1], t[q][|t[q]| - 1];
    assert PosOk(cs, i, t, q);
    assert f in Members(t) && r in Members(t);
    if q != [] {
      assert Up(q) in t by { assert Closed(t, q); }
    }
    UnchainWrites(mem, i, f, r, Members(t));
    CellIsLink(mem, cs, i, t, q, Members(t));
    NeighboursAreMembers(cs, i, t, q + [false]);
    NeighboursAreMembers(cs, i, t, q + [true]);
    var m1 := UnchainMem(mem, f, r);
    ReplaceWrites(m1, i, ChildCell(i, t, q), r, ParentAt(i, t, q), HeadAt(t, q + [false]), HeadAt(t, q + [true]),
                  Members(t));
    LinkWritesTrans(mem, m1, ReplacedMem(m1, i, t, q, r), i, Members(t));
  }

  lemma {:induction false} PromoteStep(mem: Memory, cs: Chunks, lo: int, hi: int, sb: seq<seq<int>>, tb: seq<Trie>,
                    smallmap: Word, treemap: Word, i: int, q: Path, r: Path)
    requires Leaving(mem, cs, lo, hi, sb, tb, smallmap, treemap, i, q, 0) && |tb[i][q]| == 1
    requires r in tb[i] && q < r && r + [false] !in tb[i] && r + [true] !in tb[i]
    ensures var t := tb[i];
            && t[r] != [] && 0 <= ChildCell(i, t, r) < |mem| && t[q][0] in cs && cs[t[q][0]].kind == Binned
            && var x, y, m1, t1 := t[q][0], t[r][0], mem[ChildCell(i, t, r) := Val(0)], t - {r};
            && 0 <= ChildCell(i, t1, q) < |mem| && 0 <= y && y + 64 <= |mem|
            && 0 <= HeadAt(t1, q + [false]) && HeadAt(t1, q + [false]) + 64 <= |mem|
            && 0 <= HeadAt(t1, q + [true]) && HeadAt(t1, q + [true]) + 64 <= |mem|
            && Unlinkable(m1, cs, i, t1, q)
            && var mem', cs' := ReplacedMem(m1, i, t1, q, y), cs[x := Chunk(cs[x].size, Limbo)];
            && Placed(mem', cs', lo, hi) && InteriorOnly(mem, mem', cs)
            && BinsOk(mem', cs', sb, tb[i := t1[q := t[r]]], smallmap, treemap)
  {
    assert Looked(mem, cs, sb, tb, smallmap, treemap);
    var t, t1 := tb[i], tb[i] - {r};
    assert TreeOk(mem, cs, i, t);
    assert PosOk(cs, i, t, q) && PosOk(cs, i, t, r);
    PromoteTreeBin(mem, cs, lo, hi, i, t, q, r);
    DropTreeBin(mem, cs, lo, hi, i, t, r);
    var m1, y, t' := mem[ChildCell(i, t, r) := Val(0)], t[r][0], t1[q := t[r]];
    var mem' := ReplacedMem(m1, i, t1, q, y);
    PromoteWrites(mem, cs, i, t, q, r);
    PromoteMembers(cs, i, t, q, r);
    NodeUnlinkable(m1, cs, i, t1, q);
    assert [] in t by { assert q[..0] in t; }
    assert treemap[i := [] in t'] == treemap;
    LeaveTrie(mem, mem', cs, lo, hi, sb, tb, smallmap, treemap, i, q, 0, t');
  }

  lemma {:induction false} PromoteMembers(cs: Chunks, i: int, t: Trie, q: Path, r: Path)
    requires TrieOk(cs, i, t) && q in t && r in t && q < r && |t[q]| == 1
    ensures Members((t - {r})[q := t[r]]) == Members(t) - {t[q][0]}
  {
    var t' := (t - {r})[q := t[r]];
    forall p, m | p in t' && 0 <= m < |t'[p]|
      ensures HeldElsewhere(t, q, 0, t'[p][m])
    {
      assert MemberAt(t, if p == q then r else p, m, t'[p][m]);
    }
    forall p, n | p in t && 0 <= n < |t[p]| && (p != q || n != 0)
      ensures Member(t', t[p][n])
    {
      assert MemberAt(t', if p == r then q else p, n, t[p][n]);
    }
    MembersMinus(cs, i, t, q, 0, t');
  }

  lemma {:induction false} PromoteWrites(mem: Memory, cs: Chunks, i: int, t: Trie, q: Path, r: Path)
    requires TreeOk(mem, cs, i, t) && q in t && r in t && q < r && t[r] != [] && 0 <= ChildCell(i, t, r) < |mem|
    requires TreeOk(mem[ChildCell(i, t, r) := Val(0)], cs, i, t - {r})
    requires 0 <= ChildCell(i, t - {r}, q) < |mem| && 0 <= t[r][0] && t[r][0] + 64 <= |mem|
    requires 0 <= HeadAt(t - {r}, q + [false]) && HeadAt(t - {r}, q + [false]) + 64 <= |mem|
    requires 0 <= HeadAt(t - {r}, q + [true]) && HeadAt(t - {r}, q + [true]) + 64 <= |mem|
    ensures var m1, t1 := mem[ChildCell(i, t, r) := Val(0)], t - {r};
            LinkWrites(mem, ReplacedMem(m1, i, t1, q, t[r][0]), i, Members(t))
  {
    var m1, t1, y, w := mem[ChildCell(i, t, r) := Val(0)], t - {r}, t[r][0], Members(t);
    assert PosOk(cs, i, t, r) && PosOk(cs, i, t1, q);
    assert Up(r) in t by { assert Closed(t, r); }
    if q != [] {
      assert Up(q) in t1 by { assert Closed(t1, q); }
    }
    CellIsLink(mem, cs, i, t, r, w);
    CellWrites(mem, i, ChildCell(i, t, r), Val(0), w);
    assert Members(t1) <= w;
    CellIsLink(m1, cs, i, t1, q, w);
    assert y in w;
    NeighboursAreMembers(cs, i, t1, q + [false]);
    NeighboursAreMembers(cs, i, t1, q + [true]);
    ReplaceWrites(m1, i, ChildCell(i, t1, q), y, ParentAt(i, t1, q), HeadAt(t1, q + [false]), HeadAt(t1, q + [true]),
      w);
    LinkWritesTrans(mem, m1, ReplacedMem(m1, i, t1, q, y), i, w);
  }

  /** What the words around x tell the code that unlinks it. */
  lemma {:induction false} RelinkWords(mem: Memory, cs: Chunks, lo: int, hi: int, i: int, t: Trie, q: Path)
    requires Placed(mem, cs, lo, hi) && Unlinkable(mem, cs, i, t, q)
    ensures t[q] != [] && HeadAt(t, q) == t[q][0]
    ensures var x, xp := HeadAt(t, q), ParentAt(i, t, q);
            && STATIC_END <= x && x + 64 <= |mem| && mem[x + INDEX] == Val(i) && xp != 0
            && mem[x + LEFT] == Val(HeadAt(t, q + [false])) && mem[x + RIGHT] == Val(HeadAt(t, q + [true]))
            && (mem[BinCell(i)] == Val(x) <==> q == [])
            && (q != [] ==>
                  && ClearOf(xp, x) && lo <= xp && xp + 64 <= |mem|
                  && (mem[xp + LEFT] == Val(x) <==> !q[|q| - 1]))
            && (HeadAt(t, q + [false]) != 0 ==> ClearOf(HeadAt(t, q + [false]), x))
            && (HeadAt(t, q + [true]) != 0 ==> ClearOf(HeadAt(t, q + [true]), x))
  {
    assert PosOk(cs, i, t, q);
    assert NodeOk(mem, i, t, q);
    var x := t[q][0];
    assert MemberOk(mem, i, x, false);
    MemberIsHead(cs, i, t, q, 0, []);
    if q != [] {
      assert Up(q) in t by { assert Closed(t, q); }
      assert PosOk(cs, i, t, Up(q));
      assert NodeOk(mem, i, t, Up(q));
      Elsewhere(cs, lo, hi, i, t, Up(q), q, 0);
      Placement(cs, lo, hi, t[Up(q)][0], hi);
      StepUp(q);
      MemberIsHead(cs, i, t, q, 0, Up(q) + [false]);
      UpStep(Up(q), false);
    }
    if q + [false] in t {
      Elsewhere(cs, lo, hi, i, t, q + [false], q, 0);
    }
    if q + [true] in t {
      Elsewhere(cs, lo, hi, i, t, q + [true], q, 0);
    }
  }
}
