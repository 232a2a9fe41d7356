/**
 * Treebins: bitwise tries of large free chunks.  A trie is described by the ring of
 * equal-sized chunks at each of its positions; a position is the path of child choices
 * that leads to it from the root.  Only the first chunk of a ring is linked into the tree.
 */
module Tries {
  import opened Layout
  import opened Rings
  import TreeIndex

  type Path = seq<bool>
  type Trie = map<Path, seq<int>>

  /** Offsets of the words of a tree chunk. */
  const LEFT: int := 32
  const RIGHT: int := 40
  const PARENT: int := 48
  const INDEX: int := 56

  /** Addresses of the bin headers in malloc_state. */
  const TREEBINS: int := 544

  function BinCell(i: int): int {
    TREEBINS + 8 * i
  }

  // ----- Which chunk belongs where -----

  ghost function SizeAt(cs: Chunks, t: Trie, q: Path): int
    requires q in t && t[q] != [] && t[q][0] in cs
  {
    cs[t[q][0]].size
  }

  /** A free chunk of bin i. */
  ghost predicate InBin(cs: Chunks, i: int, a: int) {
    && a in cs && cs[a].kind == Binned
    && TreeIndex.MIN_LARGE_SIZE <= cs[a].size < TreeIndex.SPAN
    && 0 <= i < TreeIndex.NTREEBINS
    && TreeIndex.Index(cs[a].size) == i
  }

  /** The path q spells out the leading bits of size s. */
  ghost predicate Spells(i: int, s: int, q: Path)
    requires 0 <= i < TreeIndex.NTREEBINS && 0 <= s
  {
    forall k :: 0 <= k < |q| ==> q[k] == TreeIndex.Bit(i, s, k)
  }

  ghost predicate Closed(t: Trie, q: Path) {
    forall k :: 0 <= k <= |q| ==> q[..k] in t
  }

  ghost predicate PosOk(cs: Chunks, i: int, t: Trie, q: Path)
    requires q in t
  {
    && t[q] != []
    && InBin(cs, i, t[q][0])
    && (forall k :: 0 <= k < |t[q]| ==> t[q][k] in cs && cs[t[q][k]] == cs[t[q][0]])
    && (forall k, m :: 0 <= k < m < |t[q]| ==> t[q][k] != t[q][m])
    && Spells(i, cs[t[q][0]].size, q)
    && Closed(t, q)
  }

  ghost predicate Differ(cs: Chunks, t: Trie, q: Path, r: Path)
    requires q in t && r in t
  {
    q != r ==> t[q] != [] && t[r] != [] && t[q][0] in cs && t[r][0] in cs && SizeAt(cs, t, q) != SizeAt(cs, t, r)
  }

  /** A trie of the chunks of bin i, one position for each size. */
  ghost predicate TrieOk(cs: Chunks, i: int, t: Trie) {
    && 0 <= i < TreeIndex.NTREEBINS
    && (forall q {:trigger PosOk(cs, i, t, q)} :: q in t ==> PosOk(cs, i, t, q))
    && (forall q, r {:trigger Differ(cs, t, q, r)} :: q in t && r in t ==> Differ(cs, t, q, r))
  }

  /** Two paths that spell out the same size are prefixes of one another. */
  lemma {:induction false} SamePath(i: int, s: int, q: Path, r: Path)
    requires 0 <= i < TreeIndex.NTREEBINS && 0 <= s && Spells(i, s, q) && Spells(i, s, r) && |q| <= |r|
    ensures q == r[..|q|]
    ensures q < r || q == r
  {
  }

  /** A position with no children has no descendants. */
  lemma {:induction false} NoDescendants(cs: Chunks, i: int, t: Trie, q: Path, r: Path)
    requires TrieOk(cs, i, t) && r in t && q <= r
    requires q + [false] !in t && q + [true] !in t
    ensures r == q
  {
    assert PosOk(cs, i, t, r);
    if q != r {
      StepBelow(q, r);
    }
  }

  lemma {:induction false} StepBelow(q: Path, r: Path)
    requires q <= r && q != r
    ensures |q| < |r| && r[..|q| + 1] == q + [r[|q|]]
  {
  }

  lemma {:induction false} PrefixOfStep(q: Path, b: bool, k: int)
    requires 0 <= k <= |q|
    ensures (q + [b])[..k] == q[..k]
  {
  }

  /** A size absent from the path that spells it out is absent from the trie. */
  lemma {:induction false} NewSize(cs: Chunks, i: int, t: Trie, q: Path, s: int, r: Path)
    requires TrieOk(cs, i, t) && 0 <= s && Spells(i, s, q) && q !in t && r in t
    requires r < q ==> t[r] != [] && t[r][0] in cs && SizeAt(cs, t, r) != s
    ensures t[r] != [] && t[r][0] in cs && SizeAt(cs, t, r) != s
  {
    assert PosOk(cs, i, t, r);
    if SizeAt(cs, t, r) == s {
      if |r| <= |q| {
        SamePath(i, s, r, q);
      } else {
        SamePath(i, s, q, r);
      }
    }
  }

  /** A new leaf below q, or at the root of an empty trie. */
  lemma {:induction false} AttachTrie(cs: Chunks, i: int, t: Trie, q: Path, x: int)
    requires TrieOk(cs, i, t) && InBin(cs, i, x) && Spells(i, cs[x].size, q)
    requires q !in t && (q == [] ==> t == map[]) && (q != [] ==> q[..|q| - 1] in t)
    requires forall r :: r in t && r < q ==> t[r] != [] && t[r][0] in cs && SizeAt(cs, t, r) != cs[x].size
    ensures TrieOk(cs, i, t[q := [x]])
  {
    var t' := t[q := [x]];
    var s := cs[x].size;
    if q != [] {
      var p := q[..|q| - 1];
      assert PosOk(cs, i, t, p);
      assert q == p + [q[|q| - 1]];
      forall k | 0 <= k <= |q|
        ensures q[..k] in t'
      {
        if k < |q| {
          PrefixOfStep(p, q[|q| - 1], k);
        } else {
          assert q[..k] == q;
        }
      }
    }
    forall r | r in t'
      ensures PosOk(cs, i, t', r)
    {
      if r != q {
        assert PosOk(cs, i, t, r);
      }
    }
    forall r | r in t
      ensures PosOk(cs, i, t, r) && SizeAt(cs, t, r) != s
    {
      assert PosOk(cs, i, t, r);
      NewSize(cs, i, t, q, s, r);
    }
    forall r, r' | r in t' && r' in t'
      ensures Differ(cs, t', r, r')
    {
      if r in t && r' in t {
        assert Differ(cs, t, r, r');
      }
    }
  }

  /** Another ring of chunks of the same size at an existing position. */
  lemma {:induction false} ReringTrie(cs: Chunks, i: int, t: Trie, q: Path, c: seq<int>)
    requires TrieOk(cs, i, t) && q in t && c != []
    requires t[q] != [] && t[q][0] in cs
    requires forall k :: 0 <= k < |c| ==> c[k] in cs && cs[c[k]] == cs[t[q][0]]
    requires forall k, m :: 0 <= k < m < |c| ==> c[k] != c[m]
    ensures TrieOk(cs, i, t[q := c])
  {
    var t' := t[q := c];
    forall r | r in t'
      ensures PosOk(cs, i, t', r)
    {
      assert PosOk(cs, i, t, r) && PosOk(cs, i, t, q);
    }
    forall r, r' | r in t' && r' in t'
      ensures Differ(cs, t', r, r')
    {
      assert Differ(cs, t, r, r');
    }
  }

  /** A leaf leaves the trie. */
  lemma {:induction false} DetachTrie(cs: Chunks, i: int, t: Trie, q: Path)
    requires TrieOk(cs, i, t) && q in t
    requires q + [false] !in t && q + [true] !in t
    ensures TrieOk(cs, i, t - {q})
  {
    var t' := t - {q};
    forall r | r in t'
      ensures PosOk(cs, i, t', r)
    {
      assert PosOk(cs, i, t, r);
      forall k | 0 <= k <= |r|
        ensures r[..k] in t'
      {
        if r[..k] == q {
          NoDescendants(cs, i, t, q, r);
        }
      }
    }
    forall r, r' | r in t' && r' in t'
      ensures Differ(cs, t', r, r')
    {
      assert Differ(cs, t, r, r');
    }
  }

  /** A leaf r below q takes the place of q. */
  lemma {:induction false} MoveTrie(cs: Chunks, i: int, t: Trie, q: Path, r: Path)
    requires TrieOk(cs, i, t) && q in t && r in t && q < r
    requires r + [false] !in t && r + [true] !in t
    ensures TrieOk(cs, i, (t - {r})[q := t[r]])
  {
    DetachTrie(cs, i, t, r);
    var t1 := t - {r};
    var t' := t1[q := t[r]];
    assert PosOk(cs, i, t, r);
    forall p | p in t'
      ensures PosOk(cs, i, t', p)
    {
      assert PosOk(cs, i, t1, p);
    }
    forall p, p' | p in t' && p' in t'
      ensures Differ(cs, t', p, p')
    {
      assert Differ(cs, t, p, p') && Differ(cs, t, r, p') && Differ(cs, t, p, r);
    }
  }

  /** Only the members of a trie matter to it. */
  lemma {:induction false} TrieFrame(cs: Chunks, cs': Chunks, i: int, t: Trie)
    requires TrieOk(cs, i, t)
    requires forall q, k :: q in t && 0 <= k < |t[q]| ==> t[q][k] in cs' && t[q][k] in cs && cs'[t[q][k]] == cs[t[q][k]]
    ensures TrieOk(cs', i, t)
  {
    forall q | q in t
      ensures PosOk(cs', i, t, q)
    {
      assert PosOk(cs, i, t, q);
    }
    forall q, r | q in t && r in t
      ensures Differ(cs', t, q, r)
    {
      assert Differ(cs, t, q, r) && PosOk(cs, i, t, q) && PosOk(cs, i, t, r);
    }
  }

  /** While the chunk at q has another size than s, the path of s goes on below q. */
  lemma {:induction false} PathGoesOn(cs: Chunks, i: int, t: Trie, q: Path, s: int)
    requires TrieOk(cs, i, t) && q in t && TreeIndex.MIN_LARGE_SIZE <= s < TreeIndex.SPAN && TreeIndex.Index(s) == i
    requires Spells(i, s, q) && t[q] != [] && t[q][0] in cs && SizeAt(cs, t, q) != s
    ensures |q| < 64
    ensures Spells(i, s, q + [TreeIndex.Bit(i, s, |q|)])
  {
    assert PosOk(cs, i, t, q);
    var z := SizeAt(cs, t, q);
    if |q| >= 64 {
      assert forall j: nat :: j < |q| ==> TreeIndex.Bit(i, s, j) == q[j] == TreeIndex.Bit(i, z, j);
      TreeIndex.BitsDecide(i, s, z, |q|);
    }
  }

  lemma {:induction false} BelowStep(q: Path, b: bool, r: Path)
    requires r < q + [b]
    ensures r < q || r == q
  {
    assert r == (q + [b])[..|r|];
    PrefixOfStep(q, b, |r|);
    assert |r| == |q| ==> q[..|r|] == q;
  }

  /** The next bit of the size, the top bit of the shifted key, leads on along its path. */
  lemma {:induction false} SpellsOn(i: int, s: int, q: Path, key: int)
    requires 0 <= s && 0 <= i < TreeIndex.NTREEBINS && Spells(i, s, q) && key == TreeIndex.Key(i, s, |q|)
    ensures Spells(i, s, q + [TreeIndex.Bit(i, s, |q|)])
    ensures TreeIndex.Bit(i, s, |q|) <==> key >= TreeIndex.W64 / 2
    ensures TreeIndex.Key(i, s, |q| + 1) == (2 * key) % TreeIndex.W64
  {
  }

  /** No node above q has chunks of that size. */
  ghost predicate Passed(cs: Chunks, t: Trie, q: Path, s: int) {
    forall r :: r in t && r < q ==> t[r] != [] && t[r][0] in cs && SizeAt(cs, t, r) != s
  }

  lemma {:induction false} PassedOn(cs: Chunks, t: Trie, q: Path, b: bool, s: int)
    requires Passed(cs, t, q, s) && q in t && t[q] != [] && t[q][0] in cs && SizeAt(cs, t, q) != s
    ensures Passed(cs, t, q + [b], s)
  {
    forall r | r in t && r < q + [b] ensures t[r] != [] && t[r][0] in cs && SizeAt(cs, t, r) != s {
      BelowStep(q, b, r);
    }
  }

  lemma {:induction false} RootPresent(cs: Chunks, i: int, t: Trie, q: Path)
    requires TrieOk(cs, i, t) && q in t
    ensures [] in t
  {
    assert PosOk(cs, i, t, q);
    assert q[..0] == [];
  }

  lemma {:induction false} EmptyTrie(cs: Chunks, i: int, t: Trie)
    requires TrieOk(cs, i, t) && [] !in t
    ensures t == map[]
  {
    if t != map[] {
      var q :| q in t;
      RootPresent(cs, i, t, q);
    }
  }

  /** No path is longer than a word. */
  lemma {:induction false} DepthBound(cs: Chunks, i: int, t: Trie, q: Path)
    requires TrieOk(cs, i, t) && q in t
    ensures |q| <= 64
  {
    assert PosOk(cs, i, t, q);
    if q != [] {
      var p := q[..|q| - 1];
      assert p in t by { assert Closed(t, q); }
      assert PosOk(cs, i, t, p) && Differ(cs, t, p, q);
      PathGoesOn(cs, i, t, p, SizeAt(cs, t, q));
    }
  }
}
