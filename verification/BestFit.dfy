/**
 * Why walking one or two root-to-leaf paths finds the best fitting chunk of all the tries.
 */
module BestFit {
  import opened Layout
  import opened Tries
  import opened TreeLinks
  import TreeIndex

  /**
   * The chunk at p is too small, no better than the best fit so far (nb + rsize), or still
   * to be beaten: below q, or larger than the chunk at q.
   */
  ghost predicate Covered(cs: Chunks, t: Trie, nb: int, rsize: int, going: bool, q: Path, p: Path)
    requires p in t && t[p] != [] && t[p][0] in cs
    requires going ==> q in t && t[q] != [] && t[q][0] in cs
  {
    || SizeAt(cs, t, p) < nb
    || nb + rsize <= SizeAt(cs, t, p)
    || (going && (q <= p || SizeAt(cs, t, q) < SizeAt(cs, t, p)))
  }

  ghost predicate AllCovered(cs: Chunks, i: int, t: Trie, nb: int, rsize: int, going: bool, q: Path) {
    && TrieOk(cs, i, t)
    && (going ==> q in t)
    && forall p {:trigger PosOk(cs, i, t, p)} :: p in t ==>
         PosOk(cs, i, t, p) && (going ==> PosOk(cs, i, t, q)) && Covered(cs, t, nb, rsize, going, q, p)
  }

  /** Everything at and below q is large enough. */
  ghost predicate AllFit(cs: Chunks, i: int, t: Trie, nb: int, q: Path) {
    forall p {:trigger PosOk(cs, i, t, p)} :: p in t && q <= p ==> PosOk(cs, i, t, p) && nb <= SizeAt(cs, t, p)
  }

  /** The first bit at which the sizes at two positions differ tells which is larger. */
  lemma {:induction false} ForkOrder(cs: Chunks, i: int, t: Trie, a: Path, b: Path, k: int)
    requires TrieOk(cs, i, t) && a in t && b in t && 0 <= k < |a| && k < |b|
    requires a[..k] == b[..k] && !a[k] && b[k]
    ensures PosOk(cs, i, t, a) && PosOk(cs, i, t, b) && SizeAt(cs, t, a) < SizeAt(cs, t, b)
  {
    assert PosOk(cs, i, t, a) && PosOk(cs, i, t, b);
    var s, z := SizeAt(cs, t, a), SizeAt(cs, t, b);
    forall j: nat | j < k
      ensures TreeIndex.Bit(i, s, j) == TreeIndex.Bit(i, z, j)
    {
      assert a[..k][j] == a[j] && b[..k][j] == b[j];
    }
    TreeIndex.BitOrder(i, s, z, k);
  }

  /** leftmost_child: the child to go on with. */
  ghost function LeftmostStep(t: Trie, q: Path): Path {
    if q + [false] in t then q + [false] else q + [true]
  }

  /** Going on to the leftmost child after looking at q leaves nothing uncovered. */
  lemma {:induction false} LeftmostCovers(cs: Chunks, i: int, t: Trie, nb: int, rsize: int, q: Path, p: Path)
    requires AllCovered(cs, i, t, nb, rsize, true, q) && p in t
    requires PosOk(cs, i, t, q) && (nb + rsize <= SizeAt(cs, t, q))
    ensures var q' := LeftmostStep(t, q);
            PosOk(cs, i, t, p) && (q' in t ==> PosOk(cs, i, t, q')) && Covered(cs, t, nb, rsize, q' in t, q', p)
  {
    var q' := LeftmostStep(t, q);
    assert PosOk(cs, i, t, p);
    if q' in t {
      assert PosOk(cs, i, t, q');
    }
    if q <= p && q != p {
      StepBelow(q, p);
      assert p[..|q| + 1] in t by { assert Closed(t, p); }
      if p[|q|] {
        if q' == q + [false] {
          assert q'[..|q|] == q == p[..|q|];
          ForkOrder(cs, i, t, q', p, |q|);
        } else {
          assert q' <= p;
        }
      } else {
        assert p[..|q| + 1] == q + [false];
        assert q' <= p;
      }
    }
  }

  lemma {:induction false} LeftmostAllCovers(cs: Chunks, i: int, t: Trie, nb: int, rsize: int, q: Path)
    requires AllCovered(cs, i, t, nb, rsize, true, q)
    requires PosOk(cs, i, t, q) && nb + rsize <= SizeAt(cs, t, q)
    ensures var q' := LeftmostStep(t, q); AllCovered(cs, i, t, nb, rsize, q' in t, q')
  {
    var q' := LeftmostStep(t, q);
    forall p | p in t
      ensures PosOk(cs, i, t, p) && (q' in t ==> PosOk(cs, i, t, q')) && Covered(cs, t, nb, rsize, q' in t, q', p)
    {
      LeftmostCovers(cs, i, t, nb, rsize, q, p);
    }
  }

  /** A better fit keeps everything covered. */
  lemma {:induction false} CoveredBetter(cs: Chunks, i: int, t: Trie, nb: int, rsize: int, better: int, going: bool,
                                         q: Path)
    requires AllCovered(cs, i, t, nb, rsize, going, q) && better <= rsize
    ensures AllCovered(cs, i, t, nb, better, going, q)
  {
    forall p | p in t
      ensures PosOk(cs, i, t, p) && (going ==> PosOk(cs, i, t, q)) && Covered(cs, t, nb, better, going, q, p)
    {
      assert PosOk(cs, i, t, p);
    }
  }

  lemma {:induction false} AllFitBelow(cs: Chunks, i: int, t: Trie, nb: int, q: Path, b: bool)
    requires AllFit(cs, i, t, nb, q)
    ensures AllFit(cs, i, t, nb, q + [b])
  {
    forall p | p in t && q + [b] <= p
      ensures PosOk(cs, i, t, p) && nb <= SizeAt(cs, t, p)
    {
      assert q <= p by { assert p[..|q|] == (q + [b])[..|q|] == q; }
    }
  }

  // ----- The walk along the path of the requested size -----

  /** Depth d is the deepest fork at which the path q left a right subtree behind (-1: none). */
  ghost predicate DeepestFork(t: Trie, q: Path, d: int) {
    && -1 <= d < |q|
    && (d >= 0 ==> !q[d] && q[..d] + [true] in t)
    && (forall m :: d < m < |q| && !q[m] ==> q[..m] + [true] !in t)
  }

  /** Chunks on the path q above its end are no better than the best fit so far. */
  ghost predicate Visited(cs: Chunks, i: int, t: Trie, nb: int, rsize: int, q: Path) {
    forall r {:trigger PosOk(cs, i, t, r)} :: r in t && r < q ==>
      PosOk(cs, i, t, r) && (SizeAt(cs, t, r) < nb || nb + rsize <= SizeAt(cs, t, r))
  }

  /** Where path p first leaves the path of size nb. */
  lemma {:induction false} Departure(i: int, nb: int, p: Path) returns (m: int)
    requires 0 <= i < TreeIndex.NTREEBINS && 0 <= nb
    ensures 0 <= m <= |p| && Spells(i, nb, p[..m])
    ensures m < |p| ==> p[m] != TreeIndex.Bit(i, nb, m)
  {
    m := 0;
    while m < |p| && p[m] == TreeIndex.Bit(i, nb, m)
      invariant 0 <= m <= |p| && Spells(i, nb, p[..m])
    {
      m := m + 1;
    }
  }

  /** The request nb would be placed to the left of everything behind a fork. */
  lemma {:induction false} RightOfRequest(cs: Chunks, i: int, t: Trie, nb: int, p: Path, m: int)
    requires TreeIndex.MIN_LARGE_SIZE <= nb < TreeIndex.SPAN && TreeIndex.Index(nb) == i
    requires TrieOk(cs, i, t) && p in t && 0 <= m < |p| && Spells(i, nb, p[..m])
    requires p[m] != TreeIndex.Bit(i, nb, m)
    ensures PosOk(cs, i, t, p)
    ensures if p[m] then nb < SizeAt(cs, t, p) else SizeAt(cs, t, p) < nb
  {
    assert PosOk(cs, i, t, p);
    var s := SizeAt(cs, t, p);
    forall j: nat | j < m
      ensures TreeIndex.Bit(i, s, j) == TreeIndex.Bit(i, nb, j)
    {
      assert p[..m][j] == p[j];
    }
    if p[m] {
      TreeIndex.BitOrder(i, nb, s, m);
    } else {
      TreeIndex.BitOrder(i, s, nb, m);
    }
  }

  /**
   * The walk for nb has run off the trie at q: whatever fits better than the best fit so
   * far is behind the deepest fork, or larger than the chunk there.
   */
  lemma {:induction false} OffPathCovers(cs: Chunks, i: int, t: Trie, nb: int, rsize: int, q: Path, d: int, p: Path)
    requires TreeIndex.MIN_LARGE_SIZE <= nb < TreeIndex.SPAN && TreeIndex.Index(nb) == i
    requires TrieOk(cs, i, t) && p in t && q !in t && Spells(i, nb, q) && DeepestFork(t, q, d)
    requires Visited(cs, i, t, nb, rsize, q)
    ensures PosOk(cs, i, t, p)
    ensures var rp := if d >= 0 then q[..d] + [true] else [];
            (d >= 0 ==> PosOk(cs, i, t, rp)) && Covered(cs, t, nb, rsize, d >= 0, rp, p)
  {
    assert PosOk(cs, i, t, p);
    if d >= 0 {
      assert PosOk(cs, i, t, q[..d] + [true]);
    }
    var m := Departure(i, nb, p);
    if m == |p| {
      assert p[..m] == p;
      OnPath(i, nb, t, q, p);
      assert p < q;
    } else {
      RightOfRequest(cs, i, t, nb, p, m);
      if p[m] {
        ForkCovers(cs, i, t, nb, q, d, p, m);
      }
    }
  }

  /** A position on the path of nb is above the point where the walk ran off. */
  lemma {:induction false} OnPath(i: int, nb: int, t: Trie, q: Path, p: Path)
    requires 0 <= i < TreeIndex.NTREEBINS && 0 <= nb && Spells(i, nb, q) && Spells(i, nb, p)
    requires q !in t && Closed(t, p)
    ensures p < q
  {
    if |q| <= |p| {
      SamePath(i, nb, q, p);
    } else {
      SamePath(i, nb, p, q);
    }
  }

  lemma {:induction false} ForkCovers(cs: Chunks, i: int, t: Trie, nb: int, q: Path, d: int, p: Path, m: int)
    requires 0 <= nb && TrieOk(cs, i, t) && p in t && q !in t && Spells(i, nb, q) && DeepestFork(t, q, d)
    requires 0 <= m < |p| && Spells(i, nb, p[..m]) && p[m] && !TreeIndex.Bit(i, nb, m)
    ensures d >= 0 && PosOk(cs, i, t, p) && PosOk(cs, i, t, q[..d] + [true])
    ensures q[..d] + [true] <= p || SizeAt(cs, t, q[..d] + [true]) < SizeAt(cs, t, p)
  {
    assert PosOk(cs, i, t, p);
    assert p[..m] in t && p[..m + 1] in t;
    assert Closed(t, p[..m]) by { assert PosOk(cs, i, t, p[..m]); }
    OnPath(i, nb, t, q, p[..m]);
    assert q[..m] == p[..m] && !q[m];
    assert p[..m + 1] == q[..m] + [true];
    var rp := q[..d] + [true];
    assert PosOk(cs, i, t, rp);
    if m == d {
      assert rp <= p;
    } else {
      assert rp[..m] == q[..m] && rp[m] == q[m];
      ForkOrder(cs, i, t, rp, p, m);
    }
  }

  lemma {:induction false} OffPathAllCovers(cs: Chunks, i: int, t: Trie, nb: int, rsize: int, q: Path, d: int)
    requires TreeIndex.MIN_LARGE_SIZE <= nb < TreeIndex.SPAN && TreeIndex.Index(nb) == i
    requires TrieOk(cs, i, t) && q !in t && Spells(i, nb, q) && DeepestFork(t, q, d)
    requires Visited(cs, i, t, nb, rsize, q)
    ensures var rp := ForkAt(q, d);
            AllCovered(cs, i, t, nb, rsize, d >= 0, rp) && (d >= 0 ==> AllFit(cs, i, t, nb, rp))
  {
    var rp := ForkAt(q, d);
    forall p | p in t
      ensures PosOk(cs, i, t, p) && (d >= 0 ==> PosOk(cs, i, t, rp)) && Covered(cs, t, nb, rsize, d >= 0, rp, p)
    {
      OffPathCovers(cs, i, t, nb, rsize, q, d, p);
    }
    if d >= 0 {
      forall p | p in t && rp <= p
        ensures PosOk(cs, i, t, p) && nb <= SizeAt(cs, t, p)
      {
        assert p[..d] == rp[..d] == q[..d] && p[d] == rp[d];
        RightOfRequest(cs, i, t, nb, p, d);
      }
    }
  }

  /** One step along the path: the fork left behind, if any, is now the deepest. */
  lemma {:induction false} ForkStep(t: Trie, q: Path, b: bool, d: int)
    requires DeepestFork(t, q, d)
    ensures var d' := if !b && q + [true] in t then |q| else d;
            DeepestFork(t, q + [b], d')
    ensures d >= 0 ==> (q + [b])[..d] == q[..d]
    ensures (q + [b])[..|q|] == q
  {
    var q' := q + [b];
    var d' := if !b && q + [true] in t then |q| else d;
    assert q'[..|q|] == q;
    if d >= 0 {
      PrefixOfStep(q, b, d);
    }
    forall m | d' < m < |q'| && !q'[m]
      ensures q'[..m] + [true] !in t
    {
      if m < |q| {
        PrefixOfStep(q, b, m);
      }
    }
  }

  lemma {:induction false} VisitedStep(cs: Chunks, i: int, t: Trie, nb: int, rsize: int, better: int, q: Path, b: bool)
    requires TrieOk(cs, i, t) && q in t && Visited(cs, i, t, nb, rsize, q) && better <= rsize
    requires PosOk(cs, i, t, q) && (SizeAt(cs, t, q) < nb || nb + better <= SizeAt(cs, t, q))
    ensures Visited(cs, i, t, nb, better, q + [b])
  {
    forall r | r in t && r < q + [b]
      ensures PosOk(cs, i, t, r) && (SizeAt(cs, t, r) < nb || nb + better <= SizeAt(cs, t, r))
    {
      assert PosOk(cs, i, t, r);
      BelowStep(q, b, r);
    }
  }

  /** An exact fit covers everything. */
  lemma {:induction false} ExactCovers(cs: Chunks, i: int, t: Trie, nb: int, going: bool, q: Path)
    requires TrieOk(cs, i, t) && (going ==> q in t)
    ensures AllCovered(cs, i, t, nb, 0, going, q)
  {
    forall p | p in t
      ensures PosOk(cs, i, t, p) && (going ==> PosOk(cs, i, t, q)) && Covered(cs, t, nb, 0, going, q, p)
    {
      assert PosOk(cs, i, t, p);
      if going {
        assert PosOk(cs, i, t, q);
      }
    }
  }

  /** A request beyond every bin's sizes: nothing fits, so nothing is left to be found. */
  lemma {:induction false} HugeCovers(cs: Chunks, i: int, t: Trie, nb: int, rsize: int, going: bool, q: Path)
    requires TrieOk(cs, i, t) && (going ==> q in t) && TreeIndex.SPAN <= nb
    ensures AllCovered(cs, i, t, nb, rsize, going, q)
  {
    forall p | p in t
      ensures PosOk(cs, i, t, p) && (going ==> PosOk(cs, i, t, q)) && Covered(cs, t, nb, rsize, going, q, p)
    {
      assert PosOk(cs, i, t, p);
      if going {
        assert PosOk(cs, i, t, q);
      }
    }
  }

  /** At the root everything is still to be looked at. */
  lemma {:induction false} RootCovers(cs: Chunks, i: int, t: Trie, nb: int, rsize: int)
    requires TrieOk(cs, i, t) && [] in t
    ensures AllCovered(cs, i, t, nb, rsize, true, [])
  {
    forall p | p in t
      ensures PosOk(cs, i, t, p) && PosOk(cs, i, t, []) && Covered(cs, t, nb, rsize, true, [], p)
    {
      assert PosOk(cs, i, t, p) && PosOk(cs, i, t, []);
    }
  }

  /** The fork the walk remembers, as a position. */
  ghost function ForkAt(q: Path, d: int): Path
    requires d < |q|
  {
    if d >= 0 then q[..d] + [true] else []
  }

  /** One step of the walk along the path of nb, looking at q on the way. */
  lemma {:induction false} WalkStep(cs: Chunks, i: int, t: Trie, nb: int, rsize: int, better: int, q: Path, d: int,
                                    b: bool)
    requires TrieOk(cs, i, t) && q in t && Visited(cs, i, t, nb, rsize, q) && better <= rsize
    requires PosOk(cs, i, t, q) && (SizeAt(cs, t, q) < nb || nb + better <= SizeAt(cs, t, q))
    requires DeepestFork(t, q, d)
    ensures Visited(cs, i, t, nb, better, q + [b])
    ensures var d' := if !b && q + [true] in t then |q| else d;
            && DeepestFork(t, q + [b], d')
            && ForkAt(q + [b], d') == if !b && q + [true] in t then q + [true] else ForkAt(q, d)
  {
    VisitedStep(cs, i, t, nb, rsize, better, q, b);
    ForkStep(t, q, b, d);
  }

  /** Nothing in the trie fits better than nb + rsize. */
  ghost predicate Beaten(cs: Chunks, i: int, t: Trie, nb: int, rsize: int) {
    && TrieOk(cs, i, t)
    && forall p {:trigger PosOk(cs, i, t, p)} :: p in t ==>
         PosOk(cs, i, t, p) && (SizeAt(cs, t, p) < nb || nb + rsize <= SizeAt(cs, t, p))
  }

  lemma {:induction false} CoveredBeaten(cs: Chunks, i: int, t: Trie, nb: int, rsize: int, q: Path)
    requires AllCovered(cs, i, t, nb, rsize, false, q)
    ensures Beaten(cs, i, t, nb, rsize)
  {
    forall p | p in t
      ensures PosOk(cs, i, t, p) && (SizeAt(cs, t, p) < nb || nb + rsize <= SizeAt(cs, t, p))
    {
      assert PosOk(cs, i, t, p);
    }
  }

  /** Sizes of a higher bin are larger. */
  lemma {:induction false} BinOrder(s: int, z: int)
    requires TreeIndex.MIN_LARGE_SIZE <= s < TreeIndex.SPAN && TreeIndex.MIN_LARGE_SIZE <= z < TreeIndex.SPAN
    requires TreeIndex.Index(s) < TreeIndex.Index(z)
    ensures s < z
  {
    if z <= s {
      TreeIndex.IndexMono(z, s);
    }
  }
}
