/** All the bins of the allocator and what it means that they are in order. */
module Bins {
  import opened Layout
  import opened Rings
  import opened Tries
  import opened TreeLinks
  import TreeIndex
  import opened Words

  const SMALLBINS: int := 16
  const NBINS: int := 32
  const MIN_LARGE_SIZE: int := 256

  /** smallbin_at: the list header, placed so that its fd and bk are two array entries. */
  function SmallBin(i: int): int {
    SMALLBINS + 16 * i
  }

  function SmallIndex(s: int): int {
    s / 8
  }

  /** The free chunks of one small size, listed from fd to bk. */
  ghost predicate SmallOk(mem: Memory, cs: Chunks, i: int, l: seq<int>) {
    && (forall k :: 0 <= k < |l| ==> l[k] in cs && cs[l[k]] == Chunk(8 * i, Binned))
    && (forall k, m :: 0 <= k < m < |l| ==> l[k] != l[m])
    && (l != [] ==> Ring(mem, [SmallBin(i)] + l))
  }

  ghost predicate TreeOk(mem: Memory, cs: Chunks, i: int, t: Trie) {
    TrieOk(cs, i, t) && TreeLinks.Linked(mem, i, t) && RingsOk(mem, t)
  }

  ghost predicate MemberAt(t: Trie, q: Path, k: int, a: int) {
    q in t && 0 <= k < |t[q]| && t[q][k] == a
  }

  ghost predicate Member(t: Trie, a: int) {
    exists q, k :: MemberAt(t, q, k, a)
  }

  /** The bin that a binned chunk must be in holds it. */
  ghost predicate Listed(cs: Chunks, sb: seq<seq<int>>, tb: seq<Trie>, a: int)
    requires a in cs && |sb| == NBINS && |tb| == NBINS
  {
    var s := cs[a].size;
    cs[a].kind == Binned ==>
      if s < MIN_LARGE_SIZE then 0 <= SmallIndex(s) < NBINS && a in sb[SmallIndex(s)]
      else 0 <= TreeIndex.Index(s) < NBINS && Member(tb[TreeIndex.Index(s)], a)
  }

  /** Every bin is in order and marked as what it is, and every binned chunk is in its bin. */
  ghost predicate InOrder(mem: Memory, cs: Chunks, sb: seq<seq<int>>, tb: seq<Trie>, smallmap: Word, treemap: Word) {
    && |sb| == NBINS && |tb| == NBINS && |smallmap| == NBINS && |treemap| == NBINS && STATIC_END <= |mem|
    && (forall i {:trigger SmallOk(mem, cs, i, sb[i])} :: 0 <= i < NBINS ==> SmallOk(mem, cs, i, sb[i]))
    && (forall i {:trigger TreeOk(mem, cs, i, tb[i])} :: 0 <= i < NBINS ==> TreeOk(mem, cs, i, tb[i]))
    && (forall i :: 0 <= i < NBINS ==> smallmap[i] == (sb[i] != []))
    && (forall i :: 0 <= i < NBINS ==> treemap[i] == ([] in tb[i]))
    && (forall a {:trigger Listed(cs, sb, tb, a)} :: a in cs ==> Listed(cs, sb, tb, a))
  }

  ghost predicate Looked(mem: Memory, cs: Chunks, sb: seq<seq<int>>, tb: seq<Trie>, smallmap: Word, treemap: Word) {
    true
  }

  /** InOrder, spelled so that a proof sees what it means only where it mentions Looked. */
  ghost predicate BinsOk(mem: Memory, cs: Chunks, sb: seq<seq<int>>, tb: seq<Trie>, smallmap: Word, treemap: Word) {
    && |sb| == NBINS && |tb| == NBINS && |smallmap| == NBINS && |treemap| == NBINS && STATIC_END <= |mem|
    && (forall m, c, s, t, x, y {:trigger Looked(m, c, s, t, x, y)} ::
          m == mem && c == cs && s == sb && t == tb && x == smallmap && y == treemap ==> InOrder(m, c, s, t, x, y))
  }

  /** Chunk a is the same, inside and as an entry, before and after. */
  ghost predicate Kept(mem: Memory, mem': Memory, cs: Chunks, cs': Chunks, a: int) {
    a in cs && a in cs' && cs'[a] == cs[a] && SameInside(mem, mem', a, cs[a])
  }

  lemma {:induction false} SmallFrame(mem: Memory, mem': Memory, cs: Chunks, cs': Chunks, i: int, l: seq<int>)
    requires 0 <= i < NBINS && SmallOk(mem, cs, i, l) && STATIC_END <= |mem| <= |mem'|
    requires forall k :: 0 <= k < |l| ==> Kept(mem, mem', cs, cs', l[k]) && MIN_CHUNK_SIZE <= cs[l[k]].size
    requires mem'[SmallBin(i) + FD] == mem[SmallBin(i) + FD] && mem'[SmallBin(i) + BK] == mem[SmallBin(i) + BK]
    ensures SmallOk(mem', cs', i, l)
  {
    if l != [] {
      var c := [SmallBin(i)] + l;
      forall k | 0 <= k < |c| && c[k] + BK < |mem| && 0 <= c[k]
        ensures mem'[c[k] + FD] == mem[c[k] + FD] && mem'[c[k] + BK] == mem[c[k] + BK]
      {
        if k > 0 {
          assert c[k] == l[k - 1];
          assert Kept(mem, mem', cs, cs', l[k - 1]);
        }
      }
      RingFrame(mem, mem', c);
    }
  }

  lemma {:induction false} TreeFrame(mem: Memory, mem': Memory, cs: Chunks, cs': Chunks, i: int, t: Trie)
    requires TreeOk(mem, cs, i, t) && STATIC_END <= |mem| <= |mem'|
    requires forall q, k :: q in t && 0 <= k < |t[q]| ==> Kept(mem, mem', cs, cs', t[q][k])
    requires mem'[BinCell(i)] == mem[BinCell(i)]
    ensures TreeOk(mem', cs', i, t)
  {
    forall q, k | q in t && 0 <= k < |t[q]|
      ensures SameNode(mem, mem', t[q][k])
    {
      assert Kept(mem, mem', cs, cs', t[q][k]);
      assert PosOk(cs, i, t, q);
      assert NodeOk(mem, i, t, q);
      assert MemberOk(mem, i, t[q][k], k > 0);
    }
    TrieFrame(cs, cs', i, t);
    LinkedFrame(mem, mem', i, t);
    forall q | q in t
      ensures Ring(mem', t[q])
    {
      RingFrame(mem, mem', t[q]);
    }
  }

  /** Every binned chunk that is not in the bin being changed stays the same. */
  ghost predicate RestKept(mem: Memory, mem': Memory, cs: Chunks, cs': Chunks, bin: set<int>) {
    forall a {:trigger Kept(mem, mem', cs, cs', a)} :: a in cs && cs[a].kind == Binned && a !in bin ==>
      Kept(mem, mem', cs, cs', a)
  }

  ghost predicate StaticKept(mem: Memory, mem': Memory, except: set<int>) {
    STATIC_END <= |mem| <= |mem'| && forall x :: 0 <= x < STATIC_END && x !in except ==> mem'[x] == mem[x]
  }

  /** Chunks that are binned afterwards were binned before or are in the changed bin. */
  ghost predicate NewlyBinned(cs: Chunks, cs': Chunks, before: set<int>, after: set<int>) {
    && (forall a :: a in cs' && cs'[a].kind == Binned && a !in after ==> a in cs && cs[a] == cs'[a] && a !in before)
  }

  ghost function Elements(l: seq<int>): set<int> {
    set a | a in l
  }

  ghost function Members(t: Trie): set<int> {
    set q, k | q in t && 0 <= k < |t[q]| :: t[q][k]
  }

  /** Replacing the contents of one small bin. */
  lemma {:induction false} ChangeSmall(mem: Memory, mem': Memory, cs: Chunks, cs': Chunks, sb: seq<seq<int>>,
                                       tb: seq<Trie>,
                    smallmap: Word, treemap: Word, i: int, l: seq<int>)
    requires BinsOk(mem, cs, sb, tb, smallmap, treemap) && 0 <= i < NBINS
    requires forall a :: a in cs ==> MIN_CHUNK_SIZE <= cs[a].size
    requires RestKept(mem, mem', cs, cs', Elements(sb[i])) && SmallOk(mem', cs', i, l)
    requires StaticKept(mem, mem', {SmallBin(i) + FD, SmallBin(i) + BK})
    requires NewlyBinned(cs, cs', Elements(sb[i]), Elements(l))
    ensures BinsOk(mem', cs', sb[i := l], tb, smallmap[i := l != []], treemap)
  {
    assert Looked(mem, cs, sb, tb, smallmap, treemap);
    assert SmallOk(mem, cs, i, sb[i]);
    var sb' := sb[i := l];
    forall j | 0 <= j < NBINS
      ensures SmallOk(mem', cs', j, sb'[j])
    {
      assert SmallOk(mem, cs, j, sb[j]);
      if j != i {
        forall k | 0 <= k < |sb[j]|
          ensures Kept(mem, mem', cs, cs', sb[j][k])
        {
        }
        SmallFrame(mem, mem', cs, cs', j, sb[j]);
      }
    }
    forall j | 0 <= j < NBINS
      ensures TreeOk(mem', cs', j, tb[j])
    {
      assert TreeOk(mem, cs, j, tb[j]);
      forall q, k | q in tb[j] && 0 <= k < |tb[j][q]|
        ensures Kept(mem, mem', cs, cs', tb[j][q][k])
      {
        assert PosOk(cs, j, tb[j], q);
      }
      TreeFrame(mem, mem', cs, cs', j, tb[j]);
    }
    forall a | a in cs'
      ensures Listed(cs', sb', tb, a)
    {
      if cs'[a].kind == Binned {
        if a in Elements(l) {
          assert cs'[a].size == 8 * i;
        } else {
          assert Listed(cs, sb, tb, a);
        }
      }
    }
    assert InOrder(mem', cs', sb', tb, smallmap[i := l != []], treemap);
  }

  /** Replacing the contents of one treebin. */
  lemma {:induction false} ChangeTree(mem: Memory, mem': Memory, cs: Chunks, cs': Chunks, sb: seq<seq<int>>,
                                      tb: seq<Trie>,
                   smallmap: Word, treemap: Word, i: int, t: Trie)
    requires BinsOk(mem, cs, sb, tb, smallmap, treemap) && 0 <= i < NBINS
    requires forall a :: a in cs ==> MIN_CHUNK_SIZE <= cs[a].size
    requires RestKept(mem, mem', cs, cs', Members(tb[i])) && TreeOk(mem', cs', i, t)
    requires StaticKept(mem, mem', {BinCell(i)})
    requires NewlyBinned(cs, cs', Members(tb[i]), Members(t))
    ensures BinsOk(mem', cs', sb, tb[i := t], smallmap, treemap[i := [] in t])
  {
    assert Looked(mem, cs, sb, tb, smallmap, treemap);
    assert TreeOk(mem, cs, i, tb[i]);
    var tb' := tb[i := t];
    forall j | 0 <= j < NBINS
      ensures SmallOk(mem', cs', j, sb[j])
    {
      assert SmallOk(mem, cs, j, sb[j]);
      forall k | 0 <= k < |sb[j]|
        ensures Kept(mem, mem', cs, cs', sb[j][k])
      {
        NotLarge(mem, cs, i, tb[i], sb[j][k]);
      }
      SmallFrame(mem, mem', cs, cs', j, sb[j]);
    }
    forall j | 0 <= j < NBINS
      ensures TreeOk(mem', cs', j, tb'[j])
    {
      assert TreeOk(mem, cs, j, tb[j]);
      if j != i {
        forall q, k | q in tb[j] && 0 <= k < |tb[j][q]|
          ensures Kept(mem, mem', cs, cs', tb[j][q][k])
        {
          assert PosOk(cs, j, tb[j], q);
          NotInBin(cs, i, tb[i], j, tb[j][q][k]);
        }
        TreeFrame(mem, mem', cs, cs', j, tb[j]);
      }
    }
    forall a | a in cs'
      ensures Listed(cs', sb, tb', a)
    {
      if cs'[a].kind == Binned {
        if a in Members(t) {
          var q, k :| q in t && 0 <= k < |t[q]| && t[q][k] == a;
          assert PosOk(cs', i, t, q);
          assert MemberAt(t, q, k, a);
        } else {
          assert Listed(cs, sb, tb, a);
          ListedElsewhere(tb, i, t, cs[a].size, a);
        }
      }
    }
    assert InOrder(mem', cs', sb, tb', smallmap, treemap[i := [] in t]);
  }

  lemma {:induction false} NotLarge(mem: Memory, cs: Chunks, i: int, t: Trie, a: int)
    requires TreeOk(mem, cs, i, t) && a in cs && cs[a].size < MIN_LARGE_SIZE
    ensures a !in Members(t)
  {
    forall q, k | q in t && 0 <= k < |t[q]|
      ensures t[q][k] != a
    {
      assert PosOk(cs, i, t, q);
    }
  }

  lemma {:induction false} NotInBin(cs: Chunks, i: int, t: Trie, j: int, a: int)
    requires TrieOk(cs, i, t) && InBin(cs, j, a) && i != j
    ensures a !in Members(t)
  {
    forall q, k | q in t && 0 <= k < |t[q]|
      ensures t[q][k] != a
    {
      assert PosOk(cs, i, t, q);
    }
  }

  lemma {:induction false} ListedElsewhere(tb: seq<Trie>, i: int, t: Trie, s: int, a: int)
    requires |tb| == NBINS && 0 <= i < NBINS && 0 <= s && a !in Members(tb[i])
    requires s >= MIN_LARGE_SIZE ==> 0 <= TreeIndex.Index(s) < NBINS && Member(tb[TreeIndex.Index(s)], a)
    ensures s >= MIN_LARGE_SIZE ==> Member(tb[i := t][TreeIndex.Index(s)], a)
  {
  }

  // ----- Small bins -----

  /** The chunk after the header of bin i, or the header itself when the bin is empty. */
  ghost function FirstOf(i: int, l: seq<int>): int {
    if l == [] then SmallBin(i) else l[0]
  }

  /** insert_small_chunk */
  ghost function InsertSmallMem(mem: Memory, i: int, f: int, p: int): Memory
    requires 0 <= i < NBINS && STATIC_END <= |mem| && 0 <= f && f + BK < |mem| && 0 <= p && p + BK < |mem|
  {
    mem[SmallBin(i) + FD := Val(p)][f + BK := Val(p)][p + FD := Val(f)][p + BK := Val(SmallBin(i))]
  }

  /** Chunks are at or above the static area and below the end of memory. */
  ghost predicate Placed(mem: Memory, cs: Chunks, lo: int, hi: int) {
    Layout.Tiled(cs, lo, hi) && STATIC_END <= lo && hi <= |mem|
  }

  lemma {:induction false} SmallSpaced(mem: Memory, cs: Chunks, lo: int, hi: int, i: int, l: seq<int>)
    requires Placed(mem, cs, lo, hi) && 0 <= i < NBINS && SmallOk(mem, cs, i, l)
    ensures Spaced([SmallBin(i)] + l)
  {
    var c := [SmallBin(i)] + l;
    forall k, m | 0 <= k < |c| && 0 <= m < |c|
      ensures Gap(c, k, m)
    {
      if k > 0 && m > 0 && k != m {
        assert c[k] == l[k - 1] && c[m] == l[m - 1];
        Placement(cs, lo, hi, l[k - 1], l[m - 1]);
      }
    }
  }

  /** Linking p in front of bin i makes it a list of one more chunk. */
  lemma {:induction false} InsertSmallRing(mem: Memory, cs: Chunks, lo: int, hi: int, i: int, l: seq<int>, p: int)
    requires Placed(mem, cs, lo, hi) && 0 <= i < NBINS && SmallOk(mem, cs, i, l)
    requires p in cs && cs[p].kind != Binned
    ensures 0 <= FirstOf(i, l) && FirstOf(i, l) + BK < |mem| && 0 <= p && p + BK < |mem|
    ensures l != [] ==> mem[SmallBin(i) + FD] == Val(l[0])
    ensures Ring(InsertSmallMem(mem, i, FirstOf(i, l), p), [SmallBin(i), p] + l)
  {
    if l == [] {
      var c := [SmallBin(i), p] + l;
      var mem' := InsertSmallMem(mem, i, SmallBin(i), p);
      forall k | 0 <= k < |c|
        ensures LinkOk(mem', c, k)
      {
      }
    } else {
      var c := [SmallBin(i)] + l;
      SmallSpaced(mem, cs, lo, hi, i, l);
      forall k | 0 <= k < |c|
        ensures c[k] + 16 <= p || p + 16 <= c[k]
      {
        if k > 0 {
          assert c[k] == l[k - 1];
          Placement(cs, lo, hi, l[k - 1], p);
          Placement(cs, lo, hi, p, l[k - 1]);
        }
      }
      InsertRing(mem, c, p);
      assert Next(c, 0) == l[0];
      assert InsertSecond(c, p) == [SmallBin(i), p] + l;
      assert LinkOk(mem, c, 0);
    }
  }

  lemma {:induction false} InsertSmallKeeps(mem: Memory, cs: Chunks, lo: int, hi: int, i: int, l: seq<int>, p: int,
                                            a: int)
    requires Placed(mem, cs, lo, hi) && 0 <= i < NBINS && SmallOk(mem, cs, i, l)
    requires p in cs && cs[p].kind != Binned && a in cs && a != p && a !in l
    requires 0 <= FirstOf(i, l) && FirstOf(i, l) + BK < |mem| && 0 <= p && p + BK < |mem|
    ensures Kept(mem, InsertSmallMem(mem, i, FirstOf(i, l), p), cs, cs[p := Chunk(cs[p].size, Binned)], a)
  {
    Placement(cs, lo, hi, a, p);
    Placement(cs, lo, hi, p, a);
    if l != [] {
      Placement(cs, lo, hi, a, l[0]);
      Placement(cs, lo, hi, l[0], a);
    }
  }

  lemma {:induction false} InsertSmallInterior(mem: Memory, cs: Chunks, lo: int, hi: int, i: int, l: seq<int>, p: int)
    requires Placed(mem, cs, lo, hi) && 0 <= i < NBINS && SmallOk(mem, cs, i, l)
    requires p in cs && cs[p].kind != Binned && cs[p].kind != Used
    requires 0 <= FirstOf(i, l) && FirstOf(i, l) + BK < |mem| && 0 <= p && p + BK < |mem|
    ensures InteriorOnly(mem, InsertSmallMem(mem, i, FirstOf(i, l), p), cs)
  {
    Placement(cs, lo, hi, p, hi);
    if l != [] {
      Placement(cs, lo, hi, l[0], hi);
    }
    var mem' := InsertSmallMem(mem, i, FirstOf(i, l), p);
    forall x | STATIC_END <= x < |mem|
      ensures InteriorAt(mem, mem', cs, x)
    {
      if x == p + FD || x == p + BK {
        assert p in cs && cs[p].kind != Used && p + 16 <= x < p + cs[p].size;
      } else if l != [] && x == l[0] + BK {
        assert l[0] in cs && cs[l[0]].kind != Used && l[0] + 16 <= x < l[0] + cs[l[0]].size;
      }
    }
  }

  /** insert_small_chunk puts p in front of its bin and disturbs nothing else. */
  lemma {:induction false} InsertSmallBins(mem: Memory, cs: Chunks, lo: int, hi: int, sb: seq<seq<int>>, tb: seq<Trie>,
                        smallmap: Word, treemap: Word, p: int, i: int)
    requires Placed(mem, cs, lo, hi) && BinsOk(mem, cs, sb, tb, smallmap, treemap)
    requires p in cs && cs[p].kind != Binned && 0 <= i < NBINS && cs[p].size == 8 * i
    requires 0 <= FirstOf(i, sb[i]) && FirstOf(i, sb[i]) + BK < |mem| && 0 <= p && p + BK < |mem|
    ensures BinsOk(InsertSmallMem(mem, i, FirstOf(i, sb[i]), p), cs[p := Chunk(cs[p].size, Binned)],
                   sb[i := [p] + sb[i]], tb, smallmap[i := true], treemap)
  {
    assert Looked(mem, cs, sb, tb, smallmap, treemap);
    var l := sb[i];
    assert SmallOk(mem, cs, i, l);
    var mem', cs' := InsertSmallMem(mem, i, FirstOf(i, l), p), cs[p := Chunk(cs[p].size, Binned)];
    InsertSmallRing(mem, cs, lo, hi, i, l, p);
    assert [SmallBin(i), p] + l == [SmallBin(i)] + ([p] + l);
    forall a | a in cs && cs[a].kind == Binned && a !in Elements(l)
      ensures Kept(mem, mem', cs, cs', a)
    {
      InsertSmallKeeps(mem, cs, lo, hi, i, l, p, a);
    }
    assert p in [p] + l;
    ChangeSmall(mem, mem', cs, cs', sb, tb, smallmap, treemap, i, [p] + l);
  }

  /** Everything that inserting p into its small bin brings about. */
  lemma {:induction false} InsertSmallStep(mem: Memory, cs: Chunks, lo: int, hi: int, sb: seq<seq<int>>, tb: seq<Trie>,
                        smallmap: Word, treemap: Word, p: int, i: int)
    requires Placed(mem, cs, lo, hi) && BinsOk(mem, cs, sb, tb, smallmap, treemap)
    requires p in cs && cs[p].kind != Binned && cs[p].kind != Used && 0 <= i < NBINS && cs[p].size == 8 * i
    ensures var f, cs' := FirstOf(i, sb[i]), cs[p := Chunk(cs[p].size, Binned)];
            && 0 <= f && f + BK < |mem| && 0 <= p && p + BK < |mem|
            && smallmap[i] == (sb[i] != []) && (sb[i] != [] ==> mem[SmallBin(i) + FD] == Val(f))
            && var mem' := InsertSmallMem(mem, i, f, p);
            && Placed(mem', cs', lo, hi) && InteriorOnly(mem, mem', cs)
            && BinsOk(mem', cs', sb[i := [p] + sb[i]], tb, smallmap[i := true], treemap)
  {
    assert Looked(mem, cs, sb, tb, smallmap, treemap);
    assert SmallOk(mem, cs, i, sb[i]);
    InsertSmallRing(mem, cs, lo, hi, i, sb[i], p);
    InsertSmallInterior(mem, cs, lo, hi, i, sb[i], p);
    InsertSmallBins(mem, cs, lo, hi, sb, tb, smallmap, treemap, p, i);
    KindTiled(cs, lo, hi, p, Binned);
  }

  /** unlink_small_chunk: the list header's links are left stale when the bin empties. */
  ghost function UnlinkSmallMem(mem: Memory, f: int, b: int): Memory
    requires 0 <= b && b + BK < |mem| && 0 <= f && f + BK < |mem|
  {
    if b == f then mem else mem[f + BK := Val(b)][b + FD := Val(f)]
  }

  /** Neighbours of element k of a small bin's list. */
  ghost function After(i: int, l: seq<int>, k: int): int
    requires 0 <= k < |l|
  {
    if k + 1 < |l| then l[k + 1] else SmallBin(i)
  }

  ghost function Before(i: int, l: seq<int>, k: int): int
    requires 0 <= k < |l|
  {
    if k > 0 then l[k - 1] else SmallBin(i)
  }

  lemma {:induction false} SmallLinks(mem: Memory, cs: Chunks, lo: int, hi: int, i: int, l: seq<int>, k: int)
    requires Placed(mem, cs, lo, hi) && 0 <= i < NBINS && SmallOk(mem, cs, i, l) && 0 <= k < |l|
    ensures var f, b := After(i, l, k), Before(i, l, k);
            && 0 <= b && b + BK < |mem| && 0 <= f && f + BK < |mem|
            && l[k] + BK < |mem| && mem[l[k] + FD] == Val(f) && mem[l[k] + BK] == Val(b)
            && mem[f + BK] == Val(l[k]) && mem[b + FD] == Val(l[k])
            && (b == f <==> |l| == 1)
            && l[k] != b && l[k] != f
  {
    var c := [SmallBin(i)] + l;
    assert c[k + 1] == l[k];
    assert LinkOk(mem, c, k) && LinkOk(mem, c, k + 1);
    SmallSpaced(mem, cs, lo, hi, i, l);
    assert Gap(c, k + 1, k) && Gap(c, k + 1, if k + 2 < |c| then k + 2 else 0);
    Placement(cs, lo, hi, l[k], hi);
    if k + 1 < |l| {
      Placement(cs, lo, hi, l[k + 1], hi);
      assert Gap(c, k, k + 2);
    } else {
      assert Gap(c, k, 0);
    }
    if k > 0 {
      Placement(cs, lo, hi, l[k - 1], hi);
    }
  }

  lemma {:induction false} UnlinkSmallRing(mem: Memory, cs: Chunks, lo: int, hi: int, i: int, l: seq<int>, k: int)
    requires Placed(mem, cs, lo, hi) && 0 <= i < NBINS && SmallOk(mem, cs, i, l) && 0 <= k < |l|
    requires var f, b := After(i, l, k), Before(i, l, k);
             0 <= b && b + BK < |mem| && 0 <= f && f + BK < |mem| && (b == f <==> |l| == 1)
    ensures |l| > 1 ==> Ring(UnlinkSmallMem(mem, After(i, l, k), Before(i, l, k)), [SmallBin(i)] + RemoveAt(l, k))
  {
    var c := [SmallBin(i)] + l;
    SmallSpaced(mem, cs, lo, hi, i, l);
    UnlinkRing(mem, c, k + 1);
    assert RemoveAt(c, k + 1) == [SmallBin(i)] + RemoveAt(l, k);
    assert c[k] == Before(i, l, k) && Next(c, k + 1) == After(i, l, k);
  }

  /** unlink_small_chunk takes element k out of bin i and disturbs nothing else. */
  lemma {:induction false} UnlinkSmallBins(mem: Memory, cs: Chunks, lo: int, hi: int, sb: seq<seq<int>>, tb: seq<Trie>,
                        smallmap: Word, treemap: Word, i: int, k: int)
    requires Placed(mem, cs, lo, hi) && BinsOk(mem, cs, sb, tb, smallmap, treemap)
    requires 0 <= i < NBINS && 0 <= k < |sb[i]|
    ensures var l, f, b := sb[i], After(i, sb[i], k), Before(i, sb[i], k);
            && l[k] in cs
            && 0 <= b && b + BK < |mem| && 0 <= f && f + BK < |mem|
            && BinsOk(UnlinkSmallMem(mem, f, b), cs[l[k] := Chunk(cs[l[k]].size, Limbo)],
                      sb[i := RemoveAt(l, k)], tb, smallmap[i := |l| != 1], treemap)
            && InteriorOnly(mem, UnlinkSmallMem(mem, f, b), cs)
  {
    assert Looked(mem, cs, sb, tb, smallmap, treemap);
    var l := sb[i];
    assert SmallOk(mem, cs, i, l);
    SmallLinks(mem, cs, lo, hi, i, l, k);
    var p, f, b, l' := l[k], After(i, l, k), Before(i, l, k), RemoveAt(l, k);
    var mem', cs' := UnlinkSmallMem(mem, f, b), cs[p := Chunk(cs[p].size, Limbo)];
    UnlinkSmallRing(mem, cs, lo, hi, i, l, k);
    assert SmallOk(mem', cs', i, l');
    UnlinkSmallKeeps(mem, cs, lo, hi, i, l, k);
    RemovedElements(l, k);
    ChangeSmall(mem, mem', cs, cs', sb, tb, smallmap, treemap, i, l');
    assert (l' != []) == (|l| != 1);
  }

  lemma {:induction false} RemovedElements(l: seq<int>, k: int)
    requires 0 <= k < |l| && forall m, n :: 0 <= m < n < |l| ==> l[m] != l[n]
    ensures Elements(l) == Elements(RemoveAt(l, k)) + {l[k]}
    ensures l[k] !in RemoveAt(l, k)
  {
    var l' := RemoveAt(l, k);
    forall a | a in l
      ensures a == l[k] || a in l'
    {
      var m :| 0 <= m < |l| && l[m] == a;
      if m < k {
        assert l'[m] == a;
      } else if m > k {
        assert l'[m - 1] == a;
      }
    }
  }

  lemma {:induction false} UnlinkSmallKeeps(mem: Memory, cs: Chunks, lo: int, hi: int, i: int, l: seq<int>, k: int)
    requires Placed(mem, cs, lo, hi) && 0 <= i < NBINS && SmallOk(mem, cs, i, l) && 0 <= k < |l|
    requires var f, b := After(i, l, k), Before(i, l, k);
             0 <= b && b + BK < |mem| && 0 <= f && f + BK < |mem|
    ensures var mem' := UnlinkSmallMem(mem, After(i, l, k), Before(i, l, k));
            && RestKept(mem, mem', cs, cs[l[k] := Chunk(cs[l[k]].size, Limbo)], Elements(l))
            && InteriorOnly(mem, mem', cs)
            && (STATIC_END <= |mem| ==> StaticKept(mem, mem', {SmallBin(i) + FD, SmallBin(i) + BK}))
  {
    var f, b := After(i, l, k), Before(i, l, k);
    var mem', cs' := UnlinkSmallMem(mem, f, b), cs[l[k] := Chunk(cs[l[k]].size, Limbo)];
    forall a | a in cs && cs[a].kind == Binned && a !in Elements(l)
      ensures Kept(mem, mem', cs, cs', a)
    {
      if k + 1 < |l| {
        Placement(cs, lo, hi, a, l[k + 1]);
        Placement(cs, lo, hi, l[k + 1], a);
      }
      if k > 0 {
        Placement(cs, lo, hi, a, l[k - 1]);
        Placement(cs, lo, hi, l[k - 1], a);
      }
    }
    if k + 1 < |l| {
      Placement(cs, lo, hi, l[k + 1], hi);
    }
    if k > 0 {
      Placement(cs, lo, hi, l[k - 1], hi);
    }
    forall x | STATIC_END <= x < |mem|
      ensures InteriorAt(mem, mem', cs, x)
    {
      if x == f + BK {
        assert f in cs && cs[f].kind != Used && f + 16 <= x < f + cs[f].size;
      } else if x == b + FD {
        assert b in cs && cs[b].kind != Used && b + 16 <= x < b + cs[b].size;
      }
    }
  }

  /** Everything that taking element k out of small bin i brings about. */
  lemma {:induction false} UnlinkSmallStep(mem: Memory, cs: Chunks, lo: int, hi: int, sb: seq<seq<int>>, tb: seq<Trie>,
                        smallmap: Word, treemap: Word, i: int, k: int)
    requires Placed(mem, cs, lo, hi) && BinsOk(mem, cs, sb, tb, smallmap, treemap)
    requires 0 <= i < NBINS && 0 <= k < |sb[i]|
    ensures var p, f, b := sb[i][k], After(i, sb[i], k), Before(i, sb[i], k);
            && 0 <= b && b + BK < |mem| && 0 <= f && f + BK < |mem|
            && smallmap[i] && p in cs && cs[p] == Chunk(8 * i, Binned) && 0 <= p && p + BK < |mem|
            && mem[p + FD] == Val(f) && mem[p + BK] == Val(b) && p != b && p != f
            && mem[f + BK] == Val(p) && mem[b + FD] == Val(p) && (b == f <==> |sb[i]| == 1)
            && (f == SmallBin(i) || lo <= f) && (b == SmallBin(i) || lo <= b)
            && var mem', cs' := UnlinkSmallMem(mem, f, b), cs[p := Chunk(8 * i, Limbo)];
            && Placed(mem', cs', lo, hi) && InteriorOnly(mem, mem', cs)
            && BinsOk(mem', cs', sb[i := RemoveAt(sb[i], k)], tb, smallmap[i := |sb[i]| != 1], treemap)
  {
    assert Looked(mem, cs, sb, tb, smallmap, treemap);
    assert SmallOk(mem, cs, i, sb[i]);
    SmallLinks(mem, cs, lo, hi, i, sb[i], k);
    UnlinkSmallBins(mem, cs, lo, hi, sb, tb, smallmap, treemap, i, k);
    KindTiled(cs, lo, hi, sb[i][k], Limbo);
  }

  /** Where a small binned chunk is listed. */
  lemma {:induction false} WhereSmall(mem: Memory, cs: Chunks, sb: seq<seq<int>>, tb: seq<Trie>, smallmap: Word,
                                      treemap: Word, p: int)
      returns (i: int, k: int)
    requires BinsOk(mem, cs, sb, tb, smallmap, treemap) && p in cs && cs[p].kind == Binned
             && cs[p].size < MIN_LARGE_SIZE
    ensures 0 <= i < NBINS && i == SmallIndex(cs[p].size) && 0 <= k < |sb[i]| && sb[i][k] == p && smallmap[i]
  {
    assert Looked(mem, cs, sb, tb, smallmap, treemap);
    assert Listed(cs, sb, tb, p);
    i := SmallIndex(cs[p].size);
    k :| 0 <= k < |sb[i]| && sb[i][k] == p;
  }

  lemma {:induction false} MarkedSmall(mem: Memory, cs: Chunks, sb: seq<seq<int>>, tb: seq<Trie>, smallmap: Word,
                                       treemap: Word, i: int)
    requires BinsOk(mem, cs, sb, tb, smallmap, treemap) && 0 <= i < NBINS && smallmap[i]
    ensures sb[i] != []
  {
    assert Looked(mem, cs, sb, tb, smallmap, treemap);
  }

  // ----- Changes that do not concern the bins -----

  /** The same chunks are binned, with the same insides: the bins are still in order. */
  lemma {:induction false} BinsFrame(mem: Memory, mem': Memory, cs: Chunks, cs': Chunks, lo: int, hi: int,
                  sb: seq<seq<int>>, tb: seq<Trie>, smallmap: Word, treemap: Word)
    requires BinsOk(mem, cs, sb, tb, smallmap, treemap) && StaticKept(mem, mem', {})
    requires forall a :: a in cs ==> MIN_CHUNK_SIZE <= cs[a].size
    requires RestKept(mem, mem', cs, cs', {})
    requires forall a :: a in cs' && cs'[a].kind == Binned ==> a in cs && cs[a] == cs'[a]
    ensures BinsOk(mem', cs', sb, tb, smallmap, treemap)
  {
    assert Looked(mem, cs, sb, tb, smallmap, treemap);
    var i := SmallIndex(MIN_CHUNK_SIZE);
    var l := sb[i];
    assert SmallOk(mem, cs, i, l);
    assert sb[i := l] == sb && smallmap[i := l != []] == smallmap;
    forall k | 0 <= k < |l|
      ensures Kept(mem, mem', cs, cs', l[k])
    {
    }
    SmallFrame(mem, mem', cs, cs', i, l);
    ChangeSmall(mem, mem', cs, cs', sb, tb, smallmap, treemap, i, l);
  }
}
