/** What single steps of the allocator do to the heap as a whole: layout, tags and bins. */
module HeapSteps {
  import opened Layout
  import opened Rings
  import opened Tries
  import opened Bins
  import opened Words

  /** A snapshot of the allocator's state. */
  datatype View = View(mem: Memory, lo: int, top: int, topsize: int, cs: Chunks,
                       sb: seq<seq<int>>, tb: seq<Trie>, smallmap: Word, treemap: Word)

  /** Layout, alignment, tags and bins are in order; some chunks may be in limbo. */
  ghost predicate Orderly(v: View) {
    && Placed(v.mem, v.cs, v.lo, v.top)
    && Tags(v.mem, v.cs, v.lo, v.top, v.topsize)
    && AllAligned(v.cs) && v.top % 16 == 0
    && BinsOk(v.mem, v.cs, v.sb, v.tb, v.smallmap, v.treemap)
  }

  ghost predicate Opened(v: View) {
    true
  }

  /** Orderly, spelled so that a proof sees what it means only where it mentions Opened. */
  ghost predicate HeapOk(v: View) {
    && |v.smallmap| == NBINS && |v.treemap| == NBINS
    && forall u {:trigger Opened(u)} :: u == v ==> Orderly(u)
  }

  /** Users keep their chunks and bytes from one snapshot to the next. */
  ghost predicate Serves(v: View, v': View) {
    |v.mem| <= |v'.mem| && UsersKept(v.mem, v'.mem, v.cs, v'.cs)
  }

  lemma {:induction false} ServesTrans(u: View, v: View, w: View)
    requires Serves(u, v) && Serves(v, w)
    ensures Serves(u, w)
  {
    UsersTrans(u.mem, v.mem, w.mem, u.cs, v.cs, w.cs);
  }

  lemma {:induction false} ServesSelf(v: View, cs: Chunks)
    requires forall a :: a in v.cs && v.cs[a].kind == Used ==> a in cs && cs[a] == v.cs[a]
    ensures Serves(v, v.(cs := cs))
  {
  }

  /** A change of tags around chunk p, or of the bottom of top, does not concern the bins. */
  lemma {:induction false} SpanBins(v: View, v': View, p: int, size: int)
    requires HeapOk(v) && SpanWrites(v.mem, v'.mem, p, size)
    requires (p in v.cs && size <= v.cs[p].size && v.cs[p].kind != Binned) || p == v.top
    requires v'.sb == v.sb && v'.tb == v.tb && v'.smallmap == v.smallmap && v'.treemap == v.treemap
    requires forall a :: a in v.cs && v.cs[a].kind == Binned ==> a in v'.cs && v'.cs[a] == v.cs[a]
    requires forall a :: a in v'.cs && v'.cs[a].kind == Binned ==> a in v.cs && v.cs[a] == v'.cs[a]
    ensures BinsOk(v'.mem, v'.cs, v'.sb, v'.tb, v'.smallmap, v'.treemap)
  {
    assert Opened(v);
    assert STATIC_END <= p by {
      if p in v.cs {
        Placement(v.cs, v.lo, v.top, p, v.top);
      }
    }
    forall a | a in v.cs && v.cs[a].kind == Binned
      ensures Kept(v.mem, v'.mem, v.cs, v'.cs, a)
    {
      SpanKeeps(v.mem, v'.mem, v.cs, v.lo, v.top, p, size, a);
    }
    BinsFrame(v.mem, v'.mem, v.cs, v'.cs, v.lo, v.top, v.sb, v.tb, v.smallmap, v.treemap);
  }

  lemma {:induction false} ChunkSize(v: View, p: int)
    requires HeapOk(v) && p in v.cs
    ensures MIN_CHUNK_SIZE <= v.cs[p].size && STATIC_END <= v.lo <= p && p + v.cs[p].size <= |v.mem|
    ensures p % 16 == 0 && v.cs[p].size % 16 == 0
  {
    assert Opened(v);
    assert Aligned(p, v.cs[p]);
    Placement(v.cs, v.lo, v.top, p, v.top);
  }

  lemma {:induction false} AlignedEntry(cs: Chunks, p: int, c: Chunk)
    requires AllAligned(cs) && Aligned(p, c)
    ensures AllAligned(cs[p := c])
  {
    var cs' := cs[p := c];
    forall a | a in cs'
      ensures Aligned(a, cs'[a])
    {
      if a != p {
        assert Aligned(a, cs[a]);
      }
    }
  }

  lemma {:induction false} AlignedSplit(cs: Chunks, p: int, nb: int, k1: Kind, k2: Kind)
    requires AllAligned(cs) && p in cs && nb % 16 == 0
    ensures AllAligned(cs[p := Chunk(nb, k1)][p + nb := Chunk(cs[p].size - nb, k2)])
  {
    assert Aligned(p, cs[p]);
    AlignedEntry(cs, p, Chunk(nb, k1));
    AlignedEntry(cs[p := Chunk(nb, k1)], p + nb, Chunk(cs[p].size - nb, k2));
  }

  lemma {:induction false} AlignedMinus(cs: Chunks, p: int)
    requires AllAligned(cs)
    ensures AllAligned(cs - {p})
  {
    forall a | a in cs - {p}
      ensures Aligned(a, (cs - {p})[a])
    {
      assert Aligned(a, cs[a]);
    }
  }

  /** A chunk that is not binned changes hands, when its tags allow it. */
  lemma {:induction false} KindStep(v: View, p: int, k: Kind)
    requires HeapOk(v) && p in v.cs && v.cs[p].kind != Binned && k != Binned
    requires Tags(v.mem, v.cs[p := Chunk(v.cs[p].size, k)], v.lo, v.top, v.topsize)
    ensures HeapOk(v.(cs := v.cs[p := Chunk(v.cs[p].size, k)]))
  {
    assert Opened(v);
    var cs' := v.cs[p := Chunk(v.cs[p].size, k)];
    KindTiled(v.cs, v.lo, v.top, p, k);
    assert Aligned(p, v.cs[p]);
    AlignedEntry(v.cs, p, Chunk(v.cs[p].size, k));
    SpanBins(v, v.(cs := cs'), p, 0);
    assert Orderly(v.(cs := cs'));
  }

  ghost function UseWholeMem(mem: Memory, p: int, s: int): Memory
    requires 0 <= p && 0 <= p + s && p + s + 8 < |mem| && p + 8 < |mem| && mem[p + s + 8].Head?
  {
    mem[p + 8 := Head(s, true, true)][p + s + 8 := mem[p + s + 8].(pinuse := true)]
  }

  /** set_inuse_and_pinuse on a whole chunk. */
  lemma {:induction false} UseWholeStep(v: View, p: int)
    requires HeapOk(v) && p in v.cs && v.cs[p].kind == Limbo && AfterUsed(v.cs, p)
    requires p + v.cs[p].size in v.cs && v.cs[p + v.cs[p].size].kind == Used
    ensures var s := v.cs[p].size;
            && 0 <= p && 0 < s && p + s + 8 < |v.mem| && v.mem[p + s + 8].Head?
            && var v' := v.(mem := UseWholeMem(v.mem, p, s), cs := v.cs[p := Chunk(s, Used)]);
               HeapOk(v') && Serves(v, v')
  {
    assert Opened(v);
    var s := v.cs[p].size;
    UseWhole(v.mem, v.cs, v.lo, v.top, v.topsize, p);
    Placement(v.cs, v.lo, v.top, p, v.top);
    var v' := v.(mem := UseWholeMem(v.mem, p, s), cs := v.cs[p := Chunk(s, Used)]);
    KindTiled(v.cs, v.lo, v.top, p, Used);
    assert Aligned(p, v.cs[p]);
    AlignedEntry(v.cs, p, Chunk(s, Used));
    SpanBins(v, v', p, s);
    SpanUsers(v.mem, v'.mem, v.cs, v'.cs, v.lo, v.top, p, s);
    assert Orderly(v');
  }

  ghost predicate IsFree(c: Chunk) {
    c.kind == Binned || c.kind == Victim
  }

  /** Free chunks look the same whether they are in a bin or are the victim. */
  lemma {:induction false} FreeTags(mem: Memory, cs: Chunks, lo: int, top: int, topsize: int, p: int, k: Kind)
    requires Tags(mem, cs, lo, top, topsize) && p in cs && IsFree(cs[p]) && IsFree(Chunk(cs[p].size, k))
    ensures Tags(mem, cs[p := Chunk(cs[p].size, k)], lo, top, topsize)
  {
    var cs' := cs[p := Chunk(cs[p].size, k)];
    forall a | a in cs'
      ensures TagOk(mem, cs', lo, top, a)
    {
      assert TagOk(mem, cs, lo, top, a);
    }
  }

  /** A free chunk, and the same chunk as the victim and in limbo. */
  lemma {:induction false} AnyFreeTags(mem: Memory, cs: Chunks, lo: int, top: int, topsize: int, p: int, s: int)
    requires Tags(mem, cs[p := Chunk(s, Binned)], lo, top, topsize)
    ensures Tags(mem, cs[p := Chunk(s, Victim)], lo, top, topsize)
    ensures Tags(mem, cs[p := Chunk(s, Limbo)], lo, top, topsize)
  {
    var cs' := cs[p := Chunk(s, Binned)];
    FreeTags(mem, cs', lo, top, topsize, p, Victim);
    LimboTags(mem, cs', lo, top, topsize, p);
    assert cs'[p := Chunk(s, Victim)] == cs[p := Chunk(s, Victim)];
    assert cs'[p := Chunk(s, Limbo)] == cs[p := Chunk(s, Limbo)];
  }

  ghost function UseSplitMem(mem: Memory, p: int, nb: int, s: int): Memory
    requires 0 <= p && 0 <= nb <= s && p + s + 8 < |mem|
  {
    mem[p + 8 := Head(nb, true, true)][p + nb + 8 := Head(s - nb, true, false)][p + s := Val(s - nb)]
  }

  /** Split p: the front in use, the rest free but not yet in a bin. */
  lemma {:induction false} UseSplitStep(v: View, p: int, nb: int)
    requires HeapOk(v) && p in v.cs && v.cs[p].kind == Limbo && AfterUsed(v.cs, p)
    requires p + v.cs[p].size in v.cs && v.cs[p + v.cs[p].size].kind == Used
    requires 0 <= p + v.cs[p].size + 8 < |v.mem|
    requires v.mem[p + v.cs[p].size + 8].Head? && !v.mem[p + v.cs[p].size + 8].pinuse
    requires MIN_CHUNK_SIZE <= nb && MIN_CHUNK_SIZE <= v.cs[p].size - nb && nb % 16 == 0
    ensures var s, r := v.cs[p].size, p + nb;
            && 0 <= p && p + s + 8 < |v.mem| && r !in v.cs
            && var v' := v.(mem := UseSplitMem(v.mem, p, nb, s),
                            cs := v.cs[p := Chunk(nb, Used)][r := Chunk(s - nb, Limbo)]);
               && HeapOk(v') && Serves(v, v')
               && Tags(v'.mem, v'.cs[r := Chunk(s - nb, Binned)], v.lo, v.top, v.topsize)
               && Tags(v'.mem, v'.cs[r := Chunk(s - nb, Victim)], v.lo, v.top, v.topsize)
  {
    assert Opened(v);
    var s, r := v.cs[p].size, p + nb;
    var cs' := v.cs[p := Chunk(nb, Used)][r := Chunk(s - nb, Limbo)];
    UseSplit(v.mem, v.cs, v.lo, v.top, v.topsize, p, nb, Binned);
    AnyFreeTags(UseSplitMem(v.mem, p, nb, s), v.cs[p := Chunk(nb, Used)], v.lo, v.top, v.topsize, r, s - nb);
    assert cs'[r := Chunk(s - nb, Binned)] == v.cs[p := Chunk(nb, Used)][r := Chunk(s - nb, Binned)];
    assert cs'[r := Chunk(s - nb, Victim)] == v.cs[p := Chunk(nb, Used)][r := Chunk(s - nb, Victim)];
    SplitTiled(v.cs, v.lo, v.top, p, nb, Used, Limbo);
    Placement(v.cs, v.lo, v.top, p, v.top);
    AlignedSplit(v.cs, p, nb, Used, Limbo);
    var v' := v.(mem := UseSplitMem(v.mem, p, nb, s), cs := cs');
    SpanBins(v, v', p, s);
    SpanUsers(v.mem, v'.mem, v.cs, v'.cs, v.lo, v.top, p, s);
    assert Orderly(v');
  }

  ghost function FreeWholeMem(mem: Memory, p: int, s: int): Memory
    requires 0 <= p && 0 < s && p + s + 8 < |mem| && mem[p + s + 8].Head?
  {
    mem[p + s + 8 := mem[p + s + 8].(pinuse := false)][p + 8 := Head(s, true, false)][p + s := Val(s)]
  }

  /** set_free_with_pinuse: p is free, and ready for a bin or for the victim's place. */
  lemma {:induction false} FreeWholeStep(v: View, p: int)
    requires HeapOk(v) && p in v.cs && v.cs[p].kind == Limbo && AfterUsed(v.cs, p)
    requires p + v.cs[p].size in v.cs && v.cs[p + v.cs[p].size].kind == Used
    ensures var s := v.cs[p].size;
            && 0 <= p && 0 < s && p + s + 8 < |v.mem| && v.mem[p + s + 8].Head?
            && var v' := v.(mem := FreeWholeMem(v.mem, p, s));
               && HeapOk(v') && Serves(v, v')
               && Tags(v'.mem, v.cs[p := Chunk(s, Binned)], v.lo, v.top, v.topsize)
               && Tags(v'.mem, v.cs[p := Chunk(s, Victim)], v.lo, v.top, v.topsize)
  {
    assert Opened(v);
    var s := v.cs[p].size;
    FreeWhole(v.mem, v.cs, v.lo, v.top, v.topsize, p, Binned);
    AnyFreeTags(FreeWholeMem(v.mem, p, s), v.cs, v.lo, v.top, v.topsize, p, s);
    assert v.cs[p := Chunk(s, Limbo)] == v.cs;
    Placement(v.cs, v.lo, v.top, p, v.top);
    var v' := v.(mem := FreeWholeMem(v.mem, p, s));
    SpanBins(v, v', p, s);
    SpanUsers(v.mem, v'.mem, v.cs, v'.cs, v.lo, v.top, p, s);
    assert Orderly(v');
  }

  /** Two neighbours in limbo become one. */
  lemma {:induction false} MergeStep(v: View, p: int)
    requires HeapOk(v) && p in v.cs && v.cs[p].kind == Limbo
    requires p + v.cs[p].size in v.cs && v.cs[p + v.cs[p].size].kind == Limbo
    ensures var n := p + v.cs[p].size;
            var v' := v.(cs := (v.cs - {n})[p := Chunk(v.cs[p].size + v.cs[n].size, Limbo)]);
            HeapOk(v') && Serves(v, v')
  {
    assert Opened(v);
    var n := p + v.cs[p].size;
    var cs' := (v.cs - {n})[p := Chunk(v.cs[p].size + v.cs[n].size, Limbo)];
    MergeTiled(v.cs, v.lo, v.top, p, Limbo);
    forall a | a in cs'
      ensures TagOk(v.mem, cs', v.lo, v.top, a)
    {
      assert TagOk(v.mem, v.cs, v.lo, v.top, a);
    }
    assert Aligned(p, v.cs[p]) && Aligned(n, v.cs[n]);
    AlignedMinus(v.cs, n);
    AlignedEntry(v.cs - {n}, p, Chunk(v.cs[p].size + v.cs[n].size, Limbo));
    SpanBins(v, v.(cs := cs'), p, 0);
    ServesSelf(v, cs');
    assert Orderly(v.(cs := cs'));
  }

  ghost function TopSplitMem(mem: Memory, top: int, topsize: int, nb: int): Memory
    requires 0 <= top && 0 <= nb && top + nb + 8 < |mem|
  {
    mem[top + nb + 8 := Head(topsize - nb, true, false)][top + 8 := Head(nb, true, true)]
  }

  /** A chunk in use carved from the bottom of top. */
  lemma {:induction false} TopSplitStep(v: View, nb: int)
    requires HeapOk(v) && AfterUsed(v.cs, v.top) && MIN_CHUNK_SIZE <= nb < v.topsize && nb % 16 == 0
    ensures v.top !in v.cs && 0 <= v.top && v.top + nb + 8 < |v.mem|
    ensures var v' := v.(mem := TopSplitMem(v.mem, v.top, v.topsize, nb), cs := v.cs[v.top := Chunk(nb, Used)],
                         top := v.top + nb, topsize := v.topsize - nb);
            HeapOk(v') && Serves(v, v')
  {
    assert Opened(v);
    var v' := v.(mem := TopSplitMem(v.mem, v.top, v.topsize, nb), cs := v.cs[v.top := Chunk(nb, Used)],
                 top := v.top + nb, topsize := v.topsize - nb);
    TopSplit(v.mem, v.cs, v.lo, v.top, v.topsize, nb);
    GrowTiled(v.cs, v.lo, v.top, nb, Used);
    AlignedEntry(v.cs, v.top, Chunk(nb, Used));
    SpanBins(v, v', v.top, nb);
    SpanUsers(v.mem, v'.mem, v.cs, v'.cs, v.lo, v.top, v.top, nb);
    assert Orderly(v');
  }

  /** The last chunk, in limbo, given back to top. */
  lemma {:induction false} TopMergeStep(v: View, p: int)
    requires HeapOk(v) && p in v.cs && v.cs[p].kind == Limbo && AfterUsed(v.cs, p) && p + v.cs[p].size == v.top
    ensures 0 <= p && p + 8 < |v.mem|
    ensures var tsize := v.topsize + v.cs[p].size;
            var v' := v.(mem := v.mem[p + 8 := Head(tsize, true, false)], cs := v.cs - {p}, top := p, topsize := tsize);
            HeapOk(v') && Serves(v, v')
  {
    assert Opened(v);
    var tsize := v.topsize + v.cs[p].size;
    TopMerge(v.mem, v.cs, v.lo, v.top, v.topsize, p);
    DropTiled(v.cs, v.lo, v.top, p);
    AlignedMinus(v.cs, p);
    assert Aligned(p, v.cs[p]);
    Placement(v.cs, v.lo, v.top, p, v.top);
    var v' := v.(mem := v.mem[p + 8 := Head(tsize, true, false)], cs := v.cs - {p}, top := p, topsize := tsize);
    SpanBins(v, v', p, 0);
    SpanUsers(v.mem, v'.mem, v.cs, v'.cs, v.lo, v.top, p, 0);
    assert Orderly(v');
  }

  // ----- States between operations -----

  ghost predicate NoLimbo(cs: Chunks) {
    forall a :: a in cs ==> cs[a].kind != Limbo
  }

  /** The designated victim is the one free chunk that is in no bin. */
  ghost predicate VictimOk(cs: Chunks, dv: int, dvsize: int) {
    && (dvsize == 0 ==> dv == 0)
    && (dvsize != 0 ==> dv in cs && cs[dv] == Chunk(dvsize, Victim))
    && (forall a :: a in cs && cs[a].kind == Victim ==> dvsize != 0 && a == dv)
  }

  /** A free chunk has chunks in use on both sides, or is the first one. */
  lemma {:induction false} FreeNeighbours(v: View, p: int)
    requires HeapOk(v) && p in v.cs && IsFree(v.cs[p])
    requires forall a :: a in v.cs && a != p ==> v.cs[a].kind != Limbo
    ensures AfterUsed(v.cs, p) && 0 <= p && p + v.cs[p].size + 8 < |v.mem|
    ensures var n := p + v.cs[p].size;
            0 <= n && n in v.cs && v.cs[n].kind == Used && v.mem[n + 8].Head? && !v.mem[n + 8].pinuse
  {
    assert Opened(v);
    var n := p + v.cs[p].size;
    assert TagOk(v.mem, v.cs, v.lo, v.top, p);
    PinuseMeans(v.mem, v.cs, v.lo, v.top, v.topsize, p);
    Placement(v.cs, v.lo, v.top, p, v.top);
    if n in v.cs {
      assert TagOk(v.mem, v.cs, v.lo, v.top, n);
    }
  }

  /** What a caller of malloc gets: a chunk of its own of about the right size. */
  ghost predicate Grants(v: View, v': View, p: int, nb: int) {
    && p in v'.cs && v'.cs[p].kind == Used && nb <= v'.cs[p].size < nb + MIN_CHUNK_SIZE
    && (p in v.cs ==> v.cs[p].kind != Used)
    && Serves(v, v')
    && (forall a :: a in v'.cs && v'.cs[a].kind == Used && a != p ==> a in v.cs && v.cs[a] == v'.cs[a])
  }

  /** Taking p out of its bin changed only insides of free chunks. */
  ghost predicate Takes(v: View, v': View, p: int) {
    && HeapOk(v') && InteriorOnly(v.mem, v'.mem, v.cs)
    && v'.lo == v.lo && v'.top == v.top && v'.topsize == v.topsize
    && p in v.cs && v'.cs == v.cs[p := Chunk(v.cs[p].size, Limbo)]
  }

  /** After p has left its bin, everything around it is as before. */
  lemma {:induction false} TakenNeighbours(v: View, v': View, p: int)
    requires HeapOk(v) && p in v.cs && IsFree(v.cs[p]) && NoLimbo(v.cs) && Takes(v, v', p)
    ensures AfterUsed(v'.cs, p) && 0 <= p && p + v.cs[p].size + 8 < |v'.mem| && Serves(v, v')
    ensures var n := p + v.cs[p].size;
            0 <= n && n in v'.cs && v'.cs[n].kind == Used && v'.mem[n + 8].Head? && !v'.mem[n + 8].pinuse
  {
    assert Opened(v);
    FreeNeighbours(v, p);
    var n := p + v.cs[p].size;
    Placement(v.cs, v.lo, v.top, n, v.top);
    TagWordKept(v.mem, v'.mem, v.cs, v.lo, v.top, n, 8);
    UsersInterior(v.mem, v'.mem, v.cs, v'.cs, v.lo, v.top);
  }

  /** From the start: take p, use all of it. */
  lemma {:induction false} GrantWhole(v: View, v1: View, p: int, nb: int)
    requires HeapOk(v) && p in v.cs && IsFree(v.cs[p]) && NoLimbo(v.cs) && Takes(v, v1, p)
    requires nb <= v.cs[p].size < nb + MIN_CHUNK_SIZE
    ensures var s := v.cs[p].size;
            && 0 <= p && 0 < s && p + s + 8 < |v1.mem| && v1.mem[p + s + 8].Head?
            && var v2 := v1.(mem := UseWholeMem(v1.mem, p, s), cs := v1.cs[p := Chunk(s, Used)]);
               HeapOk(v2) && NoLimbo(v2.cs) && Grants(v, v2, p, nb)
  {
    TakenNeighbours(v, v1, p);
    UseWholeStep(v1, p);
    var s := v.cs[p].size;
    ServesTrans(v, v1, v1.(mem := UseWholeMem(v1.mem, p, s), cs := v1.cs[p := Chunk(s, Used)]));
  }

  /** Take p, use its front, and leave the rest free and ready for a bin. */
  lemma {:induction false} GrantFront(v: View, v1: View, p: int, nb: int)
    requires HeapOk(v) && p in v.cs && IsFree(v.cs[p]) && NoLimbo(v.cs) && Takes(v, v1, p)
    requires MIN_CHUNK_SIZE <= nb && nb + MIN_CHUNK_SIZE <= v.cs[p].size && nb % 16 == 0
    ensures var s, r := v.cs[p].size, p + nb;
            && 0 <= p && p + s + 8 < |v1.mem| && r !in v1.cs
            && var v2 := v1.(mem := UseSplitMem(v1.mem, p, nb, s),
                             cs := v1.cs[p := Chunk(nb, Used)][r := Chunk(s - nb, Limbo)]);
               && HeapOk(v2) && Grants(v, v2, p, nb)
               && (forall a :: a in v2.cs && a != r ==> v2.cs[a].kind != Limbo)
               && Tags(v2.mem, v2.cs[r := Chunk(s - nb, Binned)], v2.lo, v2.top, v2.topsize)
               && Tags(v2.mem, v2.cs[r := Chunk(s - nb, Victim)], v2.lo, v2.top, v2.topsize)
  {
    TakenNeighbours(v, v1, p);
    UseSplitStep(v1, p, nb);
    var s, r := v.cs[p].size, p + nb;
    ServesTrans(v, v1, v1.(mem := UseSplitMem(v1.mem, p, nb, s),
                           cs := v1.cs[p := Chunk(nb, Used)][r := Chunk(s - nb, Limbo)]));
  }

  // ----- Composing steps -----

  /** Users keep what they have, and nobody new has appeared. */
  ghost predicate Stays(v: View, v': View) {
    && Serves(v, v')
    && (forall a :: a in v'.cs && v'.cs[a].kind == Used ==> a in v.cs && v.cs[a] == v'.cs[a])
  }

  lemma {:induction false} GrantsStays(u: View, v: View, w: View, p: int, nb: int)
    requires Grants(u, v, p, nb) && Stays(v, w)
    ensures Grants(u, w, p, nb)
  {
    assert SamePayload(v.mem, w.mem, p, v.cs[p]);
    ServesTrans(u, v, w);
  }

  lemma {:induction false} StaysGrants(u: View, v: View, w: View, p: int, nb: int)
    requires Stays(u, v) && Grants(v, w, p, nb)
    ensures Grants(u, w, p, nb)
  {
    ServesTrans(u, v, w);
    forall a | a in u.cs && u.cs[a].kind == Used
      ensures a in v.cs && v.cs[a].kind == Used
    {
      assert SamePayload(u.mem, v.mem, a, u.cs[a]);
    }
  }

  lemma {:induction false} StaysTrans(u: View, v: View, w: View)
    requires Stays(u, v) && Stays(v, w)
    ensures Stays(u, w)
  {
    ServesTrans(u, v, w);
  }

  /** Changes inside free chunks concern nobody. */
  lemma {:induction false} InteriorStays(v: View, v': View)
    requires HeapOk(v) && InteriorOnly(v.mem, v'.mem, v.cs)
    requires forall a :: a in v.cs && v.cs[a].kind == Used ==> a in v'.cs && v'.cs[a] == v.cs[a]
    requires forall a :: a in v'.cs && v'.cs[a].kind == Used ==> a in v.cs && v.cs[a] == v'.cs[a]
    ensures Stays(v, v')
  {
    assert Opened(v);
    UsersInterior(v.mem, v'.mem, v.cs, v'.cs, v.lo, v.top);
  }

  /** A chunk has entered its bin. */
  lemma {:induction false} BinnedStep(v: View, v': View, p: int)
    requires HeapOk(v) && p in v.cs && v.cs[p].kind != Used
    requires Tags(v.mem, v.cs[p := Chunk(v.cs[p].size, Binned)], v.lo, v.top, v.topsize)
    requires InteriorOnly(v.mem, v'.mem, v.cs) && v'.cs == v.cs[p := Chunk(v.cs[p].size, Binned)]
    requires v'.lo == v.lo && v'.top == v.top && v'.topsize == v.topsize
    requires BinsOk(v'.mem, v'.cs, v'.sb, v'.tb, v'.smallmap, v'.treemap)
    ensures HeapOk(v') && Stays(v, v')
  {
    assert Opened(v);
    KindTiled(v.cs, v.lo, v.top, p, Binned);
    TagsInterior(v.mem, v'.mem, v.cs, v'.cs, v.lo, v.top, v.topsize);
    assert Aligned(p, v.cs[p]);
    AlignedEntry(v.cs, p, Chunk(v.cs[p].size, Binned));
    InteriorStays(v, v');
    assert Orderly(v');
  }

  /** A chunk has left its bin. */
  lemma {:induction false} TakenStep(v: View, v': View, p: int)
    requires HeapOk(v) && p in v.cs && v.cs[p].kind != Used
    requires InteriorOnly(v.mem, v'.mem, v.cs) && v'.cs == v.cs[p := Chunk(v.cs[p].size, Limbo)]
    requires v'.lo == v.lo && v'.top == v.top && v'.topsize == v.topsize
    requires BinsOk(v'.mem, v'.cs, v'.sb, v'.tb, v'.smallmap, v'.treemap)
    ensures Takes(v, v', p) && Stays(v, v')
  {
    assert Opened(v);
    KindTiled(v.cs, v.lo, v.top, p, Limbo);
    LimboTags(v.mem, v.cs, v.lo, v.top, v.topsize, p);
    TagsInterior(v.mem, v'.mem, v.cs, v'.cs, v.lo, v.top, v.topsize);
    assert Aligned(p, v.cs[p]);
    AlignedEntry(v.cs, p, Chunk(v.cs[p].size, Limbo));
    InteriorStays(v, v');
    assert Orderly(v');
  }

  /** The remainder r, its tags set, becomes the victim; the old victim may then be binned. */
  lemma {:induction false} NewVictim(v: View, r: int, dv: int, dvsize: int)
    requires HeapOk(v) && r in v.cs && v.cs[r].kind == Limbo && VictimOk(v.cs, dv, dvsize)
    requires forall a :: a in v.cs && a != r ==> v.cs[a].kind != Limbo
    requires Tags(v.mem, v.cs[r := Chunk(v.cs[r].size, Victim)], v.lo, v.top, v.topsize)
    ensures var v' := v.(cs := v.cs[r := Chunk(v.cs[r].size, Victim)]);
            && HeapOk(v') && Stays(v, v') && NoLimbo(v'.cs) && 0 < v.cs[r].size
            && (dvsize != 0 ==> Tags(v'.mem, v'.cs[dv := Chunk(dvsize, Binned)], v'.lo, v'.top, v'.topsize))
  {
    var v' := v.(cs := v.cs[r := Chunk(v.cs[r].size, Victim)]);
    KindStep(v, r, Victim);
    ServesSelf(v, v'.cs);
    ChunkSize(v, r);
    if dvsize != 0 {
      FreeTags(v'.mem, v'.cs, v'.lo, v'.top, v'.topsize, dv, Binned);
    }
  }

  /** The victim is taken out of its place. */
  lemma {:induction false} TakeVictim(v: View, p: int)
    requires HeapOk(v) && p in v.cs && v.cs[p].kind == Victim
    ensures var v' := v.(cs := v.cs[p := Chunk(v.cs[p].size, Limbo)]); Takes(v, v', p) && Stays(v, v')
  {
    assert Opened(v);
    LimboTags(v.mem, v.cs, v.lo, v.top, v.topsize, p);
    KindStep(v, p, Limbo);
    ServesSelf(v, v.cs[p := Chunk(v.cs[p].size, Limbo)]);
  }

  /** The chunk below top is in use. */
  lemma {:induction false} BelowTop(v: View)
    requires HeapOk(v)
    ensures AfterUsed(v.cs, v.top)
  {
    assert Opened(v);
    PinuseMeans(v.mem, v.cs, v.lo, v.top, v.topsize, v.top);
  }

  lemma {:induction false} TopPlace(v: View)
    requires HeapOk(v)
    ensures STATIC_END <= v.top && 0 < v.topsize && v.top + v.topsize + TOP_FOOT_SIZE <= |v.mem| && v.top % 16 == 0
  {
    assert Opened(v);
  }

  /** A request served from the bottom of top. */
  lemma {:induction false} GrantTop(v: View, nb: int)
    requires HeapOk(v) && NoLimbo(v.cs) && MIN_CHUNK_SIZE <= nb < v.topsize && nb % 16 == 0
    ensures v.top !in v.cs && 0 <= v.top && v.top + nb + 8 < |v.mem|
    ensures var v' := v.(mem := TopSplitMem(v.mem, v.top, v.topsize, nb), cs := v.cs[v.top := Chunk(nb, Used)],
                         top := v.top + nb, topsize := v.topsize - nb);
            HeapOk(v') && NoLimbo(v'.cs) && Grants(v, v', v.top, nb)
  {
    BelowTop(v);
    TopSplitStep(v, nb);
  }

  // ----- Growing the heap -----

  /** More memory behind the heap. */
  lemma {:induction false} LongerStep(v: View, more: Memory)
    requires HeapOk(v)
    ensures var v' := v.(mem := v.mem + more); HeapOk(v') && Stays(v, v')
  {
    assert Opened(v);
    var v' := v.(mem := v.mem + more);
    assert forall x :: 0 <= x < |v.mem| ==> v'.mem[x] == v.mem[x];
    forall a | a in v.cs
      ensures TagOk(v'.mem, v.cs, v.lo, v.top, a)
    {
      assert TagOk(v.mem, v.cs, v.lo, v.top, a);
    }
    BinsFrame(v.mem, v'.mem, v.cs, v.cs, v.lo, v.top, v.sb, v.tb, v.smallmap, v.treemap);
    assert Orderly(v');
  }

  ghost function RaiseTopMem(mem: Memory, top: int, tsize: int): Memory
    requires 0 <= top && 0 < tsize && top + tsize + 8 < |mem|
  {
    mem[top + 8 := Head(tsize, true, false)][top + tsize + 8 := Head(TOP_FOOT_SIZE, false, false)]
  }

  /** init_top over the old top and n more bytes. */
  lemma {:induction false} RaiseTopStep(v: View, n: int)
    requires HeapOk(v) && 0 <= n && v.top + v.topsize + n + TOP_FOOT_SIZE <= |v.mem|
    ensures 0 <= v.top && 0 < v.topsize
    ensures var v' := v.(mem := RaiseTopMem(v.mem, v.top, v.topsize + n), topsize := v.topsize + n);
            HeapOk(v') && Stays(v, v')
  {
    assert Opened(v);
    var v' := v.(mem := RaiseTopMem(v.mem, v.top, v.topsize + n), topsize := v.topsize + n);
    forall a | a in v.cs
      ensures TagOk(v'.mem, v.cs, v.lo, v.top, a)
    {
      assert TagOk(v.mem, v.cs, v.lo, v.top, a);
      Placement(v.cs, v.lo, v.top, a, v.top);
    }
    SpanBins(v, v', v.top, v.topsize + n);
    SpanUsers(v.mem, v'.mem, v.cs, v.cs, v.lo, v.top, v.top, v.topsize + n);
    assert Orderly(v');
  }

  /** Bins that hold nothing, as a zeroed malloc_state has them. */
  ghost predicate NoBins(mem: Memory, sb: seq<seq<int>>, tb: seq<Trie>, smallmap: Word, treemap: Word) {
    && |sb| == NBINS && |tb| == NBINS && |smallmap| == NBINS && |treemap| == NBINS && STATIC_END <= |mem|
    && IsZero(smallmap) && IsZero(treemap)
    && (forall i {:trigger NoBin(mem, sb, tb, i)} :: 0 <= i < NBINS ==> NoBin(mem, sb, tb, i))
  }

  ghost predicate NoBin(mem: Memory, sb: seq<seq<int>>, tb: seq<Trie>, i: int)
    requires 0 <= i < NBINS == |sb| == |tb| && STATIC_END <= |mem|
  {
    sb[i] == [] && tb[i] == map[] && mem[BinCell(i)] == Val(0)
  }

  lemma {:induction false} NoBinsKept(mem: Memory, mem': Memory, sb: seq<seq<int>>, tb: seq<Trie>, smallmap: Word,
                                      treemap: Word)
    requires NoBins(mem, sb, tb, smallmap, treemap) && |mem| <= |mem'|
    requires forall x :: TREEBINS <= x < STATIC_END ==> mem'[x] == mem[x]
    ensures NoBins(mem', sb, tb, smallmap, treemap)
  {
    forall i | 0 <= i < NBINS
      ensures NoBin(mem', sb, tb, i)
    {
      assert NoBin(mem, sb, tb, i);
    }
  }

  /** The first segment: all of it is top. */
  lemma {:induction false} FirstTop(v: View, tsize: int)
    requires v.cs == map[] && v.lo == v.top && v.top % 16 == 0 && STATIC_END <= v.top && 0 < tsize
             && v.top + tsize + TOP_FOOT_SIZE <= |v.mem|
    requires NoBins(v.mem, v.sb, v.tb, v.smallmap, v.treemap)
    ensures HeapOk(v.(mem := RaiseTopMem(v.mem, v.top, tsize), topsize := tsize))
  {
    var v' := v.(mem := RaiseTopMem(v.mem, v.top, tsize), topsize := tsize);
    forall i | 0 <= i < NBINS
      ensures SmallOk(v'.mem, v'.cs, i, v'.sb[i]) && TreeOk(v'.mem, v'.cs, i, v'.tb[i])
      ensures v'.sb[i] == [] && v'.tb[i] == map[]
    {
      assert NoBin(v.mem, v.sb, v.tb, i);
    }
    assert InOrder(v'.mem, v'.cs, v'.sb, v'.tb, v'.smallmap, v'.treemap);
    assert Orderly(v');
  }

  // ----- Giving chunks back -----

  /** The chunk p is the only one in limbo, and follows no free chunk. */
  ghost predicate Held(v: View, p: int) {
    && HeapOk(v) && p in v.cs && v.cs[p].kind == Limbo && AfterUsed(v.cs, p)
    && (forall a :: a in v.cs && a != p ==> v.cs[a].kind != Limbo)
  }

  /**
   * The block at p can be made a chunk of size nb without moving: it is large enough, or what follows it is free and
   * is.
   */
  ghost predicate GrowsInPlace(v: View, p: int, nb: int)
    requires p in v.cs
  {
    var q := p + v.cs[p].size;
    || nb <= v.cs[p].size
    || (q == v.top && nb < v.cs[p].size + v.topsize)
    || (q in v.cs && v.cs[q].kind != Used && nb <= v.cs[p].size + v.cs[q].size)
  }

  /** What follows a block: top, or a chunk whose header says whether it is in use. */
  lemma {:induction false} BehindUsed(v: View, p: int)
    requires HeapOk(v) && p in v.cs && v.cs[p].kind == Used && forall a :: a in v.cs ==> v.cs[a].kind != Limbo
    ensures var q := p + v.cs[p].size;
            && (q == v.top ==> q !in v.cs)
            && (q != v.top ==>
                  && q in v.cs && 0 <= q && q + 8 < |v.mem| && v.mem[q + 8].Head?
                  && v.mem[q + 8].size == v.cs[q].size && (v.mem[q + 8].cinuse <==> v.cs[q].kind == Used))
  {
    assert Opened(v);
    var q := p + v.cs[p].size;
    Placement(v.cs, v.lo, v.top, p, v.top);
    if q in v.cs {
      assert TagOk(v.mem, v.cs, v.lo, v.top, q);
      Placement(v.cs, v.lo, v.top, q, v.top);
    }
  }

  lemma {:induction false} UsedWords(v: View, p: int)
    requires HeapOk(v) && p in v.cs && v.cs[p].kind == Used
    ensures var n := p + v.cs[p].size;
            && STATIC_END <= p && MIN_CHUNK_SIZE <= v.cs[p].size && n + 16 <= |v.mem|
            && v.mem[p + 8].Head? && v.mem[p + 8].size == v.cs[p].size && v.mem[p + 8].cinuse
            && (n == v.top || n in v.cs)
            && (n == v.top ==> v.mem[n + 8] == Head(v.topsize, true, false))
            && (n in v.cs && v.cs[n].kind != Limbo ==>
                  && v.mem[n + 8].Head? && v.mem[n + 8].pinuse && v.mem[n + 8].size == v.cs[n].size
                  && v.mem[n + 8].cinuse == (v.cs[n].kind == Used))
  {
    assert Opened(v);
    var n := p + v.cs[p].size;
    assert TagOk(v.mem, v.cs, v.lo, v.top, p);
    Placement(v.cs, v.lo, v.top, p, v.top);
    if n in v.cs {
      assert TagOk(v.mem, v.cs, v.lo, v.top, n);
      Placement(v.cs, v.lo, v.top, n, v.top);
    }
  }

  /** The caller of free hands over a chunk. */
  lemma {:induction false} HandOver(v: View, p: int)
    requires HeapOk(v) && p in v.cs && v.cs[p].kind == Used && NoLimbo(v.cs)
    ensures 0 <= p && p + 8 < |v.mem| && v.mem[p + 8].Head?
    ensures var v' := v.(cs := v.cs[p := Chunk(v.cs[p].size, Limbo)]);
            HeapOk(v') && (v.mem[p + 8].pinuse ==> Held(v', p))
  {
    assert Opened(v);
    UsedWords(v, p);
    LimboTags(v.mem, v.cs, v.lo, v.top, v.topsize, p);
    KindStep(v, p, Limbo);
    if v.mem[p + 8].pinuse {
      PinuseMeans(v.mem, v.cs, v.lo, v.top, v.topsize, p);
    }
  }

  /** A clear pinuse bit: the foot before p leads to the free chunk that ends at p. */
  lemma {:induction false} PrevFree(v: View, p: int) returns (q: int)
    requires HeapOk(v) && p in v.cs && v.cs[p].kind == Used && NoLimbo(v.cs)
    requires 0 <= p && p + 8 < |v.mem| && v.mem[p + 8].Head? && !v.mem[p + 8].pinuse
    ensures q in v.cs && IsFree(v.cs[q]) && v.mem[p] == Val(v.cs[q].size) && q == p - v.cs[q].size
    ensures AfterUsed(v.cs, q) && v.lo <= q
  {
    assert Opened(v);
    assert TagOk(v.mem, v.cs, v.lo, v.top, p);
    assert Shaped(v.lo, v.top, p, v.cs[p]);
    q := Predecessor(v.cs, v.lo, v.top, p, v.lo);
    assert TagOk(v.mem, v.cs, v.lo, v.top, q);
    FreeNeighbours(v, q);
  }

  /** Changes inside free chunks keep the head after p. */
  lemma {:induction false} NextKept(v: View, v': View, p: int)
    requires HeapOk(v) && p in v.cs && InteriorOnly(v.mem, v'.mem, v.cs)
    ensures var n := p + v.cs[p].size; 0 <= n && n + 8 < |v.mem| == |v'.mem| && v'.mem[n + 8] == v.mem[n + 8]
  {
    assert Opened(v);
    var n := p + v.cs[p].size;
    Placement(v.cs, v.lo, v.top, p, v.top);
    if n in v.cs {
      Placement(v.cs, v.lo, v.top, n, v.top);
    }
    TagWordKept(v.mem, v'.mem, v.cs, v.lo, v.top, n, 8);
  }

  /** The chunk before p, just taken, is joined with p. */
  lemma {:induction false} JoinBack(v: View, v': View, q: int, p: int)
    requires HeapOk(v) && p in v.cs && v.cs[p].kind == Limbo && q in v.cs && IsFree(v.cs[q]) && q + v.cs[q].size == p
    requires AfterUsed(v.cs, q) && (forall a :: a in v.cs && a != p ==> v.cs[a].kind != Limbo) && Takes(v, v', q)
    ensures var w := v'.(cs := (v'.cs - {p})[q := Chunk(v.cs[q].size + v.cs[p].size, Limbo)]);
            Held(w, q) && Stays(v, w)
    ensures var n := p + v.cs[p].size; 0 <= n && n + 8 < |v.mem| == |v'.mem| && v'.mem[n + 8] == v.mem[n + 8]
  {
    var w := v'.(cs := (v'.cs - {p})[q := Chunk(v.cs[q].size + v.cs[p].size, Limbo)]);
    ChunkSize(v, q);
    MergeStep(v', q);
    InteriorStays(v, v');
    StaysTrans(v, v', w);
    assert Opened(v);
    forall a | a in w.cs && a + w.cs[a].size == q && w.cs[a].kind != Limbo
      ensures w.cs[a].kind == Used
    {
      assert a in v.cs;
    }
    NextKept(v, v', p);
  }

  /** A free chunk with no chunk in limbo behind it is followed by one in use that knows it. */
  lemma {:induction false} FreeNext(v: View, n: int)
    requires HeapOk(v) && n in v.cs && IsFree(v.cs[n]) && forall a :: a in v.cs && v.cs[a].kind == Limbo ==> a < n
    ensures var e := n + v.cs[n].size;
            && e in v.cs && v.cs[e].kind == Used && 0 <= e && e + 8 < |v.mem|
            && v.mem[e + 8].Head? && !v.mem[e + 8].pinuse
  {
    assert Opened(v);
    var e := n + v.cs[n].size;
    assert TagOk(v.mem, v.cs, v.lo, v.top, n);
    Placement(v.cs, v.lo, v.top, n, v.top);
    if e in v.cs {
      assert TagOk(v.mem, v.cs, v.lo, v.top, e);
    }
  }

  /** The chunk after p, just taken, is joined with p. */
  lemma {:induction false} JoinForward(v: View, v': View, p: int)
    requires Held(v, p) && p + v.cs[p].size in v.cs && IsFree(v.cs[p + v.cs[p].size])
    requires Takes(v, v', p + v.cs[p].size)
    ensures var n := p + v.cs[p].size;
            var s := v.cs[p].size + v.cs[n].size;
            var w := v'.(cs := (v'.cs - {n})[p := Chunk(s, Limbo)]);
            && Held(w, p) && Stays(v, w)
            && p + s in w.cs && w.cs[p + s].kind == Used && 0 <= p + s && p + s + 8 < |w.mem|
            && w.mem[p + s + 8].Head? && !w.mem[p + s + 8].pinuse
  {
    var n := p + v.cs[p].size;
    var s := v.cs[p].size + v.cs[n].size;
    var w := v'.(cs := (v'.cs - {n})[p := Chunk(s, Limbo)]);
    ChunkSize(v, p);
    ChunkSize(v, n);
    MergeStep(v', p);
    InteriorStays(v, v');
    StaysTrans(v, v', w);
    BeyondFree(v, v', n);
  }

  /** Behind a free chunk that is taken there is one in use, which still knows that the one before it is free. */
  lemma {:induction false} BeyondFree(v: View, v': View, n: int)
    requires HeapOk(v) && n in v.cs && IsFree(v.cs[n]) && Takes(v, v', n)
    requires forall a :: a in v.cs && n < a ==> v.cs[a].kind != Limbo
    ensures var e := n + v.cs[n].size;
            && e in v.cs && v.cs[e].kind == Used && 0 <= e && e + 8 < |v'.mem| && v'.mem[e + 8].Head?
            && !v'.mem[e + 8].pinuse
  {
    var e := n + v.cs[n].size;
    FreeNext(v, n);
    assert Opened(v);
    Placement(v.cs, v.lo, v.top, n, e);
    ChunkSize(v, e);
    TagWordKept(v.mem, v'.mem, v.cs, v.lo, v.top, e, 8);
  }

  /** What the head after the chunk in limbo shows. */
  lemma {:induction false} HeldNext(v: View, p: int)
    requires Held(v, p)
    ensures var n := p + v.cs[p].size;
            && STATIC_END <= v.lo <= p && MIN_CHUNK_SIZE <= v.cs[p].size && n + 16 <= |v.mem| && v.mem[n + 8].Head?
            && (n == v.top || n in v.cs) && (v.mem[n + 8].cinuse <==> n in v.cs && v.cs[n].kind == Used)
            && (n in v.cs ==> v.mem[n + 8].size == v.cs[n].size && n != v.top)
  {
    assert Opened(v);
    var n := p + v.cs[p].size;
    Placement(v.cs, v.lo, v.top, p, v.top);
    if n in v.cs {
      assert TagOk(v.mem, v.cs, v.lo, v.top, n);
      Placement(v.cs, v.lo, v.top, n, v.top);
    }
  }

  /** set_free_with_pinuse on the chunk in limbo. */
  lemma {:induction false} HeldFree(v: View, p: int)
    requires Held(v, p) && p + v.cs[p].size in v.cs && v.cs[p + v.cs[p].size].kind == Used
    ensures var s := v.cs[p].size;
            && 0 <= p && 0 < s && p + s + 8 < |v.mem| && v.mem[p + s + 8].Head?
            && var v' := v.(mem := FreeWholeMem(v.mem, p, s));
               && Held(v', p) && Stays(v, v')
               && Tags(v'.mem, v.cs[p := Chunk(s, Binned)], v.lo, v.top, v.topsize)
               && Tags(v'.mem, v.cs[p := Chunk(s, Victim)], v.lo, v.top, v.topsize)
  {
    FreeWholeStep(v, p);
  }

  /** The chunk in limbo, last before top, becomes part of top. */
  lemma {:induction false} HeldTop(v: View, p: int)
    requires Held(v, p) && p + v.cs[p].size == v.top
    ensures 0 <= p && p + 8 < |v.mem|
    ensures var tsize := v.topsize + v.cs[p].size;
            var v' := v.(mem := v.mem[p + 8 := Head(tsize, true, false)], cs := v.cs - {p}, top := p, topsize := tsize);
            HeapOk(v') && Stays(v, v') && NoLimbo(v'.cs)
  {
    TopMergeStep(v, p);
  }

  /** What free does: p is no longer in use; everyone else keeps what they have. */
  ghost predicate Releases(v: View, v': View, p: int) {
    p in v.cs && Stays(Hide(v, p), v')
  }

  /** The same heap with p counted as nobody's. */
  ghost function Hide(v: View, p: int): View
    requires p in v.cs
  {
    v.(cs := v.cs[p := Chunk(v.cs[p].size, Limbo)])
  }

  // ----- Resizing chunks in use -----

  ghost predicate SameBytes(mem: Memory, mem': Memory, from: int, to: int, n: int) {
    forall x :: from <= x < from + n && 0 <= x < |mem| && 0 <= x - from + to < |mem'| ==> mem'[x - from + to] == mem[x]
  }

  /** The chunk p is still in use, with its first n bytes; everyone else keeps what they have. */
  ghost predicate Resizes(v: View, v': View, p: int, n: int) {
    Moves(v, v', p, p, n)
  }

  lemma {:induction false} ResizesTrans(u: View, v: View, w: View, p: int, m: int, n: int)
    requires Resizes(u, v, p, m) && Resizes(v, w, p, n) && |u.mem| <= |v.mem|
    ensures Resizes(u, w, p, if m < n then m else n)
  {
    StaysTrans(Hide(u, p), Hide(v, p), Hide(w, p));
    assert |u.mem| <= |v.mem| <= |w.mem|;
  }

  lemma {:induction false} ResizesSelf(v: View, p: int)
    requires p in v.cs && v.cs[p].kind == Used
    ensures forall n :: Resizes(v, v, p, n)
  {
    ServesSelf(Hide(v, p), Hide(v, p).cs);
  }

  lemma {:induction false} StaysHide(v: View, w: View, p: int)
    requires Stays(v, w) && p in v.cs && v.cs[p].kind == Used
    ensures p in w.cs && w.cs[p] == v.cs[p] && Stays(Hide(v, p), Hide(w, p)) && SamePayload(v.mem, w.mem, p, v.cs[p])
  {
    assert SamePayload(v.mem, w.mem, p, v.cs[p]);
    forall a | a in Hide(v, p).cs && Hide(v, p).cs[a].kind == Used
      ensures a in Hide(w, p).cs && Hide(w, p).cs[a] == Hide(v, p).cs[a]
              && SamePayload(v.mem, w.mem, a, Hide(v, p).cs[a])
    {
      assert SamePayload(v.mem, w.mem, a, v.cs[a]);
    }
  }

  /** After p was divided at r, the rest was given back. */
  lemma {:induction false} ShrinkDone(v: View, v1: View, v2: View, p: int, nb: int)
    requires p in v.cs && v.cs[p].kind == Used && p in v1.cs && v1.cs[p] == Chunk(nb, Used) && p + nb in v1.cs && 0 < nb
    requires Stays(Hide(v, p), Hide(Hide(v1, p), p + nb)) && SameBytes(v.mem, v1.mem, p + 16, p + 16, nb - 8)
    requires Stays(Hide(v1, p + nb), v2)
    ensures Resizes(v, v2, p, nb - 8) && v2.cs[p] == Chunk(nb, Used)
  {
    var r := p + nb;
    StaysHide(Hide(v1, r), v2, p);
    assert Hide(Hide(v1, p), r) == Hide(Hide(v1, r), p) by {
      assert Hide(Hide(v1, p), r).cs == Hide(Hide(v1, r), p).cs;
    }
    StaysTrans(Hide(v, p), Hide(Hide(v1, p), r), Hide(v2, p));
  }

  /** A chunk in use, counted as nobody's, joined with the free chunk after it, just taken. */
  lemma {:induction false} AbsorbJoin(v: View, v1: View, p: int)
    requires HeapOk(v) && NoLimbo(v.cs) && p in v.cs && v.cs[p].kind == Used
    requires p + v.cs[p].size in v.cs && IsFree(v.cs[p + v.cs[p].size]) && Takes(v, v1, p + v.cs[p].size)
    ensures var n := p + v.cs[p].size;
            var s := v.cs[p].size + v.cs[n].size;
            var w := v1.(cs := (v1.cs - {n})[p := Chunk(s, Limbo)]);
            && HeapOk(w) && PinOk(w.mem, w.cs, w.lo, p) && Stays(Hide(v, p), w)
            && p + s in w.cs && w.cs[p + s].kind == Used
    ensures SamePayload(v.mem, v1.mem, p, v.cs[p])
  {
    var n := p + v.cs[p].size;
    InteriorStays(v, v1);
    StaysHide(v, v1, p);
    FreeNext(v, n);
    ChunkSize(v, n);
    ChunkSize(v, p);
    HidePin(v1, p);
    MergeStep(Hide(v1, p), p);
    var w := v1.(cs := (v1.cs - {n})[p := Chunk(v.cs[p].size + v.cs[n].size, Limbo)]);
    assert (Hide(v1, p).cs - {n})[p := Chunk(v.cs[p].size + v.cs[n].size, Limbo)] == w.cs;
    StaysTrans(Hide(v, p), Hide(v1, p), w);
  }

  /** A chunk in use absorbs the free chunk after it, just taken. */
  lemma {:induction false} AbsorbUsed(v: View, v1: View, p: int)
    requires HeapOk(v) && NoLimbo(v.cs) && p in v.cs && v.cs[p].kind == Used
    requires p + v.cs[p].size in v.cs && IsFree(v.cs[p + v.cs[p].size]) && Takes(v, v1, p + v.cs[p].size)
    ensures var n := p + v.cs[p].size;
            var s := v.cs[p].size + v.cs[n].size;
            && 0 <= p && 0 < s && p + s + 8 < |v1.mem| && v1.mem[p + 8].Head? && v1.mem[p + s + 8].Head?
            && var v2 := v1.(mem := ReuseMem(v1.mem, p, s), cs := (v1.cs - {n})[p := Chunk(s, Used)]);
               HeapOk(v2) && NoLimbo(v2.cs) && Resizes(v, v2, p, v.cs[p].size - 8)
  {
    var n := p + v.cs[p].size;
    var s := v.cs[p].size + v.cs[n].size;
    AbsorbJoin(v, v1, p);
    ChunkSize(v, n);
    var w := v1.(cs := (v1.cs - {n})[p := Chunk(s, Limbo)]);
    ReuseStep(w, p);
    var v2 := v1.(mem := ReuseMem(v1.mem, p, s), cs := (v1.cs - {n})[p := Chunk(s, Used)]);
    assert v2 == w.(mem := ReuseMem(w.mem, p, s), cs := w.cs[p := Chunk(s, Used)]);
    StaysTrans(Hide(v, p), w, Hide(v2, p));
  }

  lemma {:induction false} HidePin(v: View, p: int)
    requires HeapOk(v) && p in v.cs && v.cs[p].kind == Used
    ensures HeapOk(Hide(v, p)) && PinOk(v.mem, Hide(v, p).cs, v.lo, p)
  {
    assert Opened(v);
    LimboTags(v.mem, v.cs, v.lo, v.top, v.topsize, p);
    KindStep(v, p, Limbo);
    assert TagOk(v.mem, v.cs, v.lo, v.top, p);
    forall a | a in v.cs && a + v.cs[a].size == p && v.cs[a].kind != Limbo
      ensures v.mem[p + 8].pinuse == (v.cs[a].kind == Used)
    {
      assert TagOk(v.mem, v.cs, v.lo, v.top, a);
    }
  }

  ghost function ReuseMem(mem: Memory, p: int, s: int): Memory
    requires 0 <= p && 0 < s && p + s + 8 < |mem| && mem[p + 8].Head? && mem[p + s + 8].Head?
  {
    mem[p + 8 := Head(s, mem[p + 8].pinuse, true)][p + s + 8 := mem[p + s + 8].(pinuse := true)]
  }

  /** A chunk in limbo, whatever is before it, is in use again. */
  lemma {:induction false} ReuseStep(v: View, p: int)
    requires HeapOk(v) && p in v.cs && v.cs[p].kind == Limbo && PinOk(v.mem, v.cs, v.lo, p)
    requires p + v.cs[p].size in v.cs && v.cs[p + v.cs[p].size].kind == Used
    ensures var s := v.cs[p].size;
            && 0 <= p && 0 < s && p + s + 8 < |v.mem| && v.mem[p + s + 8].Head?
            && var v' := v.(mem := ReuseMem(v.mem, p, s), cs := v.cs[p := Chunk(s, Used)]);
               HeapOk(v') && Stays(v, Hide(v', p))
  {
    assert Opened(v);
    var s := v.cs[p].size;
    Reuse(v.mem, v.cs, v.lo, v.top, v.topsize, p);
    Placement(v.cs, v.lo, v.top, p, v.top);
    var v' := v.(mem := ReuseMem(v.mem, p, s), cs := v.cs[p := Chunk(s, Used)]);
    KindTiled(v.cs, v.lo, v.top, p, Used);
    assert Aligned(p, v.cs[p]);
    AlignedEntry(v.cs, p, Chunk(s, Used));
    SpanBins(v, v', p, s);
    SpanUsers(v.mem, v'.mem, v.cs, Hide(v', p).cs, v.lo, v.top, p, s);
    assert Orderly(v');
  }

  ghost function DivideMem(mem: Memory, p: int, nb: int, s: int): Memory
    requires 0 <= p && 0 <= nb && p + nb + 8 < |mem| && mem[p + 8].Head?
  {
    mem[p + 8 := Head(nb, mem[p + 8].pinuse, true)][p + nb + 8 := Head(s - nb, true, true)]
  }

  lemma {:induction false} DivideUsers(v: View, v': View, p: int, r: int)
    requires HeapOk(v) && p in v.cs && p in v'.cs && r in v'.cs && r !in v.cs
             && v'.cs == v.cs[p := v'.cs[p]][r := v'.cs[r]]
    requires SpanWrites(v.mem, v'.mem, p, v.cs[p].size)
    ensures Stays(Hide(v, p), Hide(Hide(v', p), r))
  {
    assert Opened(v);
    KindTiled(v.cs, v.lo, v.top, p, Limbo);
    SpanUsers(v.mem, v'.mem, Hide(v, p).cs, Hide(Hide(v', p), r).cs, v.lo, v.top, p, v.cs[p].size);
  }

  /** A chunk in use becomes two. */
  lemma {:induction false} DivideStep(v: View, p: int, nb: int)
    requires HeapOk(v) && p in v.cs && v.cs[p].kind == Used && nb % 16 == 0
    requires MIN_CHUNK_SIZE <= nb && MIN_CHUNK_SIZE <= v.cs[p].size - nb
    ensures var s, r := v.cs[p].size, p + nb;
            && 0 <= p && p + s + 8 < |v.mem| && v.mem[p + 8].Head? && r !in v.cs
            && var v' := v.(mem := DivideMem(v.mem, p, nb, s),
                            cs := v.cs[p := Chunk(nb, Used)][r := Chunk(s - nb, Used)]);
               HeapOk(v') && Stays(Hide(v, p), Hide(Hide(v', p), r)) && SameBytes(v.mem, v'.mem, p + 16, p + 16, nb - 8)
  {
    assert Opened(v);
    var s, r := v.cs[p].size, p + nb;
    Divide(v.mem, v.cs, v.lo, v.top, v.topsize, p, nb);
    Placement(v.cs, v.lo, v.top, p, v.top);
    var v' := v.(mem := DivideMem(v.mem, p, nb, s), cs := v.cs[p := Chunk(nb, Used)][r := Chunk(s - nb, Used)]);
    SplitTiled(v.cs, v.lo, v.top, p, nb, Used, Used);
    AlignedSplit(v.cs, p, nb, Used, Used);
    SpanBins(v, v', p, s);
    DivideUsers(v, v', p, r);
    assert Orderly(v');
  }

  /** The last chunk, in use, grows into top. */
  lemma {:induction false} GrowLastStep(v: View, p: int, nb: int)
    requires HeapOk(v) && p in v.cs && v.cs[p].kind == Used && p + v.cs[p].size == v.top && nb % 16 == 0
    requires v.cs[p].size < nb < v.cs[p].size + v.topsize
    ensures var tsize := v.cs[p].size + v.topsize - nb;
            && 0 <= p && 0 < nb && p + nb + 8 < |v.mem| && v.mem[p + 8].Head?
            && var v' := v.(mem := v.mem[p + 8 := Head(nb, v.mem[p + 8].pinuse, true)]
                                        [p + nb + 8 := Head(tsize, true, false)],
                            cs := v.cs[p := Chunk(nb, Used)], top := p + nb, topsize := tsize);
               HeapOk(v') && Resizes(v, v', p, v.cs[p].size - 8)
  {
    assert Opened(v);
    var s, tsize := v.cs[p].size, v.cs[p].size + v.topsize - nb;
    GrowLast(v.mem, v.cs, v.lo, v.top, v.topsize, p, nb);
    Placement(v.cs, v.lo, v.top, p, v.top);
    var v' := v.(mem := v.mem[p + 8 := Head(nb, v.mem[p + 8].pinuse, true)][p + nb + 8 := Head(tsize, true, false)],
                 cs := v.cs[p := Chunk(nb, Used)], top := p + nb, topsize := tsize);
    assert Aligned(p, v.cs[p]);
    AlignedEntry(v.cs, p, Chunk(nb, Used));
    GrowLastBins(v, v', p);
    GrowLastUsers(v, v', p);
    assert Orderly(v');
  }

  /** Writes at and behind the last chunk. */
  lemma {:induction false} GrowLastUsers(v: View, v': View, p: int)
    requires HeapOk(v) && p in v.cs && p + v.cs[p].size == v.top && v.cs[p].kind == Used && p in v'.cs
    requires |v'.mem| == |v.mem| && forall x :: 0 <= x < |v.mem| && x < p + 8 ==> v'.mem[x] == v.mem[x]
    requires v'.cs == v.cs[p := v'.cs[p]]
    ensures Stays(Hide(v, p), Hide(v', p))
  {
    assert Opened(v);
    forall u | u in Hide(v, p).cs && Hide(v, p).cs[u].kind == Used
      ensures SamePayload(v.mem, v'.mem, u, Hide(v, p).cs[u])
    {
      Placement(v.cs, v.lo, v.top, u, p);
      Placement(v.cs, v.lo, v.top, u, v.top);
    }
  }

  lemma {:induction false} GrowLastBins(v: View, v': View, p: int)
    requires HeapOk(v) && p in v.cs && p + v.cs[p].size == v.top && v.cs[p].kind == Used && p in v'.cs
    requires |v'.mem| == |v.mem| && forall x :: 0 <= x < |v.mem| && x < p + 8 ==> v'.mem[x] == v.mem[x]
    requires v'.cs == v.cs[p := v'.cs[p]] && v'.cs[p].kind == Used
    requires v'.sb == v.sb && v'.tb == v.tb && v'.smallmap == v.smallmap && v'.treemap == v.treemap
    ensures BinsOk(v'.mem, v'.cs, v'.sb, v'.tb, v'.smallmap, v'.treemap)
  {
    assert Opened(v);
    Placement(v.cs, v.lo, v.top, p, v.top);
    forall a | a in v.cs && v.cs[a].kind == Binned
      ensures Kept(v.mem, v'.mem, v.cs, v'.cs, a)
    {
      Placement(v.cs, v.lo, v.top, a, p);
      Placement(v.cs, v.lo, v.top, a, v.top);
    }
    BinsFrame(v.mem, v'.mem, v.cs, v'.cs, v.lo, v.top, v.sb, v.tb, v.smallmap, v.treemap);
  }

  /** An owner writes to its chunk: the heap stays in order and nobody else notices. */
  lemma {:induction false} OwnerWrites(v: View, mem': Memory, q: int)
    requires HeapOk(v) && q in v.cs && v.cs[q].kind == Used && PayloadWrites(v.mem, mem', q, v.cs[q])
    ensures HeapOk(v.(mem := mem')) && Stays(Hide(v, q), Hide(v.(mem := mem'), q))
  {
    assert Opened(v);
    var v' := v.(mem := mem');
    PayloadTags(v.mem, mem', v.cs, v.lo, v.top, v.topsize, q);
    SpanBins(v, v', q, v.cs[q].size);
    KindTiled(v.cs, v.lo, v.top, q, Limbo);
    SpanUsers(v.mem, mem', Hide(v, q).cs, Hide(v', q).cs, v.lo, v.top, q, v.cs[q].size);
    assert Orderly(v');
  }

  /** The block at p has become the block at q with the same first n bytes; nobody else notices. */
  ghost predicate Moves(v: View, v': View, p: int, q: int, n: int) {
    && p in v.cs && v.cs[p].kind == Used && q in v'.cs && v'.cs[q].kind == Used
    && Stays(Hide(v, p), Hide(v', q)) && SameBytes(v.mem, v'.mem, p + 16, q + 16, n)
  }

  /** A new block, with nobody else noticing. */
  ghost predicate Appears(v: View, v': View, p: int) {
    p in v'.cs && v'.cs[p].kind == Used && Stays(v, Hide(v', p))
  }

  lemma {:induction false} GrantsAppears(v: View, v': View, p: int, nb: int)
    requires Grants(v, v', p, nb)
    ensures Appears(v, v', p)
  {
    forall u | u in v.cs && v.cs[u].kind == Used
      ensures u in Hide(v', p).cs && Hide(v', p).cs[u] == v.cs[u] && SamePayload(v.mem, v'.mem, u, v.cs[u])
    {
      assert SamePayload(v.mem, v'.mem, u, v.cs[u]);
    }
  }

  lemma {:induction false} HideTwice(v: View, p: int, q: int)
    requires p in v.cs && q in v.cs && p != q
    ensures Hide(Hide(v, p), q) == Hide(Hide(v, q), p)
  {
    assert Hide(Hide(v, p), q).cs == Hide(Hide(v, q), p).cs;
  }

  /** realloc by moving: a new block q, the bytes of p copied to it, and p given back. */
  lemma {:induction false} MoveDone(v: View, v1: View, v2: View, v3: View, p: int, q: int, n: int)
    requires p in v.cs && v.cs[p].kind == Used && p != q && Appears(v, v1, q) && n <= v.cs[p].size - 8
    requires v2 == v1.(mem := v2.mem) && Stays(Hide(v1, q), Hide(v2, q)) && n <= v1.cs[q].size - 8
    requires SameBytes(v1.mem, v2.mem, p + 16, q + 16, n)
    requires p in v2.cs && Stays(Hide(v2, p), v3) && 0 <= q && q + 16 + n <= |v1.mem| == |v2.mem|
    ensures Moves(v, v3, p, q, n) && v3.cs[q] == v1.cs[q]
  {
    StaysHide(v, Hide(v1, q), p);
    StaysHide(Hide(v1, q), Hide(v2, q), p);
    StaysHide(Hide(v2, p), v3, q);
    HideTwice(v2, p, q);
    StaysTrans(Hide(v, p), Hide(Hide(v1, q), p), Hide(Hide(v2, q), p));
    StaysTrans(Hide(v, p), Hide(Hide(v2, q), p), Hide(v3, q));
    forall x | p + 16 <= x < p + 16 + n && 0 <= x < |v.mem| && 0 <= x - p + q < |v3.mem|
      ensures v3.mem[x - (p + 16) + (q + 16)] == v.mem[x]
    {
      assert v1.mem[x] == v.mem[x];
      assert v2.mem[x - (p + 16) + (q + 16)] == v1.mem[x];
    }
  }

  /** Blocks of different users do not overlap. */
  lemma {:induction false} UsersApart(v: View, p: int, q: int)
    requires HeapOk(v) && p in v.cs && q in v.cs && p != q && v.cs[p].kind == Used && v.cs[q].kind == Used
    ensures p + v.cs[p].size <= q || q + v.cs[q].size <= p
  {
    assert Opened(v);
    Placement(v.cs, v.lo, v.top, p, q);
  }

  // ----- Which chunk a request gets -----

  /** No binned chunk that is large enough is smaller than p. */
  ghost predicate Tightest(cs: Chunks, p: int, nb: int) {
    p in cs && forall a :: a in cs && cs[a].kind == Binned && nb <= cs[a].size ==> cs[p].size <= cs[a].size
  }

  ghost predicate NoneFits(cs: Chunks, nb: int) {
    forall a :: a in cs && IsFree(cs[a]) ==> cs[a].size < nb
  }

  /** The victim is too small, or a binned chunk is preferred to it for a request of nb. */
  ghost predicate VictimPassed(cs: Chunks, p: int, nb: int)
    requires p in cs
  {
    || (nb < MIN_LARGE_SIZE && cs[p].size <= nb + 8)
    || (forall a :: a in cs && cs[a].kind == Victim && nb <= cs[a].size ==>
          nb >= MIN_LARGE_SIZE && cs[p].size < cs[a].size)
  }

  /**
   * The placement policy.  A binned chunk is a best fit among the binned ones; it goes
   * before the victim when it fits a small request exactly or a large one more tightly.
   * Memory past the last chunk is used only if no free chunk is large enough.
   */
  ghost predicate Chosen(cs: Chunks, p: int, nb: int) {
    if p in cs then
      && IsFree(cs[p]) && nb <= cs[p].size
      && (cs[p].kind == Binned ==> Tightest(cs, p, nb) && VictimPassed(cs, p, nb))
      && (cs[p].kind == Victim && nb >= MIN_LARGE_SIZE ==> Tightest(cs, p, nb))
      && (cs[p].kind == Victim && nb < MIN_LARGE_SIZE ==>
            forall a :: a in cs && cs[a].kind == Binned ==> cs[a].size != nb)
    else NoneFits(cs, nb)
  }
}
