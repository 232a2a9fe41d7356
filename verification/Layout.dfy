/**
 * The physical layout of the heap: memory words, the chunks that tile the segment below
 * the top chunk, and the boundary tags that describe them.
 *
 * Memory is a sequence with one entry per byte address.  An entry of metadata stands for
 * the eight-byte word that starts there; payload bytes are one entry each.
 */
module Layout {

  /** A head word (size or'ed with its flag bits) or any other value. */
  datatype Cell =
    | Head(size: int, pinuse: bool, cinuse: bool)
    | Val(v: int)

  type Memory = seq<Cell>

  /**
   * What a chunk is being used for.  Limbo chunks belong to the operation that is under
   * way: they are in no bin and their tags mean nothing yet.
   */
  datatype Kind = Used | Binned | Victim | Limbo

  datatype Chunk = Chunk(size: int, kind: Kind)

  type Chunks = map<int, Chunk>

  const MIN_CHUNK_SIZE: int := 32
  const TOP_FOOT_SIZE: int := 80

  /** malloc_state's smallbins and treebins arrays live below this address. */
  const STATIC_END: int := 800

  ghost predicate Shaped(lo: int, hi: int, a: int, c: Chunk) {
    lo <= a && MIN_CHUNK_SIZE <= c.size && a + c.size <= hi
  }

  /** The chunk at a is followed by another chunk or by the top chunk. */
  ghost predicate Linked(cs: Chunks, hi: int, a: int)
    requires a in cs
  {
    a + cs[a].size in cs || a + cs[a].size == hi
  }

  /** The chunk at a ends before any chunk that starts later. */
  ghost predicate Apart(cs: Chunks, a: int, b: int)
    requires a in cs && b in cs
  {
    a < b ==> a + cs[a].size <= b
  }

  /** Addresses and sizes are multiples of MALLOC_ALIGNMENT. */
  ghost predicate Aligned(a: int, c: Chunk) {
    a % 16 == 0 && c.size % 16 == 0
  }

  ghost predicate AllAligned(cs: Chunks) {
    forall a {:trigger Aligned(a, cs[a])} :: a in cs ==> Aligned(a, cs[a])
  }

  /** The chunks cover lo..hi without gaps or overlaps. */
  ghost predicate Tiled(cs: Chunks, lo: int, hi: int) {
    && lo <= hi
    && (lo < hi ==> lo in cs)
    && (forall a :: a in cs ==> Shaped(lo, hi, a, cs[a]))
    && (forall a {:trigger Linked(cs, hi, a)} :: a in cs ==> Linked(cs, hi, a))
    && (forall a, b {:trigger Apart(cs, a, b)} :: a in cs && b in cs ==> Apart(cs, a, b))
  }

  /** The chunks from address a on, each found behind the one before. */
  ghost function Trail(cs: Chunks, a: int, hi: int): seq<int>
    decreases hi - a
  {
    if a < hi && a in cs && 0 < cs[a].size then [a] + Trail(cs, a + cs[a].size, hi) else []
  }

  ghost function TrailSize(cs: Chunks, trail: seq<int>): int {
    if |trail| == 0 then 0 else (if trail[0] in cs then cs[trail[0]].size else 0) + TrailSize(cs, trail[1..])
  }

  lemma {:induction false} TrailStep(cs: Chunks, lo: int, hi: int, a: int)
    requires Tiled(cs, lo, hi) && a in cs
    ensures var n := a + cs[a].size;
            && a < n <= hi && (n in cs || n == hi) && Trail(cs, a, hi) == [a] + Trail(cs, n, hi)
            && forall b :: b in cs && a < b ==> n <= b
  {
    assert Shaped(lo, hi, a, cs[a]) && Linked(cs, hi, a);
    forall b | b in cs && a < b ensures a + cs[a].size <= b {
      assert Apart(cs, a, b);
    }
  }

  lemma {:induction false} TrailFrom(cs: Chunks, lo: int, hi: int, a: int)
    requires Tiled(cs, lo, hi) && (a in cs || a == hi)
    ensures TrailSize(cs, Trail(cs, a, hi)) == hi - a
    ensures forall b :: b in cs && a <= b ==> b in Trail(cs, a, hi)
    ensures forall b :: b in Trail(cs, a, hi) ==> b in cs && a <= b
    decreases hi - a
  {
    if a in cs {
      var n := a + cs[a].size;
      TrailStep(cs, lo, hi, a);
      TrailFrom(cs, lo, hi, n);
      assert Trail(cs, a, hi)[1..] == Trail(cs, n, hi);
    } else {
      forall b | b in cs ensures b < hi {
        assert Shaped(lo, hi, b, cs[b]);
      }
    }
  }

  /** Walking from chunk to chunk meets every chunk, and their sizes fill the space. */
  lemma {:induction false} TrailFills(cs: Chunks, lo: int, hi: int)
    requires Tiled(cs, lo, hi)
    ensures TrailSize(cs, Trail(cs, lo, hi)) == hi - lo
    ensures forall b :: b in cs <==> b in Trail(cs, lo, hi)
  {
    TrailFrom(cs, lo, hi, lo);
    forall b | b in cs ensures lo <= b {
      assert Shaped(lo, hi, b, cs[b]);
    }
  }

  lemma {:induction false} SplitTiled(cs: Chunks, lo: int, hi: int, p: int, nb: int, k1: Kind, k2: Kind)
    requires Tiled(cs, lo, hi) && p in cs
    requires MIN_CHUNK_SIZE <= nb && MIN_CHUNK_SIZE <= cs[p].size - nb
    ensures p + nb !in cs
    ensures Tiled(cs[p := Chunk(nb, k1)][p + nb := Chunk(cs[p].size - nb, k2)], lo, hi)
  {
    var cs' := cs[p := Chunk(nb, k1)][p + nb := Chunk(cs[p].size - nb, k2)];
    assert Linked(cs, hi, p);
    forall a, b | a in cs' && b in cs'
      ensures Apart(cs', a, b)
    {
      if a in cs && b in cs {
        assert Apart(cs, a, b);
      }
      if a in cs {
        assert Apart(cs, a, p) && Apart(cs, p, a);
      }
      if b in cs {
        assert Apart(cs, b, p) && Apart(cs, p, b);
      }
    }
    assert p + nb in cs ==> Apart(cs, p, p + nb);
    forall a | a in cs'
      ensures Linked(cs', hi, a)
    {
      if a in cs {
        assert Linked(cs, hi, a);
      }
    }
  }

  lemma {:induction false} MergeTiled(cs: Chunks, lo: int, hi: int, p: int, k: Kind)
    requires Tiled(cs, lo, hi) && p in cs && p + cs[p].size in cs
    ensures var n := p + cs[p].size;
            Tiled((cs - {n})[p := Chunk(cs[p].size + cs[n].size, k)], lo, hi)
  {
    var n := p + cs[p].size;
    var cs' := (cs - {n})[p := Chunk(cs[p].size + cs[n].size, k)];
    assert Linked(cs, hi, n);
    forall a, b | a in cs' && b in cs'
      ensures Apart(cs', a, b)
    {
      assert Apart(cs, a, b) && Apart(cs, n, b) && Apart(cs, p, n);
    }
    forall a | a in cs'
      ensures Linked(cs', hi, a)
    {
      MergeLinked(cs, lo, hi, p, k, a);
    }
  }

  lemma {:induction false} MergeLinked(cs: Chunks, lo: int, hi: int, p: int, k: Kind, a: int)
    requires Tiled(cs, lo, hi) && p in cs && p + cs[p].size in cs && a in cs && a != p + cs[p].size
    ensures var n := p + cs[p].size; Linked((cs - {n})[p := Chunk(cs[p].size + cs[n].size, k)], hi, a)
  {
    assert Linked(cs, hi, a) && Linked(cs, hi, p + cs[p].size);
    assert Apart(cs, a, p) && Apart(cs, p, a);
  }

  lemma {:induction false} KindTiled(cs: Chunks, lo: int, hi: int, p: int, k: Kind)
    requires Tiled(cs, lo, hi) && p in cs
    ensures Tiled(cs[p := Chunk(cs[p].size, k)], lo, hi)
  {
    var cs' := cs[p := Chunk(cs[p].size, k)];
    forall a | a in cs'
      ensures Linked(cs', hi, a)
    {
      assert Linked(cs, hi, a);
    }
    forall a, b | a in cs' && b in cs'
      ensures Apart(cs', a, b)
    {
      assert Apart(cs, a, b);
    }
  }

  /** A chunk carved from the bottom of the top chunk. */
  lemma {:induction false} GrowTiled(cs: Chunks, lo: int, hi: int, nb: int, k: Kind)
    requires Tiled(cs, lo, hi) && MIN_CHUNK_SIZE <= nb
    ensures hi !in cs
    ensures Tiled(cs[hi := Chunk(nb, k)], lo, hi + nb)
  {
    var cs' := cs[hi := Chunk(nb, k)];
    forall a | a in cs'
      ensures Linked(cs', hi + nb, a)
    {
      if a in cs {
        assert Linked(cs, hi, a);
      }
    }
    forall a, b | a in cs' && b in cs'
      ensures Apart(cs', a, b)
    {
      if a in cs && b in cs {
        assert Apart(cs, a, b);
      }
    }
  }

  /** The last chunk given back to the top chunk. */
  lemma {:induction false} DropTiled(cs: Chunks, lo: int, hi: int, p: int)
    requires Tiled(cs, lo, hi) && p in cs && p + cs[p].size == hi
    ensures Tiled(cs - {p}, lo, p)
  {
    var cs' := cs - {p};
    forall a | a in cs'
      ensures Shaped(lo, p, a, cs'[a]) && Linked(cs', p, a)
    {
      assert Linked(cs, hi, a);
      assert Apart(cs, a, p) && Apart(cs, p, a);
    }
    forall a, b | a in cs' && b in cs'
      ensures Apart(cs', a, b)
    {
      assert Apart(cs, a, b);
    }
  }

  /** Every chunk above the first, and the top chunk, directly follows some chunk. */
  lemma {:induction false} Predecessor(cs: Chunks, lo: int, hi: int, p: int, from: int) returns (a: int)
    requires Tiled(cs, lo, hi) && (p in cs || p == hi) && from in cs && from < p
    ensures a in cs && a + cs[a].size == p
    decreases p - from
  {
    a := from;
    assert Linked(cs, hi, from);
    if p in cs {
      assert Apart(cs, from, p);
    }
    if from + cs[from].size != p {
      a := Predecessor(cs, lo, hi, p, from + cs[from].size);
    }
  }

  // ----- Boundary tags -----

  /**
   * The head of the chunk at a, its foot when it is free, and the pinuse bit of the chunk
   * that follows it.
   */
  ghost predicate TagOk(mem: Memory, cs: Chunks, lo: int, top: int, a: int)
    requires a in cs
  {
    var c := cs[a];
    var n := a + c.size;
    c.kind != Limbo ==>
      && 0 <= a < n && n + 8 < |mem|
      && mem[a + 8].Head? && mem[a + 8].size == c.size && mem[a + 8].cinuse == (c.kind == Used)
      && (c.kind != Used ==> mem[n] == Val(c.size))
      && (c.kind != Used || a == lo ==> mem[a + 8].pinuse)
      && (n == top || (n in cs && cs[n].kind != Limbo) ==>
            mem[n + 8].Head? && mem[n + 8].pinuse == (c.kind == Used))
  }

  /** Room for the chunks, the top chunk and the space kept behind it. */
  ghost predicate Bounds(mem: Memory, lo: int, top: int, topsize: int) {
    STATIC_END <= lo && 0 < topsize && top + topsize + TOP_FOOT_SIZE <= |mem|
  }

  ghost predicate Tags(mem: Memory, cs: Chunks, lo: int, top: int, topsize: int) {
    && Bounds(mem, lo, top, topsize)
    && (forall a {:trigger TagOk(mem, cs, lo, top, a)} :: a in cs ==> TagOk(mem, cs, lo, top, a))
    && 0 <= top && mem[top + 8] == Head(topsize, true, false)
  }

  /** The chunk before p, if it is not in limbo, is in use. */
  ghost predicate AfterUsed(cs: Chunks, p: int) {
    forall a :: a in cs && a + cs[a].size == p && cs[a].kind != Limbo ==> cs[a].kind == Used
  }

  /** A chunk with its pinuse bit set follows no free chunk. */
  lemma {:induction false} PinuseMeans(mem: Memory, cs: Chunks, lo: int, top: int, topsize: int, p: int)
    requires Tiled(cs, lo, top) && Tags(mem, cs, lo, top, topsize)
    requires p == top || (p in cs && cs[p].kind != Limbo)
    requires mem[p + 8].Head? && mem[p + 8].pinuse
    ensures AfterUsed(cs, p)
  {
    forall a | a in cs && a + cs[a].size == p && cs[a].kind != Limbo
      ensures cs[a].kind == Used
    {
      assert TagOk(mem, cs, lo, top, a);
    }
  }

  /** Where a metadata word of the chunk at b cannot be. */
  lemma {:induction false} Placement(cs: Chunks, lo: int, hi: int, a: int, b: int)
    requires Tiled(cs, lo, hi) && a in cs && (b in cs || b == hi)
    ensures a < b ==> a + cs[a].size <= b
    ensures b < a && b in cs ==> b + cs[b].size <= a
    ensures b == hi ==> a < b
    ensures a + cs[a].size in cs || a + cs[a].size == hi
    ensures MIN_CHUNK_SIZE <= cs[a].size
  {
    assert Linked(cs, hi, a);
    if b in cs {
      assert Apart(cs, a, b) && Apart(cs, b, a);
    }
  }

  /** Set cinuse and pinuse of p, and pinuse of the chunk after it. */
  lemma {:induction false} UseWhole(mem: Memory, cs: Chunks, lo: int, top: int, topsize: int, p: int)
    requires Tiled(cs, lo, top) && Tags(mem, cs, lo, top, topsize)
    requires p in cs && cs[p].kind == Limbo && AfterUsed(cs, p)
    requires p + cs[p].size in cs && cs[p + cs[p].size].kind == Used
    ensures var n, s := p + cs[p].size, cs[p].size;
            0 <= p && n + 8 < |mem| && mem[n + 8].Head? &&
            Tags(mem[p + 8 := Head(s, true, true)][n + 8 := mem[n + 8].(pinuse := true)],
                 cs[p := Chunk(s, Used)], lo, top, topsize)
  {
    var n, s := p + cs[p].size, cs[p].size;
    assert TagOk(mem, cs, lo, top, n);
    Placement(cs, lo, top, n, top);
    Placement(cs, lo, top, p, n);
    var mem' := mem[p + 8 := Head(s, true, true)][n + 8 := mem[n + 8].(pinuse := true)];
    var cs' := cs[p := Chunk(s, Used)];
    forall a | a in cs'
      ensures TagOk(mem', cs', lo, top, a)
    {
      assert TagOk(mem, cs, lo, top, a);
      Placement(cs, lo, top, a, p);
      Placement(cs, lo, top, a, n);
    }
  }

  /** Split p, the front in use and the rest free. */
  lemma {:induction false} UseSplit(mem: Memory, cs: Chunks, lo: int, top: int, topsize: int, p: int, nb: int, k: Kind)
    requires Tiled(cs, lo, top) && Tags(mem, cs, lo, top, topsize)
    requires p in cs && cs[p].kind == Limbo && AfterUsed(cs, p)
    requires p + cs[p].size in cs && cs[p + cs[p].size].kind == Used
    requires mem[p + cs[p].size + 8].Head? && !mem[p + cs[p].size + 8].pinuse
    requires MIN_CHUNK_SIZE <= nb && MIN_CHUNK_SIZE <= cs[p].size - nb
    requires k != Used
    ensures var n, s, r := p + cs[p].size, cs[p].size, p + nb;
            0 <= p && n + 8 < |mem| &&
            Tags(mem[p + 8 := Head(nb, true, true)][r + 8 := Head(s - nb, true, false)][n := Val(s - nb)],
                 cs[p := Chunk(nb, Used)][r := Chunk(s - nb, k)], lo, top, topsize)
  {
    var n, s, r := p + cs[p].size, cs[p].size, p + nb;
    assert TagOk(mem, cs, lo, top, n);
    Placement(cs, lo, top, n, top);
    Placement(cs, lo, top, p, n);
    SplitTiled(cs, lo, top, p, nb, Used, k);
    var mem' := mem[p + 8 := Head(nb, true, true)][r + 8 := Head(s - nb, true, false)][n := Val(s - nb)];
    var cs' := cs[p := Chunk(nb, Used)][r := Chunk(s - nb, k)];
    assert TagOk(mem', cs', lo, top, p) && TagOk(mem', cs', lo, top, r);
    forall a | a in cs'
      ensures TagOk(mem', cs', lo, top, a)
    {
      if a in cs && a != p {
        SplitOther(mem, mem', cs, cs', lo, top, topsize, p, nb, a);
      }
    }
  }

  /** Splitting p and writing within its tags keeps the tags of another chunk. */
  lemma {:induction false} SplitOther(mem: Memory, mem': Memory, cs: Chunks, cs': Chunks, lo: int, top: int,
                                      topsize: int, p: int, nb: int, a: int)
    requires Tiled(cs, lo, top) && Tags(mem, cs, lo, top, topsize) && p in cs && a in cs && a != p && |mem'| == |mem|
    requires 0 < nb < cs[p].size && p + nb !in cs && p in cs' && p + nb in cs'
             && cs' == cs[p := cs'[p]][p + nb := cs'[p + nb]]
    requires forall x :: 0 <= x < |mem| && x != p + 8 && x != p + nb + 8 && x != p + cs[p].size ==> mem'[x] == mem[x]
    requires AfterUsed(cs, p) || cs[p].kind == Used
    requires 0 <= p && p + 8 < |mem| && mem'[p + 8].Head?
    requires if cs[p].kind == Used then mem[p + 8].Head? && mem'[p + 8].pinuse == mem[p + 8].pinuse
             else mem'[p + 8].pinuse
    ensures TagOk(mem', cs', lo, top, a)
  {
    assert TagOk(mem, cs, lo, top, a);
    Placement(cs, lo, top, p, a);
    Placement(cs, lo, top, a, p);
    Placement(cs, lo, top, a, p + cs[p].size);
  }

  /** set_free_with_pinuse: p becomes free and the chunk after it learns so. */
  lemma {:induction false} FreeWhole(mem: Memory, cs: Chunks, lo: int, top: int, topsize: int, p: int, k: Kind)
    requires Tiled(cs, lo, top) && Tags(mem, cs, lo, top, topsize)
    requires p in cs && cs[p].kind == Limbo && AfterUsed(cs, p)
    requires p + cs[p].size in cs && cs[p + cs[p].size].kind == Used
    requires k != Used
    ensures var n, s := p + cs[p].size, cs[p].size;
            0 <= p && n + 8 < |mem| && mem[n + 8].Head? &&
            Tags(mem[n + 8 := mem[n + 8].(pinuse := false)][p + 8 := Head(s, true, false)][n := Val(s)],
                 cs[p := Chunk(s, k)], lo, top, topsize)
  {
    var n, s := p + cs[p].size, cs[p].size;
    assert TagOk(mem, cs, lo, top, n);
    Placement(cs, lo, top, n, top);
    Placement(cs, lo, top, p, n);
    var mem' := mem[n + 8 := mem[n + 8].(pinuse := false)][p + 8 := Head(s, true, false)][n := Val(s)];
    var cs' := cs[p := Chunk(s, k)];
    forall a | a in cs'
      ensures TagOk(mem', cs', lo, top, a)
    {
      assert TagOk(mem, cs, lo, top, a);
      Placement(cs, lo, top, a, p);
      Placement(cs, lo, top, a, n);
    }
  }

  /** The pinuse bit of p tells the truth about the chunk before it. */
  ghost predicate PinOk(mem: Memory, cs: Chunks, lo: int, p: int) {
    && 0 <= p && p + 8 < |mem| && mem[p + 8].Head? && (p == lo ==> mem[p + 8].pinuse)
    && (forall a :: a in cs && a + cs[a].size == p && cs[a].kind != Limbo ==> mem[p + 8].pinuse == (cs[a].kind == Used))
  }

  /** set_inuse: cinuse and size of p, and pinuse of the chunk after it. */
  lemma {:induction false} Reuse(mem: Memory, cs: Chunks, lo: int, top: int, topsize: int, p: int)
    requires Tiled(cs, lo, top) && Tags(mem, cs, lo, top, topsize)
    requires p in cs && cs[p].kind == Limbo && PinOk(mem, cs, lo, p)
    requires p + cs[p].size in cs && cs[p + cs[p].size].kind == Used
    ensures var n, s := p + cs[p].size, cs[p].size;
            0 <= p && n + 8 < |mem| && mem[n + 8].Head? &&
            Tags(mem[p + 8 := Head(s, mem[p + 8].pinuse, true)][n + 8 := mem[n + 8].(pinuse := true)],
                 cs[p := Chunk(s, Used)], lo, top, topsize)
  {
    var n, s := p + cs[p].size, cs[p].size;
    assert TagOk(mem, cs, lo, top, n);
    Placement(cs, lo, top, n, top);
    Placement(cs, lo, top, p, n);
    var mem' := mem[p + 8 := Head(s, mem[p + 8].pinuse, true)][n + 8 := mem[n + 8].(pinuse := true)];
    var cs' := cs[p := Chunk(s, Used)];
    forall a | a in cs'
      ensures TagOk(mem', cs', lo, top, a)
    {
      assert TagOk(mem, cs, lo, top, a);
      Placement(cs, lo, top, a, p);
      Placement(cs, lo, top, a, n);
    }
  }

  /** A chunk in use becomes two. */
  lemma {:induction false} Divide(mem: Memory, cs: Chunks, lo: int, top: int, topsize: int, p: int, nb: int)
    requires Tiled(cs, lo, top) && Tags(mem, cs, lo, top, topsize) && p in cs && cs[p].kind == Used
    requires MIN_CHUNK_SIZE <= nb && MIN_CHUNK_SIZE <= cs[p].size - nb
    ensures var s, r := cs[p].size, p + nb;
            0 <= p && p + s + 8 < |mem| && mem[p + 8].Head? &&
            Tags(mem[p + 8 := Head(nb, mem[p + 8].pinuse, true)][r + 8 := Head(s - nb, true, true)],
                 cs[p := Chunk(nb, Used)][r := Chunk(s - nb, Used)], lo, top, topsize)
  {
    var s, r := cs[p].size, p + nb;
    assert TagOk(mem, cs, lo, top, p);
    Placement(cs, lo, top, p, top);
    SplitTiled(cs, lo, top, p, nb, Used, Used);
    var mem' := mem[p + 8 := Head(nb, mem[p + 8].pinuse, true)][r + 8 := Head(s - nb, true, true)];
    var cs' := cs[p := Chunk(nb, Used)][r := Chunk(s - nb, Used)];
    forall a | a in cs'
      ensures TagOk(mem', cs', lo, top, a)
    {
      if a in cs && a != p {
        SplitOther(mem, mem', cs, cs', lo, top, topsize, p, nb, a);
      }
    }
  }

  /** The last chunk, in use, grows into top. */
  lemma {:induction false} GrowLast(mem: Memory, cs: Chunks, lo: int, top: int, topsize: int, p: int, nb: int)
    requires Tiled(cs, lo, top) && Tags(mem, cs, lo, top, topsize) && p in cs && cs[p].kind == Used
    requires p + cs[p].size == top && cs[p].size <= nb < cs[p].size + topsize
    ensures 0 <= p && p + 8 < |mem| && mem[p + 8].Head? && Tiled(cs[p := Chunk(nb, Used)], lo, p + nb)
    ensures var tsize := cs[p].size + topsize - nb;
            p + nb + 8 < |mem| &&
            Tags(mem[p + 8 := Head(nb, mem[p + 8].pinuse, true)][p + nb + 8 := Head(tsize, true, false)],
                 cs[p := Chunk(nb, Used)], lo, p + nb, tsize)
  {
    var tsize := cs[p].size + topsize - nb;
    assert TagOk(mem, cs, lo, top, p);
    Placement(cs, lo, top, p, top);
    var mem' := mem[p + 8 := Head(nb, mem[p + 8].pinuse, true)][p + nb + 8 := Head(tsize, true, false)];
    var cs' := cs[p := Chunk(nb, Used)];
    DropTiled(cs, lo, top, p);
    GrowTiled(cs - {p}, lo, p, nb, Used);
    assert (cs - {p})[p := Chunk(nb, Used)] == cs';
    forall a | a in cs'
      ensures TagOk(mem', cs', lo, p + nb, a)
    {
      assert TagOk(mem, cs, lo, top, a);
      Placement(cs, lo, top, a, p);
      Placement(cs, lo, top, a, top);
    }
  }

  /** Only bytes handed out for the chunk q have changed. */
  ghost predicate PayloadWrites(mem: Memory, mem': Memory, q: int, c: Chunk) {
    |mem'| == |mem| && forall x :: 0 <= x < |mem| && !(q + 16 <= x < q + c.size + 8) ==> mem'[x] == mem[x]
  }

  /** What its owner writes to a chunk in use leaves the tags alone. */
  lemma {:induction false} PayloadTags(mem: Memory, mem': Memory, cs: Chunks, lo: int, top: int, topsize: int, q: int)
    requires Tiled(cs, lo, top) && Tags(mem, cs, lo, top, topsize) && q in cs && cs[q].kind == Used
    requires PayloadWrites(mem, mem', q, cs[q])
    ensures Tags(mem', cs, lo, top, topsize)
  {
    Placement(cs, lo, top, q, top);
    forall a | a in cs
      ensures TagOk(mem', cs, lo, top, a)
    {
      assert TagOk(mem, cs, lo, top, a);
      Placement(cs, lo, top, a, q);
      Placement(cs, lo, top, a, q + cs[q].size);
    }
  }

  /** Carve a chunk in use from the bottom of top. */
  lemma {:induction false} TopSplit(mem: Memory, cs: Chunks, lo: int, top: int, topsize: int, nb: int)
    requires Tiled(cs, lo, top) && Tags(mem, cs, lo, top, topsize)
    requires AfterUsed(cs, top) && MIN_CHUNK_SIZE <= nb < topsize
    ensures Tags(mem[top + nb + 8 := Head(topsize - nb, true, false)][top + 8 := Head(nb, true, true)],
                 cs[top := Chunk(nb, Used)], lo, top + nb, topsize - nb)
  {
    var mem' := mem[top + nb + 8 := Head(topsize - nb, true, false)][top + 8 := Head(nb, true, true)];
    var cs' := cs[top := Chunk(nb, Used)];
    GrowTiled(cs, lo, top, nb, Used);
    forall a | a in cs'
      ensures TagOk(mem', cs', lo, top + nb, a)
    {
      if a in cs {
        assert TagOk(mem, cs, lo, top, a);
        Placement(cs, lo, top, a, top);
      }
    }
  }

  /** Give the last chunk back to top. */
  lemma {:induction false} TopMerge(mem: Memory, cs: Chunks, lo: int, top: int, topsize: int, p: int)
    requires Tiled(cs, lo, top) && Tags(mem, cs, lo, top, topsize)
    requires p in cs && cs[p].kind == Limbo && AfterUsed(cs, p) && p + cs[p].size == top
    ensures 0 <= p &&
            Tags(mem[p + 8 := Head(topsize + cs[p].size, true, false)], cs - {p}, lo, p, topsize + cs[p].size)
  {
    var mem' := mem[p + 8 := Head(topsize + cs[p].size, true, false)];
    var cs' := cs - {p};
    forall a | a in cs'
      ensures TagOk(mem', cs', lo, p, a)
    {
      assert TagOk(mem, cs, lo, top, a);
      Placement(cs, lo, top, a, p);
    }
  }

  // ----- What may change where -----

  /** Address x is inside a chunk that is not in use, clear of its boundary tags. */
  ghost predicate Interior(cs: Chunks, x: int) {
    exists a :: a in cs && cs[a].kind != Used && a + 16 <= x < a + cs[a].size
  }

  /** Apart from malloc_state, only words inside chunks not in use have changed. */
  ghost predicate InteriorOnly(mem: Memory, mem': Memory, cs: Chunks) {
    |mem'| == |mem| && forall x {:trigger InteriorAt(mem, mem', cs, x)} :: STATIC_END <= x < |mem| ==>
      InteriorAt(mem, mem', cs, x)
  }

  ghost predicate InteriorAt(mem: Memory, mem': Memory, cs: Chunks, x: int)
    requires 0 <= x < |mem| == |mem'|
  {
    mem'[x] != mem[x] ==> Interior(cs, x)
  }

  lemma {:induction false} TagWordsOutside(cs: Chunks, lo: int, hi: int, s: int, d: int)
    requires Tiled(cs, lo, hi) && (s in cs || s == hi) && 0 <= d < 16
    ensures !Interior(cs, s + d)
  {
    forall a | a in cs && cs[a].kind != Used
      ensures !(a + 16 <= s + d < a + cs[a].size)
    {
      Placement(cs, lo, hi, a, s);
    }
  }

  lemma {:induction false} TagWordKept(mem: Memory, mem': Memory, cs: Chunks, lo: int, hi: int, s: int, d: int)
    requires Tiled(cs, lo, hi) && InteriorOnly(mem, mem', cs) && (s in cs || s == hi) && 0 <= d < 16
    requires STATIC_END <= s && s + d < |mem|
    ensures mem'[s + d] == mem[s + d]
  {
    TagWordsOutside(cs, lo, hi, s, d);
    assert InteriorAt(mem, mem', cs, s + d);
  }

  /** Changes inside free chunks leave every boundary tag alone. */
  lemma {:induction false} TagsInterior(mem: Memory, mem': Memory, cs: Chunks, cs': Chunks, lo: int, top: int,
                                        topsize: int)
    requires Tiled(cs, lo, top) && Tags(mem, cs', lo, top, topsize) && InteriorOnly(mem, mem', cs)
    requires cs'.Keys == cs.Keys && forall a :: a in cs ==> cs'[a].size == cs[a].size
    ensures Tags(mem', cs', lo, top, topsize)
  {
    forall a | a in cs'
      ensures TagOk(mem', cs', lo, top, a)
    {
      assert TagOk(mem, cs', lo, top, a);
      Placement(cs, lo, top, a, top);
      TagWordKept(mem, mem', cs, lo, top, a, 8);
      TagWordKept(mem, mem', cs, lo, top, a + cs[a].size, 0);
      TagWordKept(mem, mem', cs, lo, top, a + cs[a].size, 8);
    }
    TagWordKept(mem, mem', cs, lo, top, top, 8);
  }

  /** The bytes handed out for the chunk at u: up to and including the foot word. */
  ghost predicate SamePayload(mem: Memory, mem': Memory, u: int, c: Chunk) {
    |mem| <= |mem'| && forall x :: u + 16 <= x < u + c.size + 8 && 0 <= x < |mem| ==> mem'[x] == mem[x]
  }

  /** Chunks in use stay in use with the same bytes. */
  ghost predicate UsersKept(mem: Memory, mem': Memory, cs: Chunks, cs': Chunks) {
    forall u {:trigger SamePayload(mem, mem', u, cs[u])} :: u in cs && cs[u].kind == Used ==>
      u in cs' && cs'[u] == cs[u] && SamePayload(mem, mem', u, cs[u])
  }

  lemma {:induction false} PayloadInterior(mem: Memory, mem': Memory, cs: Chunks, lo: int, hi: int, u: int)
    requires Tiled(cs, lo, hi) && InteriorOnly(mem, mem', cs) && u in cs && cs[u].kind == Used && STATIC_END <= lo
    ensures SamePayload(mem, mem', u, cs[u])
  {
    forall x | u + 16 <= x < u + cs[u].size + 8 && 0 <= x < |mem|
      ensures mem'[x] == mem[x]
    {
      forall a | a in cs && cs[a].kind != Used
        ensures !(a + 16 <= x < a + cs[a].size)
      {
        Placement(cs, lo, hi, a, u);
        Placement(cs, lo, hi, u, a);
      }
      assert InteriorAt(mem, mem', cs, x);
    }
  }

  /** Putting a chunk into limbo only drops requirements on the tags. */
  lemma {:induction false} LimboTags(mem: Memory, cs: Chunks, lo: int, top: int, topsize: int, p: int)
    requires Tags(mem, cs, lo, top, topsize) && p in cs
    ensures Tags(mem, cs[p := Chunk(cs[p].size, Limbo)], lo, top, topsize)
  {
    var cs' := cs[p := Chunk(cs[p].size, Limbo)];
    forall a | a in cs'
      ensures TagOk(mem, cs', lo, top, a)
    {
      assert TagOk(mem, cs, lo, top, a);
    }
  }

  /** The words inside a chunk that are not boundary tags. */
  ghost predicate SameInside(mem: Memory, mem': Memory, a: int, c: Chunk) {
    |mem| <= |mem'| && forall x :: a + 16 <= x < a + c.size && 0 <= x < |mem| ==> mem'[x] == mem[x]
  }

  /** Everything that changed lies between the head of p and the end of the tags after it. */
  ghost predicate SpanWrites(mem: Memory, mem': Memory, p: int, size: int) {
    |mem'| == |mem| && forall x :: 0 <= x < |mem| && (x < p + 8 || p + size + 16 <= x) ==> mem'[x] == mem[x]
  }

  /** Writes around a chunk that nobody uses reach no user's bytes and no other free chunk's inside. */
  lemma {:induction false} SpanKeeps(mem: Memory, mem': Memory, cs: Chunks, lo: int, hi: int, p: int, size: int, a: int)
    requires Tiled(cs, lo, hi) && SpanWrites(mem, mem', p, size) && a in cs
    requires (p in cs && size <= cs[p].size && a != p) || p == hi
    ensures SamePayload(mem, mem', a, cs[a]) && SameInside(mem, mem', a, cs[a])
  {
    Placement(cs, lo, hi, a, p);
    if p in cs {
      Placement(cs, lo, hi, p, a);
    }
  }

  lemma {:induction false} SpanUsers(mem: Memory, mem': Memory, cs: Chunks, cs': Chunks, lo: int, hi: int, p: int,
                                     size: int)
    requires Tiled(cs, lo, hi) && SpanWrites(mem, mem', p, size)
    requires (p in cs && size <= cs[p].size && cs[p].kind != Used) || p == hi
    requires forall a :: a in cs && cs[a].kind == Used ==> a in cs' && cs'[a] == cs[a]
    ensures UsersKept(mem, mem', cs, cs')
  {
    forall u | u in cs && cs[u].kind == Used
      ensures u in cs' && cs'[u] == cs[u] && SamePayload(mem, mem', u, cs[u])
    {
      SpanKeeps(mem, mem', cs, lo, hi, p, size, u);
    }
  }

  lemma {:induction false} UsersTrans(m0: Memory, m1: Memory, m2: Memory, c0: Chunks, c1: Chunks, c2: Chunks)
    requires UsersKept(m0, m1, c0, c1) && UsersKept(m1, m2, c1, c2) && |m0| <= |m1| <= |m2|
    ensures UsersKept(m0, m2, c0, c2)
  {
    forall u | u in c0 && c0[u].kind == Used
      ensures u in c2 && c2[u] == c0[u] && SamePayload(m0, m2, u, c0[u])
    {
      assert SamePayload(m0, m1, u, c0[u]);
      assert SamePayload(m1, m2, u, c1[u]);
    }
  }

  lemma {:induction false} UsersInterior(mem: Memory, mem': Memory, cs: Chunks, cs': Chunks, lo: int, hi: int)
    requires Tiled(cs, lo, hi) && InteriorOnly(mem, mem', cs) && STATIC_END <= lo
    requires forall a :: a in cs && cs[a].kind == Used ==> a in cs' && cs'[a] == cs[a]
    ensures UsersKept(mem, mem', cs, cs')
  {
    forall u | u in cs && cs[u].kind == Used
      ensures u in cs' && cs'[u] == cs[u] && SamePayload(mem, mem', u, cs[u])
    {
      PayloadInterior(mem, mem', cs, lo, hi, u);
    }
  }
}
