/**
 * The allocator: malloc_state, the heap memory below it, and the operations on them, in
 * the configuration with one contiguous segment that only grows.
 */
module Dlmalloc {
  import opened Layout
  import opened Rings
  import opened Tries
  import opened TreeLinks
  import opened Bins
  import opened TreeBins
  import opened Words
  import TreeIndex
  import opened HeapSteps
  import opened Shares
  import opened BestFit
  import Alignment

  /** Unsigned 64-bit subtraction. */
  function Sub64(a: int, b: int): int {
    if a >= b then a - b else a - b + TreeIndex.W64
  }

  const W32: int := 0x1_0000_0000

  /** HALF_MAX_SIZE_T; addresses are below it. */
  const HALF: int := TreeIndex.W64 / 2 - 1

  const MIN_REQUEST: int := 23
  const MAX_SMALL_REQUEST: int := 232
  const MAX_REQUEST: int := TreeIndex.W64 - 128
  const SYS_ALLOC_PADDING: int := 96
  const PAGE_SIZE: int := 4096

  /** pad_request and request2size; requests too large to represent ask for MAX_SIZE_T. */
  function ChunkFor(bytes: int): (nb: int)
    requires 0 <= bytes < TreeIndex.W64
    ensures bytes < MAX_REQUEST ==> nb % 16 == 0 && MIN_CHUNK_SIZE <= nb && bytes + 8 <= nb
    ensures bytes < MAX_REQUEST ==> nb < bytes + 24 || nb == MIN_CHUNK_SIZE
    ensures bytes <= MAX_SMALL_REQUEST <==> nb < MIN_LARGE_SIZE
    ensures nb < TreeIndex.W64
  {
    if bytes >= MAX_REQUEST then TreeIndex.W64 - 1
    else if bytes < MIN_REQUEST then MIN_CHUNK_SIZE
    else (bytes + 23) / 16 * 16
  }

  /** granularity_align and page_align: up to a multiple of the page size, wrapping around. */
  function PageAlign(s: int): (r: int)
    requires 0 <= s
    ensures 0 <= r < TreeIndex.W64
    ensures s + PAGE_SIZE <= TreeIndex.W64 ==> s <= r < s + PAGE_SIZE
    ensures TreeIndex.W64 < s + PAGE_SIZE && s < TreeIndex.W64 ==> r == 0
  {
    ((s + PAGE_SIZE - 1) % TreeIndex.W64) / PAGE_SIZE * PAGE_SIZE
  }

  lemma {:induction false} PageAligned(s: int)
    requires 0 <= s
    ensures PageAlign(s) % PAGE_SIZE == 0 && PageAlign(s) % 8 == 0
  {
    Pages(((s + PAGE_SIZE - 1) % TreeIndex.W64) / PAGE_SIZE);
  }

  lemma {:induction false} Pages(k: int)
    ensures (k * PAGE_SIZE) % PAGE_SIZE == 0 && (k * PAGE_SIZE) % 8 == 0
  {
    assert k * PAGE_SIZE == 8 * (512 * k);
  }

  /** asize: what sys_alloc needs for a chunk of size nb; not above nb if it wraps around. */
  function SysSize(nb: int): (asize: int)
    requires 0 <= nb < TreeIndex.W64
    ensures 0 <= asize
    ensures asize <= nb || nb + SYS_ALLOC_PADDING <= asize < nb + SYS_ALLOC_PADDING + PAGE_SIZE
    ensures nb < HALF ==> nb < asize
  {
    assert (nb + SYS_ALLOC_PADDING) % TreeIndex.W64 ==
           if nb + SYS_ALLOC_PADDING < TreeIndex.W64 then nb + SYS_ALLOC_PADDING
           else nb + SYS_ALLOC_PADDING - TreeIndex.W64;
    PageAlign((nb + SYS_ALLOC_PADDING) % TreeIndex.W64)
  }

  /**
   * What sys_alloc asks MORECORE for: the first time, enough to end on a page boundary;
   * later only what top lacks; without contiguity, all of it.
   */
  function Ask(contiguous: bool, top: int, base: int, topsize: int, nb: int): (n: int)
    requires 0 <= topsize <= nb < TreeIndex.W64 && nb < SysSize(nb) && 0 <= base <= HALF
    ensures nb - topsize + SYS_ALLOC_PADDING <= n < nb + SYS_ALLOC_PADDING + 2 * PAGE_SIZE
    ensures contiguous && top != 0 ==> n % PAGE_SIZE == 0 && n < nb - topsize + SYS_ALLOC_PADDING + PAGE_SIZE
  {
    if contiguous && top == 0 then SysSize(nb) + (PageAlign(base) - base)
    else if contiguous then PageAlign(nb - topsize + SYS_ALLOC_PADDING)
    else SysSize(nb)
  }

  /** Requests to MORECORE are multiples of a word, and too large only if all of it is. */
  lemma {:induction false} AskAligned(contiguous: bool, top: int, base: int, topsize: int, nb: int)
    requires 0 <= topsize <= nb < TreeIndex.W64 && nb < SysSize(nb) && 0 <= base <= HALF && base % 8 == 0
    ensures Ask(contiguous, top, base, topsize, nb) % 8 == 0 && SysSize(nb) % 8 == 0
    ensures HALF <= Ask(contiguous, top, base, topsize, nb) ==> HALF <= SysSize(nb)
  {
    PageAligned((nb + SYS_ALLOC_PADDING) % TreeIndex.W64);
    if contiguous && top == 0 {
      PagePad(base);
      AskStart(PageAlign(base) - base, SysSize(nb));
    } else if contiguous {
      PageAligned(nb - topsize + SYS_ALLOC_PADDING);
      SmallerPage(nb - topsize + SYS_ALLOC_PADDING, SysSize(nb));
    }
  }

  lemma {:induction false} SmallerPage(s: int, asize: int)
    requires 0 <= s <= asize < TreeIndex.W64 && asize % PAGE_SIZE == 0
    ensures s <= PageAlign(s) <= asize
  {
    PageAligned(s);
    var k := asize / PAGE_SIZE;
    var j := PageAlign(s) / PAGE_SIZE;
    assert asize == k * PAGE_SIZE && PageAlign(s) == j * PAGE_SIZE;
    assert TreeIndex.W64 == 0x10_0000_0000_0000 * PAGE_SIZE;
    assert k < 0x10_0000_0000_0000;
  }

  /** The bytes up to the next page boundary. */
  lemma {:induction false} PagePad(base: int)
    requires 0 <= base <= HALF && base % 8 == 0
    ensures 0 <= PageAlign(base) - base <= 4088 && (PageAlign(base) - base) % 8 == 0
    ensures base % PAGE_SIZE == 0 ==> PageAlign(base) == base
  {
    PageAligned(base);
  }

  lemma {:induction false} AskStart(pad: int, asize: int)
    requires 0 <= pad <= 4088 && pad % 8 == 0 && asize % 8 == 0 && asize % PAGE_SIZE == 0
    ensures (asize + pad) % 8 == 0
    ensures HALF <= asize + pad ==> HALF <= asize
  {
    var k := asize / PAGE_SIZE;
    assert asize == 4096 * k;
    assert HALF + 1 == 4096 * 0x8_0000_0000_0000;
  }

  datatype Growth = Grown | Refused | Hung | Short

  /**
   * How a call can end.  Hang: the arena is used up, or a request for it could not be
   * met, and the call never returns.  Truncated: MORECORE was asked for 2^32 bytes or
   * more and delivered only the remainder modulo 2^32.
   */
  datatype Outcome = Block(addr: int) | Null | Hang | Truncated

  /** A block; a request that the arena can never meet; one that is cut to 32 bits; a null pointer. */
  datatype Fate = Served | Starved | Cut | Denied

  ghost predicate Meets(r: Outcome, fate: Fate) {
    && (r.Block? <==> fate.Served?) && (r.Hang? <==> fate.Starved?)
    && (r.Truncated? <==> fate.Cut?) && (r.Null? <==> fate.Denied?)
  }

  /** What the allocator and the arena believe about where memory starts and ends. */
  datatype Extent = Extent(end: int, topEnd: int, chCtr: int, leastAddr: int, segBase: int, segSize: int,
    footprint: int,
                           arenaBase: int, arenaSize: int)

  /** The segment, top and the arena agree on where memory ends. */
  ghost predicate Agree(e: Extent) {
    && e.end % 8 == 0
    && e.topEnd + TOP_FOOT_SIZE == e.end == e.arenaBase + e.chCtr
    && 0 <= e.chCtr <= e.arenaSize < TreeIndex.SPAN && e.arenaBase + e.arenaSize <= HALF
    && e.segBase == e.leastAddr == e.arenaBase && e.segBase + e.segSize == e.end && e.footprint == e.segSize
  }

  ghost predicate Measured(e: Extent) {
    true
  }

  /** Agree, spelled so that a proof sees what it means only where it mentions Measured. */
  ghost predicate Fits(e: Extent) {
    forall u {:trigger Measured(u)} :: u == e ==> Agree(u)
  }

  /** The header of small bin i points to itself. */
  ghost predicate SelfLinked(mem: Memory, i: int)
    requires 0 <= i < NBINS && STATIC_END <= |mem|
  {
    mem[SmallBin(i) + FD] == Val(SmallBin(i)) && mem[SmallBin(i) + BK] == Val(SmallBin(i))
  }

  class MallocState {
    /** All of memory: the bin arrays of malloc_state, then the arena obtained so far. */
    var mem: Memory
    var smallmap: Word
    var treemap: Word
    var dv: int
    var dvsize: int
    var top: int
    var topsize: int
    var leastAddr: int
    var segBase: int
    var segSize: int
    var footprint: int
    var contiguous: bool

    /** The arena that MORECORE hands out and how much of it is gone. */
    const arenaBase: int
    const arenaSize: int
    var chCtr: int

    /** The chunks between the first one and top, and what the bins hold. */
    ghost var lo: int
    ghost var cs: Chunks
    ghost var sb: seq<seq<int>>
    ghost var tb: seq<Trie>

    ghost predicate BinsValid()
      reads this
    {
      Placed(mem, cs, lo, top) && leastAddr <= lo && BinsOk(mem, cs, sb, tb, smallmap, treemap)
    }

    // ----- Small bins -----

    /** insert_small_chunk */
    method InsertSmall(p: int, s: int)
      requires BinsValid() && p in cs && cs[p].kind != Binned && cs[p].kind != Used
      requires cs[p].size == s && s % 8 == 0 && s < MIN_LARGE_SIZE
      modifies this`mem, this`smallmap, this`cs, this`sb
      ensures BinsValid() && InteriorOnly(old(mem), mem, old(cs))
      ensures cs == old(cs)[p := Chunk(s, Binned)]
      ensures |old(sb)| == NBINS && sb == old(sb)[SmallIndex(s) := [p] + old(sb)[SmallIndex(s)]]
    {
      var i := SmallIndex(s);
      Placement(cs, lo, top, p, top);
      assert 0 <= i < NBINS && s == 8 * i;
      InsertSmallStep(mem, cs, lo, top, sb, tb, smallmap, treemap, p, i);
      var b := SmallBin(i);
      var f := b;
      if !smallmap[i] {
        smallmap := smallmap[i := true];
      } else {
        f := mem[b + FD].v;
      }
      LinkSmall(b, f, p, i);
      assert smallmap == old(smallmap)[i := true];
      sb := sb[i := [p] + sb[i]];
      cs := cs[p := Chunk(s, Binned)];
    }

    /** The four stores that put p between b and f. */
    method LinkSmall(b: int, f: int, p: int, ghost i: int)
      requires 0 <= i < NBINS && b == SmallBin(i) && STATIC_END <= |mem|
      requires 0 <= f && f + BK < |mem| && 0 <= p && p + BK < |mem|
      modifies this`mem
      ensures mem == InsertSmallMem(old(mem), i, f, p)
    {
      mem := mem[b + FD := Val(p)];
      mem := mem[f + BK := Val(p)];
      mem := mem[p + FD := Val(f)];
      mem := mem[p + BK := Val(b)];
    }

    /** unlink_small_chunk; the source aborts if the links around p are broken. */
    method UnlinkSmall(p: int, s: int)
      requires BinsValid() && p in cs && cs[p] == Chunk(s, Binned) && s % 8 == 0 && s < MIN_LARGE_SIZE
      modifies this`mem, this`smallmap, this`cs, this`sb
      ensures BinsValid() && InteriorOnly(old(mem), mem, old(cs))
      ensures cs == old(cs)[p := Chunk(s, Limbo)]
    {
      var i := SmallIndex(s);
      Placement(cs, lo, top, p, top);
      assert s == 8 * i;
      ghost var j, k := WhereSmall(mem, cs, sb, tb, smallmap, treemap, p);
      UnlinkSmallStep(mem, cs, lo, top, sb, tb, smallmap, treemap, i, k);
      var f := mem[p + FD].v;
      var b := mem[p + BK].v;
      ghost var mem' := UnlinkSmallMem(mem, f, b);
      assert InteriorOnly(mem, mem', cs);
      if f == SmallBin(i) || (leastAddr <= f && mem[f + BK] == Val(p)) {
        if b == f {
          smallmap := smallmap[i := false];
        } else if b == SmallBin(i) || (leastAddr <= b && mem[b + FD] == Val(p)) {
          mem := mem[f + BK := Val(b)];
          mem := mem[b + FD := Val(f)];
        } else {
          assert false;
        }
      } else {
        assert false;
      }
      assert smallmap == old(smallmap)[i := |sb[i]| != 1];
      assert mem == mem';
      sb := sb[i := RemoveAt(sb[i], k)];
      cs := cs[p := Chunk(s, Limbo)];
    }

    /** unlink_first_small_chunk: take the first chunk of the nonempty bin i. */
    method UnlinkFirstSmall(i: int) returns (p: int)
      requires BinsValid() && 0 <= i < NBINS && smallmap[i]
      modifies this`mem, this`smallmap, this`cs, this`sb
      ensures BinsValid() && InteriorOnly(old(mem), mem, old(cs))
      ensures p in old(cs) && old(cs)[p] == Chunk(8 * i, Binned)
      ensures cs == old(cs)[p := Chunk(8 * i, Limbo)] && |old(sb)| == NBINS && [p] + sb[i] == old(sb)[i]
    {
      MarkedSmall(mem, cs, sb, tb, smallmap, treemap, i);
      UnlinkSmallStep(mem, cs, lo, top, sb, tb, smallmap, treemap, i, 0);
      var b := SmallBin(i);
      p := mem[b + FD].v;
      var f := mem[p + FD].v;
      if b == f {
        smallmap := smallmap[i := false];
      } else if leastAddr <= f && mem[f + BK] == Val(p) {
        mem := mem[f + BK := Val(b)];
        mem := mem[b + FD := Val(f)];
      } else {
        assert false;
      }
      assert smallmap == old(smallmap)[i := |sb[i]| != 1] && mem == UnlinkSmallMem(old(mem), f, b);
      sb := sb[i := RemoveAt(sb[i], 0)];
      cs := cs[p := Chunk(8 * i, Limbo)];
    }

    // ----- Treebins -----

    ghost predicate Shape()
      reads this
    {
      BinsValid() && Tags(mem, cs, lo, top, topsize)
    }

    /** The chunk linked at position q of treebin i, as the head and link words show it. */
    lemma {:induction false} NodeWords(i: int, q: Path)
      requires Shape() && 0 <= i < NBINS && q in tb[i]
      ensures tb[i][q] != [] && tb[i][q][0] in cs
      ensures var t := tb[i][q][0];
              && STATIC_END <= t && t + 64 <= |mem| && mem[t + 8].Head? && mem[t + 8].size == SizeAt(cs, tb[i], q)
              && mem[t + LEFT] == Val(HeadAt(tb[i], q + [false])) && mem[t + RIGHT] == Val(HeadAt(tb[i], q + [true]))
      ensures forall b: bool :: q + [b] in tb[i] <==> HeadAt(tb[i], q + [b]) != 0
    {
      assert Looked(mem, cs, sb, tb, smallmap, treemap);
      assert TreeOk(mem, cs, i, tb[i]);
      assert NodeOk(mem, i, tb[i], q) && PosOk(cs, i, tb[i], q);
      assert TagOk(mem, cs, lo, top, tb[i][q][0]);
      forall b: bool | q + [b] in tb[i]
        ensures HeadAt(tb[i], q + [b]) != 0
      {
        assert NodeOk(mem, i, tb[i], q + [b]);
      }
    }

    /**
     * The walk of insert_large_chunk: stop at a chunk of size s, or at the empty child
     * word where a chunk of size s belongs.
     */
    method FindSlot(i: int, s: int) returns (t: int, c: int, equal: bool, ghost q: Path)
      requires Shape() && TreeIndex.MIN_LARGE_SIZE <= s < TreeIndex.SPAN && TreeIndex.Index(s) == i
      requires 0 <= i < NBINS && treemap[i]
      ensures q in tb[i] && tb[i][q] != [] && t == tb[i][q][0] && t in cs && Spells(i, s, q)
      ensures equal ==> cs[t].size == s
      ensures !equal ==> c == t + (if TreeIndex.Bit(i, s, |q|) then RIGHT else LEFT)
      ensures !equal ==> q + [TreeIndex.Bit(i, s, |q|)] !in tb[i] && Spells(i, s, q + [TreeIndex.Bit(i, s, |q|)])
      ensures !equal ==> forall r :: r in tb[i] && (r < q || r == q) ==>
                tb[i][r] != [] && tb[i][r][0] in cs && SizeAt(cs, tb[i], r) != s
    {
      assert Looked(mem, cs, sb, tb, smallmap, treemap);
      q := [];
      assert TreeOk(mem, cs, i, tb[i]);
      t := mem[BinCell(i)].v;
      var k := TreeIndex.Key(i, s, 0);
      NodeWords(i, q);
      c, equal := 0, mem[t + 8].size == s;
      while !equal
        invariant q in tb[i] && tb[i][q] != [] && t == tb[i][q][0] && t in cs && Spells(i, s, q)
        invariant equal <==> cs[t].size == s
        invariant k == TreeIndex.Key(i, s, |q|)
        invariant Passed(cs, tb[i], q, s)
        decreases 64 - |q|
      {
        NodeWords(i, q);
        PathGoesOn(cs, i, tb[i], q, s);
        SpellsOn(i, s, q, k);
        ghost var b := TreeIndex.Bit(i, s, |q|);
        c := t + (if k >= TreeIndex.W64 / 2 then RIGHT else LEFT);
        k := (2 * k) % TreeIndex.W64;
        if mem[c] == Val(0) {
          return;
        }
        t := mem[c].v;
        PassedOn(cs, tb[i], q, b, s);
        q := q + [b];
        NodeWords(i, q);
        equal := mem[t + 8].size == s;
      }
    }

    /** insert_large_chunk; the head and foot of x are set, nothing refers to it yet. */
    method InsertLarge(x: int, s: int)
      requires BinsValid() && x in cs && cs[x] == Chunk(s, Limbo) && TreeIndex.MIN_LARGE_SIZE <= s < TreeIndex.SPAN
      requires Tags(mem, cs[x := Chunk(s, Binned)], lo, top, topsize)
      modifies this`mem, this`treemap, this`cs, this`tb
      ensures Shape() && InteriorOnly(old(mem), mem, old(cs))
      ensures cs == old(cs)[x := Chunk(s, Binned)]
    {
      LimboTags(mem, cs[x := Chunk(s, Binned)], lo, top, topsize, x);
      assert cs[x := Chunk(s, Binned)][x := Chunk(s, Limbo)] == cs;
      TreeIndex.Bracket(s);
      var i := TreeIndex.Index(s);
      assert Looked(mem, cs, sb, tb, smallmap, treemap);
      assert TreeOk(mem, cs, i, tb[i]);
      if !treemap[i] {
        EmptyTrie(cs, i, tb[i]);
        AttachAt(i, BinCell(i), BinCell(i), x, []);
      } else {
        var t, c, equal;
        ghost var q;
        t, c, equal, q := FindSlot(i, s);
        if !equal {
          ghost var b := TreeIndex.Bit(i, s, |q|);
          SlotIsCell(i, q, b);
          forall r | r in tb[i] && r < q + [b]
            ensures r < q || r == q
          {
            BelowStep(q, b, r);
          }
          AttachAt(i, c, t, x, q + [b]);
        } else {
          ChainAt(i, t, x, q);
        }
      }
      TagsInterior(old(mem), mem, old(cs), cs, lo, top, topsize);
    }

    lemma {:induction false} SlotIsCell(i: int, q: Path, b: bool)
      requires BinsValid() && 0 <= i < NBINS && q in tb[i]
      ensures Up(q + [b]) == q && q + [b] != []
      ensures ParentAt(i, tb[i], q + [b]) == HeadAt(tb[i], q)
      ensures ChildCell(i, tb[i], q + [b]) == HeadAt(tb[i], q) + (if b then RIGHT else LEFT)
    {
      UpStep(q, b);
    }

    /** Make x a leaf below `cell`, the word of `parent` for position q. */
    method AttachAt(i: int, cell: int, parent: int, x: int, ghost q: Path)
      requires BinsValid() && Entering(mem, cs, lo, top, sb, tb, smallmap, treemap, i, x)
      requires Spells(i, cs[x].size, q) && q !in tb[i] && (q == [] ==> tb[i] == map[]) && (q != [] ==> Up(q) in tb[i])
      requires forall r :: r in tb[i] && r < q ==>
                 tb[i][r] != [] && tb[i][r][0] in cs && SizeAt(cs, tb[i], r) != cs[x].size
      requires cell == ChildCell(i, tb[i], q) && parent == ParentAt(i, tb[i], q)
      requires q != [] ==> treemap[i] && cell != BinCell(i)
      modifies this`mem, this`treemap, this`cs, this`tb
      ensures BinsValid() && InteriorOnly(old(mem), mem, old(cs))
      ensures cs == old(cs)[x := Chunk(old(cs)[x].size, Binned)]
    {
      AttachStep(mem, cs, lo, top, sb, tb, smallmap, treemap, i, q, x);
      ghost var mem' := AttachMem(mem, i, cell, parent, x);
      mem := mem[x + INDEX := Val(i)];
      mem := mem[x + LEFT := Val(0)];
      mem := mem[x + RIGHT := Val(0)];
      if cell == BinCell(i) {
        treemap := treemap[i := true];
      }
      mem := mem[cell := Val(x)];
      mem := mem[x + PARENT := Val(parent)];
      mem := mem[x + BK := Val(x)];
      mem := mem[x + FD := Val(x)];
      assert mem == mem' && treemap == old(treemap)[i := true];
      tb := tb[i := tb[i][q := [x]]];
      cs := cs[x := Chunk(cs[x].size, Binned)];
    }

    /** Chain x behind the equal-sized chunk t at position q. */
    method ChainAt(i: int, t: int, x: int, ghost q: Path)
      requires BinsValid() && Entering(mem, cs, lo, top, sb, tb, smallmap, treemap, i, x)
      requires q in tb[i] && tb[i][q] != [] && t == tb[i][q][0] && t in cs && cs[t].size == cs[x].size
      modifies this`mem, this`cs, this`tb
      ensures BinsValid() && InteriorOnly(old(mem), mem, old(cs))
      ensures cs == old(cs)[x := Chunk(old(cs)[x].size, Binned)]
    {
      ChainStep(mem, cs, lo, top, sb, tb, smallmap, treemap, i, q, x);
      mem := mem[x + INDEX := Val(i)];
      mem := mem[x + LEFT := Val(0)];
      mem := mem[x + RIGHT := Val(0)];
      var f := mem[t + FD].v;
      ghost var mem' := ChainMem(old(mem), i, t, f, x);
      mem := mem[f + BK := Val(x)];
      mem := mem[t + FD := Val(x)];
      mem := mem[x + FD := Val(f)];
      mem := mem[x + BK := Val(t)];
      mem := mem[x + PARENT := Val(0)];
      assert mem == mem';
      tb := tb[i := tb[i][q := InsertSecond(tb[i][q], x)]];
      cs := cs[x := Chunk(cs[x].size, Binned)];
    }

    /** The rightmost leaf below x, and the word that points to it. */
    method RightmostLeaf(x: int, ghost i: int, ghost q: Path) returns (r: int, rp: int, ghost rq: Path)
      requires Shape() && 0 <= i < NBINS && q in tb[i] && tb[i][q] != [] && x == tb[i][q][0]
      requires q + [false] in tb[i] || q + [true] in tb[i]
      ensures rq in tb[i] && q < rq && rq + [false] !in tb[i] && rq + [true] !in tb[i]
      ensures tb[i][rq] != [] && r == tb[i][rq][0] && rp == ChildCell(i, tb[i], rq)
    {
      assert Looked(mem, cs, sb, tb, smallmap, treemap);
      assert TreeOk(mem, cs, i, tb[i]);
      NodeWords(i, q);
      rp := x + RIGHT;
      ghost var b := true;
      if mem[rp] == Val(0) {
        rp := x + LEFT;
        b := false;
      }
      r := mem[rp].v;
      rq := q + [b];
      SlotIsCell(i, q, b);
      NodeWords(i, rq);
      while mem[r + RIGHT] != Val(0) || mem[r + LEFT] != Val(0)
        invariant rq in tb[i] && q < rq && tb[i][rq] != [] && r == tb[i][rq][0] && rp == ChildCell(i, tb[i], rq)
        invariant STATIC_END <= r && r + 64 <= |mem|
        invariant mem[r + LEFT] == Val(HeadAt(tb[i], rq + [false])) && mem[r + RIGHT] == Val(HeadAt(tb[i], rq + [true]))
        invariant forall b: bool :: rq + [b] in tb[i] <==> HeadAt(tb[i], rq + [b]) != 0
        decreases 64 - |rq|
      {
        b := true;
        rp := r + RIGHT;
        if mem[rp] == Val(0) {
          rp := r + LEFT;
          b := false;
        }
        r := mem[rp].v;
        SlotIsCell(i, rq, b);
        rq := rq + [b];
        NodeWords(i, rq);
        DepthBound(cs, i, tb[i], rq);
      }
    }

    /**
     * The last part of unlink_large_chunk: whatever pointed to x points to r, which takes
     * over the children of x; or to nothing if r is null.
     */
    method Relink(x: int, r: int, xp: int, ghost i: int, ghost t: Trie, ghost q: Path)
      requires Placed(mem, cs, lo, top) && Unlinkable(mem, cs, i, t, q) && |treemap| == NBINS && leastAddr <= lo
      requires x == HeadAt(t, q) && xp == ParentAt(i, t, q)
      requires r != 0 ==> 0 <= r && r + 64 <= |mem| && ClearOf(r, x)
      modifies this`mem, this`treemap
      ensures r != 0 ==> mem == ReplacedMem(old(mem), i, t, q, r) && treemap == old(treemap)
      ensures r == 0 ==> mem == old(mem)[ChildCell(i, t, q) := Val(0)]
      ensures r == 0 ==> treemap == if q == [] then old(treemap)[i := false] else old(treemap)
    {
      RelinkWords(mem, cs, lo, top, i, t, q);
      var idx := mem[x + INDEX].v;
      var cell := BinCell(idx);
      if mem[cell] == Val(x) {
        if r == 0 {
          treemap := treemap[idx := false];
        }
      } else if leastAddr <= xp {
        cell := xp + (if mem[xp + LEFT] == Val(x) then LEFT else RIGHT);
      } else {
        assert false;
      }
      assert cell == ChildCell(i, t, q);
      mem := mem[cell := Val(r)];
      if r != 0 {
        TakeOver(x, r, xp, HeadAt(t, q + [false]), HeadAt(t, q + [true]));
      }
    }

    /** Give r the parent and the children of x. */
    method TakeOver(x: int, r: int, xp: int, ghost left: int, ghost right: int)
      requires 0 <= x && x + 64 <= |mem| && 0 <= r && r + 64 <= |mem| && ClearOf(r, x)
      requires mem[x + LEFT] == Val(left) && mem[x + RIGHT] == Val(right)
      requires 0 <= left && left + 64 <= |mem| && 0 <= right && right + 64 <= |mem|
      requires (left != 0 ==> ClearOf(left, x)) && (right != 0 ==> ClearOf(right, x))
      modifies this`mem
      ensures mem == TakeOverMem(old(mem), r, xp, left, right)
    {
      mem := mem[r + PARENT := Val(xp)];
      var c0 := mem[x + LEFT].v;
      if c0 != 0 {
        mem := mem[r + LEFT := Val(c0)];
        mem := mem[c0 + PARENT := Val(r)];
      }
      var c1 := mem[x + RIGHT].v;
      if c1 != 0 {
        mem := mem[r + RIGHT := Val(c1)];
        mem := mem[c1 + PARENT := Val(r)];
      }
    }

    /** unlink_large_chunk; the source aborts if the ring links around x are broken. */
    method UnlinkLarge(x: int)
      requires Shape() && x in cs && cs[x].kind == Binned && MIN_LARGE_SIZE <= cs[x].size
      modifies this`mem, this`treemap, this`cs, this`tb
      ensures Shape() && InteriorOnly(old(mem), mem, old(cs))
      ensures cs == old(cs)[x := Chunk(old(cs)[x].size, Limbo)]
    {
      assert Looked(mem, cs, sb, tb, smallmap, treemap);
      ghost var i := TreeIndex.Index(cs[x].size);
      assert Listed(cs, sb, tb, x);
      ghost var q, k :| MemberAt(tb[i], q, k, x);
      MemberWords(i, q, k);
      var xp := mem[x + PARENT].v;
      if mem[x + BK].v != x {
        var f := mem[x + FD].v;
        var r := mem[x + BK].v;
        if leastAddr <= f && mem[f + BK] == Val(x) && mem[r + FD] == Val(x) {
          if xp != 0 {
            UnlinkSuccessor(x, f, r, xp, i, q);
          } else {
            UnlinkChained(f, r, i, q, k);
          }
        } else {
          assert false;
        }
      } else {
        UnlinkLast(x, xp, i, q);
      }
      LimboTags(old(mem), old(cs), lo, top, topsize, x);
      TagsInterior(old(mem), mem, old(cs), cs, lo, top, topsize);
    }

    /** What the words of member k of position q show. */
    lemma {:induction false} MemberWords(i: int, q: Path, k: int)
      requires Shape() && 0 <= i < NBINS && q in tb[i] && 0 <= k < |tb[i][q]|
      ensures var c := tb[i][q];
              var x, f, b := c[k], Next(c, k), c[if k > 0 then k - 1 else |c| - 1];
              && STATIC_END <= x && x + 64 <= |mem| && mem[x + FD] == Val(f) && mem[x + BK] == Val(b)
              && lo <= f && f + 64 <= |mem| && lo <= b && b + 64 <= |mem|
              && mem[f + BK] == Val(x) && mem[b + FD] == Val(x)
              && (b != x <==> |c| > 1) && (|c| > 1 ==> ClearOf(b, x))
              && mem[x + PARENT].Val? && (mem[x + PARENT].v != 0 <==> k == 0)
              && (k == 0 ==> mem[x + PARENT].v == ParentAt(i, tb[i], q))
    {
      MemberRing(i, q, k);
      MemberParent(i, q, k);
    }

    lemma {:induction false} MemberRing(i: int, q: Path, k: int)
      requires Shape() && 0 <= i < NBINS && q in tb[i] && 0 <= k < |tb[i][q]|
      ensures var c := tb[i][q];
              var x, f, b := c[k], Next(c, k), c[if k > 0 then k - 1 else |c| - 1];
              && STATIC_END <= x && x + 64 <= |mem| && mem[x + FD] == Val(f) && mem[x + BK] == Val(b)
              && lo <= f && f + 64 <= |mem| && lo <= b && b + 64 <= |mem|
              && mem[f + BK] == Val(x) && mem[b + FD] == Val(x)
              && (b != x <==> |c| > 1) && (|c| > 1 ==> ClearOf(b, x))
    {
      assert Looked(mem, cs, sb, tb, smallmap, treemap);
      var t, c := tb[i], tb[i][q];
      var m := if k > 0 then k - 1 else |c| - 1;
      var n := if k + 1 < |c| then k + 1 else 0;
      assert TreeOk(mem, cs, i, t);
      assert NodeOk(mem, i, t, q) && PosOk(cs, i, t, q);
      assert MemberOk(mem, i, c[k], k > 0) && MemberOk(mem, i, c[m], m > 0) && MemberOk(mem, i, c[n], n > 0);
      assert Ring(mem, c);
      assert LinkOk(mem, c, k) && LinkOk(mem, c, m);
      MemberApart(i, q, k, m);
      MemberApart(i, q, k, n);
    }

    /** Two members of a ring are chunks of the heap that do not overlap. */
    lemma {:induction false} MemberApart(i: int, q: Path, k: int, m: int)
      requires Shape() && 0 <= i < NBINS && q in tb[i] && 0 <= k < |tb[i][q]| && 0 <= m < |tb[i][q]|
      ensures lo <= tb[i][q][m] && (k != m ==> ClearOf(tb[i][q][m], tb[i][q][k]))
    {
      assert Looked(mem, cs, sb, tb, smallmap, treemap);
      var c := tb[i][q];
      assert TreeOk(mem, cs, i, tb[i]);
      assert PosOk(cs, i, tb[i], q);
      Placement(cs, lo, top, c[m], top);
      if m != k {
        FarApart(cs, lo, top, c[m], c[k]);
      }
    }

    lemma {:induction false} MemberParent(i: int, q: Path, k: int)
      requires Shape() && 0 <= i < NBINS && q in tb[i] && 0 <= k < |tb[i][q]|
      ensures var x := tb[i][q][k];
              && STATIC_END <= x && x + 64 <= |mem| && mem[x + PARENT].Val? && (mem[x + PARENT].v != 0 <==> k == 0)
              && (k == 0 ==> mem[x + PARENT].v == ParentAt(i, tb[i], q))
    {
      assert Looked(mem, cs, sb, tb, smallmap, treemap);
      var t, c := tb[i], tb[i][q];
      assert TreeOk(mem, cs, i, t);
      assert NodeOk(mem, i, t, q) && PosOk(cs, i, t, q);
      assert MemberOk(mem, i, c[k], k > 0);
      if k == 0 && q != [] {
        assert Up(q) in t by { assert Closed(t, q); }
        assert NodeOk(mem, i, t, Up(q));
      }
    }

    /** A chunk chained behind another of its size. */
    method UnlinkChained(f: int, r: int, ghost i: int, ghost q: Path, ghost k: int)
      requires BinsValid() && Leaving(mem, cs, lo, top, sb, tb, smallmap, treemap, i, q, k) && k > 0
      requires f == Next(tb[i][q], k) && r == tb[i][q][k - 1]
      modifies this`mem, this`cs, this`tb
      ensures BinsValid() && InteriorOnly(old(mem), mem, old(cs))
      ensures var x := old(tb)[i][q][k]; x in old(cs) && cs == old(cs)[x := Chunk(old(cs)[x].size, Limbo)]
    {
      UnchainStep(mem, cs, lo, top, sb, tb, smallmap, treemap, i, q, k);
      ghost var mem' := UnchainMem(mem, f, r);
      mem := mem[f + BK := Val(r)];
      mem := mem[r + FD := Val(f)];
      assert mem == mem';
      ghost var x := tb[i][q][k];
      cs := cs[x := Chunk(cs[x].size, Limbo)];
      tb := tb[i := tb[i][q := RemoveAt(tb[i][q], k)]];
    }

    /** The first of several equal-sized chunks; the last one becomes the tree node. */
    method UnlinkSuccessor(x: int, f: int, r: int, xp: int, ghost i: int, ghost q: Path)
      requires BinsValid() && Leaving(mem, cs, lo, top, sb, tb, smallmap, treemap, i, q, 0) && |tb[i][q]| > 1
      requires x == tb[i][q][0] && f == tb[i][q][1] && r == tb[i][q][|tb[i][q]| - 1]
      requires xp == ParentAt(i, tb[i], q) && ClearOf(r, x) && r != 0
      modifies this`mem, this`treemap, this`cs, this`tb
      ensures BinsValid() && InteriorOnly(old(mem), mem, old(cs))
      ensures x in old(cs) && cs == old(cs)[x := Chunk(old(cs)[x].size, Limbo)]
    {
      SucceedStep(mem, cs, lo, top, sb, tb, smallmap, treemap, i, q);
      SameHeads(tb[i], q, i);
      ghost var t1 := tb[i][q := [x]];
      mem := mem[f + BK := Val(r)];
      mem := mem[r + FD := Val(f)];
      assert mem == UnchainMem(old(mem), f, r);
      Relink(x, r, xp, i, t1, q);
      tb := tb[i := tb[i][q := RemoveFirst(tb[i][q])]];
      cs := cs[x := Chunk(cs[x].size, Limbo)];
    }

    /** The last chunk of its size: a leaf below it takes its place, if there is one. */
    method UnlinkLast(x: int, xp: int, ghost i: int, ghost q: Path)
      requires Shape() && Leaving(mem, cs, lo, top, sb, tb, smallmap, treemap, i, q, 0) && |tb[i][q]| == 1
      requires x == tb[i][q][0] && xp == ParentAt(i, tb[i], q)
      modifies this`mem, this`treemap, this`cs, this`tb
      ensures BinsValid() && InteriorOnly(old(mem), mem, old(cs))
      ensures x in old(cs) && cs == old(cs)[x := Chunk(old(cs)[x].size, Limbo)]
    {
      assert Looked(mem, cs, sb, tb, smallmap, treemap);
      NodeWords(i, q);
      if mem[x + RIGHT] != Val(0) || mem[x + LEFT] != Val(0) {
        var r, rp;
        ghost var rq;
        r, rp, rq := RightmostLeaf(x, i, q);
        UnlinkPromoting(x, r, rp, xp, i, q, rq);
      } else {
        DropStep(mem, cs, lo, top, sb, tb, smallmap, treemap, i, q);
        assert TreeOk(mem, cs, i, tb[i]);
        RootPresent(cs, i, tb[i], q);
        Relink(x, 0, xp, i, tb[i], q);
        assert treemap == old(treemap)[i := q != []];
        tb := tb[i := tb[i] - {q}];
        cs := cs[x := Chunk(cs[x].size, Limbo)];
      }
    }

    method UnlinkPromoting(x: int, r: int, rp: int, xp: int, ghost i: int, ghost q: Path, ghost rq: Path)
      requires BinsValid() && Leaving(mem, cs, lo, top, sb, tb, smallmap, treemap, i, q, 0) && |tb[i][q]| == 1
      requires x == tb[i][q][0] && xp == ParentAt(i, tb[i], q)
      requires rq in tb[i] && q < rq && rq + [false] !in tb[i] && rq + [true] !in tb[i]
      requires tb[i][rq] != [] && r == tb[i][rq][0] && rp == ChildCell(i, tb[i], rq)
      modifies this`mem, this`treemap, this`cs, this`tb
      ensures BinsValid() && InteriorOnly(old(mem), mem, old(cs))
      ensures x in old(cs) && cs == old(cs)[x := Chunk(old(cs)[x].size, Limbo)]
    {
      assert Looked(mem, cs, sb, tb, smallmap, treemap);
      PromoteStep(mem, cs, lo, top, sb, tb, smallmap, treemap, i, q, rq);
      assert TreeOk(mem, cs, i, tb[i]);
      Elsewhere(cs, lo, top, i, tb[i], rq, q, 0);
      assert NodeOk(mem, i, tb[i], rq);
      ghost var t1 := tb[i] - {rq};
      assert xp == ParentAt(i, t1, q) && x == HeadAt(t1, q);
      mem := mem[rp := Val(0)];
      Relink(x, r, xp, i, t1, q);
      tb := tb[i := t1[q := tb[i][rq]]];
      cs := cs[x := Chunk(cs[x].size, Limbo)];
    }

    // ----- Best fit -----

    /** The chunk v is a tree node that fits with rsize bytes to spare, or there is none yet. */
    ghost predicate BestSoFar(nb: int, v: int, rsize: int)
      reads this
    {
      && (v == 0 ==> rsize == TreeIndex.W64 - nb)
      && (v != 0 ==> v in cs && cs[v].kind == Binned && MIN_LARGE_SIZE <= cs[v].size && cs[v].size == nb + rsize)
      && 0 <= rsize <= TreeIndex.W64 - nb
    }

    /** What is at and below q fits, unless the request is beyond what any bin holds. */
    ghost predicate FitOrHuge(i: int, nb: int, q: Path)
      requires 0 <= i < |tb|
      reads this
    {
      TreeIndex.SPAN <= nb || AllFit(cs, i, tb[i], nb, q)
    }

    /** The node t, at q, if it fits more tightly than v does. */
    method Weigh(i: int, nb: int, t: int, v0: int, rsize0: int, ghost q: Path) returns (v: int, rsize: int)
      requires Shape() && 0 < nb < TreeIndex.W64 && 0 <= i < NBINS && q in tb[i] && t == HeadAt(tb[i], q)
      requires BestSoFar(nb, v0, rsize0) && (v0 != 0 ==> InBin(cs, i, v0)) && TrieOk(cs, i, tb[i])
      ensures BestSoFar(nb, v, rsize) && (v != 0 ==> InBin(cs, i, v)) && rsize <= rsize0
      ensures PosOk(cs, i, tb[i], q) && (SizeAt(cs, tb[i], q) < nb || nb + rsize <= SizeAt(cs, tb[i], q))
    {
      NodeWords(i, q);
      assert PosOk(cs, i, tb[i], q);
      v, rsize := v0, rsize0;
      var trem := Sub64(mem[t + 8].size, nb);
      if trem < rsize {
        v, rsize := t, trem;
      }
    }

    /** The first loop of tmalloc_large, down the path of the requested size in its own bin. */
    method WalkToSize(i: int, nb: int) returns (v: int, rsize: int, t: int, ghost q: Path)
      requires Shape() && TreeIndex.MIN_LARGE_SIZE <= nb < TreeIndex.W64 && TreeIndex.Index(nb) == i
      requires 0 <= i < NBINS && treemap[i]
      ensures BestSoFar(nb, v, rsize) && (v != 0 ==> InBin(cs, i, v))
      ensures AllCovered(cs, i, tb[i], nb, rsize, t != 0, q)
      ensures t != 0 ==> t == HeadAt(tb[i], q) && (rsize == 0 || FitOrHuge(i, nb, q))
    {
      assert Looked(mem, cs, sb, tb, smallmap, treemap);
      assert TreeOk(mem, cs, i, tb[i]);
      v, rsize, q := 0, TreeIndex.W64 - nb, [];
      t := mem[BinCell(i)].v;
      var sizebits := TreeIndex.Key(i, nb, 0);
      var rst := 0;
      ghost var d := -1;
      while true
        invariant q in tb[i] && t == HeadAt(tb[i], q) && Spells(i, nb, q) && sizebits == TreeIndex.Key(i, nb, |q|)
        invariant BestSoFar(nb, v, rsize) && (v != 0 ==> InBin(cs, i, v)) && Visited(cs, i, tb[i], nb, rsize, q)
        invariant DeepestFork(tb[i], q, d) && rst == if d >= 0 then HeadAt(tb[i], ForkAt(q, d)) else 0
        decreases 64 - |q|
      {
        ghost var b, before := TreeIndex.Bit(i, nb, |q|), rsize;
        v, rsize := Weigh(i, nb, t, v, rsize, q);
        if rsize == 0 {
          ExactCovers(cs, i, tb[i], nb, true, q);
          return;
        }
        WalkStep(cs, i, tb[i], nb, before, rsize, q, d, b);
        SpellsOn(i, nb, q, sizebits);
        ghost var forked := !b && q + [true] in tb[i];
        var rt;
        t, rt := Descend(t, sizebits >= TreeIndex.W64 / 2, i, q);
        if rt != 0 && rt != t {
          rst := rt;
        }
        q, d := q + [b], if forked then |q| else d;
        if t == 0 {
          t := rst;
          q := WalkEnds(i, nb, rsize, q, d, rst);
          return;
        }
        sizebits := (2 * sizebits) % TreeIndex.W64;
        DepthBound(cs, i, tb[i], q);
      }
    }

    /** The second loop of tmalloc_large: smallest of a subtree along its leftmost path. */
    method LeftmostWalk(i: int, nb: int, t0: int, v0: int, rsize0: int, ghost q0: Path) returns (v: int, rsize: int)
      requires Shape() && 0 < nb < TreeIndex.W64 && 0 <= i < NBINS && BestSoFar(nb, v0, rsize0)
      requires AllCovered(cs, i, tb[i], nb, rsize0, t0 != 0, q0)
      requires t0 != 0 ==> t0 == HeadAt(tb[i], q0) && (rsize0 == 0 || FitOrHuge(i, nb, q0))
      ensures BestSoFar(nb, v, rsize) && rsize <= rsize0 && Beaten(cs, i, tb[i], nb, rsize)
      ensures (v == v0 || InBin(cs, i, v)) && (t0 != 0 && nb < TreeIndex.SPAN ==> v != 0)
    {
      assert Looked(mem, cs, sb, tb, smallmap, treemap);
      var t := t0;
      v, rsize := v0, rsize0;
      ghost var q := q0;
      while t != 0
        invariant BestSoFar(nb, v, rsize) && rsize <= rsize0 && AllCovered(cs, i, tb[i], nb, rsize, t != 0, q)
        invariant t != 0 ==> t == HeadAt(tb[i], q) && (rsize == 0 || FitOrHuge(i, nb, q))
        invariant v == v0 || InBin(cs, i, v)
        decreases if t != 0 then 65 - |q| else 0
      {
        NodeWords(i, q);
        assert PosOk(cs, i, tb[i], q);
        DepthBound(cs, i, tb[i], q);
        var trem := Sub64(mem[t + 8].size, nb);
        if trem < rsize {
          CoveredBetter(cs, i, tb[i], nb, rsize, trem, true, q);
          rsize, v := trem, t;
        }
        t := LeftmostChild(t, i, q);
        LeftmostOn(i, nb, rsize, q);
        q := LeftmostStep(tb[i], q);
        if t != 0 {
          DepthBound(cs, i, tb[i], q);
        }
      }
      CoveredBeaten(cs, i, tb[i], nb, rsize, q);
      if t0 != 0 {
        assert PosOk(cs, i, tb[i], q0);
      }
    }

    /** leftmost_child */
    method LeftmostChild(t: int, ghost i: int, ghost q: Path) returns (child: int)
      requires Shape() && 0 <= i < NBINS && q in tb[i] && t == HeadAt(tb[i], q)
      ensures child == HeadAt(tb[i], LeftmostStep(tb[i], q))
      ensures child != 0 <==> LeftmostStep(tb[i], q) in tb[i]
    {
      assert Looked(mem, cs, sb, tb, smallmap, treemap);
      NodeWords(i, q);
      child := if mem[t + LEFT] != Val(0) then mem[t + LEFT].v else mem[t + RIGHT].v;
    }

    lemma {:induction false} LeftmostOn(i: int, nb: int, rsize: int, q: Path)
      requires Shape() && 0 <= i < NBINS && AllCovered(cs, i, tb[i], nb, rsize, true, q)
      requires rsize == 0 || TreeIndex.SPAN <= nb ||
               (AllFit(cs, i, tb[i], nb, q) && PosOk(cs, i, tb[i], q) && nb + rsize <= SizeAt(cs, tb[i], q))
      ensures var q' := LeftmostStep(tb[i], q);
              && AllCovered(cs, i, tb[i], nb, rsize, q' in tb[i], q')
              && (rsize == 0 || FitOrHuge(i, nb, q'))
    {
      assert Looked(mem, cs, sb, tb, smallmap, treemap);
      if TreeIndex.SPAN <= nb {
        HugeCovers(cs, i, tb[i], nb, rsize, LeftmostStep(tb[i], q) in tb[i], LeftmostStep(tb[i], q));
      } else if rsize == 0 {
        ExactCovers(cs, i, tb[i], nb, LeftmostStep(tb[i], q) in tb[i], LeftmostStep(tb[i], q));
      } else {
        LeftmostAllCovers(cs, i, tb[i], nb, rsize, q);
        AllFitBelow(cs, i, tb[i], nb, q, LeftmostStep(tb[i], q) != q + [false]);
        assert LeftmostStep(tb[i], q) == q + [LeftmostStep(tb[i], q) != q + [false]];
      }
    }

    /** Every chunk in a treebin, seen from the chunk. */
    lemma {:induction false} WhereLarge(a: int) returns (j: int, p: Path)
      requires Shape() && a in cs && cs[a].kind == Binned && MIN_LARGE_SIZE <= cs[a].size
      ensures 0 <= j < NBINS && j == TreeIndex.Index(cs[a].size) && p in tb[j] && treemap[j]
      ensures PosOk(cs, j, tb[j], p) && SizeAt(cs, tb[j], p) == cs[a].size
    {
      assert Looked(mem, cs, sb, tb, smallmap, treemap);
      assert Listed(cs, sb, tb, a);
      j := TreeIndex.Index(cs[a].size);
      var k;
      p, k :| MemberAt(tb[j], p, k, a);
      assert TreeOk(mem, cs, j, tb[j]);
      assert PosOk(cs, j, tb[j], p);
      RootPresent(cs, j, tb[j], p);
    }

    /** Nothing in any treebin fits nb better than the best of the bins searched. */
    ghost predicate BestOfAll(nb: int, rsize: int)
      reads this
    {
      forall a :: a in cs && cs[a].kind == Binned && MIN_LARGE_SIZE <= cs[a].size ==>
        cs[a].size < nb || nb + rsize <= cs[a].size
    }

    /** The search of tmalloc_large. */
    method BestLarge(nb: int) returns (v: int, rsize: int)
      requires Shape() && TreeIndex.MIN_LARGE_SIZE <= nb < TreeIndex.W64
      ensures BestSoFar(nb, v, rsize) && BestOfAll(nb, rsize)
    {
      assert Looked(mem, cs, sb, tb, smallmap, treemap);
      TreeIndex.IndexBelow(nb);
      var idx := TreeIndex.Index(nb);
      assert TreeOk(mem, cs, idx, tb[idx]);
      v, rsize := 0, TreeIndex.W64 - nb;
      var t := mem[BinCell(idx)].v;
      ghost var q: Path := [];
      if t != 0 {
        assert treemap[idx];
        v, rsize, t, q := WalkToSize(idx, nb);
      } else {
        RootWord(idx);
        EmptyTrie(cs, idx, tb[idx]);
      }
      var bin := idx;
      if t == 0 {
        CoveredBeaten(cs, idx, tb[idx], nb, rsize, q);
        if v == 0 {
          if AnyAbove(treemap, idx) {
            bin := FirstAbove(treemap, idx);
            RootWord(bin);
            t := mem[BinCell(bin)].v;
            q := [];
            assert TreeOk(mem, cs, bin, tb[bin]);
            RootCovers(cs, bin, tb[bin], nb, rsize);
            if nb < TreeIndex.SPAN {
              HigherBinFits(bin, nb);
            }
          }
        }
      }
      v, rsize := LeftmostWalk(bin, nb, t, v, rsize, q);
      GlobalBest(nb, idx, bin, v, rsize);
    }

    lemma {:induction false} HigherBinFits(i: int, nb: int)
      requires Shape() && TreeIndex.MIN_LARGE_SIZE <= nb < TreeIndex.SPAN && 0 <= i < NBINS && TreeIndex.Index(nb) < i
      ensures AllFit(cs, i, tb[i], nb, [])
    {
      assert Looked(mem, cs, sb, tb, smallmap, treemap);
      assert TreeOk(mem, cs, i, tb[i]);
      forall p | p in tb[i]
        ensures PosOk(cs, i, tb[i], p) && nb <= SizeAt(cs, tb[i], p)
      {
        assert PosOk(cs, i, tb[i], p);
        BinOrder(nb, SizeAt(cs, tb[i], p));
      }
    }

    /** The best of the one bin searched is the best of all bins. */
    lemma {:induction false} GlobalBest(nb: int, idx: int, bin: int, v: int, rsize: int)
      requires Shape() && TreeIndex.MIN_LARGE_SIZE <= nb < TreeIndex.W64 && idx == TreeIndex.Index(nb)
      requires 0 <= idx <= bin < NBINS && BestSoFar(nb, v, rsize) && (v != 0 ==> InBin(cs, bin, v))
      requires Beaten(cs, bin, tb[bin], nb, rsize)
      requires bin != idx ==> Beaten(cs, idx, tb[idx], nb, TreeIndex.W64 - nb)
      requires forall j :: idx < j < bin ==> !treemap[j]
      requires v == 0 && nb < TreeIndex.SPAN ==> forall j :: bin < j < NBINS ==> !treemap[j]
      ensures BestOfAll(nb, rsize)
    {
      assert Looked(mem, cs, sb, tb, smallmap, treemap);
      forall a | a in cs && cs[a].kind == Binned && MIN_LARGE_SIZE <= cs[a].size
        ensures cs[a].size < nb || nb + rsize <= cs[a].size
      {
        var j, p := WhereLarge(a);
        if TreeIndex.SPAN <= nb {
          assert cs[a].size < nb;
        } else if j < idx {
          BinOrder(cs[a].size, nb);
        } else if j > bin {
          BinOrder(cs[v].size, cs[a].size);
        } else {
          assert PosOk(cs, j, tb[j], p);
        }
      }
    }

    lemma {:induction false} RootWord(i: int)
      requires Shape() && 0 <= i < NBINS
      ensures mem[BinCell(i)] == Val(HeadAt(tb[i], [])) && (treemap[i] <==> HeadAt(tb[i], []) != 0)
    {
      assert Looked(mem, cs, sb, tb, smallmap, treemap);
      assert TreeOk(mem, cs, i, tb[i]);
      if [] in tb[i] {
        assert NodeOk(mem, i, tb[i], []);
      }
    }

    /** Ran off the path: what is left to search is behind the deepest fork. */
    lemma {:induction false} WalkEnds(i: int, nb: int, rsize: int, q: Path, d: int, rst: int) returns (start: Path)
      requires Shape() && TreeIndex.MIN_LARGE_SIZE <= nb < TreeIndex.W64 && TreeIndex.Index(nb) == i && 0 <= i < NBINS
      requires q !in tb[i] && Spells(i, nb, q) && DeepestFork(tb[i], q, d) && Visited(cs, i, tb[i], nb, rsize, q)
      requires rst == if d >= 0 then HeadAt(tb[i], ForkAt(q, d)) else 0
      ensures AllCovered(cs, i, tb[i], nb, rsize, rst != 0, start)
      ensures rst != 0 ==> rst == HeadAt(tb[i], start) && FitOrHuge(i, nb, start)
    {
      assert Looked(mem, cs, sb, tb, smallmap, treemap);
      assert TreeOk(mem, cs, i, tb[i]);
      start := ForkAt(q, d);
      if TreeIndex.SPAN <= nb {
        HugeCovers(cs, i, tb[i], nb, rsize, d >= 0, start);
      } else {
        OffPathAllCovers(cs, i, tb[i], nb, rsize, q, d);
      }
      if d >= 0 {
        NodeWords(i, start);
      }
      assert rst != 0 <==> d >= 0;
    }

    /** The child on the side given, and the right child. */
    method Descend(t: int, side: bool, ghost i: int, ghost q: Path) returns (child: int, rt: int)
      requires Shape() && 0 <= i < NBINS && q in tb[i] && t == HeadAt(tb[i], q)
      ensures child == HeadAt(tb[i], q + [side]) && rt == HeadAt(tb[i], q + [true])
      ensures child != 0 <==> q + [side] in tb[i]
      ensures (rt != 0 && rt != child) <==> (!side && q + [true] in tb[i])
    {
      assert Looked(mem, cs, sb, tb, smallmap, treemap);
      NodeWords(i, q);
      ChildrenDiffer(i, q);
      rt := mem[t + RIGHT].v;
      child := mem[t + (if side then RIGHT else LEFT)].v;
    }

    lemma {:induction false} ChildrenDiffer(i: int, q: Path)
      requires Shape() && 0 <= i < NBINS && q in tb[i]
      ensures HeadAt(tb[i], q + [true]) != 0 ==> HeadAt(tb[i], q + [true]) != HeadAt(tb[i], q + [false])
    {
      assert Looked(mem, cs, sb, tb, smallmap, treemap);
      assert TreeOk(mem, cs, i, tb[i]);
      if q + [true] in tb[i] {
        assert NodeOk(mem, i, tb[i], q + [true]);
        assert (q + [true])[|q|] != (q + [false])[|q|];
        MemberIsHead(cs, i, tb[i], q + [true], 0, q + [false]);
      }
    }

    // ----- Chunks of any size -----

    ghost function Now(): View
      reads `mem, `lo, `top, `topsize, `cs, `sb, `tb, `smallmap, `treemap
    {
      View(mem, lo, top, topsize, cs, sb, tb, smallmap, treemap)
    }

    /** The chunks, top and the victim. */
    ghost function Stock(): Pool
      reads `cs, `top, `dv, `dvsize
    {
      Pool(cs, top, dv, dvsize)
    }

    /** Layout, tags and bins are in order. */
    ghost predicate Sound()
      reads `mem, `lo, `top, `topsize, `cs, `sb, `tb, `smallmap, `treemap, `leastAddr
    {
      HeapOk(Now()) && leastAddr <= lo
    }

    /** Addresses are below HALF, and the chunks span less than what a treebin index can tell apart. */
    ghost predicate Within()
      reads `mem, `leastAddr
    {
      |mem| <= HALF && |mem| < leastAddr + TreeIndex.SPAN
    }

    /** insert_small_chunk for a chunk whose tags are set. */
    method PutSmall(p: int, s: int)
      requires Sound() && p in cs && cs[p].size == s && cs[p].kind != Binned && cs[p].kind != Used && s < MIN_LARGE_SIZE
      requires Tags(mem, cs[p := Chunk(s, Binned)], lo, top, topsize)
      modifies this`mem, this`smallmap, this`cs, this`sb
      ensures Sound() && Stays(old(Now()), Now())
      ensures cs == old(cs)[p := Chunk(s, Binned)]
      ensures |mem| == |old(mem)|
    {
      ghost var v := Now();
      assert Opened(v);
      assert Aligned(p, cs[p]);
      InsertSmall(p, s);
      BinnedStep(v, Now(), p);
    }

    /** insert_chunk */
    method InsertChunk(p: int, s: int)
      requires Sound() && p in cs && cs[p] == Chunk(s, Limbo) && s < TreeIndex.SPAN
      requires Tags(mem, cs[p := Chunk(s, Binned)], lo, top, topsize)
      modifies this`mem, this`smallmap, this`treemap, this`cs, this`sb, this`tb
      ensures Sound() && Stays(old(Now()), Now())
      ensures cs == old(cs)[p := Chunk(s, Binned)]
      ensures |mem| == |old(mem)|
    {
      if s < MIN_LARGE_SIZE {
        PutSmall(p, s);
      } else {
        ghost var v := Now();
        assert Opened(v);
        InsertLarge(p, s);
        BinnedStep(v, Now(), p);
      }
    }

    /** unlink_chunk */
    method UnlinkChunk(p: int, s: int)
      requires Sound() && p in cs && cs[p] == Chunk(s, Binned)
      modifies this`mem, this`smallmap, this`treemap, this`cs, this`sb, this`tb
      ensures Sound() && Takes(old(Now()), Now(), p) && Stays(old(Now()), Now())
      ensures |mem| == |old(mem)|
    {
      ghost var v := Now();
      assert Opened(v);
      assert Aligned(p, cs[p]);
      if s < MIN_LARGE_SIZE {
        UnlinkSmall(p, s);
      } else {
        UnlinkLarge(p);
      }
      TakenStep(v, Now(), p);
    }

    /** The victim is the only free chunk in no bin, and no chunk is in limbo. */
    ghost predicate Settled()
      reads this
    {
      Sound() && NoLimbo(cs) && VictimOk(cs, dv, dvsize) && Within()
    }

    lemma {:induction false} Sizes()
      requires Settled()
      ensures 0 <= dvsize <= |mem|
      ensures forall a :: a in cs ==> MIN_CHUNK_SIZE <= cs[a].size <= |mem|
    {
      forall a | a in cs
        ensures MIN_CHUNK_SIZE <= cs[a].size <= |mem|
      {
        ChunkSize(Now(), a);
      }
    }

    /** replace_dv: the remainder r becomes the victim, and the old victim goes to its bin. */
    method ReplaceDv(r: int, s: int)
      requires Sound() && VictimOk(cs, dv, dvsize) && dvsize < MIN_LARGE_SIZE && Within()
      requires r in cs && cs[r] == Chunk(s, Limbo) && (forall a :: a in cs && a != r ==> cs[a].kind != Limbo)
      requires Tags(mem, cs[r := Chunk(s, Victim)], lo, top, topsize)
      modifies this`mem, this`smallmap, this`cs, this`sb, this`dv, this`dvsize
      ensures Settled() && Stays(old(Now()), Now())
      ensures |mem| == |old(mem)|
      ensures dv == r && dvsize == s && cs == Retired(old(cs), old(dv), old(dvsize))[r := Chunk(s, Victim)]
    {
      ghost var v := Now();
      NewVictim(v, r, dv, dvsize);
      cs := cs[r := Chunk(s, Victim)];
      ghost var v1 := Now();
      if dvsize != 0 {
        PutSmall(dv, dvsize);
        StaysTrans(v, v1, Now());
      }
      dvsize := s;
      dv := r;
    }

    /** set_inuse_and_pinuse on the chunk p just taken from v. */
    method UseAll(p: int, s: int, ghost v: View, ghost nb: int)
      requires Sound() && HeapOk(v) && NoLimbo(v.cs) && p in v.cs && IsFree(v.cs[p]) && Takes(v, Now(), p)
      requires v.cs[p].size == s && nb <= s < nb + MIN_CHUNK_SIZE
      modifies this`mem, this`cs
      ensures Sound() && NoLimbo(cs) && Grants(v, Now(), p, nb) && cs == v.cs[p := Chunk(s, Used)]
      ensures |mem| == |old(mem)|
    {
      GrantWhole(v, Now(), p, nb);
      ghost var mem' := UseWholeMem(mem, p, s);
      mem := mem[p + 8 := Head(s, true, true)];
      mem := mem[p + s + 8 := mem[p + s + 8].(pinuse := true)];
      assert mem == mem';
      cs := cs[p := Chunk(s, Used)];
    }

    /** Split the chunk p just taken from v; the remainder r is left to be placed. */
    method UseFront(p: int, s: int, nb: int, ghost v: View) returns (r: int)
      requires Sound() && HeapOk(v) && NoLimbo(v.cs) && p in v.cs && IsFree(v.cs[p]) && Takes(v, Now(), p)
      requires v.cs[p].size == s && MIN_CHUNK_SIZE <= nb && nb + MIN_CHUNK_SIZE <= s && nb % 16 == 0
      modifies this`mem, this`cs
      ensures r == p + nb && r !in v.cs && cs == v.cs[p := Chunk(nb, Used)][r := Chunk(s - nb, Limbo)]
      ensures Sound() && Grants(v, Now(), p, nb)
      ensures Tags(mem, cs[r := Chunk(s - nb, Binned)], lo, top, topsize)
      ensures Tags(mem, cs[r := Chunk(s - nb, Victim)], lo, top, topsize)
      ensures |mem| == |old(mem)|
    {
      GrantFront(v, Now(), p, nb);
      ghost var mem' := UseSplitMem(mem, p, nb, s);
      mem := mem[p + 8 := Head(nb, true, true)];
      r := p + nb;
      mem := mem[r + 8 := Head(s - nb, true, false)];
      mem := mem[p + s := Val(s - nb)];
      assert mem == mem';
      cs := cs[p := Chunk(nb, Used)][r := Chunk(s - nb, Limbo)];
    }

    /** Use the binned chunk p just taken from v, splitting it if it is much too large; the rest is the victim. */
    method CarveToDv(p: int, s: int, nb: int, ghost v: View)
      requires Sound() && HeapOk(v) && NoLimbo(v.cs) && Takes(v, Now(), p) && v.cs[p] == Chunk(s, Binned)
      requires MIN_CHUNK_SIZE <= nb <= s && nb % 16 == 0 && VictimOk(v.cs, dv, dvsize) && Within()
      requires nb < MIN_LARGE_SIZE && (nb + MIN_CHUNK_SIZE <= s ==> dvsize < MIN_LARGE_SIZE)
      modifies this`mem, this`smallmap, this`cs, this`sb, this`dv, this`dvsize
      ensures Settled() && Grants(v, Now(), p, nb)
      ensures |mem| == |old(mem)|
      ensures Allots(old(Stock()).(cs := v.cs), p, nb, Stock())
    {
      var rsize := s - nb;
      if rsize < MIN_CHUNK_SIZE {
        UseAll(p, s, v, nb);
      } else {
        var r := UseFront(p, s, nb, v);
        ghost var v1 := Now();
        ReplaceDv(r, rsize);
        AllotsSplit(old(Stock()).(cs := v.cs), p, nb, r, rsize, cs);
        GrantsStays(v, v1, Now(), p, nb);
      }
    }

    /** The same, but the rest goes to its bin. */
    method CarveToBin(p: int, s: int, nb: int, ghost v: View)
      requires Sound() && HeapOk(v) && NoLimbo(v.cs) && Takes(v, Now(), p) && v.cs[p] == Chunk(s, Binned)
      requires MIN_LARGE_SIZE <= nb <= s < TreeIndex.SPAN && nb % 16 == 0 && VictimOk(v.cs, dv, dvsize) && Within()
      modifies this`mem, this`smallmap, this`treemap, this`cs, this`sb, this`tb
      ensures Settled() && Grants(v, Now(), p, nb)
      ensures |mem| == |old(mem)|
      ensures Allots(Stock().(cs := v.cs), p, nb, Stock())
    {
      var rsize := s - nb;
      if rsize < MIN_CHUNK_SIZE {
        UseAll(p, s, v, nb);
      } else {
        var r := UseFront(p, s, nb, v);
        ghost var v1 := Now();
        InsertChunk(r, rsize);
        GrantsStays(v, v1, Now(), p, nb);
      }
    }

    /** unlink_first_small_chunk as seen by the whole heap. */
    method TakeFirstSmall(i: int) returns (p: int)
      requires Sound() && 0 <= i < NBINS && smallmap[i]
      modifies this`mem, this`smallmap, this`cs, this`sb
      ensures Sound() && Takes(old(Now()), Now(), p) && p in old(cs) && old(cs)[p] == Chunk(8 * i, Binned)
      ensures |mem| == |old(mem)|
    {
      ghost var v := Now();
      assert Opened(v);
      p := UnlinkFirstSmall(i);
      TakenStep(v, Now(), p);
    }

    /** Part of malloc: a chunk of the marked small bin i, none between nb and it being there. */
    method MallocSmall(i: int, nb: int) returns (p: int)
      requires Settled() && nb % 16 == 0 && MIN_CHUNK_SIZE <= nb && nb <= 8 * i && 0 <= i < NBINS && smallmap[i]
      requires forall j :: SmallIndex(nb) <= j < i ==> !smallmap[j]
      requires 8 * i < nb + MIN_CHUNK_SIZE || dvsize < nb
      modifies this`mem, this`smallmap, this`cs, this`sb, this`dv, this`dvsize
      ensures Settled() && Grants(old(Now()), Now(), p, nb) && p in old(cs)
      ensures old(cs)[p] == Chunk(8 * i, Binned) && Tightest(old(cs), p, nb)
      ensures |mem| == |old(mem)| && p != 0
      ensures Allots(old(Stock()), p, nb, Stock())
    {
      ghost var v := Now();
      p := TakeFirstSmall(i);
      SmallTightest(v, p, nb, i);
      ChunkSize(v, p);
      CarveToDv(p, 8 * i, nb, v);
    }

    lemma {:induction false} SizeBound(p: int)
      requires Sound() && Within() && p in cs
      ensures cs[p].size < TreeIndex.SPAN
    {
      ChunkSize(Now(), p);
    }

    // ----- malloc: treebins -----

    /** tmalloc_large: a best fit from the treebins, unless the victim fits as tightly. */
    method TmallocLarge(nb: int) returns (v: int)
      requires Settled() && MIN_LARGE_SIZE <= nb < TreeIndex.W64 && nb % 16 == 0
      modifies this`mem, this`smallmap, this`treemap, this`cs, this`sb, this`tb
      ensures Settled()
      ensures v == 0 ==> Now() == old(Now()) &&
                         forall a :: a in cs && cs[a].kind == Binned && nb <= cs[a].size ==> nb <= dvsize <= cs[a].size
      ensures v != 0 ==> v in old(cs) && old(cs)[v].kind == Binned && nb <= old(cs)[v].size && Tightest(old(cs), v, nb)
      ensures v != 0 ==> Grants(old(Now()), Now(), v, nb) && (dvsize < nb || old(cs)[v].size < dvsize)
      ensures |mem| == |old(mem)|
      ensures v != 0 ==> Allots(old(Stock()), v, nb, Stock())
    {
      ghost var v0 := Now();
      var rsize;
      v, rsize := SearchLarge(nb);
      Sizes();
      if v != 0 && rsize < Sub64(dvsize, nb) {
        SizeBound(v);
        UnlinkChunk(v, rsize + nb);
        CarveToBin(v, rsize + nb, nb, v0);
      } else {
        v := 0;
      }
    }

    method SearchLarge(nb: int) returns (v: int, rsize: int)
      requires Sound() && MIN_LARGE_SIZE <= nb < TreeIndex.W64
      ensures BestSoFar(nb, v, rsize)
      ensures forall a :: a in cs && cs[a].kind == Binned && nb <= cs[a].size ==> nb + rsize <= cs[a].size
    {
      assert Opened(Now());
      v, rsize := BestLarge(nb);
    }

    /** tmalloc_small: the smallest chunk of all treebins, for a request below their sizes. */
    method TmallocSmall(nb: int) returns (v: int)
      requires Settled() && MIN_CHUNK_SIZE <= nb < MIN_LARGE_SIZE && nb % 16 == 0 && !IsZero(treemap) && dvsize < nb
      modifies this`mem, this`smallmap, this`treemap, this`cs, this`sb, this`tb, this`dv, this`dvsize
      ensures Settled() && Grants(old(Now()), Now(), v, nb)
      ensures v in old(cs) && old(cs)[v].kind == Binned && nb <= old(cs)[v].size
      ensures forall a :: a in old(cs) && old(cs)[a].kind == Binned && MIN_LARGE_SIZE <= old(cs)[a].size ==>
                old(cs)[v].size <= old(cs)[a].size
      ensures |mem| == |old(mem)| && v != 0
      ensures Allots(old(Stock()), v, nb, Stock())
    {
      ghost var v0 := Now();
      var rsize;
      v, rsize := SearchSmallest(nb);
      UnlinkChunk(v, rsize + nb);
      CarveToDv(v, rsize + nb, nb, v0);
    }

    /** The search of tmalloc_small. */
    method SearchSmallest(nb: int) returns (v: int, rsize: int)
      requires Sound() && 0 < nb < MIN_LARGE_SIZE && !IsZero(treemap)
      ensures v != 0 && BestSoFar(nb, v, rsize) && BestOfAll(nb, rsize)
    {
      assert Opened(Now());
      assert Looked(mem, cs, sb, tb, smallmap, treemap);
      LeastBitIsolates(treemap);
      var i := Ctz(LeastBit(treemap));
      RootWord(i);
      var t := mem[BinCell(i)].v;
      NodeWords(i, []);
      v, rsize := t, mem[t + 8].size - nb;
      assert TreeOk(mem, cs, i, tb[i]);
      assert PosOk(cs, i, tb[i], []);
      RootCovers(cs, i, tb[i], nb, rsize);
      TreesFit(i, nb);
      t := LeftmostChild(t, i, []);
      LeftmostOn(i, nb, rsize, []);
      v, rsize := LeftmostWalk(i, nb, t, v, rsize, LeftmostStep(tb[i], []));
      SmallestOfAll(nb, i, v, rsize);
    }

    lemma {:induction false} TreesFit(i: int, nb: int)
      requires Shape() && 0 <= i < NBINS && nb < MIN_LARGE_SIZE
      ensures AllFit(cs, i, tb[i], nb, [])
    {
      assert Looked(mem, cs, sb, tb, smallmap, treemap);
      assert TreeOk(mem, cs, i, tb[i]);
      forall p | p in tb[i]
        ensures PosOk(cs, i, tb[i], p) && nb <= SizeAt(cs, tb[i], p)
      {
        assert PosOk(cs, i, tb[i], p);
      }
    }

    /** The smallest chunk of the first marked bin is the smallest of all bins. */
    lemma {:induction false} SmallestOfAll(nb: int, bin: int, v: int, rsize: int)
      requires Shape() && 0 < nb < MIN_LARGE_SIZE && 0 <= bin < NBINS && v != 0 && BestSoFar(nb, v, rsize)
      requires InBin(cs, bin, v) && Beaten(cs, bin, tb[bin], nb, rsize) && forall j :: 0 <= j < bin ==> !treemap[j]
      ensures BestOfAll(nb, rsize)
    {
      assert Looked(mem, cs, sb, tb, smallmap, treemap);
      forall a | a in cs && cs[a].kind == Binned && MIN_LARGE_SIZE <= cs[a].size
        ensures cs[a].size < nb || nb + rsize <= cs[a].size
      {
        var j, p := WhereLarge(a);
        if j > bin {
          BinOrder(cs[v].size, cs[a].size);
        } else {
          assert PosOk(cs, j, tb[j], p);
        }
      }
    }

    // ----- malloc: the victim, top and new memory -----

    /** Part of malloc: the victim is large enough. */
    method MallocVictim(nb: int) returns (p: int)
      requires Settled() && MIN_CHUNK_SIZE <= nb <= dvsize && nb % 16 == 0
      modifies this`mem, this`cs, this`dv, this`dvsize
      ensures Settled() && Grants(old(Now()), Now(), p, nb) && p == old(dv) && |mem| == |old(mem)|
      ensures Allots(old(Stock()), p, nb, Stock())
    {
      ghost var v := Now();
      p := dv;
      TakeVictim(v, p);
      cs := cs[p := Chunk(dvsize, Limbo)];
      var rsize := dvsize - nb;
      if rsize >= MIN_CHUNK_SIZE {
        SplitVictim(p, rsize, nb, v);
      } else {
        var dvs := dvsize;
        dvsize := 0;
        dv := 0;
        UseAll(p, dvs, v, nb);
      }
    }

    /** The victim is split, and its rest is the new victim. */
    method SplitVictim(p: int, rsize: int, nb: int, ghost v: View)
      requires Sound() && HeapOk(v) && NoLimbo(v.cs) && p in v.cs && IsFree(v.cs[p]) && Takes(v, Now(), p)
               && v.cs[p].size == dvsize
      requires MIN_CHUNK_SIZE <= nb && nb % 16 == 0 && rsize == dvsize - nb && MIN_CHUNK_SIZE <= rsize
      requires forall a :: a in v.cs && a != p ==> v.cs[a].kind != Victim
      modifies this`mem, this`cs, this`dv, this`dvsize
      ensures Sound() && NoLimbo(cs) && VictimOk(cs, dv, dvsize) && Grants(v, Now(), p, nb) && |mem| == |old(mem)|
      ensures dv == p + nb && dvsize == rsize && cs == v.cs[p := Chunk(nb, Used)][dv := Chunk(rsize, Victim)]
    {
      dv := UseFront(p, dvsize, nb, v);
      dvsize := rsize;
      ghost var v1 := Now();
      NewVictim(v1, dv, 0, 0);
      Overwritten(v.cs[p := Chunk(nb, Used)], dv, Chunk(rsize, Limbo), Chunk(rsize, Victim));
      cs := cs[dv := Chunk(rsize, Victim)];
      GrantsStays(v, v1, Now(), p, nb);
    }

    /** The part of malloc and of sys_alloc that splits top. */
    method MallocTop(nb: int) returns (p: int)
      requires Settled() && MIN_CHUNK_SIZE <= nb < topsize && nb % 16 == 0
      modifies this`mem, this`cs, this`top, this`topsize
      ensures Settled() && Grants(old(Now()), Now(), p, nb) && p == old(top) && p !in old(cs) && |mem| == |old(mem)|
      ensures top == old(top) + nb && topsize == old(topsize) - nb
      ensures Stock() == Pool(old(cs)[p := Chunk(nb, Used)], p + nb, dv, dvsize)
    {
      GrantTop(Now(), nb);
      ghost var mem' := TopSplitMem(mem, top, topsize, nb);
      var rsize := topsize - nb;
      topsize := rsize;
      p := top;
      top := p + nb;
      mem := mem[top + 8 := Head(rsize, true, false)];
      mem := mem[p + 8 := Head(nb, true, true)];
      assert mem == mem';
      cs := cs[p := Chunk(nb, Used)];
    }

    // ----- New memory -----

    /** The segment, top and the arena agree on their extent. */
    ghost predicate Sized()
      reads `mem, `top, `topsize, `chCtr, `leastAddr, `segBase, `segSize, `footprint
    {
      Fits(Reach())
    }

    ghost function Reach(): Extent
      reads `mem, `top, `topsize, `chCtr, `leastAddr, `segBase, `segSize, `footprint
    {
      Extent(|mem|, top + topsize, chCtr, leastAddr, segBase, segSize, footprint, arenaBase, arenaSize)
    }

    /** Between calls, once the first call has obtained memory. */
    ghost predicate Ready()
      reads this
    {
      Settled() && Sized()
    }

    /** Before the first call that obtains memory. */
    ghost predicate Blank()
      reads this
    {
      && top == 0 && topsize == 0 && dv == 0 && dvsize == 0 && cs == map[] && leastAddr == 0
      && chCtr == 0 && |mem| == arenaBase && segBase == 0 && segSize == 0 && footprint == 0
      && NoBins(mem, sb, tb, smallmap, treemap)
    }

    ghost predicate Valid()
      reads this
    {
      ArenaOk() && if top == 0 then Blank() else Ready()
    }

    /** The arena is aligned to a word and lies above malloc_state. */
    ghost predicate ArenaOk() {
      STATIC_END <= arenaBase <= arenaBase + arenaSize <= HALF && arenaSize < TreeIndex.SPAN && arenaBase % 8 == 0
    }

    lemma {:induction false} ReadyIsValid()
      requires Ready() && ArenaOk()
      ensures Valid() && HeapOk(Now())
    {
      TopPlace(Now());
    }

    /** Nothing is lost: chunks, top and its foot make up the footprint, but for what aligning the first chunk took. */
    lemma {:induction false} Conservation()
      requires Ready()
      ensures TrailSize(cs, Trail(cs, lo, top)) + topsize + TOP_FOOT_SIZE == footprint - (lo - segBase)
      ensures segBase <= lo && forall a :: a in cs <==> a in Trail(cs, lo, top)
    {
      assert Opened(Now());
      assert Measured(Reach());
      TrailFills(cs, lo, top);
    }

    /** Once there are chunks the heap is set up, and they lie above malloc_state. */
    lemma {:induction false} ChunkPlace(p: int)
      requires Valid() && p in cs
      ensures Ready() && STATIC_END <= p
    {
      ChunkSize(Now(), p);
    }

    /** A zeroed malloc_state and an untouched arena. */
    constructor (base: int, size: int)
      requires STATIC_END <= base && base % 8 == 0 && 0 <= size < TreeIndex.SPAN && base + size <= HALF
      ensures Valid() && cs == map[] && arenaBase == base && arenaSize == size && contiguous
      ensures top == 0 && topsize == 0 && chCtr == 0
    {
      arenaBase, arenaSize, chCtr := base, size, 0;
      mem := seq(base, i => Val(0));
      smallmap, treemap := Zero(NBINS), Zero(NBINS);
      dv, dvsize, top, topsize, leastAddr := 0, 0, 0, 0, 0;
      segBase, segSize, footprint, contiguous := 0, 0, 0, true;
      lo, cs, sb, tb := 0, map[], seq(NBINS, i => []), seq(NBINS, i => map[]);
    }

    /** get_memory: the argument is an unsigned int, so only its low 32 bits arrive. */
    method Morecore(n: int) returns (br: int, hung: bool)
      requires 0 <= n && |mem| == arenaBase + chCtr
      modifies this`mem, this`chCtr
      ensures hung <==> old(chCtr) + n % W32 > arenaSize
      ensures hung ==> chCtr == old(chCtr) && mem == old(mem)
      ensures !hung ==> br == |old(mem)| && chCtr == old(chCtr) + n % W32
      ensures !hung ==> |mem| == |old(mem)| + n % W32 && mem == old(mem) + mem[|old(mem)|..]
    {
      var numBytes := n % W32;
      br, hung := 0, chCtr + numBytes > arenaSize;
      if !hung {
        br := arenaBase + chCtr;
        chCtr := chCtr + numBytes;
        mem := mem + seq(numBytes, i => Val(0));
      }
    }

    /** init_bins: every small list header points to itself. */
    method InitBins()
      requires STATIC_END <= |mem|
      modifies this`mem
      ensures |mem| == |old(mem)| && forall x :: TREEBINS <= x < |mem| ==> mem[x] == old(mem)[x]
      ensures forall i {:trigger SelfLinked(mem, i)} :: 0 <= i < NBINS ==> SelfLinked(mem, i)
    {
      for i := 0 to NBINS
        invariant |mem| == |old(mem)|
        invariant forall x :: TREEBINS <= x < |mem| ==> mem[x] == old(mem)[x]
        invariant forall j {:trigger SelfLinked(mem, j)} :: 0 <= j < i ==> SelfLinked(mem, j)
      {
        var bin := SmallBin(i);
        ghost var before := mem;
        mem := mem[bin + BK := Val(bin)];
        mem := mem[bin + FD := Val(bin)];
        forall j | 0 <= j < i
          ensures SelfLinked(mem, j)
        {
          assert SelfLinked(before, j);
        }
      }
    }

    /** init_top: top becomes the psize bytes at p, less what aligning it takes. */
    method InitTop(p: int, psize: int)
      requires STATIC_END <= p && 0 < psize && (p % 16 != 0 ==> 16 <= psize) && p + psize + 8 < |mem|
      modifies this`mem, this`top, this`topsize
      ensures top % 16 == 0 && p <= top < p + 16 && top + topsize == p + psize && (p % 16 == 0 ==> top == p)
      ensures mem == RaiseTopMem(old(mem), top, topsize)
    {
      var offset := if (p + 16) % 16 == 0 then 0 else 16 - (p + 16) % 16;
      top := p + offset;
      topsize := psize - offset;
      mem := mem[top + 8 := Head(topsize, true, false)];
      mem := mem[top + topsize + 8 := Head(TOP_FOOT_SIZE, false, false)];
    }

    /** The part of sys_alloc that makes the first tsize bytes of the arena the heap. */
    method FirstSegment(tsize: int)
      requires top == 0 && topsize == 0 && dv == 0 && dvsize == 0 && cs == map[] && footprint == 0
      requires chCtr == tsize && |mem| == arenaBase + tsize && 0 < TOP_FOOT_SIZE + 16 <= tsize <= arenaSize
      requires STATIC_END <= arenaBase && arenaBase + arenaSize <= HALF && arenaSize < TreeIndex.SPAN && |mem| % 8 == 0
      requires NoBins(mem, sb, tb, smallmap, treemap)
      modifies this`mem, this`top, this`topsize, this`leastAddr, this`segBase, this`segSize, this`footprint, this`lo
      ensures Ready() && tsize - TOP_FOOT_SIZE - 16 < topsize && |mem| == |old(mem)|
    {
      footprint := footprint + tsize;
      leastAddr := arenaBase;
      segBase, segSize := arenaBase, tsize;
      InitBins();
      NoBinsKept(old(mem), mem, sb, tb, smallmap, treemap);
      FirstTopChunk(tsize);
      assert Agree(Reach());
    }

    method FirstTopChunk(tsize: int)
      requires dv == 0 && dvsize == 0 && cs == map[] && leastAddr == arenaBase
      requires |mem| == arenaBase + tsize && 0 < TOP_FOOT_SIZE + 16 <= tsize < TreeIndex.SPAN
      requires STATIC_END <= arenaBase && |mem| <= HALF
      requires NoBins(mem, sb, tb, smallmap, treemap)
      modifies this`mem, this`top, this`topsize, this`lo
      ensures Settled() && tsize - TOP_FOOT_SIZE - 16 < topsize && |mem| == |old(mem)|
      ensures top + topsize + TOP_FOOT_SIZE == |mem|
    {
      ghost var v := Now();
      InitTop(arenaBase, tsize - TOP_FOOT_SIZE);
      lo := top;
      FirstTop(v.(lo := top, top := top), topsize);
    }

    /** The part of sys_alloc that adds tsize bytes at the end of the segment to top. */
    method ExtendSegment(tsize: int)
      requires Settled() && 0 <= tsize && |mem| % 8 == 0
      requires top + topsize + tsize + TOP_FOOT_SIZE == |mem| == arenaBase + chCtr
      requires 0 <= chCtr <= arenaSize < TreeIndex.SPAN && arenaBase + arenaSize <= HALF
      requires segBase == leastAddr == arenaBase && segBase + segSize + tsize == |mem| && footprint == segSize
      modifies this`mem, this`top, this`topsize, this`segSize, this`footprint
      ensures Ready() && Stays(old(Now()), Now()) && topsize == old(topsize) + tsize && top == old(top)
    {
      footprint := footprint + tsize;
      segSize := segSize + tsize;
      ghost var v := Now();
      RaiseTopStep(v, tsize);
      TopPlace(v);
      InitTop(top, topsize + tsize);
      assert Agree(Reach());
    }

    /** The arena still has what is left of a request for n bytes modulo 2^32. */
    ghost predicate Delivers(n: int)
      requires 0 <= n
      reads this
    {
      chCtr + n % W32 <= arenaSize
    }

    /** n more bytes of memory follow the segment: they become part of it and of top. */
    method Append(n: int, ghost v: View)
      requires HeapOk(v) && v == Now().(mem := v.mem) && v.mem <= mem && |mem| == |v.mem| + n && 0 <= n
      requires leastAddr <= lo && NoLimbo(cs) && VictimOk(cs, dv, dvsize) && Within() && |mem| % 8 == 0
      requires top + topsize + n + TOP_FOOT_SIZE == |mem| == arenaBase + chCtr
      requires 0 <= chCtr <= arenaSize < TreeIndex.SPAN && arenaBase + arenaSize <= HALF
      requires segBase == leastAddr == arenaBase && segBase + segSize + n == |mem| && footprint == segSize
      modifies this`mem, this`top, this`topsize, this`segSize, this`footprint
      ensures Ready() && Stays(v, Now()) && topsize == old(topsize) + n && top == old(top)
    {
      assert mem == v.mem + mem[|v.mem|..];
      LongerStep(v, mem[|v.mem|..]);
      ghost var v1 := Now();
      ExtendSegment(n);
      StaysTrans(v, v1, Now());
    }

    /** Ask MORECORE for n bytes and, if they all arrive, make them part of the segment and of top. */
    method Obtain(n: int) returns (hung: bool, short: bool)
      requires Valid() && SYS_ALLOC_PADDING <= n && n % 8 == 0
      modifies this`mem, this`chCtr, this`top, this`topsize, this`leastAddr, this`segBase, this`segSize,
               this`footprint, this`lo
      ensures hung <==> !old(Delivers(n))
      ensures short <==> !hung && W32 <= n
      ensures short ==> chCtr == old(chCtr) + n % W32 && (n % W32 == 0 ==> mem == old(mem))
      ensures short ==> unchanged(`top, `topsize, `leastAddr, `segBase, `segSize, `footprint, `lo)
      ensures !hung && !short ==> Ready() && Stays(old(Now()), Now()) && old(topsize) + n - SYS_ALLOC_PADDING < topsize
      ensures !hung && !short && old(top) != 0 ==> top == old(top)
    {
      if top == 0 {
        hung, short := ObtainFirst(n);
      } else {
        hung, short := ObtainMore(n);
      }
    }

    /** The first bytes make the segment. */
    method ObtainFirst(n: int) returns (hung: bool, short: bool)
      requires Valid() && SYS_ALLOC_PADDING <= n && n % 8 == 0 && top == 0
      modifies this`mem, this`chCtr, this`top, this`topsize, this`leastAddr, this`segBase, this`segSize,
               this`footprint, this`lo
      ensures hung <==> !old(Delivers(n))
      ensures short <==> !hung && W32 <= n
      ensures short ==> chCtr == old(chCtr) + n % W32 && (n % W32 == 0 ==> mem == old(mem))
      ensures short ==> unchanged(`top, `topsize, `leastAddr, `segBase, `segSize, `footprint, `lo)
      ensures !hung && !short ==> Ready() && Stays(old(Now()), Now()) && old(topsize) + n - SYS_ALLOC_PADDING < topsize
    {
      ghost var v := Now();
      var br;
      br, hung := Morecore(n);
      short := !hung && W32 <= n;
      if !hung && !short {
        NoBinsKept(v.mem, mem, sb, tb, smallmap, treemap);
        FirstSegment(n);
      }
    }

    /** More bytes follow the segment. */
    method ObtainMore(n: int) returns (hung: bool, short: bool)
      requires Valid() && SYS_ALLOC_PADDING <= n && n % 8 == 0 && top != 0
      modifies this`mem, this`chCtr, this`top, this`topsize, this`leastAddr, this`segBase, this`segSize,
               this`footprint, this`lo
      ensures hung <==> !old(Delivers(n))
      ensures short <==> !hung && W32 <= n
      ensures short ==> chCtr == old(chCtr) + n % W32 && (n % W32 == 0 ==> mem == old(mem))
      ensures short ==> unchanged(`top, `topsize, `leastAddr, `segBase, `segSize, `footprint, `lo)
      ensures !hung && !short ==> Ready() && Stays(old(Now()), Now()) && old(topsize) + n - SYS_ALLOC_PADDING < topsize
      ensures !hung && !short ==> top == old(top)
    {
      assert Measured(Reach());
      ghost var v := Now();
      var br;
      br, hung := Morecore(n);
      short := !hung && W32 <= n;
      if !hung && !short {
        if br == segBase + segSize {
          Append(n, v);
        } else {
          assert false;
        }
      }
    }

    /** The contiguous path: the segment is taken to have grown by all that was asked for. */
    method Claim(ssize: int) returns (g: Growth)
      requires Valid() && SYS_ALLOC_PADDING <= ssize && ssize % 8 == 0
      modifies this`mem, this`chCtr, this`top, this`topsize, this`leastAddr, this`segBase, this`segSize,
               this`footprint, this`lo
      ensures g == if !old(Delivers(ssize)) then Hung else if ssize < W32 then Grown else Short
      ensures g.Grown? ==> Ready() && Stays(old(Now()), Now()) && old(topsize) + ssize - SYS_ALLOC_PADDING < topsize
      ensures g.Short? ==> arenaBase + chCtr < segBase + segSize
      ensures g.Grown? && old(top) != 0 ==> top == old(top)
    {
      assert Measured(Reach());
      var hung, short := Obtain(ssize);
      if hung {
        return Hung;
      }
      if short {
        footprint := footprint + ssize;
        segBase := if top == 0 then arenaBase else segBase;
        segSize := segSize + ssize;
        return Short;
      }
      return Grown;
    }

    /** The non-contiguous path: what arrived is measured, and left alone if it is too little. */
    method Measure(asize: int) returns (g: Growth)
      requires Valid() && SYS_ALLOC_PADDING <= asize && asize % 8 == 0
      modifies this`mem, this`chCtr, this`top, this`topsize, this`leastAddr, this`segBase, this`segSize,
               this`footprint, this`lo
      ensures g.Hung? <==> !old(Delivers(asize))
      ensures g.Grown? <==> old(Delivers(asize)) && asize < W32
      ensures g.Short? <==> old(Delivers(asize)) && W32 <= asize && asize % W32 != 0
      ensures g.Grown? ==> Ready() && Stays(old(Now()), Now()) && old(topsize) + asize - SYS_ALLOC_PADDING < topsize
      ensures g.Refused? ==> Valid() && Now() == old(Now())
      ensures g.Short? ==> segBase + segSize < arenaBase + chCtr
      ensures g.Grown? && old(top) != 0 ==> top == old(top)
    {
      assert Measured(Reach());
      var hung, short := Obtain(asize);
      g := if hung then Hung else if !short then Grown else if asize % W32 == 0 then Refused else Short;
    }

    method ContiguousSize(nb: int, asize: int) returns (ssize: int)
      requires 0 <= topsize <= nb < TreeIndex.W64 && nb < SysSize(nb) && asize == SysSize(nb)
      requires contiguous && arenaBase % 8 == 0 && 0 <= arenaBase <= HALF
      ensures ssize == Ask(contiguous, top, arenaBase, topsize, nb)
    {
      ssize := asize;
      PagePad(arenaBase);
      if top == 0 {
        if arenaBase % PAGE_SIZE != 0 {
          ssize := ssize + (PageAlign(arenaBase) - arenaBase);
        }
      } else {
        ssize := PageAlign(nb - topsize + SYS_ALLOC_PADDING);
      }
    }

    /** The part of sys_alloc that gets memory for a chunk of size nb. */
    method Grow(nb: int) returns (g: Growth)
      requires Valid() && 0 <= topsize <= nb < TreeIndex.W64 && nb < SysSize(nb)
      modifies this`mem, this`chCtr, this`top, this`topsize, this`leastAddr, this`segBase, this`segSize,
               this`footprint, this`lo,
        this`contiguous
      ensures g.Grown? ==> Ready() && Stays(old(Now()), Now()) && nb < topsize
      ensures g.Refused? ==> Valid() && Now() == old(Now())
      ensures g.Short? ==> segBase + segSize != arenaBase + chCtr
      ensures var ask := Ask(old(contiguous), old(top), arenaBase, old(topsize), nb);
              && (g.Hung? <==> ask < HALF && !old(Delivers(ask)))
              && (g.Grown? <==> ask < HALF && old(Delivers(ask)) && ask < W32)
              && (g.Short? <==> W32 <= ask < HALF && old(Delivers(ask)) && (old(contiguous) || ask % W32 != 0))
      ensures g.Grown? && old(top) != 0 ==> top == old(top)
    {
      var asize := SysSize(nb);
      AskAligned(contiguous, top, arenaBase, topsize, nb);
      if contiguous {
        var ssize := ContiguousSize(nb, asize);
        if ssize < HALF {
          g := Claim(ssize);
          return;
        }
        contiguous := false;
      }
      if asize < HALF {
        g := Measure(asize);
      } else {
        g := Refused;
      }
    }

    method TakeTop(nb: int) returns (p: int)
      requires Ready() && MIN_CHUNK_SIZE <= nb < topsize && nb % 16 == 0
      modifies this`mem, this`cs, this`top, this`topsize
      ensures Ready() && Grants(old(Now()), Now(), p, nb) && p == old(top) && p !in old(cs) && |mem| == |old(mem)|
      ensures Stock() == Pool(old(cs)[p := Chunk(nb, Used)], p + nb, dv, dvsize)
      ensures top == old(top) + nb && topsize == old(topsize) - nb
    {
      p := MallocTop(nb);
    }

    /** The chunk is cut from top, which has grown since v and x. */
    method TakeNew(nb: int, ghost v: View, ghost x: Pool) returns (p: int)
      requires Ready() && MIN_CHUNK_SIZE <= nb < topsize && nb % 16 == 0 && Stays(v, Now()) && v.cs == cs
      requires x == Pool(cs, x.top, dv, dvsize) && (x.top != 0 ==> top == x.top)
      modifies this`mem, this`cs, this`top, this`topsize
      ensures Ready() && Grants(v, Now(), p, nb) && p !in v.cs && Allots(x, p, nb, Stock())
    {
      ghost var v1 := Now();
      p := TakeTop(nb);
      StaysGrants(v, v1, Now(), p, nb);
      AllotsTop(x, p, nb, Stock());
    }

    /** sys_alloc: a chunk of size nb, which is not below topsize, from new memory. */
    method SysAlloc(nb: int) returns (r: Outcome)
      requires Valid() && 0 <= topsize <= nb < TreeIndex.W64
               && (nb < SysSize(nb) ==> MIN_CHUNK_SIZE <= nb && nb % 16 == 0)
      modifies this`mem, this`chCtr, this`top, this`topsize, this`leastAddr, this`segBase, this`segSize,
               this`footprint, this`lo,
        this`contiguous, this`cs
      ensures r.Block? ==> Ready() && Grants(old(Now()), Now(), r.addr - 16, nb) && r.addr - 16 !in old(cs)
      ensures r.Null? ==> Valid() && Now() == old(Now())
      ensures r.Truncated? ==> segBase + segSize != arenaBase + chCtr
      ensures SysSize(nb) <= nb ==> r == Null
      ensures nb < SysSize(nb) ==>
                var ask := Ask(old(contiguous), old(top), arenaBase, old(topsize), nb);
                && (r.Hang? <==> ask < HALF && !old(Delivers(ask)))
                && (r.Block? <==> ask < HALF && old(Delivers(ask)) && ask < W32)
                && (r.Truncated? <==> W32 <= ask < HALF && old(Delivers(ask)) && (old(contiguous) || ask % W32 != 0))
      ensures r.Block? ==> Allots(old(Stock()), r.addr - 16, nb, Stock())
    {
      if SysSize(nb) <= nb {
        return Null;
      }
      ghost var v := Now();
      var g := Grow(nb);
      match g {
        case Hung => r := Hang;
        case Short => r := Truncated;
        case Refused => r := Null;
        case Grown =>
          var p := TakeNew(nb, v, old(Stock()));
          r := Block(p + 16);
      }
    }

    // ----- malloc -----

    /**
     * The bins have been tried without success: nothing binned is large enough, or the
     * victim is to be used first.
     */
    ghost predicate BinsPassed(nb: int)
      reads `cs, `dvsize
    {
      forall a :: a in cs && cs[a].kind == Binned ==>
        && (nb < MIN_LARGE_SIZE ==> cs[a].size != nb)
        && (nb <= cs[a].size ==> nb <= dvsize && (MIN_LARGE_SIZE <= nb ==> dvsize <= cs[a].size))
    }

    /** A remainderless fit from the small bin of nb, or from the next one. */
    method MallocExact(nb: int, idx0: int, here: bool) returns (p: int)
      requires Ready() && MIN_CHUNK_SIZE <= nb < MIN_LARGE_SIZE && nb % 16 == 0 && idx0 == SmallIndex(nb)
      requires here == smallmap[idx0] && (here || smallmap[idx0 + 1])
      modifies this`mem, this`smallmap, this`cs, this`sb, this`dv, this`dvsize
      ensures Ready() && |mem| == |old(mem)|
      ensures Grants(old(Now()), Now(), p, nb) && p in old(cs) && p != 0 && Chosen(old(cs), p, nb)
      ensures Allots(old(Stock()), p, nb, Stock())
    {
      var idx := if here then idx0 else idx0 + 1;
      p := MallocSmall(idx, nb);
    }

    /** The front of a chunk of the next nonempty small bin, when the victim is too small. */
    method MallocNext(nb: int, idx: int) returns (p: int)
      requires Ready() && MIN_CHUNK_SIZE <= nb < MIN_LARGE_SIZE && nb % 16 == 0 && idx == SmallIndex(nb) && dvsize < nb
      requires !IsZero(Shr(smallmap, idx)) && !smallmap[idx]
      modifies this`mem, this`smallmap, this`cs, this`sb, this`dv, this`dvsize
      ensures Ready() && |mem| == |old(mem)|
      ensures Grants(old(Now()), Now(), p, nb) && p in old(cs) && p != 0 && Chosen(old(cs), p, nb)
      ensures Allots(old(Stock()), p, nb, Stock())
    {
      p := MallocSmall(FirstAboveShifted(smallmap, idx), nb);
    }

    /** The front of the smallest chunk of all treebins, when no small bin serves. */
    method MallocTiny(nb: int) returns (p: int)
      requires Ready() && MIN_CHUNK_SIZE <= nb < MIN_LARGE_SIZE && nb % 16 == 0 && dvsize < nb && !IsZero(treemap)
      requires forall j :: SmallIndex(nb) <= j < NBINS ==> !smallmap[j]
      modifies this`mem, this`smallmap, this`treemap, this`cs, this`sb, this`tb, this`dv, this`dvsize
      ensures Ready() && |mem| == |old(mem)|
      ensures Grants(old(Now()), Now(), p, nb) && p in old(cs) && p != 0 && Chosen(old(cs), p, nb)
      ensures Allots(old(Stock()), p, nb, Stock())
    {
      NoSmallFits(Now(), nb);
      p := TmallocSmall(nb);
    }

    /** The bins' share of malloc for small requests. */
    method MallocFromSmall(nb: int) returns (p: int)
      requires Valid() && MIN_CHUNK_SIZE <= nb < MIN_LARGE_SIZE && nb % 16 == 0
      modifies this`mem, this`smallmap, this`treemap, this`cs, this`sb, this`tb, this`dv, this`dvsize
      ensures |mem| == |old(mem)|
      ensures p == 0 ==> Valid() && Now() == old(Now()) && dv == old(dv) && dvsize == old(dvsize) && BinsPassed(nb)
      ensures p != 0 ==> Ready() && Grants(old(Now()), Now(), p, nb) && Chosen(old(cs), p, nb) && p in old(cs)
      ensures p != 0 ==> Allots(old(Stock()), p, nb, Stock())
    {
      var idx := SmallIndex(nb);
      var smallbits := Shr(smallmap, idx);
      ShiftedMap(smallmap, idx);
      if smallbits[0] || smallbits[1] {
        p := MallocExact(nb, idx, smallbits[0]);
      } else if nb > dvsize && !IsZero(smallbits) {
        p := MallocNext(nb, idx);
      } else if nb > dvsize && !IsZero(treemap) {
        p := MallocTiny(nb);
      } else {
        SmallPassed(nb);
        p := 0;
      }
    }

    lemma {:induction false} SmallPassed(nb: int)
      requires Valid() && MIN_CHUNK_SIZE <= nb < MIN_LARGE_SIZE && |smallmap| == NBINS && !smallmap[SmallIndex(nb)]
      requires dvsize < nb ==> IsZero(treemap) && forall j :: SmallIndex(nb) <= j < NBINS ==> !smallmap[j]
      ensures BinsPassed(nb)
    {
      if top != 0 {
        NotExact(Now(), nb);
        if dvsize < nb {
          NoSmallFits(Now(), nb);
          NoTrees();
        }
      }
    }

    lemma {:induction false} NoTrees()
      requires Sound() && IsZero(treemap)
      ensures forall a :: a in cs && cs[a].kind == Binned ==> cs[a].size < MIN_LARGE_SIZE
    {
      assert Opened(Now());
      forall a | a in cs && cs[a].kind == Binned && MIN_LARGE_SIZE <= cs[a].size
        ensures false
      {
        var j, p := WhereLarge(a);
      }
    }

    /** The bins' share of malloc for large requests. */
    method MallocFromTrees(nb: int) returns (p: int)
      requires Valid() && MIN_LARGE_SIZE <= nb < TreeIndex.W64 && nb % 16 == 0
      modifies this`mem, this`smallmap, this`treemap, this`cs, this`sb, this`tb
      ensures |mem| == |old(mem)|
      ensures p == 0 ==> Valid() && Now() == old(Now()) && BinsPassed(nb)
      ensures p != 0 ==> Ready() && Grants(old(Now()), Now(), p, nb) && Chosen(old(cs), p, nb) && p in old(cs)
      ensures p != 0 ==> Allots(old(Stock()), p, nb, Stock())
    {
      p := 0;
      if !IsZero(treemap) {
        p := TmallocLarge(nb);
      } else if top != 0 {
        NoTrees();
      }
    }

    /** malloc from the victim. */
    method RestVictim(nb: int) returns (p: int)
      requires Ready() && BinsPassed(nb) && MIN_CHUNK_SIZE <= nb <= dvsize && nb % 16 == 0
      modifies this`mem, this`cs, this`dv, this`dvsize
      ensures Ready() && Grants(old(Now()), Now(), p, nb) && Chosen(old(cs), p, nb) && |mem| == |old(mem)|
      ensures !NoneFits(old(cs), nb) && p in old(cs)
      ensures Allots(old(Stock()), p, nb, Stock())
    {
      p := MallocVictim(nb);
    }

    /** What malloc does about a chunk of size nb, told from the state before the call. */
    ghost function Fate(nb: int): Fate
      requires 0 <= nb < TreeIndex.W64
      reads this
    {
      if !NoneFits(cs, nb) || nb < topsize then Served
      else if !(ArenaOk() && 0 <= topsize <= nb < SysSize(nb)) then Denied
      else
        var ask := Ask(contiguous, top, arenaBase, topsize, nb);
        if HALF <= ask then Denied
        else if !Delivers(ask) then Starved
        else if ask < W32 then Served
        else if contiguous || ask % W32 != 0 then Cut
        else Denied
    }

    /** malloc once the bins have been passed: the victim, then top, then new memory. */
    method MallocRest(nb: int) returns (r: Outcome)
      requires Valid() && BinsPassed(nb) && 0 <= nb < TreeIndex.W64
      requires nb <= HALF ==> MIN_CHUNK_SIZE <= nb && nb % 16 == 0
      requires nb < SysSize(nb) ==> MIN_CHUNK_SIZE <= nb && nb % 16 == 0
      modifies this
      ensures r.Block? ==> Ready() && Given(Gift(old(Now()), old(Stock()), Now(), Stock(), r.addr - 16, nb))
      ensures r.Null? ==> Valid() && Now() == old(Now())
      ensures r.Truncated? ==> segBase + segSize != arenaBase + chCtr
      ensures r.Truncated? ==> W32 - SYS_ALLOC_PADDING - 2 * PAGE_SIZE < nb
      ensures |old(mem)| != |mem| ==> NoneFits(old(cs), nb) && old(topsize) <= nb
      ensures Meets(r, old(Fate(nb)))
      ensures HALF < nb && SysSize(nb) <= nb ==> r == Null
    {
      Extents();
      if nb <= dvsize {
        var p := RestVictim(nb);
        assert GivenOpen(Gift(old(Now()), old(Stock()), Now(), Stock(), p, nb));
        return Block(p + 16);
      }
      NoFit(nb);
      if nb < topsize {
        var p := TakeTop(nb);
        AllotsTop(old(Stock()), p, nb, Stock());
        assert GivenOpen(Gift(old(Now()), old(Stock()), Now(), Stock(), p, nb));
        return Block(p + 16);
      }
      r := RestSystem(nb);
    }

    lemma {:induction false} NoFit(nb: int)
      requires Valid() && BinsPassed(nb) && dvsize < nb
      ensures NoneFits(cs, nb)
    {
    }

    /** malloc from new memory. */
    method RestSystem(nb: int) returns (r: Outcome)
      requires Valid() && NoneFits(cs, nb) && 0 <= topsize <= nb < TreeIndex.W64
      requires nb < SysSize(nb) ==> MIN_CHUNK_SIZE <= nb && nb % 16 == 0
      modifies this
      ensures r.Block? ==> Ready() && Given(Gift(old(Now()), old(Stock()), Now(), Stock(), r.addr - 16, nb))
      ensures r.Null? ==> Valid() && Now() == old(Now())
      ensures r.Truncated? ==> segBase + segSize != arenaBase + chCtr && W32 - SYS_ALLOC_PADDING - 2 * PAGE_SIZE < nb
      ensures Meets(r, old(Fate(nb)))
      ensures SysSize(nb) <= nb ==> r == Null
    {
      r := SysAlloc(nb);
      if r.Block? {
        assert GivenOpen(Gift(old(Now()), old(Stock()), Now(), Stock(), r.addr - 16, nb));
      }
    }

    lemma {:induction false} Extents()
      requires Valid()
      ensures 0 <= dvsize <= HALF && 0 <= topsize <= HALF && (top == 0 ==> dvsize == 0 && topsize == 0)
    {
      if top != 0 {
        Sizes();
        TopPlace(Now());
      }
    }

    /** The bins' share of malloc. */
    method MallocBinned(bytes: int, nb: int) returns (p: int)
      requires Valid() && 0 <= bytes < TreeIndex.W64 && nb == ChunkFor(bytes)
      modifies this`mem, this`smallmap, this`treemap, this`cs, this`sb, this`tb, this`dv, this`dvsize
      ensures |mem| == |old(mem)|
      ensures p == 0 ==> Valid() && Now() == old(Now()) && dv == old(dv) && dvsize == old(dvsize) && BinsPassed(nb)
      ensures p != 0 ==> Ready() && Given(Gift(old(Now()), old(Stock()), Now(), Stock(), p, nb))
      ensures p != 0 ==> !NoneFits(old(cs), nb) && bytes < MAX_REQUEST
    {
      p := 0;
      if bytes <= MAX_SMALL_REQUEST {
        p := MallocFromSmall(nb);
      } else if bytes < MAX_REQUEST {
        p := MallocFromTrees(nb);
      } else {
        HugePassed(nb);
      }
      if p != 0 {
        assert GivenOpen(Gift(old(Now()), old(Stock()), Now(), Stock(), p, nb));
      }
    }

    /**
     * malloc.  A block is a chunk of its own whose payload starts on a multiple of 16 and
     * holds the bytes asked for; everyone else's bytes stay as they are; the chunk is the
     * one the placement policy prescribes.  New memory is obtained only if no free chunk
     * and not the top chunk is large enough.
     */
    method Malloc(bytes: int) returns (r: Outcome)
      requires Valid() && 0 <= bytes < TreeIndex.W64
      modifies this
      ensures r.Block? ==> Ready()
      ensures r.Block? ==>
                Given(Gift(old(Now()), old(Stock()), Now(), Stock(), r.addr - 16, ChunkFor(bytes)))
      ensures r.Null? ==> Valid() && Now() == old(Now())
      ensures r.Truncated? ==> segBase + segSize != arenaBase + chCtr
      ensures r.Truncated? ==> W32 - SYS_ALLOC_PADDING - 2 * PAGE_SIZE < ChunkFor(bytes)
      ensures |old(mem)| != |mem| ==> NoneFits(old(cs), ChunkFor(bytes)) && old(topsize) <= ChunkFor(bytes)
      ensures Meets(r, old(Fate(ChunkFor(bytes))))
      ensures MAX_REQUEST <= bytes ==> r == Null
    {
      var nb := ChunkFor(bytes);
      ghost var v := Now();
      var p := MallocBinned(bytes, nb);
      if p != 0 {
        r := Block(p + 16);
        assert r.addr - 16 == p;
        return;
      }
      assert Now() == v && cs == v.cs && mem == v.mem && topsize == v.topsize;
      r := MallocRest(nb);
    }

    lemma {:induction false} HugePassed(nb: int)
      requires Valid() && nb == ChunkFor(MAX_REQUEST)
      ensures BinsPassed(nb)
    {
      Extents();
      if top != 0 {
        Sizes();
      }
    }

    // ----- free -----

    /** The victim while p is in limbo; p may have been it. */
    ghost predicate DvOk(p: int)
      reads `cs, `dv, `dvsize
    {
      if p == dv then forall a :: a in cs ==> cs[a].kind != Victim else VictimOk(cs, dv, dvsize)
    }

    /** The chunk p of size psize is being given back. */
    ghost predicate Loose(p: int, psize: int)
      reads `mem, `lo, `top, `topsize, `cs, `sb, `tb, `smallmap, `treemap, `leastAddr, `dv, `dvsize
    {
      Sound() && Held(Now(), p) && cs[p].size == psize && DvOk(p) && Within()
    }

    /** set_free_with_pinuse */
    method SetFree(p: int, psize: int)
      requires Loose(p, psize) && p + psize in cs && cs[p + psize].kind == Used
      modifies this`mem
      ensures Loose(p, psize) && Stays(old(Now()), Now()) && |mem| == |old(mem)|
      ensures Tags(mem, cs[p := Chunk(psize, Binned)], lo, top, topsize)
      ensures Tags(mem, cs[p := Chunk(psize, Victim)], lo, top, topsize)
    {
      HeldFree(Now(), p);
      ghost var mem' := FreeWholeMem(mem, p, psize);
      var next := p + psize;
      mem := mem[next + 8 := mem[next + 8].(pinuse := false)];
      mem := mem[p + 8 := Head(psize, true, false)];
      mem := mem[next := Val(psize)];
      assert mem == mem';
    }

    /** set_size_and_pinuse_of_free_chunk, when the chunk after p knows that p is free. */
    method SetFreeSize(p: int, psize: int)
      requires Loose(p, psize) && p + psize in cs && cs[p + psize].kind == Used
      requires 0 <= p + psize && p + psize + 8 < |mem| && mem[p + psize + 8].Head? && !mem[p + psize + 8].pinuse
      modifies this`mem
      ensures Loose(p, psize) && Stays(old(Now()), Now()) && |mem| == |old(mem)|
      ensures Tags(mem, cs[p := Chunk(psize, Binned)], lo, top, topsize)
      ensures Tags(mem, cs[p := Chunk(psize, Victim)], lo, top, topsize)
    {
      HeldFree(Now(), p);
      ghost var mem' := FreeWholeMem(mem, p, psize);
      mem := mem[p + 8 := Head(psize, true, false)];
      mem := mem[p + psize := Val(psize)];
      assert mem == mem';
    }

    /** p, its tags set, is the victim from now on. */
    method BecomeVictim(p: int, psize: int)
      requires Loose(p, psize) && (p != dv ==> dvsize == 0)
      requires Tags(mem, cs[p := Chunk(psize, Victim)], lo, top, topsize)
      modifies this`cs, this`dv, this`dvsize
      ensures Settled() && Stays(old(Now()), Now())
      ensures cs == old(cs)[p := Chunk(psize, Victim)] && dv == p && dvsize == psize
    {
      NewVictim(Now(), p, 0, 0);
      cs := cs[p := Chunk(psize, Victim)];
      dv, dvsize := p, psize;
    }

    /** Forward consolidation with top. */
    method FreeToTop(p: int, psize: int)
      requires Loose(p, psize) && p + psize == top
      modifies this`mem, this`cs, this`top, this`topsize, this`dv, this`dvsize
      ensures Settled() && Stays(old(Now()), Now()) && |mem| == |old(mem)|
      ensures top == p && top + topsize == old(top + topsize)
      ensures cs == old(cs) - {p} && dv == (if p == old(dv) then 0 else old(dv))
      ensures dvsize == if p == old(dv) then 0 else old(dvsize)
    {
      HeldTop(Now(), p);
      var tsize := topsize + psize;
      topsize := tsize;
      top := p;
      mem := mem[p + 8 := Head(tsize, true, false)];
      cs := cs - {p};
      if p == dv {
        dv := 0;
        dvsize := 0;
      }
    }

    /** p, its tags set, goes to its bin. */
    method BinLoose(p: int, psize: int)
      requires Loose(p, psize) && p != dv && Tags(mem, cs[p := Chunk(psize, Binned)], lo, top, topsize)
      modifies this`mem, this`smallmap, this`treemap, this`cs, this`sb, this`tb
      ensures Settled() && Stays(old(Now()), Now()) && |mem| == |old(mem)|
      ensures cs == old(cs)[p := Chunk(psize, Binned)]
    {
      ChunkSize(Now(), p);
      InsertChunk(p, psize);
    }

    /** Forward consolidation with the victim. */
    method FreeToDv(p: int, psize: int)
      requires Loose(p, psize) && p + psize == dv && dvsize != 0
      modifies this`mem, this`cs, this`dv, this`dvsize
      ensures Settled() && Stays(old(Now()), Now()) && |mem| == |old(mem)|
      ensures dv == p && dvsize == psize + old(dvsize) && cs == (old(cs) - {old(dv)})[p := Chunk(dvsize, Victim)]
    {
      ghost var v, next := Now(), dv;
      ChunkSize(v, p);
      TakeVictim(v, next);
      JoinForward(v, v.(cs := v.cs[next := Chunk(dvsize, Limbo)]), p);
      var dsize := dvsize + psize;
      dvsize := dsize;
      dv := p;
      cs := (cs[next := Chunk(cs[next].size, Limbo)] - {next})[p := Chunk(dsize, Limbo)];
      ghost var v1 := Now();
      SetFreeSize(p, dsize);
      ghost var v2 := Now();
      BecomeVictim(p, dsize);
      Overwritten(v.cs - {next}, p, v2.cs[p], cs[p]);
      StaysTrans(v, v1, v2);
      StaysTrans(v, v2, Now());
    }

    /** Take the binned chunk after p out of its bin and make it part of p. */
    method AbsorbNext(p: int, psize: int) returns (nsize: int)
      requires Loose(p, psize) && p + psize in cs && cs[p + psize].kind == Binned
      modifies this`mem, this`smallmap, this`treemap, this`cs, this`sb, this`tb
      ensures nsize == old(cs)[p + psize].size && Loose(p, psize + nsize) && Stays(old(Now()), Now())
              && |mem| == |old(mem)|
      ensures var e := p + psize + nsize;
              e in cs && cs[e].kind == Used && 0 <= e && e + 8 < |mem| && mem[e + 8].Head? && !mem[e + 8].pinuse
      ensures cs == (old(cs) - {p + psize})[p := Chunk(psize + nsize, Limbo)]
    {
      ghost var v := Now();
      HeldNext(v, p);
      var next := p + psize;
      nsize := mem[next + 8].size;
      UnlinkChunk(next, nsize);
      JoinForward(v, Now(), p);
      cs := (cs - {next})[p := Chunk(psize + nsize, Limbo)];
    }

    /** A chunk joined with a free one is the victim if it was, and else goes to its bin. */
    method PlaceJoined(p: int, psize: int)
      requires Loose(p, psize) && p + psize in cs && cs[p + psize].kind == Used
      requires 0 <= p + psize && p + psize + 8 < |mem| && mem[p + psize + 8].Head? && !mem[p + psize + 8].pinuse
      modifies this`mem, this`smallmap, this`treemap, this`cs, this`sb, this`tb, this`dv, this`dvsize
      ensures Settled() && Stays(old(Now()), Now()) && |mem| == |old(mem)|
      ensures cs == old(cs)[p := Chunk(psize, if p == old(dv) then Victim else Binned)]
      ensures dv == old(dv) && dvsize == if p == old(dv) then psize else old(dvsize)
    {
      ghost var v := Now();
      SetFreeSize(p, psize);
      ghost var v1 := Now();
      if p == dv {
        BecomeVictim(p, psize);
      } else {
        BinLoose(p, psize);
      }
      StaysTrans(v, v1, Now());
    }

    /** Forward consolidation with a binned chunk, and what becomes of the result. */
    method FreeToNext(p: int, psize: int)
      requires Loose(p, psize) && p + psize in cs && cs[p + psize].kind == Binned
      modifies this`mem, this`smallmap, this`treemap, this`cs, this`sb, this`tb, this`dv, this`dvsize
      ensures Settled() && Stays(old(Now()), Now()) && |mem| == |old(mem)|
      ensures var size := psize + old(cs)[p + psize].size;
              && cs == (old(cs) - {p + psize})[p := Chunk(size, if p == old(dv) then Victim else Binned)]
              && dv == old(dv) && dvsize == if p == old(dv) then size else old(dvsize)
    {
      ghost var v := Now();
      var nsize := AbsorbNext(p, psize);
      ghost var v1 := Now();
      PlaceJoined(p, psize + nsize);
      StaysTrans(v, v1, Now());
      Overwritten(v.cs - {p + psize}, p, v1.cs[p], cs[p]);
    }

    /** The second half of dispose_chunk. */
    method DisposeForward(p: int, psize: int)
      requires Loose(p, psize) && (p == dv ==> !(p + psize in cs && cs[p + psize].kind == Used))
      modifies this`mem, this`smallmap, this`treemap, this`cs, this`sb, this`tb, this`dv, this`dvsize, this`top,
               this`topsize
      ensures Settled() && Stays(old(Now()), Now()) && |mem| == |old(mem)| && top + topsize == old(top + topsize)
      ensures Forwards(old(Stock()), p, Stock())
    {
      ghost var v := Now();
      HeldNext(v, p);
      var next := p + psize;
      if leastAddr <= next {
        if !mem[next + 8].cinuse {
          if next == top {
            FreeToTop(p, psize);
          } else if next == dv {
            FreeToDv(p, psize);
          } else {
            FreeToNext(p, psize);
          }
        } else {
          SetFree(p, psize);
          ghost var v1 := Now();
          BinLoose(p, psize);
          StaysTrans(v, v1, Now());
        }
      } else {
        assert false;
      }
    }

    /** Backward consolidation of p, no longer in use, with the free chunk before it. */
    method AbsorbPrev(prev: int, prevsize: int, p: int, psize: int)
      requires Sound() && VictimOk(cs, dv, dvsize) && Within() && p in cs && cs[p] == Chunk(psize, Limbo)
      requires forall a :: a in cs && a != p ==> cs[a].kind != Limbo
      requires prev in cs && IsFree(cs[prev]) && cs[prev].size == prevsize && prev + prevsize == p
               && AfterUsed(cs, prev)
      modifies this`mem, this`smallmap, this`treemap, this`cs, this`sb, this`tb
      ensures Loose(prev, prevsize + psize) && Stays(old(Now()), Now()) && |mem| == |old(mem)|
      ensures 0 <= p + psize && p + psize + 8 < |mem| && mem[p + psize + 8] == old(mem)[p + psize + 8]
      ensures cs == (old(cs) - {p})[prev := Chunk(prevsize + psize, Limbo)]
    {
      ghost var v := Now();
      ChunkSize(v, prev);
      TakePrev(prev, prevsize);
      JoinBack(v, Now(), prev, p);
      TakenJoined(v.cs, prev, p, Chunk(prevsize, Limbo), Chunk(prevsize + psize, Limbo));
      cs := (cs - {p})[prev := Chunk(prevsize + psize, Limbo)];
    }

    /** Takes the free chunk prev out of its bin, or lets go of it as the victim. */
    method TakePrev(prev: int, prevsize: int)
      requires Sound() && VictimOk(cs, dv, dvsize) && prev in cs && IsFree(cs[prev]) && cs[prev].size == prevsize
      modifies this`mem, this`smallmap, this`treemap, this`cs, this`sb, this`tb
      ensures Sound() && Takes(old(Now()), Now(), prev) && |mem| == |old(mem)|
    {
      ChunkSize(Now(), prev);
      if prev != dv {
        UnlinkChunk(prev, prevsize);
      } else {
        TakeVictim(Now(), prev);
        cs := cs[prev := Chunk(prevsize, Limbo)];
      }
    }

    /** dispose_chunk for a chunk that follows the free chunk prev. */
    method DisposeBack(prev: int, prevsize: int, p: int, psize: int)
      requires Settled() && p in cs && cs[p] == Chunk(psize, Used) && prev in cs && IsFree(cs[prev])
      requires cs[prev].size == prevsize && prev + prevsize == p && AfterUsed(cs, prev)
      modifies this`mem, this`smallmap, this`treemap, this`cs, this`sb, this`tb, this`dv, this`dvsize, this`top,
               this`topsize
      ensures Settled() && Releases(old(Now()), Now(), p) && |mem| == |old(mem)| && top + topsize == old(top + topsize)
      ensures Rejoins(old(Stock()), p, Stock())
    {
      ghost var v, x := Now(), Stock();
      HandOver(v, p);
      UsedWords(v, p);
      cs := cs[p := Chunk(psize, Limbo)];
      ghost var v1 := Now();
      AbsorbPrev(prev, prevsize, p, psize);
      ghost var v2 := Now();
      BackedIs(v.cs, p, prev);
      ghost var y := Stock();
      assert y == x.(cs := Backed(x.cs, p, prev));
      DisposeJoined(prev, prevsize + psize);
      StaysTrans(v1, v2, Now());
      RejoinsFrom(x, p, prev, y.cs, Stock());
    }

    /** dispose_chunk, and the heart of free: consolidate p with its free neighbours and place the result. */
    method Dispose(p: int, psize: int)
      requires Settled() && p in cs && cs[p] == Chunk(psize, Used)
      modifies this`mem, this`smallmap, this`treemap, this`cs, this`sb, this`tb, this`dv, this`dvsize, this`top,
               this`topsize
      ensures Settled() && Releases(old(Now()), Now(), p) && |mem| == |old(mem)| && top + topsize == old(top + topsize)
      ensures Rejoins(old(Stock()), p, Stock())
    {
      ghost var v := Now();
      HandOver(v, p);
      UsedWords(v, p);
      if mem[p + 8].pinuse {
        NothingBacks(v, p);
        ghost var x := Stock();
        cs := cs[p := Chunk(psize, Limbo)];
        ghost var loose := cs;
        DisposeForward(p, psize);
        RejoinsFrom(x, p, p, loose, Stock());
      } else {
        ghost var q := PrevFree(v, p);
        var prevsize := mem[p].v;
        var prev := p - prevsize;
        if leastAddr <= prev {
          DisposeBack(prev, prevsize, p, psize);
        } else {
          assert false;
        }
      }
    }

    /** After backward consolidation: the victim grows in place, or consolidation goes on. */
    method DisposeJoined(p: int, psize: int)
      requires Loose(p, psize) && 0 <= p + psize && p + psize + 8 < |mem| && mem[p + psize + 8].Head?
      requires mem[p + psize + 8].pinuse
      modifies this`mem, this`smallmap, this`treemap, this`cs, this`sb, this`tb, this`dv, this`dvsize, this`top,
               this`topsize
      ensures Settled() && Stays(old(Now()), Now()) && |mem| == |old(mem)| && top + topsize == old(top + topsize)
      ensures Forwards(old(Stock()), p, Stock())
    {
      ghost var v := Now();
      HeldNext(v, p);
      if p == dv && mem[p + psize + 8].cinuse && mem[p + psize + 8].pinuse {
        SetFree(p, psize);
        ghost var v1 := Now();
        BecomeVictim(p, psize);
        StaysTrans(v, v1, Now());
      } else {
        DisposeForward(p, psize);
      }
    }

    /** free; the source aborts if the chunk is not in use or its tags are broken. */
    method Free(block: int)
      requires if block == 0 then Valid() else Ready() && block - 16 in cs && cs[block - 16].kind == Used
      modifies this`mem, this`smallmap, this`treemap, this`cs, this`sb, this`tb, this`dv, this`dvsize, this`top,
               this`topsize
      ensures block == 0 ==> Valid() && Now() == old(Now())
      ensures block != 0 ==> Ready() && Releases(old(Now()), Now(), block - 16)
      ensures block != 0 ==> Rejoins(old(Stock()), block - 16, Stock())
    {
      if block != 0 {
        var p := block - 16;
        UsedWords(Now(), p);
        ChunkSize(Now(), p);
        var psize := mem[p + 8].size;
        var next := p + psize;
        if leastAddr <= p && mem[p + 8].cinuse && p < next && mem[next + 8].pinuse {
          Dispose(p, psize);
        } else {
          assert false;
        }
      }
    }

    // ----- realloc -----

    /** set_inuse on the two parts of a chunk in use. */
    method DivideUsed(p: int, s: int, nb: int) returns (r: int)
      requires Settled() && p in cs && cs[p] == Chunk(s, Used) && nb % 16 == 0
      requires MIN_CHUNK_SIZE <= nb && nb + MIN_CHUNK_SIZE <= s
      modifies this`mem, this`cs
      ensures r == p + nb && r !in old(cs) && cs == old(cs)[p := Chunk(nb, Used)][r := Chunk(s - nb, Used)]
      ensures Settled() && |mem| == |old(mem)|
      ensures Stays(Hide(old(Now()), p), Hide(Hide(Now(), p), r)) && SameBytes(old(mem), mem, p + 16, p + 16, nb - 8)
      ensures 0 <= r && r + 8 < |mem| && mem[r + 8].Head? && mem[r + 8].pinuse
    {
      DivideStep(Now(), p, nb);
      ghost var mem' := DivideMem(mem, p, nb, s);
      r := p + nb;
      mem := mem[p + 8 := Head(nb, mem[p + 8].pinuse, true)];
      mem := mem[r + 8 := Head(s - nb, true, true)];
      assert mem == mem';
      cs := cs[p := Chunk(nb, Used)][r := Chunk(s - nb, Used)];
    }

    /** Cut a chunk in use down to nb and give the rest back. */
    method Shrink(p: int, s: int, nb: int)
      requires Settled() && p in cs && cs[p] == Chunk(s, Used) && nb % 16 == 0
      requires MIN_CHUNK_SIZE <= nb && nb + MIN_CHUNK_SIZE <= s
      modifies this`mem, this`smallmap, this`treemap, this`cs, this`sb, this`tb, this`dv, this`dvsize, this`top,
               this`topsize
      ensures Settled() && Resizes(old(Now()), Now(), p, nb - 8) && cs[p] == Chunk(nb, Used)
      ensures |mem| == |old(mem)| && top + topsize == old(top + topsize)
      ensures CutsDown(old(Stock()), p, s, nb, Stock())
    {
      ghost var v := Now();
      var r := DivideUsed(p, s, nb);
      ghost var v1 := Now();
      Dispose(r, s - nb);
      ShrinkDone(v, v1, Now(), p, nb);
    }

    /** set_inuse over p and the free chunk after it, just taken from v. */
    method Widen(p: int, s: int, ghost v: View)
      requires Sound() && HeapOk(v) && NoLimbo(v.cs) && p in v.cs && v.cs[p].kind == Used
      requires p + v.cs[p].size in v.cs && IsFree(v.cs[p + v.cs[p].size]) && Takes(v, Now(), p + v.cs[p].size)
      requires s == v.cs[p].size + v.cs[p + v.cs[p].size].size
      modifies this`mem, this`cs
      ensures Sound() && NoLimbo(cs) && Resizes(v, Now(), p, v.cs[p].size - 8) && |mem| == |old(mem)|
      ensures cs == (v.cs - {p + v.cs[p].size})[p := Chunk(s, Used)]
    {
      AbsorbUsed(v, Now(), p);
      ghost var n, mem' := p + v.cs[p].size, ReuseMem(mem, p, s);
      mem := mem[p + 8 := Head(s, mem[p + 8].pinuse, true)];
      mem := mem[p + s + 8 := mem[p + s + 8].(pinuse := true)];
      assert mem == mem';
      cs := (cs - {n})[p := Chunk(s, Used)];
    }

    /** p takes over the victim, and there is none from then on. */
    method AbsorbVictim(p: int, oldsize: int, newsize: int)
      requires Settled() && p in cs && cs[p] == Chunk(oldsize, Used) && p + oldsize == dv && dvsize != 0
      requires newsize == oldsize + dvsize
      modifies this`mem, this`cs, this`dv, this`dvsize
      ensures Settled() && Resizes(old(Now()), Now(), p, oldsize - 8) && |mem| == |old(mem)|
      ensures dv == 0 && dvsize == 0 && cs == (old(cs) - {old(dv)})[p := Chunk(newsize, Used)]
      ensures p + newsize in cs && cs[p + newsize].kind == Used
    {
      ghost var v := Now();
      FreeNext(v, dv);
      TakeVictim(v, dv);
      cs := cs[dv := Chunk(dvsize, Limbo)];
      Widen(p, newsize, v);
      dv, dvsize := 0, 0;
    }

    /** Extend p into the victim. */
    method ExtendIntoDv(p: int, oldsize: int, nb: int)
      requires Settled() && p in cs && cs[p] == Chunk(oldsize, Used) && p + oldsize == dv && dvsize != 0
      requires nb % 16 == 0 && oldsize < nb <= oldsize + dvsize
      modifies this`mem, this`cs, this`dv, this`dvsize
      ensures Settled() && Resizes(old(Now()), Now(), p, oldsize - 8) && nb <= cs[p].size < nb + MIN_CHUNK_SIZE
      ensures |mem| == |old(mem)|
      ensures GrowsIntoVictim(old(Stock()), p, nb, Stock())
    {
      ghost var v := Now();
      var newsize, dsize := oldsize + dvsize, oldsize + dvsize - nb;
      ChunkSize(v, p);
      AbsorbVictim(p, oldsize, newsize);
      if dsize >= MIN_CHUNK_SIZE {
        ghost var v1 := Now();
        TailToDv(p, newsize, nb);
        ResizesTrans(v, v1, Now(), p, oldsize - 8, nb - 8);
      }
    }

    /** Cut a chunk in use down to nb; the rest becomes the victim, which there was none of. */
    method TailToDv(p: int, s: int, nb: int)
      requires Settled() && dvsize == 0 && p in cs && cs[p] == Chunk(s, Used) && nb % 16 == 0
      requires MIN_CHUNK_SIZE <= nb && nb + MIN_CHUNK_SIZE <= s && p + s in cs && cs[p + s].kind == Used
      modifies this`mem, this`cs, this`dv, this`dvsize
      ensures Settled() && Resizes(old(Now()), Now(), p, nb - 8) && cs[p] == Chunk(nb, Used) && |mem| == |old(mem)|
      ensures dv == p + nb && dvsize == s - nb && cs == old(cs)[p := Chunk(nb, Used)][dv := Chunk(dvsize, Victim)]
    {
      ghost var v := Now();
      ChunkSize(v, p);
      var r := DivideUsed(p, s, nb);
      ghost var v1 := Now();
      HandOver(v1, r);
      cs := cs[r := Chunk(s - nb, Limbo)];
      ghost var v2 := Now();
      SetFree(r, s - nb);
      ghost var v3 := Now();
      BecomeVictim(r, s - nb);
      StaysTrans(v2, v3, Now());
      ShrinkDone(v, v1, Now(), p, nb);
    }

    /** Extend p, the last chunk, into top. */
    method ExtendIntoTop(p: int, oldsize: int, nb: int)
      requires Settled() && p in cs && cs[p] == Chunk(oldsize, Used) && p + oldsize == top
      requires nb % 16 == 0 && oldsize < nb < oldsize + topsize
      modifies this`mem, this`cs, this`top, this`topsize
      ensures Settled() && Resizes(old(Now()), Now(), p, oldsize - 8) && cs[p].size == nb
      ensures |mem| == |old(mem)| && top + topsize == old(top + topsize)
      ensures Stock() == Pool(old(cs)[p := Chunk(nb, Used)], p + nb, dv, dvsize)
    {
      GrowLastStep(Now(), p, nb);
      var newtopsize := oldsize + topsize - nb;
      var newtop := p + nb;
      mem := mem[p + 8 := Head(nb, mem[p + 8].pinuse, true)];
      mem := mem[newtop + 8 := Head(newtopsize, true, false)];
      top := newtop;
      topsize := newtopsize;
      cs := cs[p := Chunk(nb, Used)];
    }

    /** Extend p into the binned chunk after it. */
    method ExtendIntoNext(p: int, oldsize: int, nb: int, nextsize: int)
      requires Settled() && p in cs && cs[p] == Chunk(oldsize, Used)
      requires p + oldsize in cs && cs[p + oldsize] == Chunk(nextsize, Binned)
      requires nb % 16 == 0 && oldsize < nb <= oldsize + nextsize
      modifies this`mem, this`smallmap, this`treemap, this`cs, this`sb, this`tb, this`dv, this`dvsize, this`top,
               this`topsize
      ensures Settled() && Resizes(old(Now()), Now(), p, oldsize - 8) && nb <= cs[p].size < nb + MIN_CHUNK_SIZE
      ensures |mem| == |old(mem)| && top + topsize == old(top + topsize)
      ensures Trims(old(Stock()).(cs := Widened(old(Stock()), p)), p, nb, Stock())
    {
      ghost var v, x := Now(), Stock();
      ChunkSize(v, p);
      UnlinkChunk(p + oldsize, nextsize);
      var newsize := oldsize + nextsize;
      Widen(p, newsize, v);
      ghost var z := Stock();
      assert z == x.(cs := Widened(x, p));
      if newsize - nb >= MIN_CHUNK_SIZE {
        ghost var v1 := Now();
        Shrink(p, newsize, nb);
        ResizesTrans(v, v1, Now(), p, oldsize - 8, nb - 8);
        TrimsCut(z, p, newsize, nb, Stock());
      }
    }

    /** try_realloc_chunk: resize p where it is, if there is room. */
    method TryRealloc(p: int, nb: int) returns (ok: bool)
      requires Ready() && p in cs && cs[p].kind == Used && MIN_CHUNK_SIZE <= nb && nb % 16 == 0
      modifies this`mem, this`smallmap, this`treemap, this`cs, this`sb, this`tb, this`dv, this`dvsize, this`top,
               this`topsize
      ensures Ready() && (!ok ==> unchanged(this))
      ensures ok ==> Resizes(old(Now()), Now(), p, if nb < old(cs)[p].size then nb - 8 else old(cs)[p].size - 8)
      ensures ok ==> nb <= cs[p].size < nb + MIN_CHUNK_SIZE
      ensures ok <==> GrowsInPlace(old(Now()), p, nb)
      ensures ok ==> Resized(Resize(old(Stock()), p, nb, Stock()))
    {
      ghost var v := Now();
      UsedWords(v, p);
      BehindUsed(v, p);
      ok := false;
      var oldsize := mem[p + 8].size;
      var next := p + oldsize;
      if oldsize >= nb {
        if oldsize - nb >= MIN_CHUNK_SIZE {
          Shrink(p, oldsize, nb);
        } else {
          ResizesSelf(v, p);
        }
        StaysOrShrinks(old(Stock()), p, nb, Stock());
        ok := true;
      } else {
        ok := TryGrow(p, oldsize, nb, next);
      }
    }

    /** The chunk is the last one before top. */
    method GrowIntoTop(p: int, oldsize: int, nb: int, next: int) returns (ok: bool)
      requires Ready() && p in cs && cs[p] == Chunk(oldsize, Used) && oldsize < nb && nb % 16 == 0
               && next == p + oldsize
      requires next == top
      modifies this`mem, this`smallmap, this`treemap, this`cs, this`sb, this`tb, this`dv, this`dvsize, this`top,
               this`topsize
      ensures Ready() && (!ok ==> unchanged(this)) && (ok <==> GrowsInPlace(old(Now()), p, nb))
      ensures ok ==> Resizes(old(Now()), Now(), p, oldsize - 8) && nb <= cs[p].size < nb + MIN_CHUNK_SIZE
      ensures ok ==> Resized(Resize(old(Stock()), p, nb, Stock()))
    {
      ghost var v, x := Now(), Stock();
      UsedWords(v, p);
      BehindUsed(v, p);
      ok := oldsize + topsize > nb;
      if ok {
        ExtendIntoTop(p, oldsize, nb);
        assert Reach() == old(Reach());
        GrewIntoTop(x, p, nb, Stock());
      }
    }

    /** The chunk is followed by the victim. */
    method GrowIntoDv(p: int, oldsize: int, nb: int, next: int) returns (ok: bool)
      requires Ready() && p in cs && cs[p] == Chunk(oldsize, Used) && oldsize < nb && nb % 16 == 0
               && next == p + oldsize
      requires next == dv && next != top
      modifies this`mem, this`smallmap, this`treemap, this`cs, this`sb, this`tb, this`dv, this`dvsize, this`top,
               this`topsize
      ensures Ready() && (!ok ==> unchanged(this)) && (ok <==> GrowsInPlace(old(Now()), p, nb))
      ensures ok ==> Resizes(old(Now()), Now(), p, oldsize - 8) && nb <= cs[p].size < nb + MIN_CHUNK_SIZE
      ensures ok ==> Resized(Resize(old(Stock()), p, nb, Stock()))
    {
      ghost var v, x := Now(), Stock();
      UsedWords(v, p);
      BehindUsed(v, p);
      ok := oldsize + dvsize >= nb;
      if ok {
        ExtendIntoDv(p, oldsize, nb);
        assert Reach() == old(Reach());
        GrewIntoVictim(x, p, nb, Stock());
      }
    }

    /** The chunk is followed by a binned one. */
    method GrowIntoNext(p: int, oldsize: int, nb: int, next: int) returns (ok: bool)
      requires Ready() && p in cs && cs[p] == Chunk(oldsize, Used) && oldsize < nb && nb % 16 == 0
               && next == p + oldsize
      requires next in cs && cs[next].kind == Binned && next != top && next != dv
      modifies this`mem, this`smallmap, this`treemap, this`cs, this`sb, this`tb, this`dv, this`dvsize, this`top,
               this`topsize
      ensures Ready() && (!ok ==> unchanged(this)) && (ok <==> GrowsInPlace(old(Now()), p, nb))
      ensures ok ==> Resizes(old(Now()), Now(), p, oldsize - 8) && nb <= cs[p].size < nb + MIN_CHUNK_SIZE
      ensures ok ==> Resized(Resize(old(Stock()), p, nb, Stock()))
    {
      ghost var v, x := Now(), Stock();
      UsedWords(v, p);
      BehindUsed(v, p);
      var nextsize := mem[next + 8].size;
      ok := oldsize + nextsize >= nb;
      if ok {
        ExtendIntoNext(p, oldsize, nb, nextsize);
        assert Reach() == old(Reach());
        GrewIntoNext(x, p, nb, next, Stock());
      }
    }

    /** The branches of try_realloc_chunk that take from what lies behind the chunk. */
    method TryGrow(p: int, oldsize: int, nb: int, next: int) returns (ok: bool)
      requires Ready() && p in cs && cs[p] == Chunk(oldsize, Used) && oldsize < nb && nb % 16 == 0
               && next == p + oldsize
      modifies this`mem, this`smallmap, this`treemap, this`cs, this`sb, this`tb, this`dv, this`dvsize, this`top,
               this`topsize
      ensures Ready() && (!ok ==> unchanged(this)) && (ok <==> GrowsInPlace(old(Now()), p, nb))
      ensures ok ==> Resizes(old(Now()), Now(), p, oldsize - 8) && nb <= cs[p].size < nb + MIN_CHUNK_SIZE
      ensures ok ==> Resized(Resize(old(Stock()), p, nb, Stock()))
    {
      ghost var v := Now();
      UsedWords(v, p);
      BehindUsed(v, p);
      ok := false;
      if next == top {
        ok := GrowIntoTop(p, oldsize, nb, next);
      } else if next == dv {
        ok := GrowIntoDv(p, oldsize, nb, next);
      } else if !mem[next + 8].cinuse {
        ok := GrowIntoNext(p, oldsize, nb, next);
      }
    }

    /** memcpy between the payloads of two chunks in use. */
    method Memcpy(to: int, from: int, n: int)
      requires 0 <= n && 0 <= to && to + n <= |mem| && 0 <= from && from + n <= |mem|
      requires from + n <= to || to + n <= from
      modifies this`mem
      ensures |mem| == |old(mem)| && SameBytes(old(mem), mem, from, to, n)
      ensures forall x :: 0 <= x < |mem| && !(to <= x < to + n) ==> mem[x] == old(mem)[x]
    {
      for i := 0 to n
        invariant |mem| == |old(mem)| && SameBytes(old(mem), mem, from, to, i)
        invariant forall x :: 0 <= x < |mem| && !(to <= x < to + i) ==> mem[x] == old(mem)[x]
      {
        mem := mem[to + i := mem[from + i]];
      }
    }

    /** memcpy of n bytes from block p to block q. */
    method CopyBlock(p: int, q: int, n: int)
      requires Ready() && p in cs && q in cs && p != q && cs[p].kind == Used && cs[q].kind == Used
      requires 0 <= n <= cs[p].size - 8 && n <= cs[q].size - 8
      modifies this`mem
      ensures Ready() && |mem| == |old(mem)| && 0 <= q && q + 16 + n <= |mem|
      ensures Stays(Hide(old(Now()), q), Hide(Now(), q)) && SameBytes(old(mem), mem, p + 16, q + 16, n)
    {
      ghost var v := Now();
      UsedWords(v, p);
      UsedWords(v, q);
      UsersApart(v, p, q);
      Memcpy(q + 16, p + 16, n);
      OwnerWrites(v, mem, q);
    }

    /** The copying part of realloc: malloc a new block, copy, free the old one. */
    method ReallocByMoving(p: int, bytes: int) returns (r: Outcome)
      requires Ready() && p in cs && cs[p].kind == Used && 0 <= bytes < MAX_REQUEST && ArenaOk()
      modifies this
      ensures r.Block? ==> Ready() && r.addr - 16 in cs
      ensures r.Block? ==> ChunkFor(bytes) <= cs[r.addr - 16].size < ChunkFor(bytes) + MIN_CHUNK_SIZE
      ensures r.Block? ==> Moves(old(Now()), Now(), p, r.addr - 16, Shorter(old(cs)[p].size - 8, bytes))
      ensures r.Null? ==> Ready() && Now() == old(Now())
      ensures Meets(r, old(Fate(ChunkFor(bytes))))
      ensures r.Block? ==> Relocates(Move(old(Stock()), p, r.addr - 16, ChunkFor(bytes), Stock()))
    {
      ghost var v := Now();
      TopPlace(v);
      UsedWords(v, p);
      r := Malloc(bytes);
      if r.Block? {
        var q := r.addr - 16;
        GivenAppears(Gift(v, old(Stock()), Now(), Stock(), q, ChunkFor(bytes)));
        ghost var z := Stock();
        GivenAllots(Gift(v, old(Stock()), Now(), z, q, ChunkFor(bytes)));
        MoveInto(p, q, bytes, v);
        MovedVia(Move(old(Stock()), p, q, ChunkFor(bytes), Stock()), z);
      }
    }

    /** The bytes of p are copied to the new block q, and p is given back. */
    method MoveInto(p: int, q: int, bytes: int, ghost v: View)
      requires Ready() && p in v.cs && v.cs[p].kind == Used && p != q && Appears(v, Now(), q)
      requires 0 <= bytes < MAX_REQUEST && ChunkFor(bytes) <= cs[q].size && 8 <= v.cs[p].size
      modifies this
      ensures Ready() && q in cs && q in old(cs) && cs[q] == old(cs)[q]
      ensures Moves(v, Now(), p, q, Shorter(v.cs[p].size - 8, bytes))
      ensures Rejoins(old(Stock()), p, Stock())
    {
      ghost var v1 := Now();
      StaysHide(v, Hide(v1, q), p);
      UsedWords(v1, p);
      var n := Shorter(mem[p + 8].size - 8, bytes);
      CopyBlock(p, q, n);
      ghost var v2 := Now();
      Free(p + 16);
      MoveDone(v, v1, v2, Now(), p, q, n);
    }

    /** realloc: the block keeps its bytes up to the smaller of the two sizes, wherever it ends up. */
    method Realloc(block: int, bytes: int) returns (r: Outcome)
      requires Valid() && 0 <= bytes < TreeIndex.W64
      requires block != 0 ==> Ready() && block - 16 in cs && cs[block - 16].kind == Used
      modifies this
      ensures r.Block? ==> Ready() && r.addr - 16 in cs && cs[r.addr - 16].kind == Used
      ensures r.Block? ==> bytes + 8 <= ChunkFor(bytes) <= cs[r.addr - 16].size < ChunkFor(bytes) + MIN_CHUNK_SIZE
      ensures r.Block? && block == 0 ==>
                && Appears(old(Now()), Now(), r.addr - 16)
                && Given(Gift(old(Now()), old(Stock()), Now(), Stock(), r.addr - 16, ChunkFor(bytes)))
      ensures r.Block? && block != 0 ==>
                Moves(old(Now()), Now(), block - 16, r.addr - 16, Shorter(old(cs)[block - 16].size - 8, bytes))
      ensures r.Null? ==> Valid() && Now() == old(Now())
      ensures block == 0 ==> Meets(r, old(Fate(ChunkFor(bytes))))
      ensures block != 0 && MAX_REQUEST <= bytes ==> r == Null
      ensures block != 0 && bytes < MAX_REQUEST ==>
                if old(GrowsInPlace(Now(), block - 16, ChunkFor(bytes))) then r == Block(block)
                else Meets(r, old(Fate(ChunkFor(bytes))))
      ensures r.Block? && block != 0 ==>
                var p, nb := block - 16, ChunkFor(bytes);
                if old(GrowsInPlace(Now(), p, nb)) then Resized(Resize(old(Stock()), p, nb, Stock()))
                else Relocates(Move(old(Stock()), p, r.addr - 16, nb, Stock()))
    {
      if block == 0 {
        r := Malloc(bytes);
        if r.Block? {
          GivenAppears(Gift(old(Now()), old(Stock()), Now(), Stock(), r.addr - 16, ChunkFor(bytes)));
        }
        return;
      }
      if bytes >= MAX_REQUEST {
        return Null;
      }
      r := ReallocBlock(block, bytes);
    }

    /** try_realloc_chunk as realloc sees it: if it succeeds the block has not moved and keeps its bytes. */
    method ReallocInPlace(p: int, nb: int, ghost bytes: int) returns (ok: bool)
      requires Ready() && p in cs && cs[p].kind == Used && 0 <= bytes < MAX_REQUEST && nb == ChunkFor(bytes)
      modifies this`mem, this`smallmap, this`treemap, this`cs, this`sb, this`tb, this`dv, this`dvsize, this`top,
               this`topsize
      ensures Ready() && (ok <==> GrowsInPlace(old(Now()), p, nb))
      ensures !ok ==> unchanged(this)
      ensures ok ==> Moves(old(Now()), Now(), p, p, Shorter(old(cs)[p].size - 8, bytes))
      ensures ok ==> nb <= cs[p].size < nb + MIN_CHUNK_SIZE && Resized(Resize(old(Stock()), p, nb, Stock()))
    {
      ghost var v, k := Now(), Shorter(cs[p].size - 8, bytes);
      ghost var n := if nb < cs[p].size then nb - 8 else cs[p].size - 8;
      ok := TryRealloc(p, nb);
      if ok {
        ResizesMoves(v, Now(), p, n, k);
      }
    }

    /** The part of realloc for a block and a size that is not too large. */
    method ReallocBlock(block: int, bytes: int) returns (r: Outcome)
      requires Ready() && block - 16 in cs && cs[block - 16].kind == Used && 0 <= bytes < MAX_REQUEST && Valid()
      modifies this
      ensures r.Block? ==> Ready() && r.addr - 16 in cs && cs[r.addr - 16].kind == Used
      ensures r.Block? ==> bytes + 8 <= ChunkFor(bytes) <= cs[r.addr - 16].size < ChunkFor(bytes) + MIN_CHUNK_SIZE
      ensures r.Block? ==>
                Moves(old(Now()), Now(), block - 16, r.addr - 16, Shorter(old(cs)[block - 16].size - 8, bytes))
      ensures r.Null? ==> Valid() && Now() == old(Now())
      ensures if old(GrowsInPlace(Now(), block - 16, ChunkFor(bytes))) then r == Block(block)
              else Meets(r, old(Fate(ChunkFor(bytes))))
      ensures r.Block? ==>
                var p, nb := block - 16, ChunkFor(bytes);
                if old(GrowsInPlace(Now(), p, nb)) then Resized(Resize(old(Stock()), p, nb, Stock()))
                else Relocates(Move(old(Stock()), p, r.addr - 16, nb, Stock()))
    {
      var p, nb := block - 16, ChunkFor(bytes);
      ghost var v, x := Now(), Stock();
      var ok := ReallocInPlace(p, nb, bytes);
      if ok {
        r := Block(block);
        assert r.addr - 16 == p;
      } else {
        assert Now() == v && Stock() == x;
        r := ReallocByMoving(p, bytes);
      }
    }

    // ----- memalign and calloc -----

    /** Give back the first lead bytes of a block; it then starts at r. */
    method DropLead(p: int, lead: int) returns (r: int)
      requires Ready() && p in cs && cs[p].kind == Used && lead % 16 == 0
      requires MIN_CHUNK_SIZE <= lead && lead + MIN_CHUNK_SIZE <= cs[p].size
      modifies this`mem, this`smallmap, this`treemap, this`cs, this`sb, this`tb, this`dv, this`dvsize, this`top,
               this`topsize
      ensures Ready() && r == p + lead && r in cs && cs[r] == Chunk(old(cs)[p].size - lead, Used)
      ensures Stays(Hide(old(Now()), p), Hide(Now(), r))
    {
      ghost var v := Now();
      UsedWords(v, p);
      r := DivideUsed(p, mem[p + 8].size, lead);
      ghost var v1 := Now();
      Dispose(p, lead);
      assert Reach() == old(Reach());
      LeadDropped(v, v1, Now(), p, r);
    }

    /** Cut the block p, which has room for it, down to an aligned block of size nb. */
    method Position(p: int, alignment: int, nb: int) returns (q: int)
      requires Ready() && p in cs && cs[p].kind == Used && MIN_CHUNK_SIZE <= nb && nb % 16 == 0
      requires Alignment.MIN_ALIGNMENT <= alignment && alignment % 16 == 0
               && nb + alignment + MIN_CHUNK_SIZE <= cs[p].size
      modifies this`mem, this`smallmap, this`treemap, this`cs, this`sb, this`tb, this`dv, this`dvsize, this`top,
               this`topsize
      ensures Ready() && q in cs && cs[q].kind == Used && nb <= cs[q].size <= nb + MIN_CHUNK_SIZE
      ensures (q + 16) % alignment == 0 && Stays(Hide(old(Now()), p), Hide(Now(), q))
    {
      ghost var v := Now();
      ChunkSize(v, p);
      q := p;
      ServesSelf(Hide(v, p), Hide(v, p).cs);
      var lead := Alignment.LeadSize(p, alignment);
      if lead != 0 {
        q := DropLead(p, lead);
      }
      ghost var v1 := Now();
      TrimTail(q, nb);
      StaysTrans(Hide(v, p), Hide(v1, q), Hide(Now(), q));
    }

    /** Give back spare room at the end of a block. */
    method TrimTail(q: int, nb: int)
      requires Ready() && q in cs && cs[q].kind == Used && MIN_CHUNK_SIZE <= nb <= cs[q].size && nb % 16 == 0
      modifies this`mem, this`smallmap, this`treemap, this`cs, this`sb, this`tb, this`dv, this`dvsize, this`top,
               this`topsize
      ensures Ready() && q in cs && cs[q].kind == Used && nb <= cs[q].size <= nb + MIN_CHUNK_SIZE
      ensures Stays(Hide(old(Now()), q), Hide(Now(), q))
    {
      ghost var v := Now();
      UsedWords(v, q);
      ServesSelf(Hide(v, q), Hide(v, q).cs);
      var size := mem[q + 8].size;
      if size > nb + MIN_CHUNK_SIZE {
        Shrink(q, size, nb);
      }
    }

    /** internal_memalign: a new block on a multiple of the effective alignment. */
    method Memalign(asked: int, bytes: int) returns (r: Outcome, alignment: int)
      requires Valid() && 0 <= asked < TreeIndex.W64 && 0 <= bytes < TreeIndex.W64
      modifies this
      ensures r.Block? ==> Ready() && Appears(old(Now()), Now(), r.addr - 16)
      ensures r.Block? ==> asked <= alignment && Alignment.MIN_ALIGNMENT <= alignment && r.addr % alignment == 0
      ensures r.Block? ==> bytes + 8 <= cs[r.addr - 16].size <= ChunkFor(bytes) + MIN_CHUNK_SIZE
      ensures r.Null? ==> Valid() && Now() == old(Now())
      ensures TreeIndex.W64 / 2 < asked ==> r == Hang
      ensures asked <= TreeIndex.W64 / 2 ==>
                && asked <= alignment && Alignment.PowerOfTwo(alignment)
                && (alignment == Alignment.MIN_ALIGNMENT || alignment < 2 * asked)
                && Alignment.MIN_ALIGNMENT <= alignment && (MAX_REQUEST - alignment <= bytes ==> r == Null)
                && (bytes < MAX_REQUEST - alignment ==> Meets(r, old(Fate(ChunkFor(Padded(bytes, alignment))))))
    {
      var endless;
      alignment, endless := Alignment.Effective(asked);
      if endless {
        return Hang, alignment;
      }
      r := AlignedBlock(alignment, bytes);
    }

    /** The part of internal_memalign after the alignment has been settled. */
    method AlignedBlock(alignment: int, bytes: int) returns (r: Outcome)
      requires Valid() && 0 <= bytes < TreeIndex.W64
      requires Alignment.MIN_ALIGNMENT <= alignment <= TreeIndex.W64 / 2 && alignment % 16 == 0
      modifies this
      ensures r.Block? ==> Ready() && Appears(old(Now()), Now(), r.addr - 16) && r.addr % alignment == 0
      ensures r.Block? ==> bytes + 8 <= cs[r.addr - 16].size <= ChunkFor(bytes) + MIN_CHUNK_SIZE
      ensures r.Null? ==> Valid() && Now() == old(Now())
      ensures MAX_REQUEST - alignment <= bytes ==> r == Null
      ensures bytes < MAX_REQUEST - alignment ==> Meets(r, old(Fate(ChunkFor(Padded(bytes, alignment)))))
    {
      if bytes >= MAX_REQUEST - alignment {
        return Null;
      }
      ghost var v := Now();
      var nb := ChunkFor(bytes);
      var req := Padded(bytes, alignment);
      r := Malloc(req);
      if r.Block? {
        ghost var v1, p := Now(), r.addr - 16;
        GivenAppears(Gift(v, old(Stock()), v1, Stock(), p, ChunkFor(req)));
        var q := Position(r.addr - 16, alignment, nb);
        StaysTrans(v, Hide(v1, p), Hide(Now(), q));
        r := Block(q + 16);
      }
    }

    /** calloc: a block of n * size zero bytes; an overflow of the product is a failure. */
    method Calloc(n: int, size: int) returns (r: Outcome)
      requires Valid() && 0 <= n < TreeIndex.W64 && 0 <= size < TreeIndex.W64
      modifies this
      ensures r.Block? ==> Ready() && Appears(old(Now()), Now(), r.addr - 16) && n * size + 8 <= cs[r.addr - 16].size
      ensures r.Block? ==> forall x :: 0 <= r.addr <= x < r.addr + n * size && x < |mem| ==> mem[x] == Val(0)
      ensures r.Null? ==> Valid() && Now() == old(Now())
      ensures TreeIndex.W64 <= n * size ==> r == Null
      ensures n * size < TreeIndex.W64 ==> Meets(r, old(Fate(ChunkFor(n * size))))
      ensures r.Block? ==>
                0 <= n * size < TreeIndex.W64 && Allots(old(Stock()), r.addr - 16, ChunkFor(n * size), Stock())
    {
      ghost var v := Now();
      Alignment.CallocSizeIs(n, size);
      var req := Alignment.CallocSize(n, size);
      r := Malloc(req);
      if r.Block? {
        GivenAppears(Gift(v, old(Stock()), Now(), Stock(), r.addr - 16, ChunkFor(req)));
        GivenAllots(Gift(v, old(Stock()), Now(), Stock(), r.addr - 16, ChunkFor(req)));
        ClearBlock(r.addr - 16, req, v);
      }
    }

    /** memset of the first n bytes of a new block. */
    method ClearBlock(p: int, n: int, ghost v: View)
      requires Ready() && Appears(v, Now(), p) && 0 <= n <= cs[p].size - 8
      modifies this`mem
      ensures Ready() && Appears(v, Now(), p)
      ensures forall x :: 0 <= x < |mem| && p + 16 <= x < p + 16 + n ==> mem[x] == Val(0)
    {
      ghost var v1 := Now();
      UsedWords(v1, p);
      for i := 0 to n
        invariant |mem| == |v1.mem| && PayloadWrites(v1.mem, mem, p, cs[p])
        invariant forall x :: p + 16 <= x < p + 16 + i ==> mem[x] == Val(0)
      {
        mem := mem[p + 16 + i := Val(0)];
      }
      OwnerWrites(v1, mem, p);
      StaysTrans(v, Hide(v1, p), Hide(Now(), p));
    }
  }

  lemma {:induction false} ResizesMoves(v: View, v': View, p: int, n: int, k: int)
    requires Resizes(v, v', p, n) && k <= n
    ensures Moves(v, v', p, p, k)
  {
  }

  /** A chunk in use has been divided, and its front given back. */
  lemma {:induction false} LeadDropped(v: View, v1: View, v2: View, p: int, r: int)
    requires p in v.cs && p in v1.cs && r in v1.cs && v1.cs[r].kind == Used && r != p
    requires Stays(Hide(v, p), Hide(Hide(v1, p), r)) && Stays(Hide(v1, p), v2)
    ensures r in v2.cs && v2.cs[r] == v1.cs[r] && Stays(Hide(v, p), Hide(v2, r))
  {
    StaysHide(Hide(v1, p), v2, r);
    StaysTrans(Hide(v, p), Hide(Hide(v1, p), r), Hide(v2, r));
  }

  /** What internal_memalign asks malloc for: room to find an aligned spot in. */
  function Padded(bytes: int, alignment: int): (req: int)
    requires 0 <= bytes < MAX_REQUEST - alignment && Alignment.MIN_ALIGNMENT <= alignment
    ensures ChunkFor(bytes) + alignment + MIN_CHUNK_SIZE - 8 == req < TreeIndex.W64
  {
    ChunkFor(bytes) + alignment + MIN_CHUNK_SIZE - 8
  }

  function Shorter(a: int, b: int): int {
    if a < b then a else b
  }

  lemma {:induction false} NotExact(v: View, nb: int)
    requires HeapOk(v) && 0 <= nb < MIN_LARGE_SIZE && !v.smallmap[SmallIndex(nb)]
    ensures forall a :: a in v.cs && v.cs[a].kind == Binned ==> v.cs[a].size != nb
  {
    assert Opened(v);
    forall a | a in v.cs && v.cs[a].kind == Binned
      ensures v.cs[a].size != nb
    {
      if v.cs[a].size < MIN_LARGE_SIZE {
        var i, k := WhereSmall(v.mem, v.cs, v.sb, v.tb, v.smallmap, v.treemap, a);
      }
    }
  }

  /** No small bin from nb's on is marked: binned chunks that are large enough are in treebins. */
  lemma {:induction false} NoSmallFits(v: View, nb: int)
    requires HeapOk(v) && 0 <= nb && forall j :: 0 <= j < NBINS && SmallIndex(nb) <= j ==> !v.smallmap[j]
    ensures forall a :: a in v.cs && v.cs[a].kind == Binned && nb <= v.cs[a].size ==> MIN_LARGE_SIZE <= v.cs[a].size
  {
    assert Opened(v);
    forall a | a in v.cs && v.cs[a].kind == Binned && nb <= v.cs[a].size
      ensures MIN_LARGE_SIZE <= v.cs[a].size
    {
      if v.cs[a].size < MIN_LARGE_SIZE {
        var i, k := WhereSmall(v.mem, v.cs, v.sb, v.tb, v.smallmap, v.treemap, a);
      }
    }
  }

  /** The first marked small bin that is large enough holds the tightest binned chunks. */
  lemma {:induction false} SmallTightest(v: View, p: int, nb: int, i: int)
    requires HeapOk(v) && p in v.cs && v.cs[p] == Chunk(8 * i, Binned) && 0 <= nb && i < NBINS
    requires forall j :: 0 <= j && SmallIndex(nb) <= j < i ==> !v.smallmap[j]
    ensures Tightest(v.cs, p, nb)
  {
    assert Opened(v);
    forall a | a in v.cs && v.cs[a].kind == Binned && nb <= v.cs[a].size
      ensures v.cs[p].size <= v.cs[a].size
    {
      if v.cs[a].size < MIN_LARGE_SIZE {
        var j, k := WhereSmall(v.mem, v.cs, v.sb, v.tb, v.smallmap, v.treemap, a);
      }
    }
  }
}
