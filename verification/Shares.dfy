/**
 * Which chunks there are after an allocation or a release, where top starts, and which chunk is
 * the designated victim, told from what was before.
 */
module Shares {
  import opened Layout
  import opened Bins
  import opened HeapSteps

  /** The chunks, where top starts, and the victim with its size. */
  datatype Pool = Pool(cs: Chunks, top: int, dv: int, dvsize: int)

  // ----- Allocation -----

  /** p is used for nb bytes: as a whole if little would remain, else its rest is a chunk of the given kind. */
  ghost function Carved(cs: Chunks, p: int, nb: int, rest: Kind): Chunks
    requires p in cs
  {
    if cs[p].size - nb < MIN_CHUNK_SIZE then cs[p := Chunk(cs[p].size, Used)]
    else cs[p := Chunk(nb, Used)][p + nb := Chunk(cs[p].size - nb, rest)]
  }

  /** The victim, if there is one, has gone to its bin. */
  ghost function Retired(cs: Chunks, dv: int, dvsize: int): Chunks {
    if dvsize == 0 then cs else cs[dv := Chunk(dvsize, Binned)]
  }

  /** The rest of the chunk p becomes the victim: that of the victim itself, and that of a binned one if nb is small. */
  ghost predicate RestIsVictim(cs: Chunks, p: int, nb: int) {
    p in cs && nb + MIN_CHUNK_SIZE <= cs[p].size && (cs[p].kind == Victim || nb < MIN_LARGE_SIZE)
  }

  /** The chunks once p serves a request for nb; a p that was no chunk is the bottom of top. */
  ghost function Allotted(x: Pool, p: int, nb: int): Chunks {
    if p !in x.cs then x.cs[p := Chunk(nb, Used)]
    else if x.cs[p].kind == Victim then Carved(x.cs, p, nb, Victim)
    else if RestIsVictim(x.cs, p, nb) then Carved(Retired(x.cs, x.dv, x.dvsize), p, nb, Victim)
    else Carved(x.cs, p, nb, Binned)
  }

  /** p serves a request for nb; the victim is the rest, or gone if it was used up, or still the same. */
  ghost predicate Allots(x: Pool, p: int, nb: int, y: Pool) {
    && y.cs == Allotted(x, p, nb)
    && (if p in x.cs then y.top == x.top else y.top == p + nb && (x.top != 0 ==> p == x.top))
    && if RestIsVictim(x.cs, p, nb) then y.dv == p + nb && y.dvsize == x.cs[p].size - nb
       else if p in x.cs && x.cs[p].kind == Victim then y.dv == 0 && y.dvsize == 0
       else y.dv == x.dv && y.dvsize == x.dvsize
  }

  /** A request for nb that was given p: the heap before and after. */
  datatype Gift = Gift(v: View, x: Pool, v': View, y: Pool, p: int, nb: int)

  /**
   * p is nobody else's and no user loses a byte; it is the chunk that the placement policy prescribes; and its rest
   * goes where it should.
   */
  ghost predicate GivenOpen(g: Gift) {
    Grants(g.v, g.v', g.p, g.nb) && Chosen(g.v.cs, g.p, g.nb) && Allots(g.x, g.p, g.nb, g.y)
  }

  ghost predicate Unwrapped(g: Gift) {
    true
  }

  /** GivenOpen, spelled so that a proof sees what it means only where it mentions Unwrapped. */
  ghost predicate Given(g: Gift) {
    forall u {:trigger Unwrapped(u)} :: u == g ==> GivenOpen(u)
  }

  lemma {:induction false} GivenAppears(g: Gift)
    requires Given(g)
    ensures Appears(g.v, g.v', g.p) && g.nb <= g.v'.cs[g.p].size < g.nb + MIN_CHUNK_SIZE
    ensures g.p in g.v.cs ==> g.v.cs[g.p].kind != Used
  {
    assert Unwrapped(g);
    GrantsAppears(g.v, g.v', g.p, g.nb);
  }

  lemma {:induction false} GivenAllots(g: Gift)
    requires Given(g)
    ensures Allots(g.x, g.p, g.nb, g.y)
  {
    assert Unwrapped(g);
  }

  /** A binned chunk is split for a small request: its rest r is the victim, and the old one is binned. */
  lemma {:induction false} AllotsSplit(x: Pool, p: int, nb: int, r: int, size: int, cs': Chunks)
    requires VictimOk(x.cs, x.dv, x.dvsize) && p in x.cs && x.cs[p].kind == Binned && r == p + nb && r !in x.cs
    requires size == x.cs[p].size - nb && MIN_CHUNK_SIZE <= size && nb < MIN_LARGE_SIZE
    requires var split := x.cs[p := Chunk(nb, Used)][r := Chunk(size, Limbo)];
             cs' == Retired(split, x.dv, x.dvsize)[r := Chunk(size, Victim)]
    ensures Allots(x, p, nb, Pool(cs', x.top, r, size))
  {
    assert cs' == Carved(Retired(x.cs, x.dv, x.dvsize), p, nb, Victim);
  }

  /** The bottom of top serves the request. */
  lemma {:induction false} AllotsTop(x: Pool, p: int, nb: int, y: Pool)
    requires p !in x.cs && (x.top != 0 ==> p == x.top) && y == Pool(x.cs[p := Chunk(nb, Used)], p + nb, x.dv, x.dvsize)
    ensures Allots(x, p, nb, y)
  {
  }

  lemma {:induction false} Overwritten(cs: Chunks, p: int, x: Chunk, y: Chunk)
    ensures cs[p := x][p := y] == cs[p := y]
  {
  }

  lemma {:induction false} TakenJoined(cs: Chunks, q: int, p: int, x: Chunk, y: Chunk)
    requires q != p
    ensures (cs[q := x] - {p})[q := y] == (cs - {p})[q := y]
  {
  }

  // ----- Release -----

  /** The kind of the chunk at q that is being given back, if it is not added to top. */
  ghost function Becomes(dv: int, q: int, n: int): Kind {
    if q == dv || n == dv then Victim else Binned
  }

  /** The chunk at q, no longer in use, is joined with what is free behind it, and placed. */
  ghost function Forwarded(x: Pool, q: int): Chunks
    requires q in x.cs
  {
    var n := q + x.cs[q].size;
    if n == x.top then x.cs - {q}
    else if n in x.cs && IsFree(x.cs[n]) then
      (x.cs - {n})[q := Chunk(x.cs[q].size + x.cs[n].size, Becomes(x.dv, q, n))]
    else x.cs[q := Chunk(x.cs[q].size, Becomes(x.dv, q, n))]
  }

  /** The same, with what it does to top and to the victim. */
  ghost predicate Forwards(x: Pool, q: int, y: Pool) {
    && q in x.cs && y.cs == Forwarded(x, q)
    && var n := q + x.cs[q].size;
       && y.top == (if n == x.top then q else x.top)
       && if n == x.top then y.dv == (if q == x.dv then 0 else x.dv) && y.dvsize == (if q == x.dv then 0 else x.dvsize)
          else if Becomes(x.dv, q, n) == Victim then q in y.cs && y.dv == q && y.dvsize == y.cs[q].size
          else y.dv == x.dv && y.dvsize == x.dvsize
  }

  /** The free chunk before p starts at q; q is p itself if there is none. */
  ghost predicate Backs(cs: Chunks, p: int, q: int) {
    if q == p then forall a :: a in cs && a + cs[a].size == p ==> !IsFree(cs[a])
    else q in cs && IsFree(cs[q]) && q + cs[q].size == p
  }

  /** The chunk p has been taken from its user and joined with the free chunk before it. */
  ghost function Backed(cs: Chunks, p: int, q: int): Chunks
    requires p in cs && q in cs
  {
    if q == p then cs[p := Chunk(cs[p].size, Limbo)] else (cs - {p})[q := Chunk(cs[q].size + cs[p].size, Limbo)]
  }

  /** The chunk p is given back: joined with its free neighbours, and then part of top, the victim, or binned. */
  ghost predicate Rejoins(x: Pool, p: int, y: Pool) {
    p in x.cs && exists q :: q in x.cs && Backs(x.cs, p, q) && Forwards(x.(cs := Backed(x.cs, p, q)), q, y)
  }

  /** The chunk p of size s is cut down to nb, and its rest is given back. */
  ghost predicate CutsDown(x: Pool, p: int, s: int, nb: int, y: Pool) {
    Rejoins(x.(cs := x.cs[p := Chunk(nb, Used)][p + nb := Chunk(s - nb, Used)]), p + nb, y)
  }

  lemma {:induction false} BackedIs(cs: Chunks, p: int, q: int)
    requires p in cs && q in cs && q != p
    ensures Backed(cs, p, q) == (cs[p := Chunk(cs[p].size, Limbo)] - {p})[q := Chunk(cs[q].size + cs[p].size, Limbo)]
  {
  }

  lemma {:induction false} RejoinsFrom(x: Pool, p: int, q: int, cs: Chunks, y: Pool)
    requires p in x.cs && q in x.cs && Backs(x.cs, p, q) && cs == Backed(x.cs, p, q) && Forwards(x.(cs := cs), q, y)
    ensures Rejoins(x, p, y)
  {
  }

  /** The pinuse bit of a chunk says that no free chunk is before it. */
  lemma {:induction false} NothingBacks(v: View, p: int)
    requires HeapOk(v) && p in v.cs && v.cs[p].kind == Used && 0 <= p && p + 8 < |v.mem|
    requires v.mem[p + 8].Head? && v.mem[p + 8].pinuse
    ensures Backs(v.cs, p, p)
  {
    assert Opened(v);
    PinuseMeans(v.mem, v.cs, v.lo, v.top, v.topsize, p);
  }

  // ----- Resizing -----

  /** What lies behind p, a free chunk, has become part of it. */
  ghost function Widened(x: Pool, p: int): Chunks
    requires p in x.cs && p + x.cs[p].size in x.cs
  {
    var n := p + x.cs[p].size;
    (x.cs - {n})[p := Chunk(x.cs[p].size + x.cs[n].size, Used)]
  }

  /** p, now wide, keeps nb bytes if the rest is large enough to be a chunk, which is given back. */
  ghost predicate Trims(x: Pool, p: int, nb: int, y: Pool)
    requires p in x.cs
  {
    if x.cs[p].size - nb < MIN_CHUNK_SIZE then y == x else CutsDown(x, p, x.cs[p].size, nb, y)
  }

  lemma {:induction false} TrimsCut(x: Pool, p: int, s: int, nb: int, y: Pool)
    requires p in x.cs && s == x.cs[p].size && MIN_CHUNK_SIZE <= s - nb && CutsDown(x, p, s, nb, y)
    ensures Trims(x, p, nb, y)
  {
  }

  /** The rest of the victim that p has grown into stays the victim, if it is large enough to be a chunk. */
  ghost predicate GrowsIntoVictim(x: Pool, p: int, nb: int, y: Pool)
    requires p in x.cs && p + x.cs[p].size in x.cs
  {
    var wide := Widened(x, p);
    var rest := wide[p].size - nb;
    if rest < MIN_CHUNK_SIZE then y == Pool(wide, x.top, 0, 0)
    else y == Pool(wide[p := Chunk(nb, Used)][p + nb := Chunk(rest, Victim)], x.top, p + nb, rest)
  }

  /** The chunk p is resized for nb bytes where it is: the heap before and after. */
  datatype Resize = Resize(x: Pool, p: int, nb: int, y: Pool)

  /** p is cut down, or grown into top, the victim, or a binned chunk. */
  ghost predicate ResizedOpen(r: Resize) {
    && r.p in r.x.cs
    && var x, p, nb, y := r.x, r.p, r.nb, r.y;
       var n := p + x.cs[p].size;
       if nb <= x.cs[p].size then Trims(x, p, nb, y)
       else if n == x.top then y == Pool(x.cs[p := Chunk(nb, Used)], p + nb, x.dv, x.dvsize)
       else n in x.cs && if n == x.dv then GrowsIntoVictim(x, p, nb, y) else Trims(x.(cs := Widened(x, p)), p, nb, y)
  }

  ghost predicate Seen(r: Resize) {
    true
  }

  /** ResizedOpen, spelled so that a proof sees what it means only where it mentions Seen. */
  ghost predicate Resized(r: Resize) {
    forall u {:trigger Seen(u)} :: u == r ==> ResizedOpen(u)
  }

  lemma {:induction false} StaysOrShrinks(x: Pool, p: int, nb: int, y: Pool)
    requires p in x.cs && nb <= x.cs[p].size && Trims(x, p, nb, y)
    ensures Resized(Resize(x, p, nb, y))
  {
    assert ResizedOpen(Resize(x, p, nb, y));
  }

  lemma {:induction false} GrewIntoTop(x: Pool, p: int, nb: int, y: Pool)
    requires p in x.cs && x.cs[p].size < nb && p + x.cs[p].size == x.top
    requires y == Pool(x.cs[p := Chunk(nb, Used)], p + nb, x.dv, x.dvsize)
    ensures Resized(Resize(x, p, nb, y))
  {
    assert ResizedOpen(Resize(x, p, nb, y));
  }

  lemma {:induction false} GrewIntoVictim(x: Pool, p: int, nb: int, y: Pool)
    requires p in x.cs && x.cs[p].size < nb && p + x.cs[p].size == x.dv != x.top && x.dv in x.cs
    requires GrowsIntoVictim(x, p, nb, y)
    ensures Resized(Resize(x, p, nb, y))
  {
    assert ResizedOpen(Resize(x, p, nb, y));
  }

  lemma {:induction false} GrewIntoNext(x: Pool, p: int, nb: int, n: int, y: Pool)
    requires p in x.cs && x.cs[p].size < nb && n == p + x.cs[p].size && n in x.cs && n != x.top && n != x.dv
    requires Trims(x.(cs := Widened(x, p)), p, nb, y)
    ensures Resized(Resize(x, p, nb, y))
  {
    assert ResizedOpen(Resize(x, p, nb, y));
  }

  /** The block p is moved to q, which has nb bytes: the heap before and after. */
  datatype Move = Move(x: Pool, p: int, q: int, nb: int, y: Pool)

  ghost predicate Carried(m: Move) {
    true
  }

  /** First q is allotted, and then p is given back; a proof sees this only where it mentions Carried. */
  ghost predicate Relocates(m: Move) {
    forall u {:trigger Carried(u)} :: u == m ==> exists z :: Allots(u.x, u.q, u.nb, z) && Rejoins(z, u.p, u.y)
  }

  lemma {:induction false} MovedVia(m: Move, z: Pool)
    requires Allots(m.x, m.q, m.nb, z) && Rejoins(z, m.p, m.y)
    ensures Relocates(m)
  {
  }
}
