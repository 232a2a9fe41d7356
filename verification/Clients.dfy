/**
 * Whole runs.  A client names its blocks by handles and never looks at addresses; to it
 * the heap is a dictionary of independent byte strings.  Every run of the allocator
 * agrees with such a dictionary.
 */
module Clients {
  import opened Layout
  import opened HeapSteps
  import opened Shares
  import opened Dlmalloc
  import Alignment
  import TreeIndex

  type Handle = nat
  type Bytes = seq<Cell>

  /** What the client believes to be in its blocks. */
  type Store = map<Handle, Bytes>

  datatype Op =
    | Malloc(h: Handle, bytes: nat)
    | Calloc(h: Handle, n: nat, size: nat)
    | Memalign(h: Handle, alignment: nat, bytes: nat)
    | Realloc(h: Handle, bytes: nat)
    | Free(h: Handle)
    | Write(h: Handle, i: nat, b: Cell)

  /** The client uses fresh handles for new blocks and numbers that fit a size_t. */
  predicate Proper(op: Op, s: Store) {
    match op
    case Malloc(h, bytes) => h !in s && bytes < TreeIndex.W64
    case Calloc(h, n, size) => h !in s && n < TreeIndex.W64 && size < TreeIndex.W64
    case Memalign(h, alignment, bytes) => h !in s && alignment < TreeIndex.W64 && bytes < TreeIndex.W64
    case Realloc(h, bytes) => h in s && bytes < TreeIndex.W64
    case Free(h) => h in s
    case Write(h, i, b) => h in s && i < |s[h]|
  }

  ghost predicate Zeros(d: Bytes) {
    forall i :: 0 <= i < |d| ==> d[i] == Val(0)
  }

  /** The two byte strings agree as far as both go. */
  ghost predicate SamePrefix(d: Bytes, e: Bytes) {
    forall i :: 0 <= i < |d| && i < |e| ==> e[i] == d[i]
  }

  /** What an operation does to the dictionary: what it promises, or nothing where it is denied. */
  ghost predicate Does(op: Op, fate: Fate, s: Store, s': Store)
    requires Proper(op, s)
  {
    if fate.Denied? then s' == s
    else
      match op
      case Malloc(h, bytes) => h in s' && s' == s[h := s'[h]] && |s'[h]| == bytes
      case Calloc(h, n, size) => h in s' && s' == s[h := s'[h]] && |s'[h]| == n * size && Zeros(s'[h])
      case Memalign(h, alignment, bytes) => h in s' && s' == s[h := s'[h]] && |s'[h]| == bytes
      case Realloc(h, bytes) => h in s' && s' == s[h := s'[h]] && |s'[h]| == bytes && SamePrefix(s[h], s'[h])
      case Free(h) => s' == s - {h}
      case Write(h, i, b) => s' == s[h := s[h][i := b]]
  }

  // ----- Why an operation is served or not -----

  /** The heap, and the arena behind it, at one moment. */
  datatype Moment = Moment(view: View, contiguous: bool, gone: int, base: int, size: int)

  ghost function Snapshot(m: MallocState): Moment
    reads m
  {
    Moment(m.Now(), m.contiguous, m.chCtr, m.arenaBase, m.arenaSize)
  }

  /** What becomes of a request for a chunk of nb bytes, which may have to ask the arena for more. */
  ghost function ChunkFate(x: Moment, nb: int): Fate
    requires 0 <= nb < TreeIndex.W64
  {
    var v := x.view;
    if !NoneFits(v.cs, nb) || nb < v.topsize then Served
    else if !(STATIC_END <= x.base <= x.base + x.size <= HALF && x.size < TreeIndex.SPAN && x.base % 8 == 0
              && 0 <= v.topsize <= nb < SysSize(nb)) then Denied
    else
      var ask := Ask(x.contiguous, v.top, x.base, v.topsize, nb);
      if HALF <= ask then Denied
      else if x.gone + ask % W32 > x.size then Starved
      else if ask < W32 then Served
      else if x.contiguous || ask % W32 != 0 then Cut
      else Denied
  }

  ghost predicate Glanced(x: Moment) {
    true
  }

  /** That is what becomes of the request; to be opened by mentioning Glanced(x). */
  ghost predicate Meant(x: Moment, nb: int, fate: Fate) {
    0 <= nb < TreeIndex.W64 && forall y {:trigger Glanced(y)} :: y == x ==> fate == ChunkFate(y, nb)
  }

  lemma {:induction false} FateIs(m: MallocState, nb: int)
    requires 0 <= nb < TreeIndex.W64
    ensures Meant(Snapshot(m), nb, m.Fate(nb))
  {
    assert ChunkFate(Snapshot(m), nb) == m.Fate(nb);
  }

  lemma {:induction false} FatesAre(m: MallocState)
    ensures forall nb {:trigger m.Fate(nb)} :: 0 <= nb < TreeIndex.W64 ==> Meant(Snapshot(m), nb, m.Fate(nb))
  {
    forall nb | 0 <= nb < TreeIndex.W64 ensures Meant(Snapshot(m), nb, m.Fate(nb)) {
      FateIs(m, nb);
    }
  }

  /** An alignment as memalign rounds it. */
  ghost predicate Rounds(asked: int, a: int) {
    && Alignment.MIN_ALIGNMENT <= a && asked <= a && Alignment.PowerOfTwo(a)
    && (a == Alignment.MIN_ALIGNMENT || a < 2 * asked)
  }

  ghost predicate AlignedMeant(x: Moment, asked: int, a: int, bytes: int, fate: Fate)
    requires 0 <= bytes < TreeIndex.W64
  {
    && Rounds(asked, a)
    && if MAX_REQUEST - a <= bytes then fate == Denied else Meant(x, ChunkFor(Padded(bytes, a)), fate)
  }

  /** What becomes of an operation at that moment. */
  ghost predicate Destined(op: Op, x: Moment, at: map<Handle, int>, s: Store, fate: Fate)
    requires Proper(op, s)
  {
    match op
    case Malloc(h, bytes) => Meant(x, ChunkFor(bytes), fate)
    case Calloc(h, n, size) => if TreeIndex.W64 <= n * size then fate == Denied else Meant(x, ChunkFor(n * size), fate)
    case Memalign(h, alignment, bytes) =>
      if TreeIndex.W64 / 2 < alignment then fate == Starved
      else exists a :: AlignedMeant(x, alignment, a, bytes, fate)
    case Realloc(h, bytes) =>
      && h in at && at[h] - 16 in x.view.cs
      && if MAX_REQUEST <= bytes then fate == Denied
         else if GrowsInPlace(x.view, at[h] - 16, ChunkFor(bytes)) then fate == Served
         else Meant(x, ChunkFor(bytes), fate)
    case Free(h) => fate == Served
    case Write(h, i, b) => fate == Served
  }

  /** The block at addr is a chunk in use that starts with the bytes d. */
  ghost predicate Holds(v: View, addr: int, d: Bytes) {
    && addr - 16 in v.cs && v.cs[addr - 16].kind == Used && |d| + 8 <= v.cs[addr - 16].size
    && 0 <= addr && addr + |d| <= |v.mem| && v.mem[addr..addr + |d|] == d
  }

  ghost predicate Viewed(v: View) {
    true
  }

  /**
   * Handles have blocks of their own with the right bytes, and there are no other blocks; to be opened by mentioning
   * Viewed(v).
   */
  ghost predicate Agrees(v: View, at: map<Handle, int>, s: Store) {
    at.Keys == s.Keys && forall w {:trigger Viewed(w)} :: w == v ==> AgreesOpen(w, at, s)
  }

  ghost predicate AgreesOpen(v: View, at: map<Handle, int>, s: Store) {
    && at.Keys == s.Keys
    && (forall h {:trigger Holds(v, at[h], s[h])} :: h in s ==> Holds(v, at[h], s[h]))
    && (forall h, k :: h in s && k in s && at[h] == at[k] ==> h == k)
    && (forall a :: a in v.cs && v.cs[a].kind == Used ==> a + 16 in at.Values)
  }

  lemma {:induction false} StaysAgrees(v: View, v': View, at: map<Handle, int>, s: Store)
    requires Agrees(v, at, s) && Stays(v, v')
    ensures Agrees(v', at, s)
  {
    assert Viewed(v);
    forall h | h in s
      ensures Holds(v', at[h], s[h])
    {
      assert Holds(v, at[h], s[h]);
      assert SamePayload(v.mem, v'.mem, at[h] - 16, v.cs[at[h] - 16]);
    }
    assert AgreesOpen(v', at, s);
  }

  lemma {:induction false} HideAgrees(v: View, at: map<Handle, int>, s: Store, h: Handle)
    requires Agrees(v, at, s) && h in s
    ensures at[h] - 16 in v.cs && v.cs[at[h] - 16].kind == Used
    ensures Agrees(Hide(v, at[h] - 16), at - {h}, s - {h})
  {
    assert Viewed(v);
    assert Holds(v, at[h], s[h]);
    var v' := Hide(v, at[h] - 16);
    forall k | k in s - {h}
      ensures Holds(v', (at - {h})[k], (s - {h})[k])
    {
      assert Holds(v, at[k], s[k]);
    }
    forall a | a in v'.cs && v'.cs[a].kind == Used
      ensures a + 16 in (at - {h}).Values
    {
      assert a + 16 in at.Values;
      var k :| k in at && at[k] == a + 16;
      assert k in at - {h} && (at - {h})[k] == a + 16;
    }
    assert AgreesOpen(v', at - {h}, s - {h});
  }

  lemma {:induction false} NewAgrees(v: View, at: map<Handle, int>, s: Store, h: Handle, q: int, d: Bytes)
    requires q in v.cs && Agrees(Hide(v, q), at, s) && h !in s && Holds(v, q + 16, d)
    ensures Agrees(v, at[h := q + 16], s[h := d])
  {
    assert Viewed(Hide(v, q));
    var at', s' := at[h := q + 16], s[h := d];
    forall k | k in s'
      ensures Holds(v, at'[k], s'[k])
    {
      if k != h {
        assert Holds(Hide(v, q), at[k], s[k]);
      }
    }
    forall k, l | k in s' && l in s' && at'[k] == at'[l]
      ensures k == l
    {
      if k != h {
        assert Holds(Hide(v, q), at[k], s[k]);
      }
      if l != h {
        assert Holds(Hide(v, q), at[l], s[l]);
      }
    }
    forall a | a in v.cs && v.cs[a].kind == Used
      ensures a + 16 in at'.Values
    {
      if a == q {
        assert at'[h] == a + 16;
      } else {
        assert a in Hide(v, q).cs && Hide(v, q).cs[a].kind == Used;
        var k :| k in at && at[k] == a + 16;
        assert at'[k] == a + 16;
      }
    }
    assert AgreesOpen(v, at', s');
  }

  /** The bytes of the first n addresses of block q. */
  function BytesAt(v: View, q: int, n: int): Bytes
    requires 0 <= n && 0 <= q + 16 && q + 16 + n <= |v.mem|
  {
    v.mem[q + 16..q + 16 + n]
  }

  /** A block that has appeared gets its handle. */
  lemma {:induction false} AppearsAgrees(v: View, v': View, at: map<Handle, int>, s: Store, h: Handle, q: int, n: int)
    requires Agrees(v, at, s) && HeapOk(v') && Appears(v, v', q) && h !in s && 0 <= n <= v'.cs[q].size - 8
    ensures 0 <= q + 16 && q + 16 + n <= |v'.mem| && Agrees(v', at[h := q + 16], s[h := BytesAt(v', q, n)])
  {
    UsedWords(v', q);
    StaysAgrees(v, Hide(v', q), at, s);
    NewAgrees(v', at, s, h, q, BytesAt(v', q, n));
  }

  /** A block that has moved keeps its handle and its first m bytes. */
  lemma {:induction false} MovesAgrees(v: View, v': View, at: map<Handle, int>, s: Store, h: Handle, q: int, m: int,
                                       n: int)
    requires Agrees(v, at, s) && h in s && HeapOk(v') && Moves(v, v', at[h] - 16, q, m) && 0 <= n <= v'.cs[q].size - 8
    requires at[h] - 16 in v.cs && m == Shorter(v.cs[at[h] - 16].size - 8, n)
    ensures 0 <= q + 16 && q + 16 + n <= |v'.mem| && SamePrefix(s[h], BytesAt(v', q, n))
    ensures Agrees(v', at[h := q + 16], s[h := BytesAt(v', q, n)])
  {
    assert Viewed(v);
    UsedWords(v', q);
    HideAgrees(v, at, s, h);
    StaysAgrees(Hide(v, at[h] - 16), Hide(v', q), at - {h}, s - {h});
    NewAgrees(v', at - {h}, s - {h}, h, q, BytesAt(v', q, n));
    assert (at - {h})[h := q + 16] == at[h := q + 16];
    assert (s - {h})[h := BytesAt(v', q, n)] == s[h := BytesAt(v', q, n)];
    assert Holds(v, at[h], s[h]);
    forall i | 0 <= i < |s[h]| && i < n
      ensures BytesAt(v', q, n)[i] == s[h][i]
    {
      assert v.mem[at[h] + i] == v.mem[at[h]..at[h] + |s[h]|][i];
      assert v'.mem[at[h] + i - (at[h] - 16 + 16) + (q + 16)] == v.mem[at[h] + i];
    }
  }

  /** The same with the address a of the block. */
  lemma {:induction false} MovedAgrees(v: View, v': View, at: map<Handle, int>, s: Store, h: Handle, p: int, a: int,
                                       q: int, m: int, n: int)
    requires Agrees(v, at, s) && h in s && p == at[h] - 16 && q == a - 16 && n < TreeIndex.W64
    requires HeapOk(v') && Moves(v, v', p, q, m) && 0 <= n <= v'.cs[q].size - 8 && p in v.cs
             && m == Shorter(v.cs[p].size - 8, n)
    ensures 0 <= a && a + n <= |v'.mem| && Agrees(v', at[h := a], s[h := v'.mem[a..a + n]])
    ensures Does(Realloc(h, n), Served, s, s[h := v'.mem[a..a + n]])
  {
    MovesAgrees(v, v', at, s, h, q, m, n);
    assert BytesAt(v', q, n) == v'.mem[a..a + n];
  }

  lemma {:induction false} FreeAgrees(v: View, v': View, at: map<Handle, int>, s: Store, h: Handle)
    requires Agrees(v, at, s) && h in s && Releases(v, v', at[h] - 16)
    ensures Agrees(v', at - {h}, s - {h})
  {
    HideAgrees(v, at, s, h);
    StaysAgrees(Hide(v, at[h] - 16), v', at - {h}, s - {h});
  }

  /** The client writes one byte of its own block. */
  lemma {:induction false} WriteAgrees(v: View, at: map<Handle, int>, s: Store, h: Handle, i: nat, b: Cell)
    requires HeapOk(v) && Agrees(v, at, s) && h in s && i < |s[h]|
    ensures 0 <= at[h] + i < |v.mem|
    ensures var v' := v.(mem := v.mem[at[h] + i := b]); HeapOk(v') && Agrees(v', at, s[h := s[h][i := b]])
  {
    assert Viewed(v);
    assert Holds(v, at[h], s[h]);
    var q, d := at[h] - 16, s[h][i := b];
    var v' := v.(mem := v.mem[at[h] + i := b]);
    OwnerWrites(v, v'.mem, q);
    HideAgrees(v, at, s, h);
    StaysAgrees(Hide(v, q), Hide(v', q), at - {h}, s - {h});
    NewAgrees(v', at - {h}, s - {h}, h, q, d);
    assert (at - {h})[h := q + 16] == at;
    assert (s - {h})[h := d] == s[h := d];
  }

  /** Different handles have blocks that do not overlap, each on a multiple of 16. */
  lemma {:induction false} BlocksApart(v: View, at: map<Handle, int>, s: Store, h: Handle, k: Handle)
    requires HeapOk(v) && Agrees(v, at, s) && h in s && k in s && h != k
    ensures at[h] % 16 == 0 && (at[h] + |s[h]| <= at[k] || at[k] + |s[k]| <= at[h])
  {
    assert Viewed(v);
    assert Holds(v, at[h], s[h]) && Holds(v, at[k], s[k]);
    ChunkSize(v, at[h] - 16);
    UsersApart(v, at[h] - 16, at[k] - 16);
  }

  /** The fate that an outcome tells of. */
  function OutcomeFate(r: Outcome): Fate {
    match r case Block(_) => Served case Null => Denied case Hang => Starved case Truncated => Cut
  }

  method PerformMalloc(m: MallocState, h: Handle, bytes: nat, at: map<Handle, int>, s: Store)
      returns (at': map<Handle, int>, s': Store, stuck: bool, ghost fate: Fate)
    requires m.Valid() && Agrees(m.Now(), at, s) && h !in s && bytes < TreeIndex.W64
    modifies m
    ensures Destined(Malloc(h, bytes), old(Snapshot(m)), at, s, fate) && (stuck <==> fate.Starved? || fate.Cut?)
    ensures !stuck ==> m.Valid() && Agrees(m.Now(), at', s') && Does(Malloc(h, bytes), fate, s, s')
  {
    ghost var v := m.Now();
    at', s', stuck := at, s, false;
    FateIs(m, ChunkFor(bytes));
    fate := m.Fate(ChunkFor(bytes));
    var r := m.Malloc(bytes);
    if r.Block? {
      m.ReadyIsValid();
      GivenAppears(Gift(v, old(m.Stock()), m.Now(), m.Stock(), r.addr - 16, ChunkFor(bytes)));
      AppearsAgrees(v, m.Now(), at, s, h, r.addr - 16, bytes);
      at', s' := at[h := r.addr], s[h := m.mem[r.addr..r.addr + bytes]];
    } else {
      stuck := r != Null;
    }
  }

  method PerformCalloc(m: MallocState, h: Handle, n: nat, size: nat, at: map<Handle, int>, s: Store)
      returns (at': map<Handle, int>, s': Store, stuck: bool, ghost fate: Fate)
    requires m.Valid() && Agrees(m.Now(), at, s) && h !in s && n < TreeIndex.W64 && size < TreeIndex.W64
    modifies m
    ensures Destined(Calloc(h, n, size), old(Snapshot(m)), at, s, fate) && (stuck <==> fate.Starved? || fate.Cut?)
    ensures !stuck ==> m.Valid() && Agrees(m.Now(), at', s') && Does(Calloc(h, n, size), fate, s, s')
  {
    ghost var v := m.Now();
    at', s', stuck := at, s, false;
    if TreeIndex.W64 <= n * size {
      fate := Denied;
    } else {
      FateIs(m, ChunkFor(n * size));
      fate := m.Fate(ChunkFor(n * size));
    }
    var r := m.Calloc(n, size);
    if r.Block? {
      m.ReadyIsValid();
      AppearsAgrees(v, m.Now(), at, s, h, r.addr - 16, n * size);
      at', s' := at[h := r.addr], s[h := m.mem[r.addr..r.addr + n * size]];
    } else {
      stuck := r != Null;
    }
  }

  method PerformMemalign(m: MallocState, h: Handle, alignment: nat, bytes: nat, at: map<Handle, int>, s: Store)
      returns (at': map<Handle, int>, s': Store, stuck: bool, ghost fate: Fate)
    requires m.Valid() && Agrees(m.Now(), at, s) && h !in s && alignment < TreeIndex.W64 && bytes < TreeIndex.W64
    modifies m
    ensures Destined(Memalign(h, alignment, bytes), old(Snapshot(m)), at, s, fate)
    ensures stuck <==> fate.Starved? || fate.Cut?
    ensures !stuck ==> m.Valid() && Agrees(m.Now(), at', s') && Does(Memalign(h, alignment, bytes), fate, s, s')
  {
    ghost var v := m.Now();
    at', s', stuck := at, s, false;
    ghost var x := Snapshot(m);
    FatesAre(m);
    var r, a := m.Memalign(alignment, bytes);
    fate := OutcomeFate(r);
    if alignment <= TreeIndex.W64 / 2 {
      assert AlignedMeant(x, alignment, a, bytes, fate);
    }
    if r.Block? {
      m.ReadyIsValid();
      AppearsAgrees(v, m.Now(), at, s, h, r.addr - 16, bytes);
      at', s' := at[h := r.addr], s[h := m.mem[r.addr..r.addr + bytes]];
    } else {
      stuck := r != Null;
    }
  }

  lemma {:induction false} BlockPlace(m: MallocState, h: Handle, at: map<Handle, int>, s: Store)
    requires m.Valid() && Agrees(m.Now(), at, s) && h in s
    ensures at[h] != 0 && m.Ready() && at[h] - 16 in m.cs && m.cs[at[h] - 16].kind == Used
    ensures 8 <= m.cs[at[h] - 16].size
  {
    assert Viewed(m.Now());
    assert Holds(m.Now(), at[h], s[h]);
    m.ChunkPlace(at[h] - 16);
  }

  lemma {:induction false} ReallocFate(m: MallocState, h: Handle, bytes: nat, at: map<Handle, int>, s: Store)
      returns (fate: Fate)
    requires h in s && h in at && at[h] - 16 in m.cs && bytes < TreeIndex.W64
    ensures Destined(Realloc(h, bytes), Snapshot(m), at, s, fate)
    ensures fate == if MAX_REQUEST <= bytes then Denied
                    else if GrowsInPlace(m.Now(), at[h] - 16, ChunkFor(bytes)) then Served else m.Fate(ChunkFor(bytes))
  {
    FateIs(m, ChunkFor(bytes));
    fate := if MAX_REQUEST <= bytes then Denied
            else if GrowsInPlace(m.Now(), at[h] - 16, ChunkFor(bytes)) then Served else m.Fate(ChunkFor(bytes));
  }

  method PerformRealloc(m: MallocState, h: Handle, bytes: nat, at: map<Handle, int>, s: Store)
      returns (at': map<Handle, int>, s': Store, stuck: bool, ghost fate: Fate)
    requires m.Valid() && Agrees(m.Now(), at, s) && h in s && bytes < TreeIndex.W64
    modifies m
    ensures Destined(Realloc(h, bytes), old(Snapshot(m)), at, s, fate) && (stuck <==> fate.Starved? || fate.Cut?)
    ensures !stuck ==> m.Valid() && Agrees(m.Now(), at', s') && Does(Realloc(h, bytes), fate, s, s')
  {
    ghost var v, p := m.Now(), at[h] - 16;
    at', s', stuck := at, s, false;
    BlockPlace(m, h, at, s);
    fate := ReallocFate(m, h, bytes, at, s);
    var r := m.Realloc(at[h], bytes);
    if r.Block? {
      m.ReadyIsValid();
      ghost var q, n := r.addr - 16, Shorter(v.cs[p].size - 8, bytes);
      MovedAgrees(v, m.Now(), at, s, h, p, r.addr, q, n, bytes);
      at', s' := at[h := r.addr], s[h := m.mem[r.addr..r.addr + bytes]];
    } else {
      stuck := r != Null;
    }
  }

  method PerformFree(m: MallocState, h: Handle, at: map<Handle, int>, s: Store)
    requires m.Valid() && Agrees(m.Now(), at, s) && h in s
    modifies m
    ensures m.Valid() && Agrees(m.Now(), at - {h}, s - {h})
  {
    ghost var v := m.Now();
    BlockPlace(m, h, at, s);
    m.Free(at[h]);
    m.ReadyIsValid();
    FreeAgrees(v, m.Now(), at, s, h);
  }

  method PerformWrite(m: MallocState, h: Handle, i: nat, b: Cell, at: map<Handle, int>, s: Store)
    requires m.Valid() && Agrees(m.Now(), at, s) && h in s && i < |s[h]|
    modifies m`mem
    ensures m.Valid() && Agrees(m.Now(), at, s[h := s[h][i := b]])
  {
    assert Viewed(m.Now());
    assert Holds(m.Now(), at[h], s[h]);
    WriteAgrees(m.Now(), at, s, h, i, b);
    m.mem := m.mem[at[h] + i := b];
  }

  /** One operation of a client. */
  method Perform(m: MallocState, op: Op, at: map<Handle, int>, s: Store)
      returns (at': map<Handle, int>, s': Store, stuck: bool, ghost fate: Fate)
    requires m.Valid() && Agrees(m.Now(), at, s) && Proper(op, s)
    modifies m
    ensures Destined(op, old(Snapshot(m)), at, s, fate) && (stuck <==> fate.Starved? || fate.Cut?)
    ensures !stuck ==> m.Valid() && Agrees(m.Now(), at', s') && Does(op, fate, s, s')
  {
    at', s', stuck, fate := at, s, false, Served;
    match op {
      case Malloc(h, bytes) =>
        at', s', stuck, fate := PerformMalloc(m, h, bytes, at, s);
      case Calloc(h, n, size) =>
        at', s', stuck, fate := PerformCalloc(m, h, n, size, at, s);
      case Memalign(h, alignment, bytes) =>
        at', s', stuck, fate := PerformMemalign(m, h, alignment, bytes, at, s);
      case Realloc(h, bytes) =>
        at', s', stuck, fate := PerformRealloc(m, h, bytes, at, s);
      case Free(h) =>
        PerformFree(m, h, at, s);
        at', s' := at - {h}, s - {h};
      case Write(h, i, b) =>
        PerformWrite(m, h, i, b, at, s);
        s' := s[h := s[h][i := b]];
    }
  }

  /** Before an operation: the heap, where its blocks are, and what is to become of the operation. */
  datatype Event = Event(now: Moment, at: map<Handle, int>, fate: Fate)

  /** The event is one of a heap that agrees with the dictionary. */
  ghost predicate Happens(op: Op, e: Event, s: Store) {
    Proper(op, s) && Agrees(e.now.view, e.at, s) && Destined(op, e.now, e.at, s, e.fate)
  }

  /** From one dictionary to the next; improper operations are not carried out. */
  ghost predicate Follows(op: Op, e: Event, s: Store, s': Store) {
    if Proper(op, s) then Happens(op, e, s) && !e.fate.Starved? && !e.fate.Cut? && Does(op, e.fate, s, s') else s' == s
  }

  /**
   * Every run from an empty heap is a run of the dictionary, up to an operation that the arena starves or cuts; a
   * request fails exactly where the heap denies it.
   */
  method Run(m: MallocState, ops: seq<Op>) returns (at: map<Handle, int>, trace: seq<Store>, ghost events: seq<Event>)
    requires m.Valid() && m.cs == map[]
    modifies m
    ensures 0 < |trace| <= |ops| + 1 && trace[0] == map[]
    ensures |events| == if |trace| <= |ops| then |trace| else |ops|
    ensures forall i :: 0 <= i < |trace| - 1 ==> Follows(ops[i], events[i], trace[i], trace[i + 1])
    ensures |trace| <= |ops| ==>
              var i := |trace| - 1;
              Happens(ops[i], events[i], trace[i]) && (events[i].fate.Starved? || events[i].fate.Cut?)
    ensures |trace| == |ops| + 1 ==> m.Valid() && Agrees(m.Now(), at, trace[|ops|])
  {
    at, trace, events := map[], [map[]], [];
    assert AgreesOpen(m.Now(), at, trace[0]);
    for i := 0 to |ops|
      invariant |trace| == i + 1 && trace[0] == map[] && |events| == i
      invariant forall j :: 0 <= j < i ==> Follows(ops[j], events[j], trace[j], trace[j + 1])
      invariant m.Valid() && Agrees(m.Now(), at, trace[i])
    {
      var s', stuck := trace[i], false;
      ghost var now, was, fate := Snapshot(m), at, Served;
      if Proper(ops[i], trace[i]) {
        at, s', stuck, fate := Perform(m, ops[i], at, trace[i]);
      }
      events := events + [Event(now, was, fate)];
      if stuck {
        return;
      }
      trace := trace + [s'];
    }
  }
}
