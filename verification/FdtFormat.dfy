/**
 * The structure block of a flattened device tree (section 5.4 of the Devicetree
 * Specification, version 0.4) as bytes and as a sequence of tokens, and the strings block.
 */
module FdtFormat {

  type Bytes = seq<int>

  const BEGIN_NODE: int := 1
  const END_NODE: int := 2
  const PROP: int := 3
  const NOP: int := 4
  const END: int := 9

  const W32: int := 0x1_0000_0000

  /** Byte n of a number, the lowest being byte 0. */
  function Byte(x: int, n: int): int {
    x / (if n == 0 then 1 else if n == 1 then 0x100 else if n == 2 then 0x1_0000 else 0x100_0000) % 0x100
  }

  /** A big-endian 32-bit word. */
  function Word(x: int): (b: Bytes)
    ensures |b| == 4
  {
    seq(4, i requires 0 <= i < 4 => Byte(x, 3 - i))
  }

  function ReadWord(b: Bytes, o: int): int
    requires 0 <= o && o + 4 <= |b|
  {
    ((b[o] * 0x100 + b[o + 1]) * 0x100 + b[o + 2]) * 0x100 + b[o + 3]
  }

  lemma {:induction false} Digits(x: int, y: int)
    requires y == x / 0x100
    ensures x == y * 0x100 + x % 0x100
  {
  }

  lemma {:induction false} DivTwice(x: int, a: int)
    requires a == 0x100 || a == 0x1_0000
    ensures x / (a * 0x100) == x / a / 0x100
  {
  }

  lemma {:induction false} ByteBelow(x: int)
    requires 0 <= x < W32
    ensures x == ((Byte(x, 3) * 0x100 + Byte(x, 2)) * 0x100 + Byte(x, 1)) * 0x100 + Byte(x, 0)
  {
    var y := x / 0x100;
    var z := y / 0x100;
    var w := z / 0x100;
    DivTwice(x, 0x100);
    DivTwice(x, 0x1_0000);
    Digits(x, y);
    Digits(y, z);
    Digits(z, w);
    assert 0 <= w < 0x100;
  }

  /** FDT_TAGALIGN */
  function TagAlign(x: int): (r: int)
    ensures x <= r < x + 4
  {
    (x + 3) / 4 * 4
  }

  lemma {:induction false} TagAligned(x: int)
    ensures TagAlign(x) % 4 == 0
  {
  }

  lemma {:induction false} AlignFrom(a: int, x: int)
    requires a % 4 == 0
    ensures TagAlign(a + x) == a + TagAlign(x)
  {
  }

  /** Names and values are followed by padding up to a multiple of four bytes, whatever it contains. */
  datatype Token =
    | BeginNode(name: Bytes, pad: Bytes)
    | EndNode
    | Prop(nameoff: int, value: Bytes, pad: Bytes)
    | Nop
    | End

  ghost predicate TokenOk(t: Token) {
    match t
    case BeginNode(name, pad) => 0 !in name && |name| + 1 + |pad| == TagAlign(|name| + 1)
    case Prop(nameoff, value, pad) => 0 <= nameoff < W32 && |value| < W32 / 2 && |value| + |pad| == TagAlign(|value|)
    case _ => true
  }

  function Tag(t: Token): (n: int)
    ensures 1 <= n <= 9
  {
    match t
    case BeginNode(_, _) => BEGIN_NODE
    case EndNode => END_NODE
    case Prop(_, _, _) => PROP
    case Nop => NOP
    case End => END
  }

  function Size(t: Token): (n: nat)
    ensures 4 <= n
  {
    match t
    case BeginNode(name, pad) => 4 + |name| + 1 + |pad|
    case Prop(_, value, pad) => 12 + |value| + |pad|
    case _ => 4
  }

  function Encode(t: Token): (b: Bytes)
    ensures |b| == Size(t)
  {
    match t
    case BeginNode(name, pad) => Word(BEGIN_NODE) + (name + [0] + pad)
    case Prop(nameoff, value, pad) => Word(PROP) + (Word(|value|) + Word(nameoff) + (value + pad))
    case _ => Word(Tag(t))
  }

  ghost predicate AllOk(ts: seq<Token>) {
    forall i {:trigger TokenOk(ts[i])} :: 0 <= i < |ts| ==> TokenOk(ts[i])
  }

  // ----- Tokens in memory -----

  /** The number of bytes of the tokens. */
  function Total(ts: seq<Token>): nat {
    if |ts| == 0 then 0 else Size(ts[0]) + Total(ts[1..])
  }

  /** Where token k starts, from the start of the tokens. */
  function Offset(ts: seq<Token>, k: int): (o: nat)
    requires 0 <= k <= |ts|
  {
    Total(ts[..k])
  }

  lemma {:induction false} TotalJoin(ts: seq<Token>, us: seq<Token>)
    ensures Total(ts + us) == Total(ts) + Total(us)
  {
    if |ts| == 0 {
      assert ts + us == us;
    } else {
      assert (ts + us)[1..] == ts[1..] + us;
      TotalJoin(ts[1..], us);
    }
  }

  lemma {:induction false} TotalOne(t: Token)
    ensures Total([t]) == Size(t)
  {
    assert |[t][1..]| == 0;
  }

  lemma {:induction false} OffsetStep(ts: seq<Token>, k: int)
    requires 0 <= k < |ts|
    ensures Offset(ts, k + 1) == Offset(ts, k) + Size(ts[k])
  {
    assert ts[..k + 1] == ts[..k] + [ts[k]];
    TotalJoin(ts[..k], [ts[k]]);
    TotalOne(ts[k]);
  }

  lemma {:induction false} OffsetZero(ts: seq<Token>)
    ensures Offset(ts, 0) == 0
  {
    assert |ts[..0]| == 0;
  }

  lemma {:induction false} OffsetMono(ts: seq<Token>, j: int, k: int)
    requires 0 <= j < k <= |ts|
    ensures Offset(ts, j) + 4 <= Offset(ts, k)
    decreases k
  {
    OffsetStep(ts, k - 1);
    if j < k - 1 {
      OffsetMono(ts, j, k - 1);
    }
  }

  lemma {:induction false} OffsetEnd(ts: seq<Token>, k: int)
    requires 0 <= k <= |ts|
    ensures Offset(ts, |ts|) == Total(ts) && Offset(ts, k) <= Total(ts) && (k < |ts| ==> Offset(ts, k + 1) <= Total(ts))
  {
    assert ts[..|ts|] == ts;
    if k < |ts| {
      OffsetMono(ts, k, |ts|);
      if k + 1 < |ts| {
        OffsetMono(ts, k + 1, |ts|);
      }
    }
  }

  /** The tokens of a prefix start where they did. */
  lemma {:induction false} OffsetLeft(ts: seq<Token>, us: seq<Token>, k: int)
    requires 0 <= k <= |ts|
    ensures Offset(ts + us, k) == Offset(ts, k)
  {
    assert (ts + us)[..k] == ts[..k];
  }

  lemma {:induction false} OffsetRight(ts: seq<Token>, us: seq<Token>, k: int)
    requires 0 <= k <= |us|
    ensures Offset(ts + us, |ts| + k) == Total(ts) + Offset(us, k)
  {
    assert (ts + us)[..|ts| + k] == ts + us[..k];
    TotalJoin(ts, us[..k]);
  }

  function Get(m: Bytes, a: int, i: int): int {
    if 0 <= a + i < |m| then m[a + i] else 0
  }

  /** The bytes e are at address a. */
  ghost predicate Part(m: Bytes, a: int, e: Bytes) {
    && 0 <= a && a + |e| <= |m|
    && forall i {:trigger Get(m, a, i)} {:trigger e[i]} :: 0 <= i < |e| ==> Get(m, a, i) == e[i]
  }

  lemma {:induction false} PartSlice(m: Bytes, a: int, e: Bytes)
    requires 0 <= a && a + |e| <= |m|
    ensures Part(m, a, e) <==> m[a..a + |e|] == e
  {
    forall i {:trigger e[i]} | 0 <= i < |e| ensures m[a..a + |e|][i] == Get(m, a, i) {
    }
  }

  lemma {:induction false} PartIn(m: Bytes, a: int, e: Bytes, i: int, w: Bytes)
    requires Part(m, a, e) && Part(e, i, w)
    ensures Part(m, a + i, w)
  {
    forall j | 0 <= j < |w| ensures Get(m, a + i, j) == w[j] {
      assert Get(m, a, i + j) == e[i + j] == Get(e, i, j);
    }
  }

  lemma {:induction false} PartAt(m: Bytes, a: int, e: Bytes, i: int, w: Bytes, b: int)
    requires Part(m, a, e) && Part(e, i, w) && b == a + i
    ensures Part(m, b, w)
  {
    PartIn(m, a, e, i, w);
  }

  /** The same n bytes are at address a of m and at address b of the other memory. */
  ghost predicate Same(m: Bytes, a: int, m': Bytes, b: int, n: int) {
    && 0 <= a && 0 <= b && 0 <= n && a + n <= |m| && b + n <= |m'|
    && forall i {:trigger Get(m', b, i)} :: 0 <= i < n ==> Get(m', b, i) == Get(m, a, i)
  }

  lemma {:induction false} PartMoved(m: Bytes, a: int, m': Bytes, b: int, n: int, i: int, e: Bytes)
    requires Same(m, a, m', b, n) && 0 <= i && i + |e| <= n && Part(m, a + i, e)
    ensures Part(m', b + i, e)
  {
    forall j | 0 <= j < |e| ensures Get(m', b + i, j) == e[j] {
      assert Get(m', b, i + j) == Get(m, a, i + j) == Get(m, a + i, j);
    }
  }

  ghost predicate Shown(m: Bytes) {
    true
  }

  /** The token is at address a; to be opened by mentioning Shown(m). */
  ghost predicate Written(m: Bytes, a: int, t: Token) {
    0 <= a && a + Size(t) <= |m| && forall u {:trigger Shown(u)} :: u == m ==> Part(u, a, Encode(t))
  }

  /** The tokens follow one another in memory from address a. */
  ghost predicate Holds(m: Bytes, a: int, ts: seq<Token>) {
    && 0 <= a && a + Total(ts) <= |m|
    && forall k {:trigger TokenHere(m, a, ts, k)} :: 0 <= k < |ts| ==> TokenHere(m, a, ts, k)
  }

  ghost predicate TokenHere(m: Bytes, a: int, ts: seq<Token>, k: int)
    requires 0 <= k < |ts|
  {
    Written(m, a + Offset(ts, k), ts[k])
  }

  lemma {:induction false} WrittenMoved(m: Bytes, a: int, m': Bytes, b: int, n: int, i: int, t: Token)
    requires Same(m, a, m', b, n) && 0 <= i && i + Size(t) <= n && Written(m, a + i, t)
    ensures Written(m', b + i, t)
  {
    assert Shown(m);
    PartMoved(m, a, m', b, n, i, Encode(t));
  }

  lemma {:induction false} HoldsAt(m: Bytes, a: int, ts: seq<Token>, k: int)
    requires Holds(m, a, ts) && 0 <= k < |ts|
    ensures Written(m, a + Offset(ts, k), ts[k]) && Offset(ts, k) + Size(ts[k]) <= Total(ts)
  {
    assert TokenHere(m, a, ts, k);
    OffsetStep(ts, k);
    OffsetEnd(ts, k);
  }

  /** Tokens that are moved as a whole are still there. */
  lemma {:induction false} HoldsMoved(m: Bytes, a: int, m': Bytes, b: int, ts: seq<Token>)
    requires Holds(m, a, ts) && Same(m, a, m', b, Total(ts))
    ensures Holds(m', b, ts)
  {
    forall k {:trigger TokenHere(m', b, ts, k)} | 0 <= k < |ts| ensures TokenHere(m', b, ts, k) {
      HoldsAt(m, a, ts, k);
      WrittenMoved(m, a, m', b, Total(ts), Offset(ts, k), ts[k]);
    }
  }

  /** Two runs of tokens, one after the other, are one run. */
  lemma {:induction false} HoldsJoin(m: Bytes, a: int, ts: seq<Token>, us: seq<Token>)
    requires Holds(m, a, ts) && Holds(m, a + Total(ts), us)
    ensures Holds(m, a, ts + us)
  {
    var vs, b := ts + us, a + Total(ts);
    TotalJoin(ts, us);
    forall k {:trigger TokenHere(m, a, vs, k)} | 0 <= k < |vs| ensures TokenHere(m, a, vs, k) {
      if k < |ts| {
        OffsetLeft(ts, us, k);
        HoldsAt(m, a, ts, k);
      } else {
        OffsetRight(ts, us, k - |ts|);
        HoldsAt(m, b, us, k - |ts|);
        assert vs[k] == us[k - |ts|] && a + Offset(vs, k) == b + Offset(us, k - |ts|);
      }
    }
  }

  lemma {:induction false} HoldsSplit(m: Bytes, a: int, ts: seq<Token>, us: seq<Token>)
    requires Holds(m, a, ts + us)
    ensures Holds(m, a, ts) && Holds(m, a + Total(ts), us)
  {
    var b, vs := a + Total(ts), ts + us;
    TotalJoin(ts, us);
    forall k {:trigger TokenHere(m, a, ts, k)} | 0 <= k < |ts| ensures TokenHere(m, a, ts, k) {
      OffsetLeft(ts, us, k);
      HoldsAt(m, a, vs, k);
    }
    forall k {:trigger TokenHere(m, b, us, k)} | 0 <= k < |us| ensures TokenHere(m, b, us, k) {
      OffsetRight(ts, us, k);
      HoldsAt(m, a, vs, |ts| + k);
      assert vs[|ts| + k] == us[k] && a + Offset(vs, |ts| + k) == b + Offset(us, k);
    }
  }

  lemma {:induction false} NothingHeld(m: Bytes, a: int)
    requires 0 <= a <= |m|
    ensures Holds(m, a, []) && Total([]) == 0
  {
  }

  lemma {:induction false} HoldsOne(m: Bytes, a: int, t: Token)
    requires Part(m, a, Encode(t))
    ensures Holds(m, a, [t])
  {
    TotalOne(t);
    assert |[t][..0]| == 0;
    assert TokenHere(m, a, [t], 0);
  }

  /** A string in a block that lies at address a, seen in memory at address p. */
  lemma {:induction false} StringInBlock(m: Bytes, a: int, n: int, o: int, s: Bytes, p: int)
    requires 0 <= a && 0 <= n && a + n <= |m| && StringAt(m[a..a + n], o, s) && p == a + o
    ensures StringAt(m, p, s)
  {
    assert forall i {:trigger m[a..a + n][i]} :: 0 <= i < n ==> m[a..a + n][i] == m[a + i];
    assert m[p..p + |s|] == m[a..a + n][o..o + |s|];
    assert m[p + |s|] == m[a..a + n][o + |s|];
  }

  // ----- Changing memory -----

  function Put(m: Bytes, a: int, e: Bytes): (m': Bytes)
    requires 0 <= a && a + |e| <= |m|
    ensures |m'| == |m|
  {
    m[..a] + e + m[a + |e|..]
  }

  lemma {:induction false} PutGet(m: Bytes, a: int, e: Bytes, b: int, i: int)
    requires 0 <= a && a + |e| <= |m| && 0 <= b + i < |m|
    ensures Get(Put(m, a, e), b, i) == if a <= b + i < a + |e| then e[b + i - a] else Get(m, b, i)
  {
  }

  lemma {:induction false} PutPart(m: Bytes, a: int, e: Bytes)
    requires 0 <= a && a + |e| <= |m|
    ensures Part(Put(m, a, e), a, e)
  {
    forall i | 0 <= i < |e| ensures Get(Put(m, a, e), a, i) == e[i] {
      PutGet(m, a, e, a, i);
    }
  }

  lemma {:induction false} PutSame(m: Bytes, a: int, e: Bytes, b: int, n: int)
    requires 0 <= a && a + |e| <= |m| && 0 <= b && 0 <= n && b + n <= |m| && (b + n <= a || a + |e| <= b)
    ensures Same(m, b, Put(m, a, e), b, n)
  {
    forall i {:trigger Get(Put(m, a, e), b, i)} | 0 <= i < n ensures Get(Put(m, a, e), b, i) == Get(m, b, i) {
      PutGet(m, a, e, b, i);
    }
  }

  lemma {:induction false} SameTrans(m: Bytes, a: int, m': Bytes, b: int, m'': Bytes, c: int, n: int)
    requires Same(m, a, m', b, n) && Same(m', b, m'', c, n)
    ensures Same(m, a, m'', c, n)
  {
  }

  /** A smaller range inside one that is the same. */
  lemma {:induction false} SameIn(m: Bytes, a: int, m': Bytes, b: int, n: int, i: int, k: int)
    requires Same(m, a, m', b, n) && 0 <= i && 0 <= k && i + k <= n
    ensures Same(m, a + i, m', b + i, k)
  {
    forall j {:trigger Get(m', b + i, j)} | 0 <= j < k ensures Get(m', b + i, j) == Get(m, a + i, j) {
      assert Get(m', b, i + j) == Get(m, a, i + j);
    }
  }

  lemma {:induction false} SameSlice(m: Bytes, a: int, m': Bytes, b: int, n: int)
    requires Same(m, a, m', b, n)
    ensures m[a..a + n] == m'[b..b + n]
  {
    forall i {:trigger m[a..a + n][i]} | 0 <= i < n ensures m[a..a + n][i] == m'[b..b + n][i] {
      assert Get(m', b, i) == Get(m, a, i);
    }
  }

  /** The first n bytes. */
  function Front(m: Bytes, n: int): Bytes {
    if 0 <= n <= |m| then m[..n] else []
  }

  lemma {:induction false} PutFront(m: Bytes, a: int, e: Bytes, n: int)
    requires 0 <= a && a + |e| <= |m| && n <= a
    ensures Front(Put(m, a, e), n) == Front(m, n)
  {
  }

  lemma {:induction false} SameFront(m: Bytes, m': Bytes, k: int, n: int)
    requires Same(m, 0, m', 0, k) && n <= k
    ensures Front(m', n) == Front(m, n)
  {
    if 0 <= n {
      SameIn(m, 0, m', 0, k, 0, n);
      SameSlice(m, 0, m', 0, n);
      assert m[0..n] == m[..n] && m'[0..n] == m'[..n];
    }
  }

  /** The bytes from p to p + was have made way for others, and what follows, up to end, has moved. */
  ghost predicate Widened(m: Bytes, m': Bytes, p: int, was: int, now: int, end: int) {
    && |m'| == |m| && 0 <= was && 0 <= now && p + was <= end
    && Same(m, 0, m', 0, p) && Same(m, p + was, m', p + now, end - p - was)
  }

  lemma {:induction false} MovedWidens(m: Bytes, p: int, was: int, now: int, end: int)
    requires 0 <= p && 0 <= was && 0 <= now && p + was <= end <= |m| && end - was + now <= |m|
    ensures Widened(m, Put(m, p + now, m[p + was..end]), p, was, now, end)
    ensures Same(m, 0, Put(m, p + now, m[p + was..end]), 0, p + now)
  {
    var e := m[p + was..end];
    PutSame(m, p + now, e, 0, p);
    PutSame(m, p + now, e, 0, p + now);
    PutPart(m, p + now, e);
    var m' := Put(m, p + now, e);
    forall i {:trigger Get(m', p + now, i)} | 0 <= i < end - p - was ensures Get(m', p + now, i) == Get(m, p + was, i) {
      assert e[i] == m[p + was + i];
    }
  }

  /** A block after the gap has moved, with what it holds. */
  lemma {:induction false} BlockMoved(m: Bytes, m': Bytes, p: int, was: int, now: int, end: int, a: int, a': int,
                                      n: int)
    requires Widened(m, m', p, was, now, end) && p + was <= a && 0 <= n && a + n <= end && a' == a - was + now
    ensures a' + n <= |m'| && m'[a'..a' + n] == m[a..a + n]
  {
    var i := a - (p + was);
    SameIn(m, p + was, m', p + now, end - p - was, i, n);
    assert p + was + i == a && p + now + i == a';
    SameSlice(m, a, m', a', n);
  }

  /** Bytes written after a block make it longer. */
  lemma {:induction false} Appended(m: Bytes, m': Bytes, a: int, t: Bytes, end: int, e: Bytes)
    requires Same(m, 0, m', 0, end) && |m'| == |m| && 0 <= a <= end && m[a..end] == t && end + |e| <= |m|
    ensures Put(m', end, e)[a..end + |e|] == t + e
  {
    SameIn(m, 0, m', 0, end, a, end - a);
    SameSlice(m, a, m', a, end - a);
    assert m'[..end][a..] == m'[a..end];
  }

  /** A gap that starts before the one that was opened. */
  lemma {:induction false} WidenedMore(m: Bytes, m': Bytes, p: int, was: int, now: int, end: int, n: int)
    requires Widened(m, m', p, was, now, end) && 0 <= n <= p
    ensures Widened(m, m', p - n, was + n, now + n, end)
  {
    SameIn(m, 0, m', 0, p, 0, p - n);
  }

  /** Writing into the gap. */
  lemma {:induction false} WidenedPut(m: Bytes, m': Bytes, p: int, was: int, now: int, end: int, a: int, e: Bytes)
    requires Widened(m, m', p, was, now, end) && p <= a && a + |e| <= p + now
    ensures a + |e| <= |m'| && Widened(m, Put(m', a, e), p, was, now, end)
  {
    PutSame(m', a, e, 0, p);
    PutSame(m', a, e, p + now, end - p - was);
    SameTrans(m, 0, m', 0, Put(m', a, e), 0, p);
    SameTrans(m, p + was, m', p + now, Put(m', a, e), p + now, end - p - was);
  }

  lemma {:induction false} HoldsReplaced(m: Bytes, m': Bytes, a: int, ts: seq<Token>, p: int, was: int, q: int,
                                         vs: seq<Token>,
                                         us: seq<Token>, now: int, end: int)
    requires p == a + Total(ts) && q == p + was && now == Total(us) && q + Total(vs) <= end
    requires Holds(m, a, ts) && Holds(m, q, vs) && Widened(m, m', p, was, now, end) && Holds(m', p, us)
    ensures Holds(m', a, ts + us + vs) && Total(ts + us + vs) == Total(ts) + now + Total(vs)
  {
    SameIn(m, 0, m', 0, p, a, Total(ts));
    HoldsMoved(m, a, m', a, ts);
    HoldsJoin(m', a, ts, us);
    TotalJoin(ts, us);
    var q' := p + now;
    SameIn(m, q, m', q', end - p - was, 0, Total(vs));
    HoldsMoved(m, q, m', q', vs);
    HoldsJoin(m', a, ts + us, vs);
    TotalJoin(ts + us, vs);
  }

  lemma {:induction false} HoldsCut(m: Bytes, a: int, ts: seq<Token>, k: int)
    requires Holds(m, a, ts) && 0 <= k <= |ts|
    ensures Holds(m, a, ts[..k]) && Holds(m, a + Offset(ts, k), ts[k..]) && Total(ts) == Offset(ts, k) + Total(ts[k..])
  {
    assert ts == ts[..k] + ts[k..];
    HoldsSplit(m, a, ts[..k], ts[k..]);
    TotalJoin(ts[..k], ts[k..]);
  }

  /** Tokens i to j have made way for others. */
  lemma {:induction false} HoldsSpliced(m: Bytes, m': Bytes, a: int, ts: seq<Token>, i: int, j: int, us: seq<Token>,
                                        p: int, was: int, now: int, end: int)
    requires Holds(m, a, ts) && 0 <= i <= j <= |ts| && a + Total(ts) <= end
    requires p == a + Offset(ts, i) && was == Offset(ts, j) - Offset(ts, i) && now == Total(us)
    requires Widened(m, m', p, was, now, end) && Holds(m', p, us)
    ensures Holds(m', a, ts[..i] + us + ts[j..]) && Total(ts[..i] + us + ts[j..]) == Total(ts) - was + now
  {
    HoldsCut(m, a, ts, i);
    HoldsCut(m, a, ts, j);
    var q := a + Offset(ts, j);
    HoldsReplaced(m, m', a, ts[..i], p, was, q, ts[j..], us, now, end);
  }

  // ----- Reading and writing a token -----

  lemma {:induction false} WordRead(x: int, m: Bytes, a: int)
    requires 0 <= x < W32 && Part(m, a, Word(x))
    ensures ReadWord(m, a) == x
  {
    assert Get(m, a, 0) == Word(x)[0];
    assert Get(m, a, 1) == Word(x)[1];
    assert Get(m, a, 2) == Word(x)[2];
    assert Get(m, a, 3) == Word(x)[3];
    ByteBelow(x);
  }

  lemma {:induction false} Shape(t: Token)
    ensures Part(Encode(t), 0, Word(Tag(t)))
    ensures t.BeginNode? ==> Part(Encode(t), 4, t.name + [0])
    ensures t.Prop? ==> && Part(Encode(t), 4, Word(|t.value|)) && Part(Encode(t), 8, Word(t.nameoff))
                        && Part(Encode(t), 12, t.value)
  {
    var e := Encode(t);
    if t.BeginNode? {
      assert e[4..4 + |t.name| + 1] == t.name + [0];
      PartSlice(e, 4, t.name + [0]);
    } else if t.Prop? {
      assert e[4..8] == Word(|t.value|) && e[8..12] == Word(t.nameoff) && e[12..12 + |t.value|] == t.value;
      PartSlice(e, 4, Word(|t.value|));
      PartSlice(e, 8, Word(t.nameoff));
      PartSlice(e, 12, t.value);
    }
  }

  /** The fields of a property, one by one. */
  lemma {:induction false} PropWritten(m: Bytes, a: int, nameoff: int, value: Bytes, pad: Bytes, a4: int, a8: int,
                                       a12: int)
    requires a4 == a + 4 && a8 == a + 8 && a12 == a + 12
    requires Part(m, a, Word(PROP)) && Part(m, a4, Word(|value|)) && Part(m, a8, Word(nameoff))
             && Part(m, a12, value + pad)
    ensures Part(m, a, Encode(Prop(nameoff, value, pad)))
  {
    var e := Encode(Prop(nameoff, value, pad));
    forall i | 0 <= i < |e| ensures Get(m, a, i) == e[i] {
      if i < 4 {
        assert e[i] == Word(PROP)[i];
      } else if i < 8 {
        assert e[i] == Word(|value|)[i - 4] == Get(m, a4, i - 4);
      } else if i < 12 {
        assert e[i] == Word(nameoff)[i - 8] == Get(m, a8, i - 8);
      } else {
        assert e[i] == (value + pad)[i - 12] == Get(m, a12, i - 12);
      }
    }
  }

  lemma {:induction false} PartKept(m: Bytes, a: int, e: Bytes, b: int, w: Bytes)
    requires 0 <= a && a + |e| <= |m| && Part(m, b, w) && (b + |w| <= a || a + |e| <= b)
    ensures Part(Put(m, a, e), b, w)
  {
    forall i | 0 <= i < |w| ensures Get(Put(m, a, e), b, i) == w[i] {
      PutGet(m, a, e, b, i);
    }
  }

  /** What lies behind a value in memory, up to the next token. */
  function PadAt(m: Bytes, a: int, n: int): (pad: Bytes)
    requires 0 <= a && 0 <= n && a + TagAlign(n) <= |m|
    ensures |pad| == TagAlign(n) - n
  {
    m[a + n..a + TagAlign(n)]
  }

  lemma {:induction false} ValuePart(m: Bytes, a: int, value: Bytes)
    requires 0 <= a && a + TagAlign(|value|) <= |m| && Part(m, a, value)
    ensures Part(m, a, value + PadAt(m, a, |value|))
  {
    var pad := PadAt(m, a, |value|);
    forall i | 0 <= i < |value + pad| ensures Get(m, a, i) == (value + pad)[i] {
      if i < |value| {
        assert (value + pad)[i] == value[i];
      } else {
        assert (value + pad)[i] == pad[i - |value|];
      }
    }
  }

  /** A new property, written field by field at address a. */
  lemma {:induction false} PropPuts(m: Bytes, a: int, nameoff: int, value: Bytes, a4: int, a8: int, a12: int)
    requires 0 <= a && a4 == a + 4 && a8 == a + 8 && a12 == a + 12 && a12 + TagAlign(|value|) <= |m|
    ensures var m' := Put(Put(Put(Put(m, a, Word(PROP)), a8, Word(nameoff)), a4, Word(|value|)), a12, value);
            Part(m', a, Encode(Prop(nameoff, value, PadAt(m', a12, |value|))))
  {
    var m1 := Put(m, a, Word(PROP));
    PutPart(m, a, Word(PROP));
    PropRewrite(m1, a, nameoff, value, a4, a8, a12);
  }

  lemma {:induction false} PropRewrite(m: Bytes, a: int, nameoff: int, value: Bytes, a4: int, a8: int, a12: int)
    requires 0 <= a && a4 == a + 4 && a8 == a + 8 && a12 == a + 12 && a12 + TagAlign(|value|) <= |m|
    requires Part(m, a, Word(PROP))
    ensures var m' := Put(Put(Put(m, a8, Word(nameoff)), a4, Word(|value|)), a12, value);
            Part(m', a, Encode(Prop(nameoff, value, PadAt(m', a12, |value|))))
  {
    var m1 := Put(m, a8, Word(nameoff));
    PutPart(m, a8, Word(nameoff));
    PartKept(m, a8, Word(nameoff), a, Word(PROP));
    PropRevalue(m1, a, nameoff, value, a4, a8, a12);
  }

  /** A property whose length and value are written anew. */
  lemma {:induction false} PropRevalue(m: Bytes, a: int, nameoff: int, value: Bytes, a4: int, a8: int, a12: int)
    requires 0 <= a && a4 == a + 4 && a8 == a + 8 && a12 == a + 12 && a12 + TagAlign(|value|) <= |m|
    requires Part(m, a, Word(PROP)) && Part(m, a8, Word(nameoff))
    ensures var m' := Put(Put(m, a4, Word(|value|)), a12, value);
            Part(m', a, Encode(Prop(nameoff, value, PadAt(m', a12, |value|))))
  {
    var m1 := Put(m, a4, Word(|value|));
    var m' := Put(m1, a12, value);
    PutPart(m, a4, Word(|value|));
    PartKept(m, a4, Word(|value|), a, Word(PROP));
    PartKept(m, a4, Word(|value|), a8, Word(nameoff));
    PutPart(m1, a12, value);
    PartKept(m1, a12, value, a, Word(PROP));
    PartKept(m1, a12, value, a4, Word(|value|));
    PartKept(m1, a12, value, a8, Word(nameoff));
    PropDone(m', a, nameoff, value, a4, a8, a12);
  }

  lemma {:induction false} PropDone(m: Bytes, a: int, nameoff: int, value: Bytes, a4: int, a8: int, a12: int)
    requires a4 == a + 4 && a8 == a + 8 && a12 == a + 12 && a12 + TagAlign(|value|) <= |m|
    requires Part(m, a, Word(PROP)) && Part(m, a4, Word(|value|)) && Part(m, a8, Word(nameoff)) && Part(m, a12, value)
    ensures Part(m, a, Encode(Prop(nameoff, value, PadAt(m, a12, |value|))))
  {
    ValuePart(m, a12, value);
    PropWritten(m, a, nameoff, value, PadAt(m, a12, |value|), a4, a8, a12);
  }

  /** The fields of a property in memory. */
  lemma {:induction false} PropFields(m: Bytes, a: int, t: Token, a8: int, a12: int)
    requires Written(m, a, t) && t.Prop? && a8 == a + 8 && a12 == a + 12
    ensures Part(m, a, Word(PROP)) && Part(m, a8, Word(t.nameoff)) && Part(m, a12, t.value)
  {
    assert Shown(m);
    Shape(t);
    PartIn(m, a, Encode(t), 0, Word(PROP));
    PartIn(m, a, Encode(t), 8, Word(t.nameoff));
    PartIn(m, a, Encode(t), 12, t.value);
  }

  /** A property whose value is made longer. */
  lemma {:induction false} PropExtend(m: Bytes, a: int, nameoff: int, value: Bytes, more: Bytes, all: Bytes,
                                      a4: int, a8: int, a12: int, b: int)
    requires 0 <= a && a4 == a + 4 && a8 == a + 8 && a12 == a + 12 && b == a12 + |value| && all == value + more
    requires a12 + TagAlign(|all|) <= |m|
    requires Part(m, a, Word(PROP)) && Part(m, a8, Word(nameoff)) && Part(m, a12, value)
    ensures var m' := Put(Put(m, a4, Word(|all|)), b, more);
            Part(m', a, Encode(Prop(nameoff, all, PadAt(m', a12, |all|))))
  {
    var w := Word(|all|);
    var m1 := Put(m, a4, w);
    var m' := Put(m1, b, more);
    PutPart(m, a4, w);
    PartKept(m, a4, w, a, Word(PROP));
    PartKept(m, a4, w, a8, Word(nameoff));
    PartKept(m, a4, w, a12, value);
    PutPart(m1, b, more);
    PartKept(m1, b, more, a, Word(PROP));
    PartKept(m1, b, more, a4, w);
    PartKept(m1, b, more, a8, Word(nameoff));
    PartKept(m1, b, more, a12, value);
    PartJoin(m', a12, value, b, more);
    PropDone(m', a, nameoff, all, a4, a8, a12);
  }

  lemma {:induction false} PartJoin(m: Bytes, a: int, u: Bytes, b: int, v: Bytes)
    requires Part(m, a, u) && b == a + |u| && Part(m, b, v)
    ensures Part(m, a, u + v)
  {
    forall i | 0 <= i < |u + v| ensures Get(m, a, i) == (u + v)[i] {
      if i < |u| {
        assert (u + v)[i] == u[i];
      } else {
        assert (u + v)[i] == v[i - |u|] == Get(m, b, i - |u|);
      }
    }
  }

  function Zeros(n: int): (z: Bytes)
    requires 0 <= n
    ensures |z| == n
  {
    seq(n, _ => 0)
  }

  /** An empty node of the given name. */
  function NodeTokens(name: Bytes): seq<Token> {
    [BeginNode(name, Zeros(TagAlign(|name| + 1) - |name| - 1)), EndNode]
  }

  /** A new node, written as its tag, a cleared and then filled name, and its end. */
  lemma {:induction false} NodePuts(m: Bytes, p: int, name: Bytes, n: int, a: int, b: int)
    requires 0 <= p && n == TagAlign(|name| + 1) && a == p + 4 && b == a + n && b + 4 <= |m|
    ensures var m' := Put(Put(Put(Put(m, p, Word(BEGIN_NODE)), a, Zeros(n)), a, name), b, Word(END_NODE));
            Part(m', p, Encode(NodeTokens(name)[0])) && Part(m', b, Word(END_NODE))
  {
    var m1 := Put(m, p, Word(BEGIN_NODE));
    var m2 := Put(m1, a, Zeros(n));
    var m3 := Put(m2, a, name);
    var m' := Put(m3, b, Word(END_NODE));
    var t := NodeTokens(name)[0];
    PutPart(m, p, Word(BEGIN_NODE));
    PartKept(m1, a, Zeros(n), p, Word(BEGIN_NODE));
    PartKept(m2, a, name, p, Word(BEGIN_NODE));
    PartKept(m3, b, Word(END_NODE), p, Word(BEGIN_NODE));
    PutPart(m3, b, Word(END_NODE));
    NamePut(m1, a, name, n);
    PartKept(m3, b, Word(END_NODE), a, name + Zeros(n - |name|));
    PartJoin(m', p, Word(BEGIN_NODE), a, name + Zeros(n - |name|));
    assert Encode(t) == Word(BEGIN_NODE) + (name + Zeros(n - |name|));
  }

  lemma {:induction false} NamePut(m: Bytes, a: int, name: Bytes, n: int)
    requires 0 <= a && |name| <= n && a + n <= |m|
    ensures Part(Put(Put(m, a, Zeros(n)), a, name), a, name + Zeros(n - |name|))
  {
    var m1 := Put(m, a, Zeros(n));
    var w := name + Zeros(n - |name|);
    forall i | 0 <= i < |w| ensures Get(Put(m1, a, name), a, i) == w[i] {
      PutGet(m1, a, name, a, i);
      PutGet(m, a, Zeros(n), a, i);
    }
  }

  /** The two tokens of an empty node in memory. */
  lemma {:induction false} NodeHeld(m: Bytes, p: int, name: Bytes, b: int)
    requires 0 !in name && b == p + 4 + TagAlign(|name| + 1)
    requires Part(m, p, Encode(NodeTokens(name)[0])) && Part(m, b, Word(END_NODE))
    ensures Holds(m, p, NodeTokens(name)) && Total(NodeTokens(name)) == 8 + TagAlign(|name| + 1)
            && AllOk(NodeTokens(name))
  {
    var t := NodeTokens(name)[0];
    HoldsOne(m, p, t);
    HoldsOne(m, b, EndNode);
    TotalOne(t);
    TotalOne(EndNode);
    HoldsJoin(m, p, [t], [EndNode]);
    TotalJoin([t], [EndNode]);
    assert NodeTokens(name) == [t] + [EndNode];
  }

  /** The tag of a token in memory. */
  lemma {:induction false} TagReads(m: Bytes, a: int, t: Token)
    requires Written(m, a, t)
    ensures a + 4 <= |m| && ReadWord(m, a) == Tag(t)
  {
    assert Shown(m);
    Shape(t);
    PartIn(m, a, Encode(t), 0, Word(Tag(t)));
    WordRead(Tag(t), m, a);
  }

  /** The length, name offset and value of a property in memory. */
  lemma {:induction false} PropReads(m: Bytes, a: int, t: Token)
    requires Written(m, a, t) && t.Prop? && TokenOk(t)
    ensures a + 12 <= |m| && ReadWord(m, a + 4) == |t.value| && ReadWord(m, a + 8) == t.nameoff
    ensures Part(m, a + 12, t.value)
  {
    assert Shown(m);
    Shape(t);
    PartIn(m, a, Encode(t), 4, Word(|t.value|));
    PartIn(m, a, Encode(t), 8, Word(t.nameoff));
    PartIn(m, a, Encode(t), 12, t.value);
    WordRead(|t.value|, m, a + 4);
    WordRead(t.nameoff, m, a + 8);
  }

  /** The name of a node in memory. */
  lemma {:induction false} NameReads(m: Bytes, a: int, t: Token)
    requires Written(m, a, t) && t.BeginNode? && TokenOk(t)
    ensures StringAt(m, a + 4, t.name)
  {
    assert Shown(m);
    Shape(t);
    PartIn(m, a, Encode(t), 4, t.name + [0]);
    PartSlice(m, a + 4, t.name + [0]);
    StringHere(m, a + 4, t.name);
  }

  function Used(t: Token): (n: nat) {
    match t case BeginNode(name, _) => 4 + |name| + 1 case Prop(_, value, _) => 12 + |value| case _ => 4
  }

  lemma {:induction false} TokenSize(t: Token)
    requires TokenOk(t)
    ensures Size(t) == TagAlign(Used(t)) && Size(t) % 4 == 0
  {
    TagAligned(Used(t));
    match t
    case BeginNode(name, _) => AlignFrom(4, |name| + 1);
    case Prop(_, value, _) => AlignFrom(12, |value|);
    case _ =>
  }

  lemma {:induction false} Fours(a: int, b: int)
    requires a % 4 == 0 && b % 4 == 0
    ensures (a + b) % 4 == 0
  {
  }

  lemma {:induction false} OffsetAligned(ts: seq<Token>, k: int)
    requires AllOk(ts) && 0 <= k <= |ts|
    ensures Offset(ts, k) % 4 == 0
    decreases k
  {
    if k > 0 {
      OffsetAligned(ts, k - 1);
      OffsetStep(ts, k - 1);
      TokenSize(ts[k - 1]);
      Fours(Offset(ts, k - 1), Size(ts[k - 1]));
    } else {
      assert |ts[..k]| == 0;
    }
  }

  /** Rounding up the end of what a token uses gives the next token. */
  lemma {:induction false} NextToken(ts: seq<Token>, k: int)
    requires AllOk(ts) && 0 <= k < |ts|
    ensures var o, n := Offset(ts, k), Used(ts[k]);
            o % 4 == 0 && o + n <= Offset(ts, k + 1) <= Total(ts) && TagAlign(o + n) == Offset(ts, k + 1)
  {
    OffsetAligned(ts, k);
    AlignFrom(Offset(ts, k), Used(ts[k]));
    TokenSize(ts[k]);
    OffsetStep(ts, k);
    OffsetEnd(ts, k);
  }

  // ----- Strings -----

  /** The string s, which has no zero byte, starts at offset o of the table. */
  ghost predicate StringAt(table: Bytes, o: int, s: Bytes) {
    0 <= o && o + |s| < |table| && table[o..o + |s|] == s && table[o + |s|] == 0 && 0 !in s
  }

  lemma {:induction false} StringNotLonger(table: Bytes, o: int, s: Bytes, t: Bytes)
    requires StringAt(table, o, s) && StringAt(table, o, t)
    ensures |t| <= |s|
  {
    assert forall i :: 0 <= i < |t| ==> t[i] == table[o..o + |t|][i] == table[o + i] && t[i] in t;
  }

  /** The string is somewhere in the table. */
  ghost predicate Spelled(table: Bytes, s: Bytes) {
    exists o :: StringAt(table, o, s)
  }

  /** A position of a table holds at most one string. */
  lemma {:induction false} StringUnique(table: Bytes, o: int, s: Bytes, t: Bytes)
    requires StringAt(table, o, s) && StringAt(table, o, t)
    ensures s == t
  {
    StringNotLonger(table, o, s, t);
    StringNotLonger(table, o, t, s);
  }

  /** A string is read up to its terminator. */
  lemma {:induction false} StringReads(b: Bytes, o: int, s: Bytes, i: int)
    requires StringAt(b, o, s) && 0 <= i <= |s|
    ensures (b[o + i] == 0 <==> i == |s|) && (i < |s| ==> b[o + i] == s[i])
  {
    if i < |s| {
      assert s[i] == b[o..o + |s|][i] && s[i] in s;
    }
  }

  /** Bytes added at either end of the table move strings or leave them where they are. */
  lemma {:induction false} StringKept(before: Bytes, table: Bytes, after: Bytes, o: int, s: Bytes)
    requires StringAt(table, o, s)
    ensures StringAt(before + table + after, |before| + o, s)
  {
    var t := before + table + after;
    assert t[|before| + o..|before| + o + |s|] == table[o..o + |s|];
  }

  lemma {:induction false} StringHere(table: Bytes, o: int, s: Bytes)
    requires 0 <= o && o + |s| + 1 <= |table| && 0 !in s
    ensures StringAt(table, o, s) <==> table[o..o + |s| + 1] == s + [0]
  {
    var t := table[o..o + |s| + 1];
    assert t == table[o..o + |s|] + [table[o + |s|]];
    assert t[..|s|] == table[o..o + |s|] && t[|s|] == table[o + |s|];
    assert (s + [0])[..|s|] == s;
  }

  lemma {:induction false} StringLast(table: Bytes, s: Bytes)
    requires 0 !in s
    ensures StringAt(table + (s + [0]), |table|, s)
  {
    var t := table + (s + [0]);
    assert t[|table|..|table| + |s|] == s;
  }

  /** _fdt_find_string: the first position at which s, with its terminator, is found, or -1. */
  method FindString(table: Bytes, s: Bytes) returns (p: int)
    requires 0 !in s
    ensures p != -1 ==> StringAt(table, p, s) && forall o :: 0 <= o < p ==> !StringAt(table, o, s)
    ensures p == -1 ==> forall o :: !StringAt(table, o, s)
  {
    var len := |s| + 1;
    var last := |table| - len;
    p := 0;
    while p <= last
      invariant 0 <= p && forall o :: 0 <= o < p ==> !StringAt(table, o, s)
      decreases last - p
    {
      StringHere(table, p, s);
      if table[p..p + len] == s + [0] {
        return;
      }
      p := p + 1;
    }
    p := -1;
  }
}
