/** The memory reservation block: entries of an address and a size, ended by one of size zero. */
module FdtReserve {
  import opened FdtFormat
  import opened FdtBlob

  /** An entry, an address and a size of eight bytes each, has size zero. */
  predicate Empty(entry: Bytes)
    requires |entry| == 16
  {
    ReadWord(entry, 8) == 0 && ReadWord(entry, 12) == 0
  }

  /** Entry i of the block at address a. */
  function Entry(m: Bytes, a: int, i: int): (e: Bytes)
    requires 0 <= a && 0 <= i && a + 16 * i + 16 <= |m|
    ensures |e| == 16
  {
    m[a + 16 * i..a + 16 * i + 16]
  }

  /** The block at address a has n entries and a terminator. */
  ghost predicate Lists(m: Bytes, a: int, n: nat) {
    && 0 <= a && a + 16 * n + 16 <= |m| && Empty(Entry(m, a, n))
    && forall i {:trigger Entry(m, a, i)} :: 0 <= i < n ==> !Empty(Entry(m, a, i))
  }

  /** The memory reservation block has n entries and a terminator, and ends before the structure block. */
  ghost predicate Reserves(b: Blob, n: nat)
    reads b, b.buf
  {
    Lists(b.Ahead(), b.offRsv, n)
  }

  lemma {:induction false} EntryWords(m: Bytes, a: int, i: int, k: int, o: int)
    requires 0 <= a && 0 <= i && a + 16 * i + 16 <= k <= |m| && o == a + 16 * i + 8
    ensures Empty(Entry(Front(m, k), a, i)) <==> ReadWord(m, o) == 0 && ReadWord(m, o + 4) == 0
  {
    var e := Entry(Front(m, k), a, i);
    assert forall j {:trigger e[j]} :: 0 <= j < 16 ==> e[j] == m[a + 16 * i + j];
  }

  /** fdt_num_mem_rsv */
  method NumMemRsv(b: Blob, ghost n: nat) returns (i: nat)
    requires Reserves(b, n)
    ensures i == n
  {
    i := 0;
    while true
      invariant i <= n
      decreases n - i
    {
      assert Empty(Entry(b.Ahead(), b.offRsv, i)) <==> i == n;
      EntryWords(b.buf[..], b.offRsv, i, b.offStruct, b.offRsv + 16 * i + 8);
      if b.Load(b.offRsv + 16 * i + 8) == 0 && b.Load(b.offRsv + 16 * i + 12) == 0 {
        return;
      }
      i := i + 1;
    }
  }

  /** fdt_get_mem_rsv, with the address and size as bytes; the source does not look at the number of entries. */
  method GetMemRsv(b: Blob, i: int) returns (entry: Bytes)
    requires 0 <= b.offRsv && 0 <= i && b.offRsv + 16 * i + 16 <= b.offStruct <= b.buf.Length
    ensures entry == Entry(b.Ahead(), b.offRsv, i)
  {
    var a := b.offRsv + 16 * i;
    entry := b.buf[a..a + 16];
  }

  /** A block that has been copied elsewhere. */
  lemma {:induction false} ListsMoved(m: Bytes, m': Bytes, a: int, a': int, n: nat)
    requires Lists(m, a, n) && 0 <= a' && a' + 16 * n + 16 <= |m'|
    requires m'[a'..a' + 16 * n + 16] == m[a..a + 16 * n + 16]
    ensures Lists(m', a', n) && forall i :: 0 <= i <= n ==> Entry(m', a', i) == Entry(m, a, i)
  {
    forall i | 0 <= i <= n ensures Entry(m', a', i) == Entry(m, a, i) {
      EntryIn(m', a', i, 16 * i, 16 * n + 16);
      EntryIn(m, a, i, 16 * i, 16 * n + 16);
    }
  }

  lemma {:induction false} EntryIn(m: Bytes, a: int, i: int, o: int, k: int)
    requires 0 <= a && 0 <= i && o == 16 * i && o + 16 <= k && a + k <= |m|
    ensures Entry(m, a, i) == m[a..a + k][o..o + 16]
  {
    var s := m[a..a + k];
    assert forall j {:trigger s[j]} :: 0 <= j < k ==> s[j] == m[a + j];
    assert |s[o..o + 16]| == 16;
  }

  // ----- Blocks written entry by entry -----

  ghost function Joined(es: seq<Bytes>): Bytes {
    if |es| == 0 then [] else Joined(es[..|es| - 1]) + es[|es| - 1]
  }

  ghost predicate Entries(es: seq<Bytes>) {
    forall i {:trigger es[i]} :: 0 <= i < |es| ==> |es[i]| == 16
  }

  lemma {:induction false} JoinedMore(es: seq<Bytes>, e: Bytes)
    ensures Joined(es + [e]) == Joined(es) + e
  {
    assert (es + [e])[..|es|] == es;
  }

  lemma {:induction false} JoinedLong(es: seq<Bytes>)
    requires Entries(es)
    ensures |Joined(es)| == 16 * |es|
  {
    if |es| > 0 {
      JoinedLong(es[..|es| - 1]);
    }
  }

  /** The entries stand in the block in their order. */
  lemma {:induction false} JoinedAt(m: Bytes, a: int, es: seq<Bytes>, i: int)
    requires Entries(es) && 0 <= a <= |m| && m[a..] == Joined(es) && 0 <= i < |es|
    ensures a + 16 * |es| == |m| && Entry(m, a, i) == es[i]
  {
    JoinedLong(es);
    var n := |es| - 1;
    JoinedLong(es[..n]);
    var k := a + 16 * n;
    assert m[a..][..16 * n] == Joined(es[..n]) && m[a..][16 * n..] == es[n];
    assert m[a..][16 * n..] == m[k..];
    if i < n {
      assert m[..k][a..] == m[a..][..16 * n];
      JoinedAt(m[..k], a, es[..n], i);
      assert Entry(m, a, i) == Entry(m[..k], a, i);
    }
  }

  /** The first n of the entries are not empty, and the next one is, or there is none. */
  ghost predicate Counted(es: seq<Bytes>, n: nat)
    requires Entries(es)
  {
    n <= |es| && (forall i {:trigger es[i]} :: 0 <= i < n ==> !Empty(es[i])) && (n < |es| ==> Empty(es[n]))
  }

  /** A block that ends with the terminator has as many entries as come before the first empty one. */
  lemma {:induction false} JoinedLists(m: Bytes, a: int, es: seq<Bytes>, n: nat)
    requires Entries(es) && 0 <= a <= |m| && m[a..] == Joined(es + [Zeros(16)]) && Counted(es, n)
    ensures Lists(m, a, n)
  {
    var all := es + [Zeros(16)];
    JoinedAt(m, a, all, n);
    assert Empty(all[n]);
    forall i {:trigger Entry(m, a, i)} | 0 <= i < n ensures !Empty(Entry(m, a, i)) {
      JoinedAt(m, a, all, i);
      assert all[i] == es[i];
    }
  }
}
