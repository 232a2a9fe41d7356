/** Circular doubly linked lists threaded through the fd and bk words of chunks. */
module Rings {
  import opened Layout

  const FD: int := 16
  const BK: int := 24

  function Next(c: seq<int>, k: int): int
    requires 0 <= k < |c|
  {
    if k + 1 < |c| then c[k + 1] else c[0]
  }

  /** The links between element k and the element after it. */
  ghost predicate LinkOk(mem: Memory, c: seq<int>, k: int)
    requires 0 <= k < |c|
  {
    && 0 <= c[k] && c[k] + FD < |mem| && mem[c[k] + FD] == Val(Next(c, k))
    && 0 <= Next(c, k) && Next(c, k) + BK < |mem| && mem[Next(c, k) + BK] == Val(c[k])
  }

  ghost predicate Ring(mem: Memory, c: seq<int>) {
    forall k {:trigger LinkOk(mem, c, k)} :: 0 <= k < |c| ==> LinkOk(mem, c, k)
  }

  /** The link words of different elements do not overlap. */
  ghost predicate Gap(c: seq<int>, i: int, j: int)
    requires 0 <= i < |c| && 0 <= j < |c|
  {
    i != j ==> c[i] + 16 <= c[j] || c[j] + 16 <= c[i]
  }

  ghost predicate Spaced(c: seq<int>) {
    forall i, j {:trigger Gap(c, i, j)} :: 0 <= i < |c| && 0 <= j < |c| ==> Gap(c, i, j)
  }

  ghost predicate Clear(c: seq<int>, x: int) {
    forall i :: 0 <= i < |c| ==> c[i] + 16 <= x || x + 16 <= c[i]
  }

  function InsertSecond(c: seq<int>, x: int): seq<int>
    requires |c| > 0
  {
    [c[0], x] + c[1..]
  }

  function RemoveAt(c: seq<int>, j: int): seq<int>
    requires 0 <= j < |c|
  {
    c[..j] + c[j + 1..]
  }

  /** What remains of a ring when its first element leaves and the last takes its place. */
  function RemoveFirst(c: seq<int>): seq<int>
    requires |c| > 1
  {
    [c[|c| - 1]] + c[1..|c| - 1]
  }

  /** Linking x between the first element t and its successor. */
  lemma {:induction false} InsertRing(mem: Memory, c: seq<int>, x: int)
    requires |c| > 0 && Ring(mem, c) && Spaced(c) && Clear(c, x)
    requires 0 <= x && x + BK < |mem|
    ensures var t, f := c[0], Next(c, 0);
            0 <= t && t + FD < |mem| && 0 <= f && f + BK < |mem| &&
            Ring(mem[t + FD := Val(x)][f + BK := Val(x)][x + FD := Val(f)][x + BK := Val(t)], InsertSecond(c, x))
  {
    assert LinkOk(mem, c, 0);
    var t, f := c[0], Next(c, 0);
    var mem' := mem[t + FD := Val(x)][f + BK := Val(x)][x + FD := Val(f)][x + BK := Val(t)];
    var c' := InsertSecond(c, x);
    forall k | 0 <= k < |c'|
      ensures LinkOk(mem', c', k)
    {
      if k >= 2 {
        var m := if k < |c| then k else 0;
        assert c'[k] == c[k - 1] && Next(c', k) == c[m];
        assert LinkOk(mem, c, k - 1);
        assert Gap(c, k - 1, 0) && Gap(c, m, if |c| > 1 then 1 else 0) && Gap(c, m, 0);
        assert Gap(c, k - 1, if |c| > 1 then 1 else 0);
      }
    }
  }

  /** Unlinking an element other than the first. */
  lemma {:induction false} UnlinkRing(mem: Memory, c: seq<int>, j: int)
    requires 0 < j < |c| && Ring(mem, c) && Spaced(c)
    ensures var f, b := Next(c, j), c[j - 1];
            0 <= b && b + FD < |mem| && 0 <= f && f + BK < |mem| &&
            Ring(mem[f + BK := Val(b)][b + FD := Val(f)], RemoveAt(c, j))
  {
    assert LinkOk(mem, c, j) && LinkOk(mem, c, j - 1);
    var f, b := Next(c, j), c[j - 1];
    var mem' := mem[f + BK := Val(b)][b + FD := Val(f)];
    var c' := RemoveAt(c, j);
    var jn := if j + 1 < |c| then j + 1 else 0;
    forall k | 0 <= k < |c'|
      ensures LinkOk(mem', c', k)
    {
      if k == j - 1 {
        assert c'[k] == b && Next(c', k) == f;
        assert Gap(c, j - 1, jn);
      } else {
        var o := if k < j then k else k + 1;
        assert c'[k] == c[o] && Next(c', k) == Next(c, o);
        assert LinkOk(mem, c, o);
        var m := if o + 1 < |c| then o + 1 else 0;
        assert Gap(c, o, j - 1) && Gap(c, m, jn) && Gap(c, m, j - 1) && Gap(c, o, jn);
      }
    }
  }

  /** Unlinking the first element; the last one comes to the front. */
  lemma {:induction false} UnlinkFirst(mem: Memory, c: seq<int>)
    requires |c| > 1 && Ring(mem, c) && Spaced(c)
    ensures var f, r := c[1], c[|c| - 1];
            0 <= r && r + FD < |mem| && 0 <= f && f + BK < |mem| &&
            Ring(mem[f + BK := Val(r)][r + FD := Val(f)], RemoveFirst(c))
  {
    var n := |c|;
    assert LinkOk(mem, c, 0) && LinkOk(mem, c, n - 1);
    var f, r := c[1], c[n - 1];
    var mem' := mem[f + BK := Val(r)][r + FD := Val(f)];
    var c' := RemoveFirst(c);
    forall k | 0 <= k < |c'|
      ensures LinkOk(mem', c', k)
    {
      if k == 0 {
        assert c'[k] == r && Next(c', k) == f;
        assert Gap(c, 1, n - 1);
      } else {
        assert c'[k] == c[k] && Next(c', k) == c[k + 1];
        assert LinkOk(mem, c, k);
        assert Gap(c, k, n - 1) && Gap(c, k + 1, 1) && Gap(c, k, 1) && Gap(c, k + 1, n - 1);
      }
    }
  }

  /** A ring does not depend on words outside its elements. */
  lemma {:induction false} RingFrame(mem: Memory, mem': Memory, c: seq<int>)
    requires Ring(mem, c) && |mem| <= |mem'|
    requires forall k :: 0 <= k < |c| && c[k] + BK < |mem| && 0 <= c[k] ==>
               mem'[c[k] + FD] == mem[c[k] + FD] && mem'[c[k] + BK] == mem[c[k] + BK]
    ensures Ring(mem', c)
  {
    forall k | 0 <= k < |c|
      ensures LinkOk(mem', c, k)
    {
      assert LinkOk(mem, c, k);
      assert LinkOk(mem, c, if k > 0 then k - 1 else |c| - 1);
      assert LinkOk(mem, c, if k + 1 < |c| then k + 1 else 0);
      assert Next(c, k) == c[if k + 1 < |c| then k + 1 else 0];
    }
  }
}
