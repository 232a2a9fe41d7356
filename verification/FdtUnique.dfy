/** Bytes determine a tree: a blob cannot be read in two ways. */
module FdtUnique {
  import opened FdtFormat
  import opened FdtTree
  import opened FdtTokens
  import opened FdtEdits

  lemma {:induction false} SameBytes(m: Bytes, a: int, t: Token, u: Token)
    requires Written(m, a, t) && Written(m, a, u) && Size(t) == Size(u)
    ensures Encode(t) == Encode(u)
  {
    assert Shown(m);
    PartSlice(m, a, Encode(t));
    PartSlice(m, a, Encode(u));
  }

  lemma {:induction false} OneName(m: Bytes, a: int, t: Token, u: Token)
    requires Written(m, a, t) && Written(m, a, u) && TokenOk(t) && TokenOk(u) && t.BeginNode? && u.BeginNode?
    ensures t == u
  {
    NameReads(m, a, t);
    NameReads(m, a, u);
    StringUnique(m, a + 4, t.name, u.name);
    SameBytes(m, a, t, u);
    assert Encode(t)[5 + |t.name|..] == t.pad && Encode(u)[5 + |u.name|..] == u.pad;
  }

  lemma {:induction false} OneValue(m: Bytes, a: int, t: Token, u: Token)
    requires Written(m, a, t) && Written(m, a, u) && TokenOk(t) && TokenOk(u) && t.Prop? && u.Prop?
    ensures t == u
  {
    PropReads(m, a, t);
    PropReads(m, a, u);
    SameBytes(m, a, t, u);
    var n := 12 + |t.value|;
    assert Encode(t)[12..n] == t.value && Encode(u)[12..n] == u.value;
    assert Encode(t)[n..] == t.pad && Encode(u)[n..] == u.pad;
  }

  /** No two tokens start at one address. */
  lemma {:induction false} OneToken(m: Bytes, a: int, t: Token, u: Token)
    requires Written(m, a, t) && Written(m, a, u) && TokenOk(t) && TokenOk(u)
    ensures t == u
  {
    TagReads(m, a, t);
    TagReads(m, a, u);
    if t.BeginNode? {
      OneName(m, a, t, u);
    } else if t.Prop? {
      OneValue(m, a, t, u);
    }
  }

  lemma {:induction false} SamePrefix(m: Bytes, a: int, ts: seq<Token>, us: seq<Token>, k: int)
    requires Holds(m, a, ts) && Holds(m, a, us) && AllOk(ts) && AllOk(us) && 0 <= k <= |ts| && k <= |us|
    ensures ts[..k] == us[..k]
    decreases k
  {
    if k > 0 {
      SamePrefix(m, a, ts, us, k - 1);
      HoldsAt(m, a, ts, k - 1);
      HoldsAt(m, a, us, k - 1);
      OneToken(m, a + Offset(ts, k - 1), ts[k - 1], us[k - 1]);
      assert ts[..k] == ts[..k - 1] + [ts[k - 1]] && us[..k] == us[..k - 1] + [us[k - 1]];
    }
  }

  lemma {:induction false} NotShorter(ts: seq<Token>, us: seq<Token>, table: Bytes, f: Forest, g: Forest)
    requires Stands(ts, table, f) && Stands(us, table, g) && |ts| <= |us| && ts[..|ts|] == us[..|ts|]
    ensures ts == us
  {
    var i := |ts| - 1;
    assert ts[i] == ts[..|ts|][i] == us[i];
    assert ts[i].End? && us[i].End?;
    assert ts[..|ts|] == ts && us[..|us|] == us;
  }

  /** Memory that holds a tree holds no other tree, and in one way only. */
  lemma {:induction false} OneTree(m: Bytes, a: int, so: int, n: int, ts: seq<Token>, us: seq<Token>, f: Forest,
                                   g: Forest)
    requires Image(m, a, so, n, ts, f) && Image(m, a, so, n, us, g)
    ensures ts == us && f == g
  {
    assert Imaged(ts) && Imaged(us);
    var table := m[so..so + n];
    if |ts| <= |us| {
      SamePrefix(m, a, ts, us, |ts|);
      NotShorter(ts, us, table, f, g);
    } else {
      SamePrefix(m, a, us, ts, |us|);
      NotShorter(us, ts, table, g, f);
    }
    FlattenInjective(f, g, [], []);
  }
}
