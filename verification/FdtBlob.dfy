/** The flattened device tree blob: one buffer with a header, and the functions that read and edit it. */
module FdtBlob {
  import opened FdtFormat
  import opened FdtTree
  import opened FdtTokens
  import opened FdtEdits

  const MAGIC: int := 0xd00d_feed

  const NOTFOUND: int := 1
  const EXISTS: int := 2
  const NOSPACE: int := 3
  const BADOFFSET: int := 4
  const BADSTATE: int := 7
  const TRUNCATED: int := 8
  const BADMAGIC: int := 9
  const BADSTRUCTURE: int := 11
  const BADLAYOUT: int := 12
  const INTERNAL: int := 13

  const HALF: int := 0x8000_0000

  /** fdt_offset_ptr for version 17 and later: the unsigned comparisons that bound an access. */
  predicate Reachable(o: int, len: int, offStruct: int, sizeStruct: int, totalSize: int) {
    var abs := (o + offStruct) % W32;
    var end := (o + len) % W32;
    && !(abs < o % W32) && !((abs + len) % W32 < abs) && (abs + len) % W32 <= totalSize
    && !(end < o % W32) && end <= sizeStruct
  }

  lemma {:induction false} Wraps(x: int)
    requires -W32 <= x < 2 * W32
    ensures x % W32 == if x < 0 then x + W32 else if x < W32 then x else x - W32
  {
  }

  /** The wrap-around comparisons come to a plain bounds check. */
  lemma {:induction false} OffsetBounds(o: int, len: int, offStruct: int, sizeStruct: int, totalSize: int)
    requires -HALF <= o < HALF && 0 <= len < HALF
    requires 0 <= offStruct && 0 <= sizeStruct && offStruct + sizeStruct <= totalSize < HALF
    ensures Reachable(o, len, offStruct, sizeStruct, totalSize) <==> 0 <= o && o + len <= sizeStruct
  {
    Wraps(o);
    Wraps(o + offStruct);
    Wraps(o + len);
    Wraps((o + offStruct) % W32 + len);
  }

  class Blob {
    const buf: array<int>
    var magic: int
    var version: int
    var lastComp: int
    var totalSize: int
    var offRsv: int
    var offStruct: int
    var sizeStruct: int
    var offStrings: int
    var sizeStrings: int
    ghost var toks: seq<Token>
    ghost var forest: Forest

    /** The blocks lie inside the buffer, which is small enough for the offsets to be ints. */
    ghost predicate Laid()
      reads this
    {
      && 17 <= version && totalSize <= buf.Length < HALF
      && 0 <= offStruct && 0 <= sizeStruct && offStruct + sizeStruct <= totalSize
      && 0 <= offStrings && 0 <= sizeStrings && offStrings + sizeStrings <= totalSize
    }

    ghost function Strings(): Bytes
      requires Laid()
      reads this, buf
    {
      buf[offStrings..offStrings + sizeStrings]
    }

    /** The structure block is made of the tokens. */
    ghost predicate Tokens()
      reads this, buf
    {
      Laid() && AllOk(toks) && sizeStruct == Total(toks) && Holds(buf[..], offStruct, toks)
    }

    /** The blob holds the tree. */
    ghost predicate Valid()
      reads this, buf
    {
      && magic == MAGIC && lastComp <= 17 && Laid() && sizeStruct == Total(toks)
      && Image(buf[..], offStruct, offStrings, sizeStrings, toks, forest)
    }

    lemma {:induction false} Opened()
      requires Valid()
      ensures Tokens() && Stands(toks, Strings(), forest)
    {
      assert Imaged(toks);
    }

    /** The offset is that of token k, or, if k is negative, an offset that cannot be that of a token. */
    ghost predicate Points(o: int, k: int)
      reads this
    {
      -HALF <= o < HALF && k < |toks|
      && if k < 0 then o < 0 || o % 4 != 0 || o >= sizeStruct else o == Offset(toks, k)
    }

    // ----- Walking over tokens -----

    function Load(o: int): (x: int)
      requires 0 <= o && o + 4 <= buf.Length
      reads buf
      ensures x == ReadWord(buf[..], o)
    {
      ((buf[o] * 0x100 + buf[o + 1]) * 0x100 + buf[o + 2]) * 0x100 + buf[o + 3]
    }

    lemma {:induction false} Spans(k: int)
      requires Tokens() && 0 <= k < |toks|
      ensures var o, n := Offset(toks, k), Used(toks[k]);
              o % 4 == 0 && o + n <= Offset(toks, k + 1) <= sizeStruct && TagAlign(o + n) == Offset(toks, k + 1)
    {
      NextToken(toks, k);
    }

    lemma {:induction false} TagHere(k: int)
      requires Tokens() && 0 <= k < |toks|
      ensures var o := Offset(toks, k); o + 4 <= sizeStruct && Load(offStruct + o) == Tag(toks[k])
    {
      HoldsAt(buf[..], offStruct, toks, k);
      TagReads(buf[..], offStruct + Offset(toks, k), toks[k]);
    }

    lemma {:induction false} PropHere(k: int)
      requires Tokens() && 0 <= k < |toks| && toks[k].Prop?
      ensures var o, t := offStruct + Offset(toks, k), toks[k];
              && o + 12 + |t.value| <= offStruct + sizeStruct
              && Load(o + 4) == |t.value| && Load(o + 8) == t.nameoff
              && Part(buf[..], o + 12, t.value)
    {
      HoldsAt(buf[..], offStruct, toks, k);
      PropReads(buf[..], offStruct + Offset(toks, k), toks[k]);
    }

    lemma {:induction false} NameHere(k: int, i: int)
      requires Tokens() && 0 <= k < |toks| && toks[k].BeginNode? && 0 <= i <= |toks[k].name|
      ensures var o, name := offStruct + Offset(toks, k) + 4, toks[k].name;
              && o + |name| < offStruct + sizeStruct && (buf[o + i] == 0 <==> i == |name|)
              && (i < |name| ==> buf[o + i] == name[i])
    {
      var o := offStruct + Offset(toks, k);
      HoldsAt(buf[..], offStruct, toks, k);
      NameReads(buf[..], o, toks[k]);
      StringReads(buf[..], o + 4, toks[k].name, i);
    }

    /** fdt_offset_ptr: whether the pointer is not null. */
    method OffsetPtr(o: int, len: int) returns (ok: bool)
      requires Laid() && -HALF <= o < HALF && 0 <= len < HALF
      ensures ok <==> 0 <= o && o + len <= sizeStruct
    {
      OffsetBounds(o, len, offStruct, sizeStruct, totalSize);
      ok := Reachable(o, len, offStruct, sizeStruct, totalSize);
    }

    /** fdt_next_tag */
    method NextTag(o: int, ghost k: int) returns (tag: int, next: int)
      requires Tokens() && Points(o, k) && (k < 0 ==> o < 0 || o >= sizeStruct)
      ensures 0 <= k ==> tag == Tag(toks[k]) && next == Offset(toks, k + 1)
      ensures k < 0 ==> tag == END && next == -TRUNCATED
    {
      if 0 <= k {
        TagHere(k);
        Spans(k);
      }
      var ok := OffsetPtr(o, 4);
      if !ok {
        return END, -TRUNCATED;
      }
      tag := Load(offStruct + o);
      var offset := o + 4;
      if tag == BEGIN_NODE {
        offset := SkipName(offset, k);
      } else if tag == PROP {
        offset := SkipValue(offset, k);
      } else if tag != END && tag != END_NODE && tag != NOP {
        assert false;
      }
      ok := OffsetPtr(o, offset - o);
      if !ok {
        assert false;
      }
      next := TagAlign(offset);
    }

    method SkipName(o: int, ghost k: int) returns (offset: int)
      requires Tokens() && 0 <= k < |toks| && toks[k].BeginNode? && o == Offset(toks, k) + 4
      ensures offset == o + |toks[k].name| + 1
    {
      offset := o;
      while true
        invariant o <= offset <= o + |toks[k].name|
        decreases o + |toks[k].name| - offset
      {
        NameHere(k, offset - o);
        var ok := OffsetPtr(offset, 1);
        if !ok {
          assert false;
        }
        offset := offset + 1;
        if buf[offStruct + offset - 1] == 0 {
          return;
        }
      }
    }

    method SkipValue(o: int, ghost k: int) returns (offset: int)
      requires Tokens() && 0 <= k < |toks| && toks[k].Prop? && o == Offset(toks, k) + 4
      ensures offset == o + 8 + |toks[k].value|
    {
      PropHere(k);
      var ok := OffsetPtr(o, 4);
      if !ok {
        assert false;
      }
      offset := o + 8 + Load(offStruct + o);
    }

    lemma {:induction false} PointsAt(k: int)
      requires Tokens() && 0 <= k < |toks|
      ensures Points(Offset(toks, k), k) && 0 <= Offset(toks, k) < sizeStruct
    {
      Spans(k);
    }

    /** _fdt_check_node_offset */
    method CheckNodeOffset(o: int, ghost k: int) returns (r: int)
      requires Tokens() && Points(o, k)
      ensures r == if 0 <= k && toks[k].BeginNode? then Offset(toks, k + 1) else -BADOFFSET
    {
      if 0 <= k {
        Spans(k);
      }
      if o < 0 || o % 4 != 0 {
        return -BADOFFSET;
      }
      var tag, next := NextTag(o, k);
      if tag != BEGIN_NODE {
        return -BADOFFSET;
      }
      r := next;
    }

    /** fdt_next_node with a depth */
    method NextNode(o: int, depth: int, ghost k: int) returns (r: int, d: int, ghost j: int)
      requires Tokens() && Points(o, k) && |toks| > 0 && toks[|toks| - 1].End?
      ensures 0 <= o && !(0 <= k && toks[k].BeginNode?) ==> r == -BADOFFSET && d == depth
      ensures o < 0 || (0 <= k && toks[k].BeginNode?) ==>
                var i := if o < 0 then 0 else k + 1;
                && Walked(toks, i, depth, j)
                && r == (if toks[j].BeginNode? then Offset(toks, j)
                         else if toks[j].EndNode? then Offset(toks, j + 1) else -NOTFOUND)
                && d == depth + Level(toks, j + 1) - Level(toks, i)
    {
      var next := 0;
      j := k;
      ghost var i := 0;
      if o >= 0 {
        next := CheckNodeOffset(o, k);
        if next < 0 {
          return next, depth, k;
        }
        i := k + 1;
      } else {
        OffsetZero(toks);
      }
      d := depth;
      j := i;
      while true
        invariant i <= j < |toks| && next == Offset(toks, j)
        invariant d == depth + Level(toks, j) - Level(toks, i)
        invariant forall t {:trigger toks[t]} :: i <= t < j ==>
                    && !toks[t].BeginNode? && !toks[t].End?
                    && (toks[t].EndNode? ==> depth + Level(toks, t + 1) - Level(toks, i) >= 0)
        decreases |toks| - j
      {
        var offset := next;
        PointsAt(j);
        var tag: int;
        tag, next := NextTag(offset, j);
        LevelStep(toks, j);
        if tag == BEGIN_NODE {
          d := d + 1;
          r := offset;
          return;
        } else if tag == END_NODE {
          d := d - 1;
          if d < 0 {
            r := next;
            return;
          }
        } else if tag == END {
          r := -NOTFOUND;
          return;
        }
        j := j + 1;
      }
    }

    // ----- Nodes -----

    ghost function Spot(k: int): Spot
      requires 0 <= k < |toks|
      reads this
    {
      NodeSpot(toks, forest, k)
    }

    /** Where the node at a spot starts in the structure block. */
    ghost function NodeOffset(s: Spot): int
      requires Has(forest, s)
      reads this
    {
      var k := NodePlace(toks, forest, s);
      if 0 <= k < |toks| then Offset(toks, k) else -1
    }

    /** The token after the end of the node that token k opens. */
    ghost function EndOf(k: int): int
      requires 0 <= k < |toks| && Has(forest, Spot(k))
      reads this
    {
      NodeEnd(toks, forest, Spot(k))
    }

    lemma {:induction false} NodeHere(k: int)
      requires Valid() && 0 <= k < |toks| && toks[k].BeginNode?
      ensures Has(forest, Spot(k)) && NodePlace(toks, forest, Spot(k)) == k
      ensures Spanned(toks, k, EndOf(k), Level(toks, k)) && EndOf(k) < |toks| && Level(toks, k) == Depth(Spot(k))
    {
      Opened();
      NodeOfToken(toks, Strings(), forest, k);
      NodeSpans(toks, Strings(), forest, Spot(k));
      assert !toks[EndOf(k) - 1].End?;
    }

    ghost predicate IsNode(k: int)
      reads this
    {
      0 <= k < |toks| && toks[k].BeginNode?
    }

    /** The walk over the nodes inside the node at token k is at token i. */
    ghost predicate Cursor(k: int, i: int, o: int, depth: int)
      requires IsNode(k) && Has(forest, Spot(k))
      reads this
    {
      k <= i < EndOf(k) && IsNode(i) && o == Offset(toks, i) && depth == Level(toks, i) - Level(toks, k)
    }

    /** One step of that walk. */
    method Advance(o: int, depth: int, ghost k: int, ghost i: int) returns (r: int, d: int, ghost j: int)
      requires Valid() && 0 <= o
      requires if IsNode(k) then Has(forest, Spot(k)) && Cursor(k, i, o, depth) else Points(o, i) && i == k
      ensures !IsNode(k) ==> r == -BADOFFSET && d == depth && j == i
      ensures IsNode(k) ==> if d >= 0 then Cursor(k, j, r, d) && d > 0 else j == EndOf(k) && r == Offset(toks, j)
      ensures IsNode(k) ==> i < j && forall t {:trigger toks[t]} :: i < t < j ==> !toks[t].BeginNode?
    {
      Opened();
      if IsNode(k) {
        NodeHere(k);
        PointsAt(i);
      }
      r, d, j := NextNode(o, depth, i);
      if IsNode(k) {
        StaysWithin(toks, k, EndOf(k), Level(toks, k), i, j);
        j := if toks[j].BeginNode? then j else j + 1;
      } else {
        j := i;
      }
    }

    /** _fdt_node_end_offset */
    method NodeEndOffset(o: int, ghost k: int) returns (r: int)
      requires Valid() && Points(o, k)
      ensures if IsNode(k) then Has(forest, Spot(k)) && 0 <= EndOf(k) < |toks| && r == Offset(toks, EndOf(k))
              else r == if 0 <= o then -BADOFFSET else o
    {
      Opened();
      if IsNode(k) {
        NodeHere(k);
      }
      var depth := 0;
      ghost var i := k;
      r := o;
      while r >= 0 && depth >= 0
        invariant IsNode(k) ==> if depth >= 0 then Cursor(k, i, r, depth) else r == Offset(toks, EndOf(k))
        invariant !IsNode(k) ==> depth == 0 && ((r == o && i == k) || (0 <= o && r == -BADOFFSET))
        decreases |toks| - i, r
      {
        r, depth, i := Advance(r, depth, k, i);
      }
    }

    /** _fdt_nodename_eq */
    method NodenameEq(o: int, name: Bytes, ghost k: int) returns (eq: bool)
      requires Tokens() && 0 <= k < |toks| && toks[k].BeginNode? && o == Offset(toks, k)
      requires 0 !in name && |name| < HALF - 1
      ensures eq <==> Matches(toks[k].name, name)
    {
      var len := |name|;
      PointsAt(k);
      Spans(k);
      NameMatches(k, name);
      var ok := OffsetPtr(o + 4, len + 1);
      if !ok {
        return false;
      }
      var p := offStruct + o + 4;
      if buf[p..p + len] != name {
        return false;
      }
      return buf[p + len] == 0 || (AT_SIGN !in name && buf[p + len] == AT_SIGN);
    }

    lemma {:induction false} NameMatches(k: int, name: Bytes)
      requires Tokens() && 0 <= k < |toks| && toks[k].BeginNode? && 0 !in name
      ensures var p, n := offStruct + Offset(toks, k) + 4, |name|;
              Matches(toks[k].name, name) <==>
                && p + n + 1 <= offStruct + sizeStruct && buf[p..p + n] == name
                && (buf[p + n] == 0 || (AT_SIGN !in name && buf[p + n] == AT_SIGN))
    {
      var p, n, m := offStruct + Offset(toks, k) + 4, |name|, toks[k].name;
      HoldsAt(buf[..], offStruct, toks, k);
      NameReads(buf[..], p - 4, toks[k]);
      Spans(k);
      NamePrefix(buf[..], p, m, name);
    }

    /** fdt_subnode_offset_namelen */
    method SubnodeOffset(o: int, name: Bytes, ghost k: int) returns (r: int)
      requires Valid() && Points(o, k) && 0 !in name && |name| < HALF - 1
      ensures if IsNode(k) then
                && Has(forest, Spot(k))
                && match FirstKid(At(forest, Spot(k)).kids, name)
                   case None => r == -NOTFOUND
                   case Some(q) => var t := Extend(Spot(k), Down(q)); Has(forest, t) && 0 <= r == NodeOffset(t)
              else r == if 0 <= o then -BADOFFSET else o
    {
      Opened();
      if IsNode(k) {
        NodeHere(k);
      }
      var depth := 0;
      ghost var i := k;
      r := o;
      while r >= 0 && depth >= 0
        invariant IsNode(k) ==> if depth >= 0 then Cursor(k, i, r, depth) && NoKidBefore(toks, k, i, name)
                                else NoKidBefore(toks, k, EndOf(k), name)
        invariant !IsNode(k) ==> depth == 0 && ((r == o && i == k) || (0 <= o && r == -BADOFFSET))
        decreases |toks| - i, r
      {
        if depth == 1 {
          var eq := NodenameEq(r, name, i);
          if eq {
            KidFound(toks, Strings(), forest, Spot(k), name, i);
            return;
          }
        }
        ghost var i0 := i;
        r, depth, i := Advance(r, depth, k, i);
        if IsNode(k) {
          NoKidNext(toks, k, i0, i, name);
        }
      }
      if IsNode(k) {
        KidNotFound(toks, Strings(), forest, Spot(k), name);
      }
      if depth < 0 {
        return -NOTFOUND;
      }
    }

    // ----- Properties -----

    /** _fdt_check_prop_offset */
    method CheckPropOffset(o: int, ghost k: int) returns (r: int)
      requires Tokens() && Points(o, k)
      ensures r == if 0 <= k && toks[k].Prop? then Offset(toks, k + 1) else -BADOFFSET
    {
      if 0 <= k {
        Spans(k);
      }
      if o < 0 || o % 4 != 0 {
        return -BADOFFSET;
      }
      var tag, next := NextTag(o, k);
      if tag != PROP {
        return -BADOFFSET;
      }
      r := next;
    }

    /** _nextprop */
    method NextProp(o: int, ghost i: int) returns (r: int, ghost j: int)
      requires Tokens() && 0 <= i < |toks| && o == Offset(toks, i) && toks[|toks| - 1].End?
      ensures i <= j < |toks| && !toks[j].Nop? && forall t {:trigger toks[t]} :: i <= t < j ==> toks[t].Nop?
      ensures r == if toks[j].Prop? then Offset(toks, j) else if toks[j].End? then -BADSTRUCTURE else -NOTFOUND
    {
      var offset := o;
      j := i;
      while true
        invariant i <= j < |toks| && offset == Offset(toks, j)
        invariant forall t {:trigger toks[t]} :: i <= t < j ==> toks[t].Nop?
        decreases |toks| - j
      {
        PointsAt(j);
        var tag, next := NextTag(offset, j);
        if tag == END {
          return -BADSTRUCTURE, j;
        } else if tag == PROP {
          return offset, j;
        }
        offset := next;
        if tag != NOP {
          return -NOTFOUND, j;
        }
        j := j + 1;
      }
    }

    /** Where property c of the node at token k starts, or the answer that there is none. */
    ghost function PropOffset(k: int, c: int): int
      requires IsNode(k) && Has(forest, Spot(k))
      reads this
    {
      var j := PropPlace(toks, forest, Spot(k), c);
      if 0 <= c < |At(forest, Spot(k)).props| && 0 <= j < |toks| then Offset(toks, j) else -NOTFOUND
    }

    lemma {:induction false} PropNext(k: int, i: int, j: int, c: int)
      requires Valid() && IsNode(k) && Has(forest, Spot(k)) && 0 <= c <= |At(forest, Spot(k)).props|
      requires 0 <= i <= j < |toks| && !toks[j].Nop? && Count(toks[..i]) == |Before(forest, Spot(k))| + 1 + c
      requires forall t {:trigger toks[t]} :: i <= t < j ==> toks[t].Nop?
      ensures j == PropPlace(toks, forest, Spot(k), c)
      ensures PropOffset(k, c)
           == if toks[j].Prop? then Offset(toks, j) else if toks[j].End? then -BADSTRUCTURE else -NOTFOUND
    {
      Opened();
      var p := PropPlace(toks, forest, Spot(k), c);
      PropPlaceIs(toks, Strings(), forest, Spot(k), c);
      NopCount(toks, i, j);
      CountStep(toks, p);
      if p < j {
        CountMono(toks, p + 1, j);
      }
      SkipNops(toks, i, j);
    }

    /** fdt_first_property_offset */
    method FirstPropertyOffset(o: int, ghost k: int) returns (r: int)
      requires Valid() && Points(o, k)
      ensures if IsNode(k) then Has(forest, Spot(k)) && r == PropOffset(k, 0) else r == -BADOFFSET
    {
      Opened();
      var offset := CheckNodeOffset(o, k);
      if offset < 0 {
        return offset;
      }
      NodeHere(k);
      ghost var j: int;
      r, j := NextProp(offset, k + 1);
      NodePlaceIs(toks, Strings(), forest, Spot(k));
      CountStep(toks, k);
      PropNext(k, k + 1, j, 0);
    }

    /** Property c of the node at token k is token PropToken(k, c). */
    ghost function PropToken(k: int, c: int): int
      requires IsNode(k) && Has(forest, Spot(k))
      reads this
    {
      PropPlace(toks, forest, Spot(k), c)
    }

    lemma {:induction false} PropIs(k: int, c: int)
      requires Valid() && IsNode(k) && Has(forest, Spot(k)) && 0 <= c < |At(forest, Spot(k)).props|
      ensures var i, p := PropToken(k, c), At(forest, Spot(k)).props[c];
              && PropAt(Spot(k), c, i) && Points(PropOffset(k, c), i)
              && Terminated(Strings(), toks[i].nameoff)
              && NameAt(Strings(), toks[i].nameoff) == p.name && toks[i].value == p.value
    {
      Opened();
      var i := PropToken(k, c);
      PropPlaceIs(toks, Strings(), forest, Spot(k), c);
      PointsAt(i);
      CountStep(toks, i);
      MakeSlot(toks, forest, Spot(k), c, i);
      MakeSlot(toks, forest, Spot(k), c + 1, i + 1);
    }

    /** fdt_next_property_offset, from property c of the node at token k */
    method NextPropertyOffset(o: int, ghost k: int, ghost c: int) returns (r: int)
      requires Valid() && IsNode(k) && Has(forest, Spot(k))
      requires 0 <= c < |At(forest, Spot(k)).props| && o == PropOffset(k, c)
      ensures r == PropOffset(k, c + 1)
    {
      Opened();
      ghost var i := PropToken(k, c);
      PropIs(k, c);
      var offset := CheckPropOffset(o, i);
      if offset < 0 {
        assert false;
      }
      ghost var j: int;
      r, j := NextProp(offset, i + 1);
      assert Looked(forest);
      PropNext(k, i + 1, j, c + 1);
    }

    method StrLen(a: int, ghost s: Bytes) returns (n: int)
      requires StringAt(buf[..], a, s)
      ensures n == |s|
    {
      n := 0;
      while true
        invariant 0 <= n <= |s|
        decreases |s| - n
      {
        StringReads(buf[..], a, s, n);
        if buf[a + n] == 0 {
          return;
        }
        n := n + 1;
      }
    }

    /** _fdt_string_eq */
    method StringEq(o: int, name: Bytes) returns (eq: bool)
      requires Laid() && Terminated(Strings(), o)
      ensures eq <==> NameAt(Strings(), o) == name
    {
      var p := offStrings + o;
      ghost var s := NameAt(Strings(), o);
      assert Strings() == buf[..][offStrings..offStrings + sizeStrings];
      StringInBlock(buf[..], offStrings, sizeStrings, o, s, p);
      var n := StrLen(p, s);
      assert buf[p..p + n] == s;
      eq := n == |name| && buf[p..p + n] == name;
    }

    method ReadNameOff(o: int, ghost i: int) returns (x: int)
      requires Tokens() && 0 <= i < |toks| && toks[i].Prop? && o == Offset(toks, i)
      ensures x == toks[i].nameoff
    {
      PropHere(i);
      x := Load(offStruct + o + 8);
    }

    method ReadLen(o: int, ghost i: int) returns (x: int)
      requires Tokens() && 0 <= i < |toks| && toks[i].Prop? && o == Offset(toks, i)
      ensures x == |toks[i].value|
    {
      PropHere(i);
      x := Load(offStruct + o + 4);
    }

    ghost function Props(k: int): seq<Property>
      requires IsNode(k) && Has(forest, Spot(k))
      reads this
    {
      At(forest, Spot(k)).props
    }

    /** Whether property c of the node at token k has the name. */
    method PropNamed(o: int, name: Bytes, ghost k: int, ghost c: int) returns (eq: bool)
      requires Valid() && IsNode(k) && Has(forest, Spot(k)) && 0 <= c < |Props(k)| && o == PropOffset(k, c)
      ensures eq <==> Props(k)[c].name == name
    {
      Opened();
      PropIs(k, c);
      var next := CheckPropOffset(o, PropToken(k, c));
      if next < 0 {
        assert false;
      }
      var x := ReadNameOff(o, PropToken(k, c));
      eq := StringEq(x, name);
    }

    /** fdt_get_property_namelen, which finds the first property of that name */
    method GetProperty(o: int, name: Bytes, ghost k: int) returns (r: int)
      requires Valid() && Points(o, k)
      ensures if IsNode(k) then Has(forest, Spot(k)) && r == PropOffset(k, FindProp(Props(k), name))
              else r == -BADOFFSET
    {
      Opened();
      r := FirstPropertyOffset(o, k);
      ghost var c := 0;
      while r >= 0
        invariant if IsNode(k) then Has(forest, Spot(k)) && 0 <= c <= |Props(k)| && r == PropOffset(k, c)
                  else r == -BADOFFSET
        invariant IsNode(k) ==> forall i :: 0 <= i < c ==> Props(k)[i].name != name
        decreases if IsNode(k) && Has(forest, Spot(k)) then |Props(k)| - c else 0
      {
        var eq := PropNamed(r, name, k, c);
        if eq {
          FirstProp(Props(k), name, c);
          return;
        }
        r := NextPropertyOffset(r, k, c);
        c := c + 1;
      }
      if IsNode(k) {
        PropEnd(k, c);
        FirstProp(Props(k), name, c);
      }
    }

    lemma {:induction false} PropEnd(k: int, c: int)
      requires Valid() && IsNode(k) && Has(forest, Spot(k)) && 0 <= c <= |Props(k)| && PropOffset(k, c) < 0
      ensures c == |Props(k)|
    {
      Opened();
      if c < |Props(k)| {
        PropIs(k, c);
      }
    }

    // ----- Changing the buffer -----

    method Memmove(dst: int, src: int, n: int)
      requires 0 <= dst && 0 <= src && 0 <= n && dst + n <= buf.Length && src + n <= buf.Length
      modifies buf
      ensures buf[..] == Put(old(buf[..]), dst, old(buf[src..src + n]))
    {
      forall i | 0 <= i < n {
        buf[dst + i] := buf[src + i];
      }
    }

    method Memcpy(dst: int, e: Bytes)
      requires 0 <= dst && dst + |e| <= buf.Length
      modifies buf
      ensures buf[..] == Put(old(buf[..]), dst, e)
    {
      forall i | 0 <= i < |e| {
        buf[dst + i] := e[i];
      }
    }

    /** The blocks come one after the other. */
    ghost predicate Ordered()
      reads this
    {
      40 <= offRsv && offRsv + 16 <= offStruct && offStruct + sizeStruct <= offStrings
    }

    /** _fdt_rw_check_header */
    method RwCheckHeader() returns (err: int)
      requires Valid()
      modifies `version
      ensures Valid() && Strings() == old(Strings()) && err == if Ordered() then 0 else -BADLAYOUT
    {
      if lastComp > 17 {
        assert false;
      }
      if offRsv < 40 || offStruct < offRsv + 16 || offStrings < offStruct + sizeStruct
         || totalSize < offStrings + sizeStrings {
        return -BADLAYOUT;
      }
      if version > 17 {
        version := 17;
      }
      err := 0;
    }

    /** _fdt_splice */
    method Splice(p: int, was: int, now: int) returns (err: int)
      requires Laid() && 0 <= p <= offStrings + sizeStrings && 0 <= was && 0 <= now
      modifies buf
      ensures var end := offStrings + sizeStrings;
              && err == (if p + was > end then -BADOFFSET else if end - was + now > totalSize then -NOSPACE else 0)
              && (err != 0 ==> buf[..] == old(buf[..]))
              && (err == 0 ==> Widened(old(buf[..]), buf[..], p, was, now, end))
              && (err == 0 ==> Same(old(buf[..]), 0, buf[..], 0, p + now))
    {
      var end := offStrings + sizeStrings;
      if p + was < p || p + was > end {
        return -BADOFFSET;
      }
      if p < 0 || end - was + now < 0 {
        return -BADOFFSET;
      }
      if end - was + now > totalSize {
        return -NOSPACE;
      }
      MoveTail(p, was, now, end);
      err := 0;
    }

    /** The move of _fdt_splice */
    method MoveTail(p: int, was: int, now: int, end: int)
      requires 0 <= p && 0 <= was && 0 <= now && p + was <= end <= buf.Length && end - was + now <= buf.Length
      modifies buf
      ensures Widened(old(buf[..]), buf[..], p, was, now, end) && Same(old(buf[..]), 0, buf[..], 0, p + now)
    {
      ghost var m := buf[..];
      MovedWidens(m, p, was, now, end);
      assert buf[p + was..end] == m[p + was..end];
      Memmove(p + now, p + was, end - p - was);
    }

    /** _fdt_splice_struct */
    method SpliceStruct(p: int, was: int, now: int) returns (err: int)
      requires Laid() && Ordered() && offStruct <= p && 0 <= was && 0 <= now && p + was <= offStruct + sizeStruct
      modifies buf, `sizeStruct, `offStrings
      ensures err == if old(offStrings) + sizeStrings - was + now > totalSize then -NOSPACE else 0
      ensures err != 0 ==> buf[..] == old(buf[..]) && sizeStruct == old(sizeStruct) && offStrings == old(offStrings)
      ensures err == 0 ==>
                && Laid() && Ordered() && sizeStruct == old(sizeStruct) - was + now
                && offStrings == old(offStrings) - was + now && Strings() == old(Strings())
                && Widened(old(buf[..]), buf[..], p, was, now, old(offStrings + sizeStrings))
                && Same(old(buf[..]), 0, buf[..], 0, p + now)
    {
      ghost var end := offStrings + sizeStrings;
      err := Splice(p, was, now);
      if err != 0 {
        return;
      }
      sizeStruct := sizeStruct + now - was;
      offStrings := offStrings + now - was;
      BlockMoved(old(buf[..]), buf[..], p, was, now, end, old(offStrings), offStrings, sizeStrings);
    }

    // ----- Editing properties -----

    /** Property c of the node at spot s is token i. */
    ghost predicate PropAt(s: Spot, c: int, i: int)
      reads this
    {
      0 <= i < |toks| - 1 && toks[i].Prop? && Slot(toks, forest, s, c, i) && Slot(toks, forest, s, c + 1, i + 1)
    }

    lemma {:induction false} Bounds(k: int)
      requires Valid() && 0 <= k < |toks|
      ensures 0 <= Offset(toks, k) <= Offset(toks, k + 1) <= sizeStruct
      ensures toks[k].Prop? ==>
                Offset(toks, k + 1) == Offset(toks, k) + (12 + TagAlign(|toks[k].value|)) && TokenOk(toks[k])
    {
      Opened();
      Spans(k);
      OffsetStep(toks, k);
      TokenSize(toks[k]);
      if toks[k].Prop? {
        AlignFrom(12, |toks[k].value|);
      }
    }

    method PropLen(o: int, ghost i: int) returns (x: int)
      requires Valid() && 0 <= i < |toks| && toks[i].Prop? && o == Offset(toks, i)
      ensures x == |toks[i].value|
    {
      Opened();
      x := ReadLen(o, i);
    }

    /** What lies before the structure block: the memory reservation block, and the header where memory has it. */
    ghost function Ahead(): Bytes
      reads this, buf
    {
      Front(buf[..], offStruct)
    }

    ghost function Free(): int
      reads this
    {
      totalSize - (offStrings + sizeStrings)
    }

    /** An edit of this blob is under way. */
    ghost predicate Pending(e: Edit)
      reads this, buf
    {
      && magic == MAGIC && lastComp <= 17 && Laid() && Ordered()
      && e.base == offStruct && e.n == sizeStrings && e.ts == toks && e.f == forest && 0 <= e.i <= e.j < |toks|
      && offStrings == e.so - e.was + e.now && sizeStruct == Total(toks) - e.was + e.now
      && 0 <= e.so && e.so + e.n <= |e.m| && Gap(e, buf[..])
    }

    /** An edit of this blob, which has not begun. */
    ghost predicate Fits(e: Edit)
      reads this, buf
    {
      && e.m == buf[..] && e.base == offStruct && e.so == offStrings && e.n == sizeStrings && e.ts == toks
      && e.f == forest && 0 <= e.i <= e.j < |toks| && Edits(toks, forest, e.i, e.j, e.qs, e.g)
      && e.p == offStruct + Offset(toks, e.i) && e.was == Offset(toks, e.j) - Offset(toks, e.i)
      && offStruct <= e.p && e.p + e.was <= offStruct + sizeStruct
    }

    /** Makes room for now bytes in the place of tokens i to j. */
    method StartEdit(p: int, was: int, now: int, ghost i: int, ghost j: int, ghost qs: seq<Item>, ghost g: Forest)
      returns (err: int, ghost e: Edit)
      requires Valid() && Ordered() && 0 <= i <= j < |toks| && 0 <= now && Edits(toks, forest, i, j, qs, g)
      requires p == offStruct + Offset(toks, i) && was == Offset(toks, j) - Offset(toks, i)
      modifies buf, `sizeStruct, `offStrings
      ensures e == old(Edit(buf[..], offStruct, offStrings, sizeStrings, toks, forest, i, j, p, was, now, qs, g))
      ensures err == if now - was > old(Free()) then -NOSPACE else 0
      ensures if err == 0 then Pending(e) else Valid() && Ordered()
      ensures err != 0 ==> Ahead() == old(Ahead())
    {
      e := Edit(buf[..], offStruct, offStrings, sizeStrings, toks, forest, i, j, p, was, now, qs, g);
      RunInside(i, j, p, was);
      err := OpenGap(p, was, now, e);
    }

    lemma {:induction false} RunInside(i: int, j: int, p: int, was: int)
      requires Valid() && 0 <= i <= j < |toks| && p == offStruct + Offset(toks, i)
               && was == Offset(toks, j) - Offset(toks, i)
      ensures offStruct <= p && 0 <= was && p + was <= offStruct + sizeStruct
    {
      OffsetEnd(toks, j);
      if i < j {
        OffsetMono(toks, i, j);
      }
    }

    /** Opens the gap for an edit that has not begun. */
    method OpenGap(p: int, was: int, now: int, ghost e: Edit) returns (err: int)
      requires Valid() && Ordered() && Fits(e) && p == e.p && was == e.was && now == e.now && 0 <= was && 0 <= now
      modifies buf, `sizeStruct, `offStrings
      ensures err == if now - was > old(Free()) then -NOSPACE else 0
      ensures if err == 0 then Pending(e) else Valid() && Ordered()
      ensures err != 0 ==> Ahead() == old(Ahead())
    {
      err := SpliceStruct(p, was, now);
      if err == 0 {
        MakeGap(e, buf[..]);
      }
    }

    /** The gap is filled: makes the new tree known. */
    ghost method Finish(e: Edit, us: seq<Token>)
      requires Pending(e) && e.now == Total(us) && Holds(buf[..], e.p, us)
      requires AllOk(us) && Resolved(us, TableOf(e)) && NoEnd(us) && Items(us, TableOf(e)) == e.qs
      modifies `toks, `forest
      ensures Valid() && forest == e.g && toks == e.ts[..e.i] + us + e.ts[e.j..]
      ensures Ahead() == Front(e.m, offStruct)
    {
      GapFront(e, buf[..]);
      toks := FillGap(e, buf[..], us, TableOf(e), offStrings);
      forest := e.g;
    }

    /** Removes property c of a node, which is at offset o. */
    method CutProp(o: int, ghost s: Spot, ghost c: int, ghost i: int) returns (err: int)
      requires Valid() && Ordered() && PropAt(s, c, i) && o == Offset(toks, i)
      modifies buf, `sizeStruct, `offStrings, `toks, `forest
      ensures Valid() && Ordered() && err == 0 && PropsEdited(old(forest), s, c, c + 1, [], forest)
      ensures toks == old(toks[..i] + [] + toks[i + 1..])
      ensures Ahead() == old(Ahead())
      ensures Free() == old(Free() + 12 + TagAlign(|toks[i].value|))
    {
      var len := PropLen(o, i);
      Bounds(i);
      ghost var g := PropsEdit(toks, forest, s, c, c + 1, [], i, i + 1);
      ghost var e: Edit;
      err, e := StartEdit(offStruct + o, 12 + TagAlign(len), 0, i, i + 1, Attrs([]), g);
      NothingHeld(buf[..], e.p);
      Finish(e, []);
    }

    /** Writes a property into a gap. */
    method WriteProp(p: int, nameoff: int, val: Bytes, ghost e: Edit) returns (ghost t: Token)
      requires Pending(e) && p == e.p && e.now == 12 + TagAlign(|val|)
      modifies buf
      ensures t.Prop? && t.nameoff == nameoff && t.value == val && |t.value| + |t.pad| == TagAlign(|val|)
      ensures Part(buf[..], p, Encode(t)) && Pending(e)
    {
      ghost var m := buf[..];
      var a4, a8, a12 := p + 4, p + 8, p + 12;
      GapPut(e, buf[..], p, Word(PROP));
      Memcpy(p, Word(PROP));
      GapPut(e, buf[..], a8, Word(nameoff));
      Memcpy(a8, Word(nameoff));
      GapPut(e, buf[..], a4, Word(|val|));
      Memcpy(a4, Word(|val|));
      GapPut(e, buf[..], a12, val);
      Memcpy(a12, val);
      GapRoom(e, m);
      t := Prop(nameoff, val, PadAt(buf[..], a12, |val|));
      PropPuts(m, p, nameoff, val, a4, a8, a12);
    }

    /** Fills a gap with a new property. */
    method FillNew(p: int, nameoff: int, val: Bytes, ghost name: Bytes, ghost e: Edit)
      requires Pending(e) && p == e.p && e.now == 12 + TagAlign(|val|) && |val| < HALF
      requires e.qs == Attrs([Property(name, val)]) && Named(TableOf(e), nameoff, name)
      modifies buf, `toks, `forest
      ensures Valid() && forest == e.g && old(toks[..e.i]) <= toks
      ensures Ahead() == Front(e.m, offStruct)
    {
      ghost var t := WriteProp(p, nameoff, val, e);
      OneProp(buf[..], p, t, TableOf(e), name);
      Finish(e, [t]);
    }

    /** Opens a gap after the BEGIN_NODE token k of the node at spot s and writes a property there. */
    method InsertProp(next: int, nameoff: int, name: Bytes, val: Bytes, ghost k: int, ghost s: Spot) returns (err: int)
      requires Valid() && Ordered() && Slot(toks, forest, s, 0, k + 1) && 0 <= k < |toks| - 1
               && next == Offset(toks, k + 1)
      requires Named(Strings(), nameoff, name) && |val| < HALF
      modifies buf, `sizeStruct, `offStrings, `toks, `forest
      ensures Valid() && Ordered() && err == if 12 + TagAlign(|val|) > old(Free()) then -NOSPACE else 0
      ensures if err != 0 then forest == old(forest) && toks == old(toks)
              else PropsEdited(old(forest), s, 0, 0, [Property(name, val)], forest)
      ensures err == 0 ==> Free() == old(Free()) - (12 + TagAlign(|val|))
      ensures old(toks[..k + 1]) <= toks
      ensures Ahead() == old(Ahead())
    {
      ghost var g := PropsEdit(toks, forest, s, 0, 0, [Property(name, val)], k + 1, k + 1);
      ghost var e: Edit;
      err, e := StartEdit(offStruct + next, 0, 12 + TagAlign(|val|), k + 1, k + 1, Attrs([Property(name, val)]), g);
      if err == 0 {
        FillNew(offStruct + next, nameoff, val, name, e);
      }
    }

    /** Makes room for a value in the place of the value of property token i, at address a. */
    method ResizeValue(a: int, was: int, now: int, ghost i: int, ghost qs: seq<Item>,
                       ghost g: Forest) returns (err: int, ghost e: Edit)
      requires Valid() && Ordered() && 0 <= i < |toks| - 1 && toks[i].Prop? && a == offStruct + Offset(toks, i)
      requires was == TagAlign(|toks[i].value|) && 0 <= now && Edits(toks, forest, i, i + 1, qs, g)
      modifies buf, `sizeStruct, `offStrings
      ensures e == old(Edit(buf[..], offStruct, offStrings, sizeStrings, toks, forest, i, i + 1, a, was + 12,
              now + 12, qs, g))
      ensures err == if now - was > old(Free()) then -NOSPACE else 0
      ensures if err != 0 then Valid() && Ordered()
              else && Pending(e) && Fielded(buf[..], a, toks[i].nameoff, a + 8)
                   && (|toks[i].value| <= now ==> Part(buf[..], a + 12, toks[i].value))
      ensures err != 0 ==> Ahead() == old(Ahead())
    {
      e := Edit(buf[..], offStruct, offStrings, sizeStrings, toks, forest, i, i + 1, a, was + 12, now + 12, qs, g);
      ValueStarts(i, a, was);
      err := OpenValue(a + 12, was, now, e);
    }

    lemma {:induction false} ValueStarts(i: int, a: int, was: int)
      requires Valid() && 0 <= i < |toks| - 1 && toks[i].Prop? && a == offStruct + Offset(toks, i)
               && was == TagAlign(|toks[i].value|)
      ensures offStruct <= a && a + 12 + was <= offStruct + sizeStruct
      ensures Offset(toks, i + 1) == Offset(toks, i) + 12 + was
    {
      Bounds(i);
    }

    /** Opens the gap for an edit of the value at address a12. */
    method OpenValue(a12: int, was: int, now: int, ghost e: Edit) returns (err: int)
      requires Valid() && Ordered() && Fits(e) && e.j == e.i + 1 && toks[e.i].Prop?
      requires a12 == e.p + 12 && e.was == was + 12 && e.now == now + 12
               && 0 <= was && 0 <= now
      modifies buf, `sizeStruct, `offStrings
      ensures err == if now - was > old(Free()) then -NOSPACE else 0
      ensures if err != 0 then Valid() && Ordered()
              else && Pending(e) && Fielded(buf[..], e.p, e.ts[e.i].nameoff, e.p + 8)
                   && (|e.ts[e.i].value| <= now ==> Part(buf[..], a12, e.ts[e.i].value))
      ensures err != 0 ==> Ahead() == old(Ahead())
    {
      Opened();
      err := SpliceStruct(a12, was, now);
      if err == 0 {
        Reopened(e, buf[..], e.p + 8, a12, was, now, a12 + now);
      }
    }

    /** Writes length and value of a property into the gap after its first fields. */
    method RewriteProp(a: int, val: Bytes, ghost nameoff: int, ghost e: Edit) returns (ghost t: Token)
      requires Pending(e) && a == e.p && e.now == 12 + TagAlign(|val|) && Fielded(buf[..], a, nameoff, a + 8)
      modifies buf
      ensures t.Prop? && t.nameoff == nameoff && t.value == val && |t.value| + |t.pad| == TagAlign(|val|)
      ensures Part(buf[..], a, Encode(t)) && Pending(e)
    {
      ghost var m := buf[..];
      var a4, a8, a12 := a + 4, a + 8, a + 12;
      GapPut(e, buf[..], a4, Word(|val|));
      Memcpy(a4, Word(|val|));
      GapPut(e, buf[..], a12, val);
      Memcpy(a12, val);
      GapRoom(e, m);
      t := Prop(nameoff, val, PadAt(buf[..], a12, |val|));
      PropRevalue(m, a, nameoff, val, a4, a8, a12);
    }

    /** Fills the gap after the first fields of a property. */
    method FillValue(a: int, val: Bytes, ghost nameoff: int, ghost name: Bytes, ghost e: Edit)
      requires Pending(e) && a == e.p && e.now == 12 + TagAlign(|val|) && |val| < HALF
      requires Fielded(buf[..], a, nameoff, a + 8)
      requires e.qs == Attrs([Property(name, val)]) && Named(TableOf(e), nameoff, name)
      modifies buf, `toks, `forest
      ensures Valid() && forest == e.g && old(toks[..e.i]) <= toks
      ensures Ahead() == Front(e.m, offStruct)
    {
      ghost var t := RewriteProp(a, val, nameoff, e);
      OneProp(buf[..], a, t, TableOf(e), name);
      Finish(e, [t]);
    }

    /** _fdt_resize_property and the copy that follows it: property c of a node gets a new value. */
    method ReplaceValue(o: int, val: Bytes, ghost name: Bytes, ghost s: Spot, ghost c: int,
                        ghost i: int) returns (err: int)
      requires Valid() && Ordered() && PropAt(s, c, i) && o == Offset(toks, i) && |val| < HALF
      requires Named(Strings(), toks[i].nameoff, name)
      modifies buf, `sizeStruct, `offStrings, `toks, `forest
      ensures Valid() && Ordered()
      ensures err == old(if TagAlign(|val|) - TagAlign(|toks[i].value|) > Free() then -NOSPACE else 0)
      ensures if err != 0 then forest == old(forest) && toks == old(toks)
              else PropsEdited(old(forest), s, c, c + 1, [Property(name, val)], forest)
      ensures err == 0 ==> Free() == old(Free() - (TagAlign(|val|) - TagAlign(|toks[i].value|)))
      ensures old(toks[..i]) <= toks
      ensures Ahead() == old(Ahead())
    {
      var len := PropLen(o, i);
      Bounds(i);
      ghost var g := PropsEdit(toks, forest, s, c, c + 1, [Property(name, val)], i, i + 1);
      ghost var e: Edit;
      ghost var x, qs := toks[i].nameoff, Attrs([Property(name, val)]);
      var a, was, now := offStruct + o, TagAlign(len), TagAlign(|val|);
      err, e := ResizeValue(a, was, now, i, qs, g);
      if err == 0 {
        FillValue(a, val, x, name, e);
      }
    }

    /** fdt_delprop */
    method DelProp(o: int, name: Bytes, ghost k: int) returns (err: int)
      requires Valid() && Points(o, k)
      modifies buf, `version, `sizeStruct, `offStrings, `toks, `forest
      ensures Valid()
      ensures !old(Ordered()) ==> err == -BADLAYOUT && forest == old(forest)
      ensures old(Ordered()) && !old(IsNode(k)) ==> err == -BADOFFSET && forest == old(forest)
      ensures old(Ordered() && IsNode(k)) ==>
                && old(Has(forest, Spot(k)))
                && err == old(if FindProp(Props(k), name) < |Props(k)| then 0 else -NOTFOUND)
                && (if err != 0 then forest == old(forest) else PropUnset(old(forest), old(Spot(k)), name, forest))
                && (err == 0 ==> Free() == old(Free() + 12 + TagAlign(|Props(k)[FindProp(Props(k), name)].value|)))
      ensures Ahead() == old(Ahead())
    {
      err := RwCheckHeader();
      if err != 0 {
        return;
      }
      var r := GetProperty(o, name, k);
      if r < 0 {
        if IsNode(k) {
          PropEnd(k, FindProp(Props(k), name));
        }
        return r;
      }
      ghost var c := FindProp(Props(k), name);
      PropIs(k, c);
      err := CutProp(r, Spot(k), c, PropToken(k, c));
      UnsetIsEdit(old(forest), old(Spot(k)), name, c, forest);
    }

    // ----- Strings -----

    /** _fdt_splice_string and the copy that follows it: a string is added at the end of the strings block. */
    method AddString(s: Bytes) returns (err: int)
      requires Valid() && Ordered() && 0 !in s
      modifies buf, `sizeStrings
      ensures err == if |s| + 1 > old(Free()) then -NOSPACE else 0
      ensures Valid() && Ordered() && sizeStrings == old(sizeStrings) + if err == 0 then |s| + 1 else 0
      ensures err == 0 ==> Free() == old(Free()) - (|s| + 1)
      ensures err == 0 ==> StringAt(Strings(), old(sizeStrings), s)
      ensures Strings() == if err == 0 then old(Strings()) + (s + [0]) else old(Strings())
      ensures Ahead() == old(Ahead())
    {
      var end, len, e := offStrings + sizeStrings, |s| + 1, s + [0];
      ghost var m, n, table := buf[..], sizeStrings, Strings();
      err := Splice(end, 0, len);
      if err != 0 {
        return;
      }
      MoreStrings(m, buf[..], offStruct, offStrings, n, toks, forest, end, e);
      SameFront(m, buf[..], end, offStruct);
      PutFront(buf[..], end, e, offStruct);
      sizeStrings := sizeStrings + len;
      Memcpy(end, e);
      StringLast(table, s);
    }

    ghost predicate Known(name: Bytes)
      requires Laid()
      reads this, buf
    {
      Spelled(Strings(), name)
    }

    /** _fdt_find_add_string */
    method FindAddString(s: Bytes) returns (r: int)
      requires Valid() && Ordered() && 0 !in s
      modifies buf, `sizeStrings
      ensures Valid() && Ordered()
      ensures r < 0 <==> old(!Known(s) && |s| + 1 > Free())
      ensures if r < 0 then r == -NOSPACE else StringAt(Strings(), r, s)
      ensures sizeStrings == old(sizeStrings) + if 0 <= r && !old(Known(s)) then |s| + 1 else 0
      ensures 0 <= r ==> Free() == old(Free() - (if Known(s) then 0 else |s| + 1))
      ensures 0 <= r && old(Known(s)) ==> forall o :: 0 <= o < r ==> !StringAt(Strings(), o, s)
      ensures Strings() == if 0 <= r && !old(Known(s)) then old(Strings()) + (s + [0]) else old(Strings())
      ensures Ahead() == old(Ahead())
    {
      var p := FindString(buf[offStrings..offStrings + sizeStrings], s);
      if p >= 0 {
        assert StringAt(Strings(), p, s);
        assert Known(s);
        return p;
      }
      var at := sizeStrings;
      var err := AddString(s);
      if err != 0 {
        return err;
      }
      r := at;
    }

    // ----- fdt_setprop and fdt_appendprop -----

    lemma {:induction false} FirstSlot(k: int)
      requires Valid() && IsNode(k)
      ensures Has(forest, Spot(k)) && Slot(toks, forest, Spot(k), 0, k + 1) && k < |toks| - 1
      ensures Count(toks[..k]) == |Before(forest, Spot(k))|
    {
      Opened();
      NodeHere(k);
      NodePlaceIs(toks, Strings(), forest, Spot(k));
      CountStep(toks, k);
      MakeSlot(toks, forest, Spot(k), 0, k + 1);
      assert !toks[k].End?;
    }

    /** _fdt_add_property and the copy that follows it */
    method AddProperty(o: int, name: Bytes, val: Bytes, ghost k: int) returns (err: int)
      requires Valid() && Ordered() && Points(o, k) && IsNode(k) && 0 !in name && |val| < HALF - 16
      modifies buf, `sizeStruct, `offStrings, `sizeStrings, `toks, `forest
      ensures Valid() && Ordered()
      ensures err
           == old(if 12 + TagAlign(|val|) + (if Known(name) then 0 else |name| + 1) > Free() then -NOSPACE else 0)
      ensures if err != 0 then forest == old(forest) && toks == old(toks)
              else PropsEdited(old(forest), old(Spot(k)), 0, 0, [Property(name, val)], forest)
      ensures err == 0 ==> Free() == old(Free() - (12 + TagAlign(|val|) + (if Known(name) then 0 else |name| + 1)))
      ensures old(toks[..k + 1]) <= toks
      ensures Ahead() == old(Ahead())
    {
      FirstSlot(k);
      var next := NodeBody(o, k);
      var at := FindAddString(name);
      if at < 0 {
        return at;
      }
      err := InsertProp(next, at, name, val, k, Spot(k));
    }

    method NodeBody(o: int, ghost k: int) returns (next: int)
      requires Valid() && Points(o, k)
      ensures next == if IsNode(k) then Offset(toks, k + 1) else -BADOFFSET
    {
      Opened();
      next := CheckNodeOffset(o, k);
    }

    /** What setting the property takes, beyond the space that its value has already. */
    ghost function Need(k: int, name: Bytes, n: int): int
      requires Laid() && IsNode(k) && Has(forest, Spot(k))
      reads this, buf
    {
      var c := FindProp(Props(k), name);
      if c < |Props(k)| then TagAlign(n) - TagAlign(|Props(k)[c].value|)
      else 12 + TagAlign(n) + (if Known(name) then 0 else |name| + 1)
    }

    lemma {:induction false} FoundProp(k: int, name: Bytes, c: int)
      requires Valid() && IsNode(k) && Has(forest, Spot(k)) && c == FindProp(Props(k), name) < |Props(k)|
      ensures var i := PropToken(k, c);
              && PropAt(Spot(k), c, i) && PropOffset(k, c) == Offset(toks, i) && Named(Strings(), toks[i].nameoff, name)
              && toks[i].value == Props(k)[c].value && k < i
    {
      Opened();
      PropIs(k, c);
      FirstSlot(k);
      var i := PropToken(k, c);
      assert Tabled(Strings());
      PropPlaceIs(toks, Strings(), forest, Spot(k), c);
      Bounds(i);
      assert TokenOk(toks[i]);
      if i <= k {
        CountMono(toks, i, k);
      }
    }

    /** The node that token k opens is at offset o and at spot s. */
    ghost predicate Remains(o: int, k: int, s: Spot)
      reads this
    {
      IsNode(k) && o == Offset(toks, k) && Spot(k) == s
    }

    lemma {:induction false} NodePlaced(k: int)
      requires Valid() && IsNode(k)
      ensures Has(forest, Spot(k)) && Placed(toks, forest, Spot(k), k)
    {
      FirstSlot(k);
      assert PlacedOpen(toks, forest, Spot(k), k);
    }

    /** The part of fdt_setprop after the search, which found the property at offset r or did not find it. */
    method SetFound(o: int, r: int, name: Bytes, val: Bytes, ghost k: int, ghost c: int) returns (err: int)
      requires Valid() && Ordered() && Points(o, k) && IsNode(k) && Has(forest, Spot(k)) && 0 !in name
               && |val| < HALF - 16
      requires c == FindProp(Props(k), name) && r == PropOffset(k, c)
      modifies buf, `sizeStruct, `offStrings, `sizeStrings, `toks, `forest
      ensures Valid() && Ordered() && err == old(if Need(k, name, |val|) > Free() then -NOSPACE else 0)
      ensures if err != 0 then forest == old(forest) && toks == old(toks)
              else PropSet(old(forest), old(Spot(k)), name, val, forest)
      ensures err == 0 ==> Free() == old(Free() - Need(k, name, |val|))
      ensures old(toks[..k + 1]) <= toks
      ensures Ahead() == old(Ahead())
    {
      if r >= 0 {
        FoundProp(k, name, c);
        ghost var i := PropToken(k, c);
        assert toks[..i][..k + 1] == toks[..k + 1];
        err := ReplaceValue(r, val, name, Spot(k), c, i);
      } else {
        PropEnd(k, c);
        err := AddProperty(o, name, val, k);
      }
      if err == 0 {
        SetIsEdit(old(forest), old(Spot(k)), name, val, c, forest);
      }
    }

    /** fdt_setprop */
    method SetProp(o: int, name: Bytes, val: Bytes, ghost k: int) returns (err: int)
      requires Valid() && Points(o, k) && 0 !in name && |val| < HALF - 16
      modifies buf, `version, `sizeStruct, `offStrings, `sizeStrings, `toks, `forest
      ensures Valid()
      ensures !old(Ordered()) ==> err == -BADLAYOUT && forest == old(forest)
      ensures old(Ordered()) && !old(IsNode(k)) ==> err == -BADOFFSET && forest == old(forest)
      ensures old(Ordered() && IsNode(k)) ==>
                && Ordered() && old(Has(forest, Spot(k)))
                && err == old(if Need(k, name, |val|) > Free() then -NOSPACE else 0)
                && (if err != 0 then forest == old(forest) else PropSet(old(forest), old(Spot(k)), name, val, forest))
                && Remains(o, k, old(Spot(k))) && old(toks[..k + 1]) <= toks
                && (err == 0 ==> Free() == old(Free() - Need(k, name, |val|)))
      ensures Ahead() == old(Ahead())
    {
      err := RwCheckHeader();
      if err != 0 {
        return;
      }
      var r := GetProperty(o, name, k);
      if r < 0 && r != -NOTFOUND {
        return r;
      }
      NodePlaced(k);
      ghost var s := Spot(k);
      err := SetFound(o, r, name, val, k, FindProp(Props(k), name));
      if err == 0 {
        SetStays(old(toks), toks, old(forest), s, name, val, forest, k);
      }
    }

    /** Writes the length of a property and more bytes behind its value, into the gap after its first fields. */
    method GrowProp(a: int, a12: int, len: int, more: Bytes, ghost val: Bytes, ghost all: Bytes, ghost nameoff: int,
                    ghost a8: int,
                    ghost e: Edit)
      returns (ghost t: Token)
      requires Pending(e) && a == e.p && len == |val| && all == val + more && e.now == 12 + TagAlign(|all|)
      requires Fielded(buf[..], a, nameoff, a8) && a12 == a + 12 && Part(buf[..], a12, val)
      modifies buf
      ensures t.Prop? && t.nameoff == nameoff && t.value == all && |t.value| + |t.pad| == TagAlign(|all|)
      ensures Part(buf[..], a, Encode(t)) && Pending(e)
    {
      var a4, b, n := a + 4, a12 + len, len + |more|;
      GapGrows(e, buf[..], a, nameoff, val, more, all, a4, a8, a12, b);
      Memcpy(a4, Word(n));
      Memcpy(b, more);
      t := Prop(nameoff, all, PadAt(buf[..], a12, |all|));
    }

    method FillMore(a: int, len: int, more: Bytes, ghost val: Bytes, ghost all: Bytes, ghost nameoff: int,
                    ghost name: Bytes, ghost e: Edit)
      requires Pending(e) && a == e.p && len == |val| && all == val + more && e.now == 12 + TagAlign(|all|)
               && |all| < HALF
      requires Fielded(buf[..], a, nameoff, a + 8) && Part(buf[..], a + 12, val)
      requires e.qs == Attrs([Property(name, all)]) && Named(TableOf(e), nameoff, name)
      modifies buf, `toks, `forest
      ensures Valid() && forest == e.g && old(toks[..e.i]) <= toks
      ensures Ahead() == Front(e.m, offStruct)
    {
      ghost var t := GrowProp(a, a + 12, len, more, val, all, nameoff, a + 8, e);
      OneProp(buf[..], a, t, TableOf(e), name);
      Finish(e, [t]);
    }

    /** The branch of fdt_appendprop for a property that is there. */
    method ExtendValue(o: int, more: Bytes, ghost all: Bytes, ghost name: Bytes, ghost s: Spot, ghost c: int,
                       ghost i: int) returns (err: int)
      requires Valid() && Ordered() && PropAt(s, c, i) && o == Offset(toks, i) && all == toks[i].value + more
               && |all| < HALF - 16
      requires Named(Strings(), toks[i].nameoff, name)
      modifies buf, `sizeStruct, `offStrings, `toks, `forest
      ensures Valid() && Ordered()
      ensures err == old(if TagAlign(|all|) - TagAlign(|toks[i].value|) > Free() then -NOSPACE else 0)
      ensures if err != 0 then forest == old(forest) && toks == old(toks)
              else PropsEdited(old(forest), s, c, c + 1, [Property(name, all)], forest)
      ensures err == 0 ==> Free() == old(Free() - (TagAlign(|all|) - TagAlign(|toks[i].value|)))
      ensures old(toks[..i]) <= toks
      ensures Ahead() == old(Ahead())
    {
      var len := PropLen(o, i);
      var n := len + |more|;
      ghost var g := PropsEdit(toks, forest, s, c, c + 1, [Property(name, all)], i, i + 1);
      ghost var e: Edit;
      ghost var v, x, qs := toks[i].value, toks[i].nameoff, Attrs([Property(name, all)]);
      var a, was, now := offStruct + o, TagAlign(len), TagAlign(n);
      err, e := ResizeValue(a, was, now, i, qs, g);
      if err == 0 {
        FillMore(a, len, more, v, all, x, name, e);
      }
    }

    /** The part of fdt_appendprop after the search. */
    method AppendFound(o: int, r: int, name: Bytes, more: Bytes, ghost k: int, ghost c: int) returns (err: int)
      requires Valid() && Ordered() && Points(o, k) && IsNode(k) && Has(forest, Spot(k)) && 0 !in name
      requires c == FindProp(Props(k), name) && r == PropOffset(k, c) && |Longer(Props(k), name, more)| < HALF - 16
      modifies buf, `sizeStruct, `offStrings, `sizeStrings, `toks, `forest
      ensures Valid() && Ordered()
      ensures err == old(if Need(k, name, |Longer(Props(k), name, more)|) > Free() then -NOSPACE else 0)
      ensures if err != 0 then forest == old(forest) && toks == old(toks)
              else PropSet(old(forest), old(Spot(k)), name, old(Longer(Props(k), name, more)), forest)
      ensures err == 0 ==> Free() == old(Free() - Need(k, name, |Longer(Props(k), name, more)|))
      ensures old(toks[..k + 1]) <= toks
      ensures Ahead() == old(Ahead())
    {
      ghost var val := Longer(Props(k), name, more);
      if r >= 0 {
        FoundProp(k, name, c);
        ghost var i := PropToken(k, c);
        assert toks[..i][..k + 1] == toks[..k + 1];
        err := ExtendValue(r, more, val, name, Spot(k), c, i);
      } else {
        PropEnd(k, c);
        err := AddProperty(o, name, more, k);
      }
      if err == 0 {
        SetIsEdit(old(forest), old(Spot(k)), name, val, c, forest);
      }
    }

    /** fdt_appendprop */
    method AppendProp(o: int, name: Bytes, more: Bytes, ghost k: int) returns (err: int)
      requires Valid() && Points(o, k) && 0 !in name && |more| < HALF - 16 - sizeStruct
      modifies buf, `version, `sizeStruct, `offStrings, `sizeStrings, `toks, `forest
      ensures Valid()
      ensures !old(Ordered()) ==> err == -BADLAYOUT && forest == old(forest)
      ensures old(Ordered()) && !old(IsNode(k)) ==> err == -BADOFFSET && forest == old(forest)
      ensures old(Ordered() && IsNode(k)) ==>
                && Ordered() && old(Has(forest, Spot(k)))
                && err == old(if Need(k, name, |Longer(Props(k), name, more)|) > Free() then -NOSPACE else 0)
                && (if err != 0 then forest == old(forest)
                    else PropSet(old(forest), old(Spot(k)), name, old(Longer(Props(k), name, more)), forest))
                && Remains(o, k, old(Spot(k))) && old(toks[..k + 1]) <= toks
                && (err == 0 ==> Free() == old(Free() - Need(k, name, |Longer(Props(k), name, more)|)))
      ensures Ahead() == old(Ahead())
    {
      err := RwCheckHeader();
      if err != 0 {
        return;
      }
      var r := GetProperty(o, name, k);
      if r < 0 && r != -NOTFOUND {
        return r;
      }
      NodePlaced(k);
      ghost var s, c := Spot(k), FindProp(Props(k), name);
      LongerFits(k, name, more, c);
      err := AppendFound(o, r, name, more, k, c);
      if err == 0 {
        SetStays(old(toks), toks, old(forest), s, name, old(Longer(Props(k), name, more)), forest, k);
      }
    }

    lemma {:induction false} LongerFits(k: int, name: Bytes, more: Bytes, c: int)
      requires Valid() && IsNode(k) && Has(forest, Spot(k)) && c == FindProp(Props(k), name)
      ensures |Longer(Props(k), name, more)| <= sizeStruct + |more|
    {
      if c < |Props(k)| {
        FoundProp(k, name, c);
        Bounds(PropToken(k, c));
      }
    }

    // ----- fdt_add_subnode and fdt_del_node -----

    /** The end of the properties of the node at token k. */
    method SkipProps(o: int, ghost k: int) returns (offset: int, ghost j: int)
      requires Valid() && IsNode(k) && o == Offset(toks, k)
      ensures k < j < |toks| - 1 && offset == Offset(toks, j) && Has(forest, Spot(k))
              && LastSlot(toks, forest, Spot(k), j)
    {
      Opened();
      NodeHere(k);
      PointsAt(k);
      var tag, next := NextTag(o, k);
      offset := next;
      j := k + 1;
      PointsAt(j);
      tag, next := NextTag(offset, j);
      while tag == PROP || tag == NOP
        invariant k < j < |toks| && offset == Offset(toks, j) && tag == Tag(toks[j]) && next == Offset(toks, j + 1)
        invariant forall t {:trigger toks[t]} :: k < t < j ==> toks[t].Prop? || toks[t].Nop?
        decreases |toks| - j
      {
        assert !toks[j].End?;
        offset := next;
        j := j + 1;
        PointsAt(j);
        tag, next := NextTag(offset, j);
      }
      assert toks[j].End? ==> j == |toks| - 1;
      AfterProps(toks, Strings(), forest, Spot(k), j);
      assert LastSlotOpen(toks, forest, Spot(k), j);
      assert !toks[j].End?;
    }

    /** Writes an empty node into a gap. */
    method WriteNode(p: int, name: Bytes, ghost e: Edit)
      requires Pending(e) && p == e.p && e.now == 8 + TagAlign(|name| + 1) && 0 !in name
      modifies buf
      ensures Pending(e) && Holds(buf[..], p, NodeTokens(name)) && Total(NodeTokens(name)) == e.now
              && AllOk(NodeTokens(name))
    {
      ghost var m := buf[..];
      var n, a := TagAlign(|name| + 1), p + 4;
      var b := a + n;
      GapPut(e, buf[..], p, Word(BEGIN_NODE));
      Memcpy(p, Word(BEGIN_NODE));
      GapPut(e, buf[..], a, Zeros(n));
      Memcpy(a, Zeros(n));
      GapPut(e, buf[..], a, name);
      Memcpy(a, name);
      GapPut(e, buf[..], b, Word(END_NODE));
      Memcpy(b, Word(END_NODE));
      GapRoom(e, m);
      NodePuts(m, p, name, n, a, b);
      NodeHeld(buf[..], p, name, b);
    }

    method FillNode(p: int, name: Bytes, ghost e: Edit)
      requires Pending(e) && p == e.p && e.now == 8 + TagAlign(|name| + 1) && 0 !in name && e.qs == [Open(name), Close]
      modifies buf, `toks, `forest
      ensures Valid() && forest == e.g && toks == e.ts[..e.i] + NodeTokens(name) + e.ts[e.j..]
      ensures Ahead() == Front(e.m, offStruct)
    {
      WriteNode(p, name, e);
      NodeItems(name, TableOf(e));
      Finish(e, NodeTokens(name));
    }

    /** Puts an empty node behind the properties of the node at spot s, at token j. */
    method InsertNode(o: int, name: Bytes, ghost s: Spot, ghost j: int) returns (err: int)
      requires Valid() && Ordered() && LastSlot(toks, forest, s, j) && 0 <= j < |toks| - 1 && o == Offset(toks, j)
      requires 0 !in name && |name| < HALF - 16
      modifies buf, `sizeStruct, `offStrings, `toks, `forest
      ensures Valid() && Ordered() && err == if 8 + TagAlign(|name| + 1) > old(Free()) then -NOSPACE else 0
      ensures if err != 0 then forest == old(forest) && toks == old(toks)
              else KidAdded(old(forest), s, name, forest) && toks == old(toks[..j]) + NodeTokens(name) + old(toks[j..])
      ensures err == 0 ==> Free() == old(Free()) - (8 + TagAlign(|name| + 1))
      ensures Ahead() == old(Ahead())
    {
      ghost var g := KidEdit(toks, forest, s, name, j);
      ghost var e: Edit;
      err, e := StartEdit(offStruct + o, 0, 8 + TagAlign(|name| + 1), j, j, [Open(name), Close], g);
      if err == 0 {
        FillNode(offStruct + o, name, e);
      }
    }

    /** fdt_add_subnode_namelen */
    method AddSubnode(o: int, name: Bytes, ghost k: int) returns (r: int, ghost j: int)
      requires Valid() && Points(o, k) && o != -NOTFOUND && 0 !in name && |name| < HALF - 16
      modifies buf, `version, `sizeStruct, `offStrings, `toks, `forest
      ensures Valid()
      ensures !old(Ordered()) ==> r == -BADLAYOUT && forest == old(forest)
      ensures old(Ordered()) && !old(IsNode(k)) ==> r == (if 0 <= o then -BADOFFSET else o) && forest == old(forest)
      ensures old(Ordered() && IsNode(k)) ==>
                && Ordered() && old(Has(forest, Spot(k))) && Remains(o, k, old(Spot(k)))
                && old(toks[..k + 1]) <= toks && (r >= 0 ==> Free() == old(Free()) - (8 + TagAlign(|name| + 1)))
                && (r == -EXISTS ==> Free() == old(Free())) && (r < 0 ==> r == -EXISTS || r == -NOSPACE)
                && (r == -EXISTS <==> old(FirstKid(At(forest, Spot(k)).kids, name).Some?))
                && (r == -NOSPACE <==>
                      old(FirstKid(At(forest, Spot(k)).kids, name).None? && 8 + TagAlign(|name| + 1) > Free()))
                && (if r < 0 then forest == old(forest)
                    else KidAdded(old(forest), old(Spot(k)), name, forest) && k < j && Remains(r, j,
                      Extend(old(Spot(k)), Down(Here))))
      ensures Ahead() == old(Ahead())
    {
      j := k;
      var err := RwCheckHeader();
      if err != 0 {
        return err, j;
      }
      r := SubnodeOffset(o, name, k);
      if r >= 0 {
        return -EXISTS, j;
      } else if r != -NOTFOUND {
        return;
      }
      NodePlaced(k);
      r, j := SkipProps(o, k);
      err := InsertNode(r, name, Spot(k), j);
      if err != 0 {
        return err, j;
      }
      NodeAdded(old(toks), toks, old(forest), old(Spot(k)), name, forest, k, j);
    }

    lemma {:induction false} NodeSpan(k: int)
      requires Valid() && IsNode(k)
      ensures Has(forest, Spot(k)) && k < EndOf(k) < |toks| && Span(toks, forest, Spot(k), k, EndOf(k))
      ensures Offset(toks, k) <= Offset(toks, EndOf(k)) <= sizeStruct
    {
      Opened();
      NodeHere(k);
      NodePlaceIs(toks, Strings(), forest, Spot(k));
      NodeEndIs(toks, Strings(), forest, Spot(k));
      OffsetMono(toks, k, EndOf(k));
      OffsetEnd(toks, EndOf(k));
      assert SpanOpen(toks, forest, Spot(k), k, EndOf(k));
    }

    /** fdt_del_node */
    method DelNode(o: int, ghost k: int) returns (err: int)
      requires Valid() && Points(o, k)
      modifies buf, `version, `sizeStruct, `offStrings, `toks, `forest
      ensures Valid()
      ensures !old(Ordered()) ==> err == -BADLAYOUT && forest == old(forest)
      ensures old(Ordered()) && !old(IsNode(k)) ==> err == (if 0 <= o then -BADOFFSET else o) && forest == old(forest)
      ensures old(Ordered() && IsNode(k)) ==>
                && err == 0 && NodeRemoved(old(forest), old(Spot(k)), forest)
                && old(Has(forest, Spot(k))) && 0 <= old(EndOf(k)) <= |old(toks)|
                && Free() == old(Free() + Offset(toks, EndOf(k)) - Offset(toks, k))
      ensures Ahead() == old(Ahead())
    {
      err := RwCheckHeader();
      if err != 0 {
        return;
      }
      var end := NodeEndOffset(o, k);
      if end < 0 {
        return end;
      }
      NodeSpan(k);
      ghost var j, s := EndOf(k), Spot(k);
      ghost var g := NodeEdit(toks, forest, s, k, j);
      ghost var e: Edit;
      err, e := StartEdit(offStruct + o, end - o, 0, k, j, [], g);
      NothingHeld(buf[..], e.p);
      Finish(e, []);
    }
  }
}
