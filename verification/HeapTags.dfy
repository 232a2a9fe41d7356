/**
 * Protection keys on heap pages.  A page gets its owner's key when it is attached; a fault
 * by another cubicle moves it to that cubicle's key if the monitor finds a reason to.
 */
module HeapTags {

  const PAGE: int := 4096

  /** An entry of a cubicle's table of heap windows; mask holds the cubicles that may use it. */
  datatype Window = Window(begin: int, size: int, mask: set<int>)

  /** What the monitor knows about cubicles; the two ids are those of the application and the platform. */
  datatype Cubicles = Cubicles(pkey: seq<int>, must: seq<bool>, app: int, platform: int)

  datatype Verdict = Map | Refuse | Stop

  /** A window lets caller use addr: within its size, or within a page from its start. */
  ghost predicate Opens(w: Window, caller: int, addr: int) {
    caller in w.mask && w.begin <= addr && (addr < w.begin + w.size || addr < w.begin + PAGE)
  }

  /** The caller has a page of callee's without being asked: same key, or the exception made for the platform. */
  predicate Trusted(c: Cubicles, caller: int, callee: int)
    requires 0 <= caller < |c.pkey| && 0 <= callee < |c.pkey|
  {
    c.pkey[callee] == c.pkey[caller] || (callee == c.app && caller == c.platform)
  }

  /** A window of the table lets caller use addr. */
  ghost predicate Windowed(windows: seq<Window>, caller: int, addr: int) {
    exists i :: 0 <= i < |windows| && Opens(windows[i], caller, addr)
  }

  /** Why caller may have a page of callee's: it is trusted, or there is a window of callee's. */
  ghost predicate Reason(c: Cubicles, caller: int, callee: int, addr: int, windows: seq<Window>)
    requires 0 <= caller < |c.pkey| && 0 <= callee < |c.pkey|
  {
    Trusted(c, caller, callee) || Windowed(windows, caller, addr)
  }

  /** should_map_heap; the source stops for a caller without a cubicle and for an owner without a table. */
  method ShouldMapHeap(c: Cubicles, caller: int, callee: int, addr: int, windows: seq<Window>,
                       hasTable: bool) returns (v: Verdict)
    requires 0 <= caller < |c.pkey| == |c.must| && 0 <= callee < |c.pkey|
    ensures v == Stop <==> !Trusted(c, caller, callee) && (!c.must[caller] || !hasTable)
    ensures v == Map <==>
            Trusted(c, caller, callee) || (c.must[caller] && hasTable && Windowed(windows, caller, addr))
  {
    if callee == caller || c.pkey[callee] == c.pkey[caller] {
      return Map;
    }
    if callee == c.app && caller == c.platform {
      return Map;
    }
    if !c.must[caller] || !hasTable {
      return Stop;
    }
    for i := 0 to |windows|
      invariant forall j :: 0 <= j < i ==> !Opens(windows[j], caller, addr)
    {
      var w := windows[i];
      if caller in w.mask {
        if w.begin <= addr < w.begin + w.size || w.begin <= addr < w.begin + PAGE {
          assert Opens(windows[i], caller, addr);
          return Map;
        }
      }
    }
    v := Refuse;
  }

  /** Entries first..first + n of s replaced by x. */
  function Filled<T>(s: seq<T>, first: int, n: int, x: T): (r: seq<T>)
    requires 0 <= first && 0 <= n && first + n <= |s|
    ensures |r| == |s| && forall p :: 0 <= p < |s| ==> r[p] == if first <= p < first + n then x else s[p]
  {
    s[..first] + seq(n, i => x) + s[first + n..]
  }

  /** The first entry of a table that is free, or its length. */
  ghost function FreeSlot(ws: seq<Window>): (i: nat)
    ensures i <= |ws| && (i < |ws| ==> ws[i].size == 0) && forall j :: 0 <= j < i ==> ws[j].size != 0
  {
    if ws == [] || ws[0].size == 0 then 0 else 1 + FreeSlot(ws[1..])
  }

  /** The first entry that begins at begin, or the table's length. */
  ghost function SlotAt(ws: seq<Window>, begin: int): (i: nat)
    ensures i <= |ws| && (i < |ws| ==> ws[i].begin == begin) && forall j :: 0 <= j < i ==> ws[j].begin != begin
  {
    if ws == [] || ws[0].begin == begin then 0 else 1 + SlotAt(ws[1..], begin)
  }

  /**
   * How a page came by its key: from its owner, or through a fault of caller at addr, with the owner's windows then.
   */
  datatype Origin =
    | Attached
    | Faulted(caller: int, addr: int, windows: seq<Window>)

  class HeapMonitor {
    const cubicles: Cubicles
    const heapStart: int
    const pages: nat

    /** heap_cfg: the owner of each page. */
    var owner: seq<int>
    /** The protection key on each page. */
    var tag: seq<int>
    /** Each cubicle's windows and whether it has registered a table of them. */
    var windows: seq<seq<Window>>
    var hasTable: seq<bool>

    /** Which pages have been attached so far, and how each came by its key. */
    ghost var attached: seq<bool>
    ghost var origin: seq<Origin>

    /** The key on page p is its owner's, or is explained by the fault that put it there. */
    ghost predicate Explained(p: int)
      requires |origin| == |owner| == |tag| == pages && 0 <= p < pages
      reads this
    {
      && 0 <= owner[p] < |cubicles.pkey|
      && match origin[p]
         case Attached => tag[p] == cubicles.pkey[owner[p]]
         case Faulted(caller, addr, ws) =>
           && 0 <= caller < |cubicles.pkey| && tag[p] == cubicles.pkey[caller]
           && heapStart + p * PAGE <= addr < heapStart + (p + 1) * PAGE
           && Reason(cubicles, caller, owner[p], addr, ws)
    }

    ghost predicate Valid()
      reads this
    {
      && |cubicles.must| == |cubicles.pkey| == |windows| == |hasTable|
      && |owner| == |tag| == |origin| == |attached| == pages
      && (forall p :: 0 <= p < pages && attached[p] ==> Explained(p))
    }

    constructor (c: Cubicles, start: int, n: nat)
      requires |c.must| == |c.pkey|
      ensures Valid() && true !in attached && cubicles == c && heapStart == start && pages == n
    {
      cubicles, heapStart, pages := c, start, n;
      owner, tag := seq(n, i => 0), seq(n, i => 0);
      windows, hasTable := seq(|c.pkey|, i => []), seq(|c.pkey|, i => false);
      attached, origin := seq(n, i => false), seq(n, i => Attached);
    }

    /** add_ipc_tab_heap: a cubicle registers its table of n windows, none of them in use. */
    method RegisterTable(mid: int, n: nat)
      requires Valid() && 0 <= mid < |windows|
      modifies this`windows, this`hasTable
      ensures Valid() && hasTable == old(hasTable)[mid := true]
      ensures windows == old(windows)[mid := seq(n, i => Window(0, 0, {}))]
    {
      windows, hasTable := windows[mid := seq(n, i => Window(0, 0, {}))], hasTable[mid := true];
    }

    /** heap_attach of whole pages inside the heap. */
    method HeapAttach(mid: int, start: int, size: nat)
      requires Valid() && 0 <= mid < |cubicles.pkey| && size % PAGE == 0
      requires size != 0 ==>
                 heapStart <= start && (start - heapStart) % PAGE == 0 && start + size <= heapStart + pages * PAGE
      modifies this`owner, this`tag, this`attached, this`origin
      ensures Valid()
      ensures size == 0 ==> attached == old(attached) && owner == old(owner) && tag == old(tag)
      ensures size != 0 ==>
                var first, n := (start - heapStart) / PAGE, size / PAGE;
                && 0 <= first && first + n <= pages && attached == Filled(old(attached), first, n, true)
                && owner == Filled(old(owner), first, n, mid) && tag == Filled(old(tag), first, n, cubicles.pkey[mid])
    {
      if size == 0 {
        return;
      }
      var idx, n := (start - heapStart) / PAGE, size / PAGE;
      assert idx + n <= pages;
      for i := 0 to n
        invariant |owner| == pages && tag == old(tag) && origin == old(origin) && attached == old(attached)
        invariant forall p :: idx <= p < idx + i ==> owner[p] == mid
        invariant forall p :: 0 <= p < pages && !(idx <= p < idx + i) ==> owner[p] == old(owner)[p]
      {
        owner := owner[idx + i := mid];
      }
      tag := Filled(tag, idx, n, cubicles.pkey[mid]);
      origin := Filled(origin, idx, n, Attached);
      attached := Filled(attached, idx, n, true);
      forall p | 0 <= p < pages && attached[p]
        ensures Explained(p)
      {
        if !(idx <= p < idx + n) {
          assert old(Explained(p));
        }
      }
    }

    /** The handler's part for a fault of caller on a heap page; anything but success stops the program. */
    method HeapFault(caller: int, addr: int) returns (v: Verdict)
      requires Valid() && 0 <= caller < |cubicles.pkey| && heapStart <= addr < heapStart + pages * PAGE
      requires 0 <= owner[(addr - heapStart) / PAGE] < |cubicles.pkey|
      modifies this`tag, this`origin
      ensures Valid()
      ensures var p := (addr - heapStart) / PAGE;
              var trusted, may := Trusted(cubicles, caller, owner[p]), cubicles.must[caller] && hasTable[owner[p]];
              && (v == Stop <==> !trusted && !may)
              && (v == Map <==> trusted || (may && Windowed(windows[owner[p]], caller, addr)))
              && tag == if v == Map then old(tag)[p := cubicles.pkey[caller]] else old(tag)
    {
      var p := (addr - heapStart) / PAGE;
      var callee := owner[p];
      v := ShouldMapHeap(cubicles, caller, callee, addr, windows[callee], hasTable[callee]);
      if v == Map {
        tag := tag[p := cubicles.pkey[caller]];
        origin := origin[p := Faulted(caller, addr, windows[callee])];
        forall q | 0 <= q < pages && attached[q]
          ensures Explained(q)
        {
          assert old(Explained(q));
        }
      }
    }

    /** The owner's add_heap: take the first free slot; the source stops if there is none. */
    method AddWindow(mid: int, begin: int, size: int, mask: set<int>) returns (ok: bool)
      requires Valid() && 0 <= mid < |windows|
      modifies this`windows
      ensures Valid()
      ensures var ws := old(windows)[mid];
              && (ok <==> FreeSlot(ws) < |ws|)
              && windows
              == if ok then old(windows)[mid := ws[FreeSlot(ws) := Window(begin, size, mask)]] else old(windows)
    {
      var ws := windows[mid];
      for i := 0 to |ws|
        invariant windows == old(windows) && forall j :: 0 <= j < i ==> ws[j].size != 0
      {
        if ws[i].size == 0 {
          windows := windows[mid := ws[i := Window(begin, size, mask)]];
          return true;
        }
      }
      ok := false;
    }

    /** The owner's remove_heap: clear the first slot that begins at begin. */
    method RemoveWindow(mid: int, begin: int)
      requires Valid() && 0 <= mid < |windows|
      modifies this`windows
      ensures Valid()
      ensures var ws := old(windows)[mid];
              windows == if SlotAt(ws, begin) < |ws| then old(windows)[mid := ws[SlotAt(ws, begin) := Window(0, 0, {})]]
                         else old(windows)
    {
      var ws := windows[mid];
      for i := 0 to |ws|
        invariant windows == old(windows) && forall j :: 0 <= j < i ==> ws[j].begin != begin
      {
        if ws[i].begin == begin {
          windows := windows[mid := ws[i := Window(0, 0, {})]];
          return;
        }
      }
    }
  }
}
