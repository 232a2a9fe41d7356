/**
 * The loader's page-indexed map from addresses to modules and stacks, which stands in for
 * linear scans over their ranges.
 */
module PageMaps {

  const PAGE: int := 4096

  datatype Module = Module(name: string, start: int, size: int)
  datatype Stack = Stack(start: int, size: int, mid: int)

  predicate InRange(start: int, size: int, addr: int) {
    start <= addr < start + size
  }

  predicate Holds(m: Module, addr: int) {
    InRange(m.start, m.size, addr)
  }

  predicate StackHolds(s: Stack, addr: int) {
    InRange(s.start, s.size, addr)
  }

  /** Entry i is the first that holds the address. */
  predicate FirstHolder(pmap: seq<Module>, addr: int, i: int) {
    0 <= i < |pmap| && Holds(pmap[i], addr) && forall k :: 0 <= k < i ==> !Holds(pmap[k], addr)
  }

  /** Stack i is the first that holds the address. */
  predicate FirstStack(stacks: seq<Stack>, addr: int, i: int) {
    0 <= i < |stacks| && StackHolds(stacks[i], addr) && forall k :: 0 <= k < i ==> !StackHolds(stacks[k], addr)
  }

  /** Entry j is the first of that name. */
  predicate LeastNamed(pmap: seq<Module>, name: string, j: int) {
    0 <= j < |pmap| && pmap[j].name == name && forall k :: 0 <= k < j ==> pmap[k].name != name
  }

  /** mem_to_lib and get_module_id: the first module that has the name of the first range hit. */
  ghost function ModuleByScan(pmap: seq<Module>, addr: int): (id: int)
    ensures -1 <= id < |pmap|
  {
    var i := FirstHit(pmap, addr, 0);
    if i == |pmap| then -1 else FirstNamed(pmap, pmap[i].name, 0)
  }

  ghost function FirstHit(pmap: seq<Module>, addr: int, i: nat): (r: nat)
    requires i <= |pmap|
    ensures i <= r <= |pmap| && (r < |pmap| ==> Holds(pmap[r], addr))
    ensures forall k :: i <= k < r ==> !Holds(pmap[k], addr)
    decreases |pmap| - i
  {
    if i == |pmap| || Holds(pmap[i], addr) then i else FirstHit(pmap, addr, i + 1)
  }

  ghost function FirstNamed(pmap: seq<Module>, name: string, i: nat): (r: int)
    requires i <= |pmap|
    ensures r == -1 || (i <= r < |pmap| && pmap[r].name == name)
    ensures forall k :: i <= k < (if r == -1 then |pmap| else r) ==> pmap[k].name != name
    decreases |pmap| - i
  {
    if i == |pmap| then -1 else if pmap[i].name == name then i else FirstNamed(pmap, name, i + 1)
  }

  /** stack_to_lib_id_old: the owner of the first stack hit. */
  ghost function StackByScan(stacks: seq<Stack>, addr: int, i: nat): int
    requires i <= |stacks|
    decreases |stacks| - i
  {
    if i == |stacks| then -1
    else if StackHolds(stacks[i], addr) then stacks[i].mid
    else StackByScan(stacks, addr, i + 1)
  }

  /** The scan over the modules finds the first one of the name of the first one that holds the address. */
  lemma {:induction false} ModulesFound(pmap: seq<Module>, addr: int)
    ensures forall i :: FirstHolder(pmap, addr, i) ==> LeastNamed(pmap, pmap[i].name, ModuleByScan(pmap, addr))
    ensures ModuleByScan(pmap, addr) == -1 <==> forall i :: 0 <= i < |pmap| ==> !Holds(pmap[i], addr)
  {
    var h := FirstHit(pmap, addr, 0);
    if h < |pmap| {
      assert Holds(pmap[h], addr);
    }
  }

  lemma {:induction false} OwnName(pmap: seq<Module>, addr: int, i: int)
    requires forall j, k :: 0 <= j < k < |pmap| ==> pmap[j].name != pmap[k].name
    ensures FirstHolder(pmap, addr, i) <==> ModuleByScan(pmap, addr) == i && 0 <= i
  {
    var h := FirstHit(pmap, addr, 0);
    if h < |pmap| {
      assert FirstHolder(pmap, addr, h);
      assert FirstNamed(pmap, pmap[h].name, 0) == h;
    }
  }

  /** The scan over the stacks finds the first one that holds the address. */
  lemma {:induction false} ScanFinds(stacks: seq<Stack>, addr: int, i: nat)
    requires i <= |stacks| && forall k :: 0 <= k < i ==> !StackHolds(stacks[k], addr)
    ensures forall j :: FirstStack(stacks, addr, j) ==> StackByScan(stacks, addr, i) == stacks[j].mid
    ensures (forall j :: 0 <= j < |stacks| ==> !StackHolds(stacks[j], addr)) ==> StackByScan(stacks, addr, i) == -1
    decreases |stacks| - i
  {
    if i < |stacks| && !StackHolds(stacks[i], addr) {
      ScanFinds(stacks, addr, i + 1);
    }
  }

  /** A multiple of the page size away from the start of the mapped area. */
  predicate OnPage(origin: int, x: int) {
    (x - origin) % PAGE == 0
  }

  /** Ranges begin and end on page boundaries, and identifiers fit seven bits. */
  ghost predicate Tidy(origin: int, pmap: seq<Module>, stacks: seq<Stack>) {
    && |pmap| <= 128
    && (forall i :: 0 <= i < |pmap| ==> OnPage(origin, pmap[i].start) && OnPage(origin, pmap[i].start + pmap[i].size))
    && (forall i :: 0 <= i < |stacks| ==>
          OnPage(origin, stacks[i].start) && OnPage(origin, stacks[i].start + stacks[i].size)
            && 0 <= stacks[i].mid < 128)
  }

  /** The start of the page that holds addr. */
  function PageOf(origin: int, addr: int): int {
    origin + (addr - origin) / PAGE * PAGE
  }

  lemma {:induction false} PageNumber(origin: int, k: int)
    ensures (origin + k * PAGE - origin) / PAGE == k
  {
  }

  /** A range of whole pages holds an address exactly if it holds the start of its page. */
  lemma {:induction false} WholePages(origin: int, start: int, size: int, addr: int)
    requires OnPage(origin, start) && OnPage(origin, start + size) && origin <= addr
    ensures InRange(start, size, addr) <==> InRange(start, size, PageOf(origin, addr))
  {
  }

  lemma {:induction false} HitOfPage(origin: int, pmap: seq<Module>, stacks: seq<Stack>, addr: int, i: nat)
    requires Tidy(origin, pmap, stacks) && origin <= addr && i <= |pmap|
    ensures FirstHit(pmap, addr, i) == FirstHit(pmap, PageOf(origin, addr), i)
    decreases |pmap| - i
  {
    if i < |pmap| {
      WholePages(origin, pmap[i].start, pmap[i].size, addr);
      HitOfPage(origin, pmap, stacks, addr, i + 1);
    }
  }

  lemma {:induction false} StackOfPage(origin: int, pmap: seq<Module>, stacks: seq<Stack>, addr: int, i: nat)
    requires Tidy(origin, pmap, stacks) && origin <= addr && i <= |stacks|
    ensures StackByScan(stacks, addr, i) == StackByScan(stacks, PageOf(origin, addr), i)
    ensures -1 <= StackByScan(stacks, addr, i) < 128
    decreases |stacks| - i
  {
    if i < |stacks| {
      WholePages(origin, stacks[i].start, stacks[i].size, addr);
      StackOfPage(origin, pmap, stacks, addr, i + 1);
    }
  }

  /** The conversion to a signed char. */
  function AsChar(x: int): (c: int)
    ensures -128 <= c < 128
  {
    (x + 128) % 256 - 128
  }

  /** x | (1 << 7) for x from -1 to 127. */
  function OrBit7(x: int): int
    requires -1 <= x < 128
  {
    if x == -1 then -1 else x + 128
  }

  lemma {:induction false} Bit7Reads(m: int)
    requires -1 <= m < 128
    ensures AsChar(OrBit7(m)) < 0 && AsChar(OrBit7(m)) % 128 == (if m == -1 then 127 else m)
  {
  }

  /** The entry for a page: a module, or else a stack's owner with bit 7 set. */
  ghost function Entry(pmap: seq<Module>, stacks: seq<Stack>, page: int): int {
    var id := ModuleByScan(pmap, page);
    if id != -1 then AsChar(id)
    else var m := StackByScan(stacks, page, 0); if -1 <= m < 128 then AsChar(OrBit7(m)) else 0
  }

  /** What an entry says when it is read back. */
  lemma {:induction false} EntryReads(pmap: seq<Module>, stacks: seq<Stack>, page: int, id: int, m: int)
    requires |pmap| <= 128 && id == ModuleByScan(pmap, page) && m == StackByScan(stacks, page, 0) && -1 <= m < 128
    ensures id != -1 ==> Entry(pmap, stacks, page) == id
    ensures id == -1 ==> Entry(pmap, stacks, page) < 0
    ensures id == -1 ==> Entry(pmap, stacks, page) % 128 == if m == -1 then 127 else m
  {
    Bit7Reads(m);
  }

  class PageMap {
    var start: int
    var end: int
    var cfg: seq<int>

    ghost predicate Built(pmap: seq<Module>, stacks: seq<Stack>)
      reads this
    {
      && Tidy(start, pmap, stacks) && start <= end && OnPage(start, end) && |cfg| == (end - start) / PAGE
      && forall k :: 0 <= k < |cfg| ==> cfg[k] == Entry(pmap, stacks, start + k * PAGE)
    }

    /** mem_to_lib */
    static method MemToLib(pmap: seq<Module>, addr: int) returns (i: int)
      ensures i == FirstHit(pmap, addr, 0)
      ensures FirstHolder(pmap, addr, i) || (i == |pmap| && forall k :: 0 <= k < i ==> !Holds(pmap[k], addr))
    {
      i := 0;
      while i < |pmap|
        invariant 0 <= i <= |pmap| && FirstHit(pmap, addr, 0) == FirstHit(pmap, addr, i)
      {
        if Holds(pmap[i], addr) {
          return;
        }
        i := i + 1;
      }
    }

    /** get_module_id */
    static method GetModuleId(pmap: seq<Module>, name: string) returns (id: int)
      ensures id == FirstNamed(pmap, name, 0)
      ensures LeastNamed(pmap, name, id) || (id == -1 && forall k :: 0 <= k < |pmap| ==> pmap[k].name != name)
    {
      for i := 0 to |pmap|
        invariant FirstNamed(pmap, name, 0) == FirstNamed(pmap, name, i)
      {
        if pmap[i].name == name {
          return i;
        }
      }
      id := -1;
    }

    /** stack_to_lib_id_old */
    static method StackToLibIdOld(stacks: seq<Stack>, addr: int) returns (mid: int)
      ensures mid == StackByScan(stacks, addr, 0)
      ensures forall i :: FirstStack(stacks, addr, i) ==> mid == stacks[i].mid
      ensures (forall i :: 0 <= i < |stacks| ==> !StackHolds(stacks[i], addr)) ==> mid == -1
    {
      ScanFinds(stacks, addr, 0);
      for i := 0 to |stacks|
        invariant StackByScan(stacks, addr, 0) == StackByScan(stacks, addr, i)
      {
        if StackHolds(stacks[i], addr) {
          return stacks[i].mid;
        }
      }
      mid := -1;
    }

    /** What gen_memory_map stores for the page at addr. */
    static method PageEntry(ghost origin: int, pmap: seq<Module>, stacks: seq<Stack>, addr: int) returns (entry: int)
      requires Tidy(origin, pmap, stacks) && origin <= addr
      ensures entry == Entry(pmap, stacks, addr)
    {
      var hit := MemToLib(pmap, addr);
      var id := -1;
      if hit < |pmap| {
        id := GetModuleId(pmap, pmap[hit].name);
      }
      if id == -1 {
        var m := StackToLibIdOld(stacks, addr);
        StackOfPage(origin, pmap, stacks, addr, 0);
        id := OrBit7(m);
      }
      entry := AsChar(id);
    }

    /** The page loop of gen_memory_map. */
    constructor (mmapStart: int, mmapEnd: int, pmap: seq<Module>, stacks: seq<Stack>)
      requires Tidy(mmapStart, pmap, stacks) && mmapStart <= mmapEnd && OnPage(mmapStart, mmapEnd)
      ensures Built(pmap, stacks) && start == mmapStart && end == mmapEnd
    {
      start, end := mmapStart, mmapEnd;
      var n := (mmapEnd - mmapStart) / PAGE;
      cfg := seq(n, i => -1);
      new;
      var i := start;
      ghost var k := 0;
      while i < end
        invariant start == mmapStart && end == mmapEnd && |cfg| == n && 0 <= k <= n && i == start + k * PAGE
        invariant forall j :: 0 <= j < k ==> cfg[j] == Entry(pmap, stacks, start + j * PAGE)
        decreases end - i
      {
        var entry := PageEntry(start, pmap, stacks, i);
        PageNumber(start, k);
        cfg := cfg[(i - start) / PAGE := entry];
        i := i + PAGE;
        k := k + 1;
      }
    }

    /** mem_to_lib_id */
    function MemToLibId(addr: int): (id: int)
      requires |cfg| == (end - start) / PAGE && OnPage(start, end)
      reads this
      ensures id == -1 || (0 <= id && start <= addr < end)
    {
      if !(start <= addr < end) then -1
      else var mid := cfg[(addr - start) / PAGE]; if mid < 0 then -1 else mid
    }

    /** stack_to_lib_id */
    function StackToLibId(addr: int): (id: int)
      requires |cfg| == (end - start) / PAGE && OnPage(start, end)
      reads this
      ensures id == -1 || (0 <= id && start <= addr < end)
    {
      if !(start <= addr < end) then -1
      else var mid := cfg[(addr - start) / PAGE]; if mid < 0 then mid % 128 else -1
    }

    /** What the map answers, in terms of the scans. */
    lemma {:induction false} Lookup(pmap: seq<Module>, stacks: seq<Stack>, addr: int)
      requires Built(pmap, stacks) && start <= addr < end
      ensures MemToLibId(addr) == ModuleByScan(pmap, addr) && -1 <= StackByScan(stacks, addr, 0)
      ensures StackToLibId(addr) ==
              var m := StackByScan(stacks, addr, 0);
              if ModuleByScan(pmap, addr) != -1 then -1 else if m == -1 then 127 else m
    {
      EntryOf(pmap, stacks, addr);
      HitOfPage(start, pmap, stacks, addr, 0);
      StackOfPage(start, pmap, stacks, addr, 0);
      var page := PageOf(start, addr);
      var id, m := ModuleByScan(pmap, page), StackByScan(stacks, page, 0);
      EntryReads(pmap, stacks, page, id, m);
    }

    /**
     * The map answers for modules exactly as the scan does: with the first module that has
     * the name of the first one that holds the address, or with -1 if none holds it.
     */
    lemma {:induction false} MemAnswers(pmap: seq<Module>, stacks: seq<Stack>, addr: int)
      requires Built(pmap, stacks) && start <= addr < end
      ensures MemToLibId(addr) == ModuleByScan(pmap, addr)
      ensures forall i :: FirstHolder(pmap, addr, i) ==> LeastNamed(pmap, pmap[i].name, MemToLibId(addr))
      ensures MemToLibId(addr) == -1 <==> forall i :: 0 <= i < |pmap| ==> !Holds(pmap[i], addr)
    {
      ModulesFound(pmap, addr);
      Lookup(pmap, stacks, addr);
    }

    /** Modules with names of their own are each answered for at all addresses that no earlier one holds. */
    lemma {:induction false} MemAnswersOwn(pmap: seq<Module>, stacks: seq<Stack>, addr: int, i: int)
      requires Built(pmap, stacks) && start <= addr < end
      requires forall j, k :: 0 <= j < k < |pmap| ==> pmap[j].name != pmap[k].name
      ensures FirstHolder(pmap, addr, i) <==> MemToLibId(addr) == i && 0 <= i
    {
      MemAnswers(pmap, stacks, addr);
      OwnName(pmap, addr, i);
    }

    /**
     * Addresses of a module have no stack for the map; elsewhere it answers with the owner
     * of the first stack that holds the address, and with 127 if none does.
     */
    lemma {:induction false} StackAnswers(pmap: seq<Module>, stacks: seq<Stack>, addr: int)
      requires Built(pmap, stacks) && start <= addr < end
      ensures (exists i :: 0 <= i < |pmap| && Holds(pmap[i], addr)) ==> StackToLibId(addr) == -1
      ensures (forall i :: 0 <= i < |pmap| ==> !Holds(pmap[i], addr)) ==>
                && (forall i :: FirstStack(stacks, addr, i) ==> StackToLibId(addr) == stacks[i].mid)
                && ((forall i :: 0 <= i < |stacks| ==> !StackHolds(stacks[i], addr)) ==> StackToLibId(addr) == 127)
    {
      MemAnswers(pmap, stacks, addr);
      ScanFinds(stacks, addr, 0);
      Lookup(pmap, stacks, addr);
    }

    /**
     * The map answers for stacks as the scan does exactly on the pages that a module or a
     * stack holds, but not both: a page of neither is answered with 127 instead of -1.
     */
    lemma {:induction false} StackAnswersExactlyWhen(pmap: seq<Module>, stacks: seq<Stack>, addr: int)
      requires Built(pmap, stacks) && start <= addr < end
      ensures (StackToLibId(addr) == StackByScan(stacks, addr, 0)) <==>
              (ModuleByScan(pmap, addr) == -1 <==> StackByScan(stacks, addr, 0) != -1)
    {
      Lookup(pmap, stacks, addr);
      var id, m, r := ModuleByScan(pmap, addr), StackByScan(stacks, addr, 0), StackToLibId(addr);
      assert r == m <==> (id == -1 <==> m != -1);
    }

    lemma {:induction false} EntryOf(pmap: seq<Module>, stacks: seq<Stack>, addr: int)
      requires Built(pmap, stacks) && start <= addr < end
      ensures 0 <= (addr - start) / PAGE < |cfg|
              && cfg[(addr - start) / PAGE] == Entry(pmap, stacks, PageOf(start, addr))
    {
    }
  }
}
