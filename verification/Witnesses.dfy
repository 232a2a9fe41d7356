/** Inputs at which promises of the code fail; the exact conditions are proved with the operations concerned. */
module Witnesses {
  import opened Dlmalloc
  import PageMaps
  import TreeIndex

  const MIB: int := 0x10_0000

  /** Four gigabytes and a chunk header, in pages. */
  lemma {:induction false} FourGigabytes(base: int)
    requires base == 0x1_0000
    ensures ChunkFor(0x1_0000_0000) == 0x1_0000_0010 && SysSize(0x1_0000_0010) == 0x1_0000_1000
    ensures Ask(true, 0, base, 0, 0x1_0000_0010) == 0x1_0000_1000
  {
    assert (0x1_0000_0000 + 23) / 16 * 16 == 0x1_0000_0010;
    assert PageAlign(base) == base;
  }

  /**
   * malloc(2^32) with 50 MiB to give away: get_memory receives the low 32 bits of what is asked of it,
   * one page, and sys_alloc books four gigabytes.
   */
  method CutRequest() returns (r: Outcome)
    ensures r.Truncated?
  {
    var m := new MallocState(0x1_0000, 50 * MIB);
    FourGigabytes(0x1_0000);
    r := m.Malloc(0x1_0000_0000);
  }

  /** memalign with an alignment above 2^63 never returns: the doubling loop wraps around to zero. */
  method EndlessAlignment(bytes: int) returns (r: Outcome)
    requires 0 <= bytes < TreeIndex.W64
    ensures r.Hang?
  {
    var m := new MallocState(0x1_0000, 50 * MIB);
    var alignment;
    r, alignment := m.Memalign(TreeIndex.W64 / 2 + 1, bytes);
  }

  /** A mapped page that is neither a module's nor a stack's: the scan finds no stack, the map answers 127. */
  method StrayPage() returns (scanned: int, mapped: int)
    ensures scanned == -1 && mapped == 127
  {
    var start := 0x1000;
    var m := new PageMaps.PageMap(start, start + PageMaps.PAGE, [], []);
    m.StackAnswersExactlyWhen([], [], start);
    m.EntryOf([], [], start);
    scanned := PageMaps.PageMap.StackToLibIdOld([], start);
    mapped := m.StackToLibId(start);
  }
}
