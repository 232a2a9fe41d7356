# CubicleOS in Dafny

A Dafny model of four parts of CubicleOS and of the Unikraft libraries that it runs, with proofs of what they
promise. Each part follows the form of its source: a heap, a monitor, a region map and a device tree blob are classes
whose methods change fields and buffers step by step, and what they mean is stated on values.

- **The nginx heap** (`dlmalloc.c` over `dlmemreq.c`) as compiled there: 64 bits, 16-byte alignment, no mmap, one
  contiguous segment that only grows. `Words`, `TreeIndex`, `Layout`, `Rings`, `Tries`, `TreeLinks`, `Bins`,
  `TreeBins`, `HeapSteps`, `Shares`, `BestFit`, `Alignment`, `Dlmalloc`, `Clients`, `Witnesses`.
  Memory holds head words, feet, list and tree links where the code puts them. The invariant is the one that the
  debug checks of `dlmalloc.c:3260-3522` spell out: chunks tile the segment, boundary tags match their neighbours, no
  two free chunks touch, every free chunk is in its own bin or is the victim, bin maps mark the non-empty bins, and
  every treebin is a trie on the bits of the size.
- **libfdt** (`unikraft/lib/fdt`). `FdtFormat` (bytes and tokens, section 5.4 of the Devicetree Specification),
  `FdtTree` (trees as values), `FdtTokens`, `FdtEdits`, `FdtUnique`, `FdtBlob` (readers and `fdt_rw.c`), `FdtWip`,
  `FdtWalk`, `FdtPaths`, `FdtNames`, `FdtReserve` (the memory reservation block), `FdtWriter`, `FdtPack`, `FdtShape`,
  `FdtMerge`, `FdtUnion`, `FdtConverse`, `FdtOverlay`, `FdtPhandles`, `FdtFixups`, `FdtReferences`. `Blob.Valid()` says
  that the buffer holds, byte by byte, the tokens and strings of a tree; every operation is proved to be an operation on
  that tree, and to leave alone what lies before the structure block.
- **Word bitmaps** (`bitops.h`, `bitmap.h`, `bitcount.h`). `Scans`, `Bitcounts`, `Regions`.
- **The monitor** (`fig.py`, `loader.c`, `ipc.c`). `CallGates`, `PageMaps`, `HeapTags`.

Some predicates are closed: what they say is available to a proof only where a marker predicate such as `Opened`,
`Looked` or `Imaged` is mentioned. This keeps proofs small; it does not change what the predicates mean.

## Model

| member | source | states |
|---|---|---|
| `Words.LeastBitIsolates` | unikraft/lib/libnginx/dlmalloc.c:2971-2971 | `x & -x` is the least set bit of a non-zero word and nothing else. |
| `Words.NextMarked` | unikraft/lib/libnginx/dlmalloc.c:2959-2988 | Masking a bin map with `left_bits` and taking the index of its least bit gives the next marked bin after a given one, or zero exactly when there is none. |
| `TreeIndex.Bracket` | unikraft/lib/libnginx/dlmalloc.c:2879-2890 | Every large size below 2^40 lies between the smallest size of the bin that `compute_tree_index` puts it into and that of the next bin. |
| `TreeIndex.BracketExactlyWhen` | unikraft/lib/libnginx/dlmalloc.c:2879-2890 | Because the index is computed from a 32-bit value, that holds of a size of any magnitude if and only if the size is below 2^40 or its low 40 bits select the last bin. |
| `TreeIndex.BracketFails` | unikraft/lib/libnginx/dlmalloc.c:2879-2890 | At 2^40 the index is 0, the bin of sizes 256 to 383. |
| `TreeIndex.IndexMono` | unikraft/lib/libnginx/dlmalloc.c:2879-2890 | A larger size never goes to a lower bin. |
| `TreeIndex.KeyDistance` | unikraft/lib/libnginx/dlmalloc.c:2946-2953 | While two sizes of one bin agree on the bits that steer the descent, the difference of their shifted keys is their own difference times a power of two, so a walk that follows the bits compares sizes. |
| `Dlmalloc.MallocState.InsertSmall` | unikraft/lib/libnginx/dlmalloc.c:3611-3627 | Inserting keeps every bin in order, marks the bin, and adds exactly that chunk to the binned ones; words outside free chunks keep their contents. |
| `Dlmalloc.MallocState.UnlinkSmall` | unikraft/lib/libnginx/dlmalloc.c:3630-3653 | Unlinking takes exactly that chunk out, clears the map bit exactly when its bin becomes empty, and keeps every bin in order. |
| `Dlmalloc.MallocState.InsertLarge` | unikraft/lib/libnginx/dlmalloc.c:3689-3738 | The descent ends in a free slot or at a node of the same size; afterwards the treebins are again tries with one node per size, and their chunks are those before plus this one. |
| `Dlmalloc.MallocState.UnlinkLarge` | unikraft/lib/libnginx/dlmalloc.c:3757-3826 | Removing a chunk from a ring, promoting its ring successor, or replacing it by the rightmost leaf below it leaves tries with one node per size, and takes out exactly that chunk. |
| `Dlmalloc.MallocState.ReplaceDv` | unikraft/lib/libnginx/dlmalloc.c:3675-3683 | The remainder is the victim from then on, the old victim, if there was one, is binned, no other chunk changes, and no block notices. |
| `Dlmalloc.MallocState.TmallocLarge` | unikraft/lib/libnginx/dlmalloc.c:4475-4543 | The chunk is one of the smallest size that fits among all tree chunks, and fits more tightly than the victim; null means that every chunk that fits is matched by a victim that fits as tightly, although one or two paths are walked; a rest goes to its bin, and the victim stays. |
| `Dlmalloc.MallocState.TmallocSmall` | unikraft/lib/libnginx/dlmalloc.c:4546-4581 | The chunk is a smallest one of all treebins; a rest becomes the victim and the old victim is binned. |
| `Dlmalloc.MallocState.Morecore` | unikraft/lib/libnginx/dlmemreq.c:27-55 | The arena hands out the next bytes, as many as the low 32 bits of the argument say, or never returns, exactly when they are not left. |
| `Dlmalloc.MallocState.InitTop` | unikraft/lib/libnginx/dlmalloc.c:3937-3949 | Top is the aligned rest of what it was given, and its end is unchanged. |
| `Dlmalloc.MallocState.SysAlloc` | unikraft/lib/libnginx/dlmalloc.c:4078-4284 | New memory joins the segment and top, and the block is cut from it; which of block, null, endless loop or cut request happens is an exact condition on the request and the arena. |
| `Dlmalloc.MallocState.Malloc` | unikraft/lib/libnginx/dlmalloc.c:4585-4719 | From any valid heap: the new chunk was free, is at least the padded request and less than that plus the minimum chunk; it is the one that the placement policy prefers (exact small fit, tightest tree chunk, victim, top, new memory only when nothing fits); every other block keeps its place and bytes; the heap is valid again; where the rest goes is exact: after a small split and after a split of the victim it is the victim, otherwise it is binned or stays with top, and the victim changes in no other case (`Shares.Allots`); null changes nothing; and the outcome is the one that `Fate` tells from the state before. |
| `Dlmalloc.MallocState.Dispose` | unikraft/lib/libnginx/dlmalloc.c:4404-4470 | A chunk given back is joined with the free chunk before it and the one behind it, and the result is part of top, the victim or binned, in exactly the cases of `Shares.Rejoins`, which also tells top and the victim afterwards; no two free chunks touch, and no other block notices. |
| `Dlmalloc.MallocState.Free` | unikraft/lib/libnginx/dlmalloc.c:4723-4830 | Freeing a block removes that block and no other, and leaves the chunks, top and victim that `Shares.Rejoins` tells; freeing null changes nothing. |
| `Dlmalloc.MallocState.TryRealloc` | unikraft/lib/libnginx/dlmalloc.c:4852-4929 | Succeeds if and only if the chunk is large enough already, or is followed by top or by a free chunk that makes up the difference; the block stays where it is with its bytes, and has a size between the request and the request plus the minimum chunk; what becomes of the rest, of top and of the victim is told by `Shares.Resized`. |
| `Dlmalloc.MallocState.Realloc` | unikraft/lib/libnginx/dlmalloc.c:5226-5269 | The first bytes, up to the smaller of old payload and new size, are kept on every path, in place or moved, and every other block keeps its bytes; a failure leaves the old block; it moves only if it cannot grow in place; the chunk is at least the padded request and less than that plus the minimum chunk, and the chunks afterwards are those of resizing in place, or of an allocation followed by a release. |
| `Dlmalloc.MallocState.Memalign` | unikraft/lib/libnginx/dlmalloc.c:4931-5003 | The block is on a multiple of the least power of two that is at least 32 and the alignment asked for, is large enough, and is new; when this fails, and when it loops for ever, is exact. |
| `Dlmalloc.MallocState.Calloc` | unikraft/lib/libnginx/dlmalloc.c:4832-4845 | The bytes of the new block are zero; a product that overflows gives null. |
| `Dlmalloc.MallocState.Conservation` | unikraft/lib/libnginx/dlmalloc.c:3464-3522 | A walk from chunk to chunk meets every chunk, and the chunk sizes, top and its foot add up to the footprint less what aligning the first chunk took. |
| `Clients.Run` | unikraft/lib/libnginx/dlmalloc.c:4585-5307 | Every sequence of malloc, calloc, memalign, realloc, free and writes by a client, from an empty heap, behaves as a dictionary of independent byte strings would. It stops only at an operation that the heap before it, which agrees with the dictionary, starves or cuts by the exact condition of `ChunkFate` (or at an alignment above 2^63); a request fails exactly where that heap denies it, and otherwise does what it promises; at the end the heap is valid and holds exactly the dictionary. |
| `Clients.BlocksApart` | unikraft/lib/libnginx/dlmalloc.c:3328-3339 | In every state that agrees with such a dictionary, different blocks do not overlap and start on multiples of 16. |
| `Witnesses.CutRequest` | unikraft/lib/libnginx/dlmemreq.c:27-55 | With the arena of 50 MiB, malloc of 2^32 bytes asks for 2^32 + 4096 bytes, receives 4096, and takes a path on which segment and arena disagree. |
| `Witnesses.EndlessAlignment` | unikraft/lib/libnginx/dlmalloc.c:4931-4939 | memalign with an alignment of 2^63 + 1 never returns. |
| `Scans.FindFirst` | unikraft/include/uk/bitops.h:95-137 | A scan by words, for set or for clear bits, stops where a scan bit by bit does. |
| `Scans.FindNext` | unikraft/include/uk/bitops.h:165-243 | The same from any start, and a start at or behind the end gives the size. |
| `Scans.FindLast` | unikraft/include/uk/bitops.h:139-163 | The greatest set bit below the size, or the size if there is none. |
| `Scans.FindZeroArea` | unikraft/include/uk/bitmap.h:140-166 | Terminates with the least aligned index at or after the start whose bits are all clear and fit; a value above the size exactly when there is none. |
| `Bitcounts.Bitcount16Counts` | unikraft/include/uk/bitcount.h:41-49 | The shift-and-mask sums give the number of set bits. |
| `Bitcounts.Bitcount32Counts` | unikraft/include/uk/bitcount.h:51-60 | The same for 32 bits, where the last two sums are masked once. |
| `Bitcounts.Bitcount64Counts` | unikraft/include/uk/bitcount.h:62-76 | The same for 64 bits, carries and truncation included. |
| `Regions.Weight` | unikraft/include/uk/bitmap.h:207-224 | The sum over whole words and a masked last word is the number of set bits below the size. |
| `Regions.RegionMap.FindFreeRegion` | unikraft/include/uk/bitmap.h:177-190 | The lowest free, naturally aligned region of the order, which is added to those that are out, or an error exactly when every aligned region has a set bit; regions stay disjoint and the set bits are theirs. |
| `Regions.RegionMap.ReleaseRegion` | unikraft/include/uk/bitmap.h:201-205 | Releasing a region that is out clears exactly its bits. |
| `Regions.RegionMap.Allocation` | unikraft/include/uk/bitmap.h:207-224 | After any sequence of the two the weight is the sum of 2^order over the regions that are out. |
| `CallGates.SafeCall` | kernel/fig.py:247-325 | If friends share keys, any tree of nested cross-cubicle calls that starts with one key open runs every function with exactly the key of its own module open, has exactly the two keys of the modules concerned open during a switch, and restores the open keys. |
| `CallGates.OneKeyExactlyWhen` | kernel/fig.py:247-325 | Every such tree is safe if and only if friends share keys. |
| `CallGates.ExecRuns` | kernel/fig.py:247-325 | Told from the tree of calls alone: the modules whose code runs are, in order, the callee, then for each of its calls the run of that call followed by the callee again; a call of a stranger stands between two switches with the stranger on top of the stack, and a call of a friend runs on the same stack. |
| `CallGates.MergedKeys` | kernel/fig.py:454-493 | Giving all friends the key of one of them makes friends share keys. |
| `CallGates.Monitor.Hooked` | kernel/fig.py:247-325 | The generated gate runs what the tree of calls says, in that order, with two switches around every call of a stranger and none elsewhere, and returns with the layer, the call stack and, under shared keys, the open key that it found; while a function runs, the key of its module and no other is open; only calls to strangers take a layer. |
| `PageMaps.PageMap.MemToLib` | kernel/loader.c:437-446 | The first module that holds the address, or the number of modules if none does. |
| `PageMaps.PageMap.GetModuleId` | kernel/loader.c:691-703 | The first module of that name, or -1 if there is none. |
| `PageMaps.PageMap.StackToLibIdOld` | kernel/loader.c:486-500 | The owner of the first stack that holds the address, or -1 if none does. |
| `PageMaps.PageMap.MemAnswers` | kernel/loader.c:437-457 | For every address of the mapped area the byte map, built page by page, gives the first module that has the name of the first one that holds the address, as the scan does, and -1 exactly when no module holds it. |
| `PageMaps.PageMap.MemAnswersOwn` | kernel/loader.c:437-457 | If names differ, it gives a module exactly for the addresses of which that module is the first holder. |
| `PageMaps.PageMap.StackAnswers` | kernel/loader.c:475-499 | It gives -1 for addresses of modules, elsewhere the owner of the first stack that holds the address, and 127 if none does. |
| `PageMaps.PageMap.StackAnswersExactlyWhen` | kernel/loader.c:475-499 | It answers as the scan over stacks does if and only if the address is in a registered stack exactly when it is in no module. |
| `Witnesses.StrayPage` | kernel/loader.c:322-329 | For a page that belongs to nobody the map answers 127 and the scan -1. |
| `HeapTags.HeapMonitor.HeapAttach` | kernel/loader.c:210-229 | Attached pages get the owner and its key, other pages keep theirs, and every attached page still has an explained tag. |
| `HeapTags.HeapMonitor.HeapFault` | kernel/loader.c:815-890 | Each answer exactly when: the page is retagged to the faulting cubicle if and only if it has the same key, is the named exception, or has a cubicle and the owner a table with a window that covers the address; the monitor stops if and only if neither of the first two holds and the cubicle or the table is missing. So each attached page carries its owner's key or one that was justified at its fault. |
| `HeapTags.HeapMonitor.AddWindow` | unikraft/lib/libnginx/ipc.c:92-111 | A window takes the first free slot, or there is none. |
| `HeapTags.HeapMonitor.RemoveWindow` | unikraft/lib/libnginx/ipc.c:75-90 | The first slot that begins there is cleared, and no other. |
| `FdtUnique.OneTree` | unikraft/lib/fdt/fdt.c:94-142 | Memory that holds a tree holds no other, and in one way only: bytes determine tokens, and tokens determine the tree. |
| `FdtBlob.OffsetBounds` | unikraft/lib/fdt/fdt.c:77-92 | The unsigned comparisons of `fdt_offset_ptr`, wrap-around included, come to a plain bounds check. |
| `FdtBlob.Blob.NextTag` | unikraft/lib/fdt/fdt.c:94-142 | At the offset of a token the tag is that token's and the next offset is the next token's; outside the block it is the end with an error. |
| `FdtBlob.Blob.NextNode` | unikraft/lib/fdt/fdt.c:162-200 | From a node, or from the start of the block: stops at the next node, at the end of the node that the depth is counted from, or at the end of the block, with the depth that the tokens passed give. |
| `FdtBlob.Blob.NodeEndOffset` | unikraft/lib/fdt/fdt_wip.c:118-126 | The walk ends just behind the token that closes the node. |
| `FdtBlob.Blob.SubnodeOffset` | unikraft/lib/fdt/fdt_ro.c:158-175 | The offset of the first child, in tree order, whose name is the given one or the given one with a unit address, or "not found" exactly when there is none. |
| `FdtBlob.Blob.GetProperty` | unikraft/lib/fdt/fdt_ro.c:292-314 | The offset of the first property of that name in the tree, or "not found". |
| `FdtBlob.Blob.Splice` | unikraft/lib/fdt/fdt_rw.c:97-110 | Makes a gap of the wanted size and moves what follows unharmed, or says why not. |
| `FdtBlob.Blob.FindAddString` | unikraft/lib/fdt/fdt_rw.c:152-172 | The first offset at which the strings spell it; it is added, at the end, only if there is none; the tree and the strings before stay the same. |
| `FdtBlob.Blob.SetProp` | unikraft/lib/fdt/fdt_rw.c:272-289 | The blob holds the old tree with the property set, in its place or in front; "no space" exactly when what this takes is not free, and then the tree is the old one; the node keeps its offset, and the space that is left is told exactly. |
| `FdtBlob.Blob.AppendProp` | unikraft/lib/fdt/fdt_rw.c:291-316 | The same with the value made longer. |
| `FdtBlob.Blob.DelProp` | unikraft/lib/fdt/fdt_rw.c:318-331 | The first property of the name is gone from the tree and its bytes are free, or "not found". |
| `FdtBlob.Blob.AddSubnode` | unikraft/lib/fdt/fdt_rw.c:333-372 | "Exists" exactly when a child matches, "no space" exactly when there is no room; else the node has a new, empty first child, whose offset is returned, and keeps its own offset. |
| `FdtBlob.Blob.DelNode` | unikraft/lib/fdt/fdt_rw.c:379-391 | The node and all below it are gone, and nothing else, and the bytes of its tokens are free. |
| `FdtEdits.SetIsSeen` | unikraft/lib/fdt/fdt_rw.c:272-289 | After setting a property every lookup, at every node and name, is as before, except that this one gives the new value. |
| `FdtEdits.UnsetIsSeen` | unikraft/lib/fdt/fdt_rw.c:318-331 | After deleting one, every lookup of another name or node is as before, and the node has one property less if it had this one. |
| `FdtTree.FlattenGraft` | unikraft/lib/fdt/fdt_rw.c:125-137 | Replacing a node in the tree replaces its run of items and no others, so a splice of tokens is an edit of the tree. |
| `FdtWip.NopProperty` | unikraft/lib/fdt/fdt_wip.c:104-116 | Overwriting a property with NOP tokens gives the tree that deleting it gives. |
| `FdtWip.NopNode` | unikraft/lib/fdt/fdt_wip.c:128-139 | Overwriting a node with NOP tokens gives the tree that deleting it gives. |
| `FdtWip.NothingMoves` | unikraft/lib/fdt/fdt_wip.c:96-102 | All other tokens keep their offsets. |
| `FdtWip.RefusesExactlyWhen` | unikraft/lib/fdt/fdt_wip.c:58-76 | The guard of a partial write, a sum of 32 bits without sign, lets a write pass if and only if it lies inside the value or its end, at or above 2^32, wraps into the length of the value. |
| `FdtWip.IndexWraps` | unikraft/lib/fdt/fdt_wip.c:58-76 | Four bytes at index 2^32 - 4 pass it for every property. |
| `FdtWip.SetpropInplacePartial` | unikraft/lib/fdt/fdt_wip.c:58-76 | Writes that part of the value and nothing else, in place; "no space" exactly when the guard refuses; a write that passes and does not lie inside the value is told as such, by its exact condition. |
| `FdtWip.SetpropInplace` | unikraft/lib/fdt/fdt_wip.c:78-94 | For a value of the same length, the tree that `fdt_setprop` gives, without moving anything; another length is refused. |
| `FdtWalk.FirstSubnode` | unikraft/lib/fdt/fdt.c:202-211 | The offset of the first child of the tree node, or "not found". |
| `FdtWalk.NextSubnode` | unikraft/lib/fdt/fdt.c:213-228 | From child c, the offset of child c + 1, or "not found" after the last: the loop visits the children in order and each once. |
| `FdtWalk.GetName` | unikraft/lib/fdt/fdt_ro.c:233-251 | The name of the tree node. |
| `FdtWalk.GetpropByOffset` | unikraft/lib/fdt/fdt_ro.c:336-347 | Name and value of the property of the tree node. |
| `FdtPaths.SupernodeAtDepth` | unikraft/lib/fdt/fdt_ro.c:441-475 | The ancestor at the depth asked for, since the last node met at a depth, in token order, is the ancestor at that depth; the error for an offset that is no node's is told by whether it lies before, at or behind the end of the root. |
| `FdtPaths.NodeDepth` | unikraft/lib/fdt/fdt_ro.c:477-486 | The depth of the node in the tree, or that error. |
| `FdtPaths.ParentOffset` | unikraft/lib/fdt/fdt_ro.c:488-496 | The parent in the tree; "not found" for the root; that error if there is no node. |
| `FdtPaths.ParentOfKid` | unikraft/lib/fdt/fdt_ro.c:488-496 | The parent of a child of a node is that node. |
| `FdtPaths.PathOffset` | unikraft/lib/fdt/fdt_ro.c:183-226 | For a path that starts with a slash: the node reached by its names, one child search after the other, or "not found". |
| `FdtNames.GetPath` | unikraft/lib/fdt/fdt_ro.c:389-439 | The text of the names from the root to the node, or "no space" exactly when names and slashes do not fit, however the buffer was used for other nodes on the way; an offset that is no node's is refused. |
| `FdtNames.PathRoundTrip` | unikraft/lib/fdt/fdt_ro.c:183-226 | Taking that text apart gives the names again, and they lead back to the node if and only if each node on the way is the first of its siblings that its name finds. |
| `FdtNames.CleanExactlyWhen` | unikraft/lib/fdt/fdt_ro.c:183-226 | That holds of every node of a tree if and only if no sibling has the name of a later one, or that name with a unit address. |
| `FdtNames.PathAndBack` | unikraft/lib/fdt/fdt_ro.c:389-439 | `fdt_get_path` into a buffer and `fdt_path_offset` of what is in it give the offset again, under exactly that condition; the errors are those of `GetPath`. |
| `FdtWriter.Create` | unikraft/lib/fdt/fdt_sw.c:88-108 | Refuses exactly less than 40 bytes; what it accepts is an empty writer if and only if it has 48 bytes or more. |
| `FdtWriter.NoRoomExactlyWhen` | unikraft/lib/fdt/fdt_sw.c:73-86 | The comparison of the signed room with an unsigned size refuses if and only if the room is not negative and smaller than what is asked for. |
| `FdtWriter.GrabSpace` | unikraft/lib/fdt/fdt_sw.c:73-86 | So for any header: what it hands out ends before the strings if and only if the room is not negative. |
| `FdtWriter.ShortBuffer` | unikraft/lib/fdt/fdt_sw.c:73-108 | With a buffer of 40 to 47 bytes creation succeeds, and the first space handed out is at address 48. |
| `FdtWriter.AddReservemapEntry` | unikraft/lib/fdt/fdt_sw.c:142-168 | Only before the structure, and only if the buffer has room for it: each error exactly when; the entry is stored behind those before it, and the writer is still an empty one if and only if the entry does not reach into the strings. |
| `FdtWriter.LateEntry` | unikraft/lib/fdt/fdt_sw.c:142-255 | After a property that failed and left its name behind, an entry is accepted that overwrites the name. |
| `FdtWriter.WriteBegin` | unikraft/lib/fdt/fdt_sw.c:170-184 | The items written grow by this one, or there is exactly not enough room; the reservation block stays. |
| `FdtWriter.WriteEnd` | unikraft/lib/fdt/fdt_sw.c:186-198 | The same for the end of a node. |
| `FdtWriter.WriteProperty` | unikraft/lib/fdt/fdt_sw.c:200-255 | The same for a property, whose name is found among the strings or put before them: references count from the end of the buffer, so the earlier ones stay right. |
| `FdtWriter.Finish` | unikraft/lib/fdt/fdt_sw.c:257-300 | If the items written are those of a tree, the finished blob holds that tree, with the strings moved and every reference corrected, the same reservation block, and no space left. |
| `FdtWriter.WriteTree` | unikraft/lib/fdt/fdt_sw.c:88-300 | Round trip: any reservation entries and any tree, written call by call and finished, are the entries that are read back in order, counted up to the first one of size zero, and the tree that the blob holds and every reader sees; this succeeds if and only if the buffer has 68 bytes, 16 for each entry and what the calls take, where a name costs nothing if an earlier string ends with it. |
| `FdtPack.Pack` | unikraft/lib/fdt/fdt_rw.c:393-491 | In place: same tree, same reservation entries and as many, no block overwritten before it is moved, and a total size of exactly the parts. |
| `FdtReserve.NumMemRsv` | unikraft/lib/fdt/fdt_ro.c:125-132 | The number of entries before the first of size zero. |
| `FdtReserve.GetMemRsv` | unikraft/lib/fdt/fdt_ro.c:117-123 | The entry of that number. |
| `FdtOverlay.ApplyNode` | unikraft/lib/fdt/fdt_overlay.c:539-584 | The base holds its old tree with the target node merged with the overlay node, all else unchanged, and the target keeps its offset through every splice; the only failure is lack of space, and it cannot happen if the overlay's worst case is free. |
| `FdtUnion.MergeIsUnion` | unikraft/lib/fdt/fdt_overlay.c:539-584 | If, level by level where a base child and an overlay child meet, the name of an overlay child finds no base child or the one of exactly that name, overlay siblings differ and do not find one another, and no overlay property is set to a second value, the merged node is the right-biased union at every path of whole names: it has the paths of both, and a value is the overlay's or else the base's. |
| `FdtConverse.UnionExactlyWhen` | unikraft/lib/fdt/fdt_overlay.c:539-584 | For given node names, merging is that union whatever the properties are if and only if the names are so; otherwise there are properties and a path for which it is not. |
| `FdtUnion.PropsExactlyWhen` | unikraft/lib/fdt/fdt_overlay.c:545-560 | The properties of the merged node are the union if and only if the last overlay property of every name has the value of the first. |
| `FdtUnion.ReadersSeeUnion` | unikraft/lib/fdt/fdt_overlay.c:539-584 | A reader that asks by the library's own search sees the union too, at every path whose names find no sibling but the one of that name. |
| `FdtUnion.SetAllValue` | unikraft/lib/fdt/fdt_overlay.c:545-560 | In any case the last overlay property of a name is the one that counts. |
| `FdtUnion.AddressIsMerged` | unikraft/lib/fdt/fdt_overlay.c:562-578 | An overlay node without a unit address is merged into a base node with one, so a value changes at a path that the overlay does not have. |
| `FdtUnion.LastIsMerged` | unikraft/lib/fdt/fdt_overlay.c:545-560 | Of two overlay properties of one name a reader of the overlay sees the first, the merged node has the last. |
| `FdtPhandles.PhandleAddOffset` | unikraft/lib/fdt/fdt_overlay.c:99-122 | The number is shifted in place, or the error is the one for its size, for overflow or for the reserved value, and nothing changes. |
| `FdtPhandles.AdjustLocalPhandles` | unikraft/lib/fdt/fdt_overlay.c:139-182 | Succeeds if and only if every phandle of the overlay can be shifted, and then the tree is the old one with all of them shifted; otherwise the error is that of the first one in the order of the nodes; nothing moves. |
| `FdtPhandles.GetMaxPhandle` | unikraft/lib/fdt/fdt_ro.c:91-115 | An upper bound of all phandles but the reserved one, and zero or one of them. |
| `FdtPhandles.ShiftedApart` | unikraft/lib/fdt/fdt_overlay.c:139-182 | Shifted by the maximum of the base, a non-zero phandle of the overlay is different from every phandle of the base. |
| `FdtPhandles.CollidesExactlyWhen` | unikraft/lib/fdt/fdt_overlay.c:99-122 | Shifted by the greatest phandle of the base, the phandle of an overlay node is that of a base node if and only if the base has one and the overlay node has a phandle property whose value is zero. |
| `FdtPhandles.ShiftedSame` | unikraft/lib/fdt/fdt_overlay.c:139-182 | A reference p means a node of the overlay exactly when p plus the shift means it afterwards. |
| `FdtPhandles.ZeroCollides` | unikraft/lib/fdt/fdt_overlay.c:99-122 | A base of one node and an overlay of one node for which this happens. |
| `FdtReferences.FixCell` | unikraft/lib/fdt/fdt_overlay.c:234-262 | One entry of a fixup list: the four bytes that it names become their number plus the shift modulo 2^32, "bad overlay" exactly when the guard refuses, and a write outside of the value exactly when the guard is passed otherwise. |
| `FdtReferences.FixNode` | unikraft/lib/fdt/fdt_overlay.c:203-288 | The recursive walk over fixup nodes and tree nodes of one blob, whose edits may change the lists that it has still to read, comes to the tree and the end that `LiveNode` gives, and moves nothing. |
| `FdtFixups.NodeRun` | unikraft/lib/fdt/fdt_overlay.c:203-288 | If no listed cell lies in the fixups themselves, that tree is the old one with exactly the cells increased that the fixups list when the walk begins, in this order, up to the first entry that is refused. |
| `FdtFixups.NodeExactlyWhen` | unikraft/lib/fdt/fdt_overlay.c:203-288 | The walk comes to its end if and only if lists are of whole words, their properties and nodes exist and every cell lies inside its property; where no index is one of the last four of 32 bits, everything else is "bad overlay". |
| `FdtFixups.RunCell` | unikraft/lib/fdt/fdt_overlay.c:234-262 | A cell that is listed once, overlapping no other, ends as its old number plus the shift modulo 2^32. |
| `FdtFixups.RunByte` | unikraft/lib/fdt/fdt_overlay.c:234-262 | A byte of a value that is in no listed cell ends as it was. |
| `FdtFixups.FixupsKeptExactlyWhen` | unikraft/lib/fdt/fdt_overlay.c:139-182 | The shift of the phandles leaves the fixup lists alone if and only if none of them is for a property called like a phandle. |
| `FdtReferences.UpdateLocalReferences` | unikraft/lib/fdt/fdt_overlay.c:307-325 | All of this for the fixups at their path; without them nothing changes. |
| `FdtReferences.ApplyLocals` | unikraft/lib/fdt/fdt_overlay.c:633-648 | The first half of `fdt_overlay_apply`: with the greatest phandle of the base, phandles are shifted and listed cells increased by the same number. |
| `FdtFixups.ReferencesKept` | unikraft/lib/fdt/fdt_overlay.c:633-648 | After both, a listed cell that was p is p plus the shift, means a node of the overlay if and only if it meant that node before, and then means no node of the base. |

## Findings

Where the code does not do what one would expect, the model does what the code does, and the exact condition is proved.

- A heap request whose page-rounded size reaches 2^32 is cut to 32 bits on its way to the arena, because
  `get_memory_nginx` takes an `unsigned` (`dlmemreq.c:31`). `Witnesses.CutRequest` is malloc(2^32);
  `Dlmalloc.MallocState.SysAlloc` and `Malloc` say exactly when it happens.
- `memalign` with an alignment above 2^63 doubles a counter to zero and loops for ever (`dlmalloc.c:4935-4939`).
  `Witnesses.EndlessAlignment` is the input; `Dlmalloc.MallocState.Memalign` returns for every other alignment unless
  the arena is exhausted.
- An exhausted arena never answers: `Malloc`, `Realloc`, `Memalign` and `Calloc` hang exactly when what they ask for
  is not left (`dlmemreq.c:46-49`).
- `compute_tree_index` is right exactly for sizes below 2^40 or those whose low 40 bits select the last bin:
  `TreeIndex.BracketExactlyWhen`, with `TreeIndex.BracketFails` at 2^40.
- Exactly one key is open while cubicle code runs if and only if friends share keys: `CallGates.OneKeyExactlyWhen`.
- For a page that is in no module and no stack, `stack_to_lib_id` answers 127 where the scan finds nothing:
  `Witnesses.StrayPage`; the two agree exactly under `PageMaps.PageMap.StackAnswersExactlyWhen`.
- Merging an overlay is not always a right-biased union: `FdtUnion.AddressIsMerged` and `FdtUnion.LastIsMerged`; it is
  one exactly under `FdtConverse.UnionExactlyWhen` and `FdtUnion.PropsExactlyWhen`.
- `fdt_path_offset` of the path that `fdt_get_path` gives may be another node, exactly when a name on the path finds
  an earlier sibling: `FdtNames.PathRoundTrip`; names for which it never happens are told by
  `FdtNames.CleanExactlyWhen`.
- A phandle property of zero is shifted onto the greatest phandle of the base (`FdtPhandles.ZeroCollides`), and nothing
  else is (`FdtPhandles.CollidesExactlyWhen`).
- The guard of a partial write is passed by indices from 2^32 - 4 on, which local fixups take from the overlay:
  `FdtWip.IndexWraps`; which writes lie inside the value is exact (`FdtWip.RefusesExactlyWhen`), and so is which fixups
  are in order (`FdtFixups.NodeExactlyWhen`).
- A local fixup for a property called `phandle` is itself shifted like a phandle: `FdtFixups.FixupsKeptExactlyWhen`.
- `fdt_create` accepts buffers of 40 to 47 bytes, whose structure block would start at 48, and the room that is left,
  being negative, then never refuses: `FdtWriter.ShortBuffer`; writers are exactly those from 48 bytes on
  (`FdtWriter.Create`), and space is inside exactly when the room is not negative (`FdtWriter.GrabSpace`).
- A reservation entry may overwrite a string that a failed property left behind: `FdtWriter.LateEntry`; exactly when is
  in `FdtWriter.AddReservemapEntry`.

## Left out

- Heap: mmap, mspaces, locks, footers, trimming, `release_checks`, more than one segment, `prepend_alloc`,
  `add_segment`, footprint limits and statistics; they are not reachable as the heap is compiled for nginx, or add
  easy members.
- Heap: one memory entry per address; a head or link word is one entry, not eight bytes.
- Heap: failure of the first allocation of the arena itself, which stops the program.
- Dlmalloc.MallocState.Malloc: says nothing of the heap after a request that was cut to 32 bits, because segment and
  arena then disagree; arenas and heaps below 2^40 bytes only, the range for which tree indices are right.
- Dlmalloc.MallocState.Free: is modelled with the consolidation of `dispose_chunk`, which has the same branches in the
  same order; pointers that are not blocks, which the source detects in part and aborts on, are excluded.
- Dlmalloc.MallocState.Realloc: words that the source writes into a free neighbour just before taking it over are
  written in one step.
- Clients.Run: stops at the first operation that hangs or was cut, because after a cut segment and arena disagree.
- Scans.FindZeroArea: indices do not wrap at 32 bits; the size of a bitmap is below that.
- Bitmaps: `uk_bitmap_set` and `uk_bitmap_clear`, the built-in population count, and the bitwise operations on whole
  maps.
- Monitor: coroutine stacks and contexts, rights inside the signal handler, `should_map` for globals and stacks,
  reading the process map, and patching of tables; keys are a set of open keys and pages have tags.
- Monitor: the record and the stack that the generator makes for each hooked function, one of each: a function that is
  entered again before it returns shares them with its first call.
- Monitor: `CallGates.Monitor.Hooked` needs as many free layers as the calls to strangers nest, which the source does
  not look at.
- libfdt: header words are fields of the blob, not bytes; versions before 17, `fdt_resize`, `fdt_open_into`,
  `fdt_move`, `fdt_set_name`, editing of reservation entries, string lists, searches by value and by compatible.
- libfdt: offsets that point into the middle of a token; `Points` allows token offsets and offsets that cannot be one.
- libfdt: names and values so long that the `int` arithmetic of the source overflows (2^31 - 16 bytes and more).
- FdtBlob.Blob.AddSubnode: any offset but -1, which its search hands back and it then takes for "no such child".
- FdtBlob.Blob.DelNode: a root can be deleted like any node, which leaves a blob without one.
- FdtWip.NopNode: a root can be nopped like any node; `FdtWip` needs structure and strings blocks that do not overlap.
- FdtPaths.PathOffset: paths that start with an alias; an alias may refer to itself, and the source then never ends.
- FdtPaths.SupernodeAtDepth: trees with one root at the start of the block, as the specification demands.
- FdtNames.GetPath: names without a slash; offsets up to the end of the root node, because behind it the source takes
  away names that it never wrote.
- FdtPack.Pack: the reservation block ends before the structure block, which the source takes for granted.
- FdtOverlay.ApplyNode: the blocks of the base are in order, without which `SetProp` and `AddSubnode` refuse every
  change; the tree after a failure is valid and partly merged.
- FdtPhandles.AdjustLocalPhandles: memory holds bytes, which `ByteValues` says of the property values.
- FdtReferences.FixCell: the four bytes are read before the guard, possibly behind the buffer; that read has no effect
  where the guard refuses. A write outside of the value is told and not carried out.
- FdtReferences.ApplyLocals: what the cells come to is told for fixups that list no cell of their own and are not for
  phandle properties; for other fixups `FdtReferences.UpdateLocalReferences` tells the tree step by step.
- libfdt: `overlay_merge` with its choice of targets, fixups by symbol, and the rest of `fdt_overlay_apply`.
