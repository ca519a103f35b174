# A verified model of the game server's and client's algorithmic core

This project models, in Dafny, the parts of the repository that are hard to get right, and
proves what they are for. The repository's server embeds LuaJIT 2.0.5; its client talks
JSON and framed packets.

- **Memory allocator** (`Words`, `Trie`, `TreeIndex`, `Links`, `TreeRep`, `TreeCut`, `BestFit`,
  `Bins`, `BoundaryTags`, `HeapWorld`, `HeapEdge`, `HeapSegments`, `HeapSteps`, `Mmap`,
  `HeapCalls`, `SegmentCalls`, `Alloc`). Class `BinTable` holds the small bins (circular lists)
  and tree bins (bitwise tries with same-size rings) as pointer fields of chunks; class
  `MState` the chunk headers, feet, victim, top, segments and the operations on them.
  `MState.Valid` is the whole heap invariant.
- **DynASM's x86 encoder** (`DynAsm`, `DynLink`, `DynEncode`, `DynBytes`, `DynCode`, `Dasm`). Class `DasmState` runs
  the three passes over the section buffers and label arrays.
- **Register shuffle of a side trace** (`RegShuffle`). Class `AsmState` emits moves backwards.
- **Lua's pattern matcher, string.find and string.gsub** (`LuaPattern`, `LuaManual`, `LuaMatch`,
  `LuaFind`). Class `MatchState` backtracks over its capture array and finds the first of an
  ordered list of results. `LuaManual` says, after section 5.4.1 of the Lua 5.1 Reference Manual
  and with nothing of the matcher, in which ways a pattern matches and which one is preferred.
- **table.sort** (`TableSort`), in place on an array, with any comparator.
- **MiniJSON** (`MiniJson`, `JsonGrammar`, `JsonObjects`): printing and reading as functions on
  UTF-16 text, what JSON texts denote by RFC 8259, and the two objects that print and read step
  by step.
- **Timer** (`Timer`): the atomic steps of callers and worker under the lock, with a history of
  handlers started and timers destroyed.
- **luaL_ref / luaL_unref** (`RefTable`), **luaL_Buffer** (`LuaBuffer`) and **packet framing**
  (`Framing`).

## How the model is built

Pointers and addresses are integers, and the fields of chunks are maps from addresses.
Bitmaps are sets of bit numbers. The map of chunk headers has exactly the chunks' addresses as
its domain; headers that no chunk owns any more are dropped. Header words and feet are data
types for their decoded contents, sizes and alignments are those of a 64-bit system. What the
program may pass (only blocks it holds) is a precondition of `Free` and `Realloc`. The system
is the class `System`: it may refuse any mapping, unmapping or resizing, and gives page-aligned
regions that do not overlap and lie below 2^40. Directly mapped chunks whose unmapping the system
refuses are remembered as leaked pages, as the program loses them. The list of segments is a
sequence. In `PrependAlloc` the rest of the new region is written as a chunk in use and then
consolidated as free would do it.

`TreeIndex.IndexBracketsExactly` shows that the tree index is wrong for some sizes of 2^40
and more. `FindBest` is nevertheless proved for requests of every size, because chunks stay
below that limit.

DynASM's action list is a sequence of decoded actions, both label arrays are one map, the
program's array of global addresses is a map from 10 on, and buffer positions are those of
`DASM_SEC2POS`. Lists are assumed to be what the preprocessor
produces: an opcode stands before a shrinkable branch (`0xe9` escaped, or `0x0f 0x8x`), two
plain bytes stand before an immediate that may shrink, and space is not negative. A section is
shorter than 2^24 positions.

Lua errors are results (`Error`, `None`) rather than jumps. Patterns end at their first NUL,
as in C.

The proofs found some places where the code does less than one would expect:

- the tree index of sizes from 2^40 on (`TreeIndex.IndexBracketsExactly`);
- `string.find` uses a plain search for patterns without special characters, which differs
  from a pattern search exactly when the pattern holds a NUL or a closing parenthesis
  (`LuaFind.PlainAgrees`);
- destroying an idle timer also drops all timers due at the same time from the queue
  (`Timer.DestroyedIsQueued`, `Timer.SameTimeLosesOne`), and a second destroy while the handler
  runs removes the instance in use (`Timer.DestroyedIsOk`, `Timer.SecondDestroyLosesInstance`);
- MiniJSON prints unsigned integers from 2^63 on, but reads them as 0 (`MiniJson.ReadsBack`,
  `MiniJson.UnsignedIsLost`), and it reads numbers with an exponent but no point as 0
  (`JsonGrammar.ExponentIsLost`);
- a JSON text is read for ever exactly when a colon stands where an element of a list is due
  (`MiniJson.DeserializeDecides`);
- `luaL_unref` of a reference that is neither in use nor the next new one breaks the free
  list (`RefTable.UnrefInOrder`, `RefTable.SecondReleaseBreaks`);
- the low watermark of a long packet delays short ones behind it (`Framing.ShortPacketWaits`).

## Model

| member | source | states |
|---|---|---|
| TreeIndex.IndexBracketsExactly | server/3rd/LuaJIT-2.0.5/src/lj_alloc.c:533-558 | the index computed for a size s brackets it between the least sizes of that bin and of the next one if and only if s is below 2^40 or its upper half, cut to 32 bits, is at least 0xC000; larger sizes can be put into a wrong bin because the shifted size is truncated to 32 bits |
| TreeIndex.LargeSizeMisfiled | server/3rd/LuaJIT-2.0.5/src/lj_alloc.c:533-558 | the size 2^40 gets index 0, a bin for sizes below 0x180, and it is the smallest size with a wrong index |
| TreeIndex.PathStart | server/3rd/LuaJIT-2.0.5/src/lj_alloc.c:551-553 | shifting a size left by the amount for its bin puts the bits that steer the walk at the top, for every size and bin that bracket it |
| TreeIndex.PathStep | server/3rd/LuaJIT-2.0.5/src/lj_alloc.c:660-669 | taking the top bit and shifting left by one goes to the half of the size range that holds the size, and keeps the word in step with that half |
| Trie.InsertSound | server/3rd/LuaJIT-2.0.5/src/lj_alloc.c:647-683 | inserting by the bits of the size keeps the trie order, same-size rings and distinctness, and adds exactly this chunk with this size |
| Trie.RemoveSound | server/3rd/LuaJIT-2.0.5/src/lj_alloc.c:686-731 | taking a chunk out, with promotion of the last node below it, keeps the trie order and removes exactly this chunk; all others keep their sizes |
| Links.UnlinkRing | server/3rd/LuaJIT-2.0.5/src/lj_alloc.c:686-693 | the two pointer writes that take a chunk out of its ring leave a circular doubly linked list of the others in order |
| Links.LinkBehindRing | server/3rd/LuaJIT-2.0.5/src/lj_alloc.c:672-681 | the four pointer writes put the chunk into the ring right behind the first one |
| TreeRep.AttachRep | server/3rd/LuaJIT-2.0.5/src/lj_alloc.c:660-683 | the pointer writes at the end of the walk turn the tree in memory into the tree with the chunk inserted |
| TreeCut.CutRep | server/3rd/LuaJIT-2.0.5/src/lj_alloc.c:706-731 | redirecting one child pointer cuts the node out of the whole tree in memory: everything above and beside it is undisturbed |
| Bins.BinTable.InsertSmall | server/3rd/LuaJIT-2.0.5/src/lj_alloc.c:594-606 | the chunk becomes the first of the list its size selects, all bins and both bitmaps stay in order (Valid), and the binned chunks grow by exactly this one |
| Bins.BinTable.UnlinkSmall | server/3rd/LuaJIT-2.0.5/src/lj_alloc.c:609-619 | the chunk leaves its list, the bit is cleared exactly when the list becomes empty (Valid), nothing else is removed |
| Bins.BinTable.UnlinkFirstSmall | server/3rd/LuaJIT-2.0.5/src/lj_alloc.c:622-631 | gives the chunk that was put into this bin last and removes exactly it |
| Bins.BinTable.InsertLarge | server/3rd/LuaJIT-2.0.5/src/lj_alloc.c:647-683 | bins stay in order; the trie of the size's bin is the old one with the chunk inserted, the others are unchanged |
| Bins.BinTable.UnlinkLarge | server/3rd/LuaJIT-2.0.5/src/lj_alloc.c:686-731 | bins stay in order; the trie of the chunk's bin is the old one without it, the others are unchanged |
| Bins.BinTable.FindBest | server/3rd/LuaJIT-2.0.5/src/lj_alloc.c:1048-1087 | the walk down the bits, the deepest untaken right subtree and the leftmost walk find a smallest chunk of at least nb among all binned chunks, or there is none; for requests of any size |
| Bins.BinTable.FindSmallest | server/3rd/LuaJIT-2.0.5/src/lj_alloc.c:1112-1127 | finds a smallest chunk among all binned large chunks |
| Bins.SmallBit | server/3rd/LuaJIT-2.0.5/src/lj_alloc.c:566-572 | every binned small chunk has its bit set in the small bitmap |
| Bins.LargeBit | server/3rd/LuaJIT-2.0.5/src/lj_alloc.c:566-572 | every binned large chunk has the bit of the bin that its size selects set in the tree bitmap |
| Bins.BitmapsExact | server/3rd/LuaJIT-2.0.5/src/lj_alloc.c:566-572 | a bit of either bitmap is set if and only if some binned chunk has a size that selects its bin |
| BoundaryTags.MergedTruthful | server/3rd/LuaJIT-2.0.5/src/lj_alloc.c:1275-1315 | replacing a run of adjacent chunks by one keeps headers true: pinuse tells whether the chunk before is in use, and a free chunk's size stands behind it |
| BoundaryTags.SplitTruthful | server/3rd/LuaJIT-2.0.5/src/lj_alloc.c:1094-1101 | cutting a chunk in two keeps headers and feet true |
| BoundaryTags.DroppedOk | server/3rd/LuaJIT-2.0.5/src/lj_alloc.c:979-987 | forgetting a whole region leaves chunks outside it tiled and their headers true |
| HeapWorld.AbsorbOk | server/3rd/LuaJIT-2.0.5/src/lj_alloc.c:1275-1315 | merging a released block with its free neighbours keeps the books: every free chunk is exactly one of top, designated victim or binned, and no two free chunks are adjacent |
| HeapSegments.NewTopHeap | server/3rd/LuaJIT-2.0.5/src/lj_alloc.c:853-897 | a new segment becomes the home of the top chunk and the old top is turned into a free chunk, the segment record and fenceposts; the heap invariant holds and no block moves |
| HeapSegments.PrependHeap | server/3rd/LuaJIT-2.0.5/src/lj_alloc.c:820-850 | a region in front of a segment extends it; the heap invariant holds and no block moves |
| HeapSegments.UnmapHeap | server/3rd/LuaJIT-2.0.5/src/lj_alloc.c:979-993 | giving back a segment whose only chunk is free keeps the heap invariant and all blocks; a segment that holds a block or the record of another segment is never given back |
| HeapSegments.ResizeTopHeap | server/3rd/LuaJIT-2.0.5/src/lj_alloc.c:921-927 | moving the end of the top chunk's segment (append or trim) keeps the heap invariant |
| Mmap.HoldsMore | server/3rd/LuaJIT-2.0.5/src/lj_alloc.c:963-987 | after a region is mapped and added, the pages of the segments and directly mapped chunks are again exactly the pages held from the system |
| Mmap.TotalWithout | server/3rd/LuaJIT-2.0.5/src/lj_alloc.c:963-1001 | taking one segment off the list takes exactly its size off the memory covered |
| HeapCalls.FreeCall | server/3rd/LuaJIT-2.0.5/src/lj_alloc.c:1275-1327 | the header writes of free give a heap in order in which exactly this block is gone |
| Alloc.MState.Malloc | server/3rd/LuaJIT-2.0.5/src/lj_alloc.c:1180-1261 | on success exactly one new block with room for the request is handed out, no other block moves or changes, and the whole heap invariant holds; the block is a smallest binned chunk that fits if the bins are to serve it, else the front of the victim, else the front of the top chunk, and comes from the system only when none of them has room; what becomes of the rest is stated for each; failure happens only without room and when the system, which was asked, gave nothing |
| Alloc.PadsEnough | server/3rd/LuaJIT-2.0.5/src/lj_alloc.c:352-357 | the chunk size for a request is the least multiple of 8 from 32 on with room for it |
| Alloc.SystemSizeIs | server/3rd/LuaJIT-2.0.5/src/lj_alloc.c:914-916 | what is asked of the system is the least number of granules with room for the block and a top chunk behind it |
| Alloc.MState.MallocSmall | server/3rd/LuaJIT-2.0.5/src/lj_alloc.c:1187-1220 | the bins serve the request exactly when a chunk of the exact or next small bin leaves no remainder, or when the victim has no room and any binned chunk is big enough; then the block is a smallest chunk that fits, and the rest becomes the victim |
| Alloc.MState.TmallocLarge | server/3rd/LuaJIT-2.0.5/src/lj_alloc.c:1048-1109 | a block cut from the best fit, or none when the victim fits better or nothing fits |
| Alloc.MState.TmallocSmall | server/3rd/LuaJIT-2.0.5/src/lj_alloc.c:1112-1140 | a block cut from the smallest large chunk |
| Alloc.MState.AllocSys | server/3rd/LuaJIT-2.0.5/src/lj_alloc.c:901-958 | a block from new memory, with the invariant kept: large ones are mapped directly if the system gives a region; otherwise the least number of granules that suffices is asked for, and extends the first segment at its end, or another one at its base, or becomes a segment of its own; or none, and then the pages held are unchanged |
| Alloc.MState.PrependAlloc | server/3rd/LuaJIT-2.0.5/src/lj_alloc.c:820-850 | the block is the front of the new region and the rest of it is consolidated with the segment behind |
| Alloc.MState.AddSegment | server/3rd/LuaJIT-2.0.5/src/lj_alloc.c:853-897 | the new segment and its record keep the invariant; no block moves |
| Alloc.MState.Free | server/3rd/LuaJIT-2.0.5/src/lj_alloc.c:1263-1332 | exactly the block given back is gone, all others stay with their sizes, and the invariant holds; with its free neighbours it becomes the top chunk, which is trimmed exactly when it is longer than the threshold, or the victim, or a binned chunk of their whole length, and every so many large ones vacant segments are released; for null nothing changes |
| Alloc.MState.Consolidate | server/3rd/LuaJIT-2.0.5/src/lj_alloc.c:1275-1315 | the block is merged with the free chunks on both sides, into the top chunk, the victim, or a chunk for a bin |
| Alloc.MState.ReleaseSegment | server/3rd/LuaJIT-2.0.5/src/lj_alloc.c:972-995 | a segment goes back to the system if and only if its first chunk is free and reaches its record, and the system takes it; otherwise the list of segments is unchanged |
| Alloc.MState.ReleaseUnused | server/3rd/LuaJIT-2.0.5/src/lj_alloc.c:963-1003 | the released bytes are exactly what the segments cover less; no block is lost; with a system that takes regions back no vacant segment is left |
| Alloc.MState.ShrinkTop | server/3rd/LuaJIT-2.0.5/src/lj_alloc.c:1011-1032 | the end of the top chunk is released exactly when the segment is long enough, holds no segment record and the system takes it |
| Alloc.MState.Trim | server/3rd/LuaJIT-2.0.5/src/lj_alloc.c:1005-1041 | says whether the covered memory shrank; no block is lost; with a willing system the top chunk is left with the padding and at most one granule more |
| Alloc.MState.HasSegmentLink | server/3rd/LuaJIT-2.0.5/src/lj_alloc.c:502-511 | says exactly whether the segment holds the record of a segment |
| Alloc.MState.Realloc | server/3rd/LuaJIT-2.0.5/src/lj_alloc.c:1334-1382 | the block keeps its place, with its rest split off or what is missing taken from the top chunk, exactly when its chunk is long enough, or the top chunk behind it supplies the rest, or the system resizes its directly mapped region; otherwise the new block is a different one, exactly as many bytes are copied as the old block has room for or the new one was asked for, and exactly the old block is gone; on failure nothing is lost |
| Alloc.MState.DirectRemap | server/3rd/LuaJIT-2.0.5/src/lj_alloc.c:771-786 | a directly mapped chunk is resized in place exactly when the system resizes its region; no other block moves and the pages held are again exactly those in use |
| Alloc.MState.AllocF | server/3rd/LuaJIT-2.0.5/src/lj_alloc.c:1384-1396 | size 0 frees, a null pointer allocates, anything else reallocates: in place exactly when the block can stay, otherwise moved with all bytes that fit copied; no other block moves |
| Alloc.BlocksApart | server/3rd/LuaJIT-2.0.5/src/lj_alloc.c:1180-1382 | in every reachable state two live blocks do not overlap |
| Alloc.BlockClear | server/3rd/LuaJIT-2.0.5/src/lj_alloc.c:379-416 | in every reachable state a live block overlaps no chunk header, no link field of a free chunk, no size behind a free chunk and none of the allocator's own chunks |
| Alloc.BlockMapped | server/3rd/LuaJIT-2.0.5/src/lj_alloc.c:1180-1382 | in every reachable state each byte of a live block lies in a page held from the system |
| Alloc.Tiling | server/3rd/LuaJIT-2.0.5/src/lj_alloc.c:379-397 | in every reachable state the chunks tile each segment: every address before the end of its last chunk is in exactly one chunk |
| Alloc.FreeChunks | server/3rd/LuaJIT-2.0.5/src/lj_alloc.c:1275-1327 | in every reachable state a free chunk is exactly one of top, victim and binned, is not adjacent to a free chunk, and its size stands behind it |
| Alloc.Create | server/3rd/LuaJIT-2.0.5/src/lj_alloc.c:1144-1166 | a new heap in order with no block, or none when the system has no memory |
| Alloc.Run | server/3rd/LuaJIT-2.0.5/src/lj_alloc.c:1180-1382 | over every run of malloc, free and realloc the invariant holds and the allocator's live blocks are exactly what the program was given and has not released, with the sizes it asked for |
| DynAsm.WithRefOk | server/3rd/LuaJIT-2.0.5/dynasm/dasm_x86.h:212-233 | a reference stores the label's position or goes in front of the label's chain; every chain stays acyclic, ends at 0 and links exactly the pending references |
| DynAsm.WithDefOk | server/3rd/LuaJIT-2.0.5/dynasm/dasm_x86.h:234-241 | placing a label resolves exactly the pending references to it; afterwards its chain is empty |
| Dasm.DasmState.Collapse | server/3rd/LuaJIT-2.0.5/dynasm/dasm_x86.h:234-241 | the loop over a chain stores the label's position in exactly the references of the chain |
| Dasm.DasmState.Put | server/3rd/LuaJIT-2.0.5/dynasm/dasm_x86.h:167-263 | pass 1 succeeds if and only if all DASM_CHECKS pass for the action list, its arguments and the labels placed so far; then the cells of all actions with their arguments, and the references and definitions that their operands name, are recorded in order, and the invariant on chains, estimates and layout is kept |
| DynAsm.MeantActs | server/3rd/LuaJIT-2.0.5/dynasm/dasm_x86.h:212-245 | executing one more action keeps it true that every reference recorded is to the label its operand or argument names and every definition recorded is that of the label action at its position |
| DynAsm.ToComeMore | server/3rd/LuaJIT-2.0.5/dynasm/dasm_x86.h:174-256 | running one action leaves checks and log entries of the whole list equal to what has happened and what is still to come |
| DynLink.Shrinks | server/3rd/LuaJIT-2.0.5/dynasm/dasm_x86.h:283-346 | between any two points of the program the final code is no longer than pass 1 estimated, sections included |
| DynLink.ShortReaches | server/3rd/LuaJIT-2.0.5/dynasm/dasm_x86.h:304-322 | a branch shrunk in pass 2, on a guess that mixes estimated and fixed offsets, reaches its label with a signed byte in the final code; backwards and forwards, in any section |
| DynLink.HalfwayStep | server/3rd/LuaJIT-2.0.5/dynasm/dasm_x86.h:300-336 | each step of pass 2 fixes one more item: labels before it hold final offsets, those behind it estimates |
| Dasm.DasmState.Link | server/3rd/LuaJIT-2.0.5/dynasm/dasm_x86.h:266-346 | reports a PC label that is referred to but not defined exactly when there is one; otherwise references to global labels not defined here are marked, all other references and label offsets are final, every shrink decision is sound, and codesize is the length of the final code |
| DynLink.MarkDone | server/3rd/LuaJIT-2.0.5/dynasm/dasm_x86.h:283-290 | once the chain of a global label has been walked, exactly the references to global labels up to this one that have no definition hold the negative label number |
| Dasm.DasmState.MarkGlobals | server/3rd/LuaJIT-2.0.5/dynasm/dasm_x86.h:283-290 | exactly the references to global labels without a definition are marked with their label number, all others hold what they held |
| Dasm.DasmState.Encode | server/3rd/LuaJIT-2.0.5/dynasm/dasm_x86.h:361-439 | the code has exactly codesize bytes, so no phase error is ever returned; every reference means, by its operand and looking back or forward, the right definition, names by its operand the label defined at its target, or a global label without any definition, and then its address (or the distance to it) is in the code; every other branch, short or long, lands on its label's final offset with the right opcode; all numbers stand there least significant byte first and in full; all other bytes are those of the actions and their arguments; and each global label gets the address of its last definition in the code, if it has one |
| DynCode.FinishedReads | server/3rd/LuaJIT-2.0.5/dynasm/dasm_x86.h:349-439 | byte by byte: each action takes its bytes, in order and section by section; immediates, addresses and displacements hold their values modulo 2^32, 2^16 or 2^8, least significant byte first; a backward branch is short exactly when the short form reaches, a forward one exactly when its estimated distance is short |
| DynCode.ChecksAre | server/3rd/LuaJIT-2.0.5/dynasm/dasm_x86.h:185-245 | an action passes the checks exactly when its immediate fits its bytes, the local label it refers back to is defined, and its other labels exist |
| DynCode.StoredIs | server/3rd/LuaJIT-2.0.5/dynasm/dasm_x86.h:385-395 | an immediate stands in the code with its whole value, in one byte exactly when it is from -128 to 127 where there is a choice |
| DynCode.BranchSize | server/3rd/LuaJIT-2.0.5/dynasm/dasm_x86.h:304-322 | a branch is short exactly when its opcode has a short form and the label is near enough |
| Dasm.RightIs | server/3rd/LuaJIT-2.0.5/dynasm/dasm_x86.h:212-233 | a reference means the next definition of its label when it looks forward, otherwise the latest one before it, or the first one |
| DynBytes.BytesStep | server/3rd/LuaJIT-2.0.5/dynasm/dasm_x86.h:369-432 | writing one more action leaves the bytes of all earlier ones as they were, except the opcode of a branch or an immediate that takes its short form |
| DynBytes.ExternKept | server/3rd/LuaJIT-2.0.5/dynasm/dasm_x86.h:396-418 | while code is written nothing changes the address of a global label that is not defined in it |
| DynBytes.GlobalsStep | server/3rd/LuaJIT-2.0.5/dynasm/dasm_x86.h:414-419 | one more action keeps it true that each global label has the address of its last definition written so far, or its old one |
| Dasm.AlignPoints | server/3rd/LuaJIT-2.0.5/dynasm/dasm_x86.h:332-332 | every alignment point is aligned in the final code |
| Dasm.ReferencesMeanDefinitions | server/3rd/LuaJIT-2.0.5/dynasm/dasm_x86.h:212-245 | after linking every reference holds the position of the definition it means: that of the label its operand or argument names, the latest before it, or the next one for a forward reference; and the label action at that position, which names the same label, has the final offset stored there |
| Dasm.DasmState.PcLabel | server/3rd/LuaJIT-2.0.5/dynasm/dasm_x86.h:443-452 | gives the final offset of the latest definition of the PC label, -1 for a label referred to but not defined, -2 for one that is unused or does not exist |
| RegShuffle.AsmState.Shuffle | server/3rd/LuaJIT-2.0.5/src/lj_asm.c:1478-1512 | the emitted moves, run in program order from any register file, leave each parent value in its target's register and no coalesced register changed; it always ends; failure is reported only when all live registers of a class are occupied by live targets and no temporary is left |
| RegShuffle.AsmState.CoalesceFree | server/3rd/LuaJIT-2.0.5/src/lj_asm.c:1482-1490 | each move frees one register and brings one parent value home; afterwards no live register is free |
| RegShuffle.BridgeMove | server/3rd/LuaJIT-2.0.5/src/lj_asm.c:1482-1490 | prepending a move of a free live register to its target keeps the code correct for one live register less |
| RegShuffle.BridgeRename | server/3rd/LuaJIT-2.0.5/src/lj_asm.c:1496-1508 | breaking a cycle through a temporary keeps the code correct |
| RegShuffle.PickBot | server/3rd/LuaJIT-2.0.5/src/lj_target.h:77-77 | the lowest register of a non-empty set |
| LuaPattern.SemIsMatches | server/3rd/LuaJIT-2.0.5/src/lib_string.c:368-451 | the ordered list of results contains exactly the ways in which the pattern can match according to the unordered definition |
| LuaPattern.RunIsLongest | server/3rd/LuaJIT-2.0.5/src/lib_string.c:302-308 | a class matches everything from s to t if and only if t is within its longest run |
| LuaPattern.Roomier | server/3rd/LuaJIT-2.0.5/src/lib_string.c:368-371 | a pattern that is well formed for some call depth is so for a larger one |
| LuaPattern.WellFormedNeverThrows | server/3rd/LuaJIT-2.0.5/src/lib_string.c:368-451 | the search with a pattern that is well formed for a call depth never throws within it, whatever the text and captures |
| LuaMatch.MatchState.ClassEndAt | server/3rd/LuaJIT-2.0.5/src/lib_string.c:205-224 | the end of a character class, or an error for a class that does not end |
| LuaMatch.MatchState.BracketClass | server/3rd/LuaJIT-2.0.5/src/lib_string.c:246-267 | a set holds a character if and only if some class, range or character of its text does, or none after a caret |
| LuaMatch.MatchState.BalanceAt | server/3rd/LuaJIT-2.0.5/src/lib_string.c:281-300 | the end of the shortest balanced string from s, or no match |
| LuaMatch.MatchState.CaptureToClose | server/3rd/LuaJIT-2.0.5/src/lib_string.c:196-203 | the last unfinished capture |
| LuaMatch.MatchState.MatchCapture | server/3rd/LuaJIT-2.0.5/src/lib_string.c:356-366 | the text of a closed capture stands at s, or not; an error exactly for a capture that is not closed or does not exist |
| LuaMatch.MatchState.MaxExpand | server/3rd/LuaJIT-2.0.5/src/lib_string.c:302-315 | the first success with the most repetitions, then fewer |
| LuaMatch.MatchState.MinExpand | server/3rd/LuaJIT-2.0.5/src/lib_string.c:317-329 | the first success with the fewest repetitions, then more |
| LuaMatch.MatchState.StartCapture | server/3rd/LuaJIT-2.0.5/src/lib_string.c:331-343 | matches with one capture more; on failure level and captures are as before |
| LuaMatch.MatchState.EndCapture | server/3rd/LuaJIT-2.0.5/src/lib_string.c:345-354 | matches with the capture closed; on failure it is unfinished again |
| LuaMatch.MatchState.Match | server/3rd/LuaJIT-2.0.5/src/lib_string.c:368-451 | returns the match that the manual prefers to all others, or null exactly when there is no way to match, and throws exactly when the search comes to a malformed part of the pattern or to call depth 200, for every pattern; depth is restored, and on failure so are level and captures |
| LuaManual.SemIsBest | server/3rd/LuaJIT-2.0.5/src/lib_string.c:368-451 | the first result of the search is the way to match that the manual prefers: at the first class with a suffix where two ways part, more repetitions for ?, * and +, fewer for -; and no result means that there is no way |
| LuaManual.FirstLeads | server/3rd/LuaJIT-2.0.5/src/lib_string.c:302-329 | the repetitions behind the first result are preferred to those of every other way to match |
| LuaManual.DerivesInSem | server/3rd/LuaJIT-2.0.5/src/lib_string.c:368-451 | every way to match that the manual allows is among the results of the search |
| LuaManual.BestIsOne | server/3rd/LuaJIT-2.0.5/src/lib_string.c:368-451 | there is at most one preferred match |
| LuaManual.SetSame | server/3rd/LuaJIT-2.0.5/src/lib_string.c:246-267 | the elements of a set are those the manual says: %x classes, ranges, and characters |
| LuaManual.ClosesSame | server/3rd/LuaJIT-2.0.5/src/lib_string.c:205-224 | a set ends at the first closing bracket that is not its first character and not escaped |
| LuaManual.BalancedSame | server/3rd/LuaJIT-2.0.5/src/lib_string.c:281-300 | a balanced string ends where as many brackets are closed as opened for the first time; a bracket that opens and closes closes |
| LuaFind.MatchBounds | server/3rd/LuaJIT-2.0.5/src/lib_string.c:368-451 | the end of a match lies between its start and the end of the source, and captures lie inside the source |
| LuaFind.FoundMeans | server/3rd/LuaJIT-2.0.5/src/lib_string.c:368-451 | a result is a match in the sense of the manual, and null means that no match exists |
| LuaFind.PatternFind | server/3rd/LuaJIT-2.0.5/src/lib_string.c:531-556 | the preferred match at the leftmost place that has one, or none anywhere; an anchored pattern only at the start; an error exactly when the search throws at that place and nothing is found before; well formed patterns never throw |
| LuaFind.PlainFind | server/3rd/LuaJIT-2.0.5/src/lib_string.c:453-475 | the first place where the text stands, or none |
| LuaFind.PlainAgrees | server/3rd/LuaJIT-2.0.5/src/lib_string.c:521-530 | for a pattern without special characters the plain search finds what the pattern search finds if and only if the pattern holds no NUL and no closing parenthesis |
| LuaFind.CloseNeverMatches | server/3rd/LuaJIT-2.0.5/src/lib_string.c:521-530 | a pattern without special characters that holds a closing parenthesis matches nowhere |
| LuaFind.CloseDisagrees | server/3rd/LuaJIT-2.0.5/src/lib_string.c:521-530 | the plain search finds the pattern ) in the text ), where the pattern is malformed and matches nowhere |
| LuaFind.NulDisagrees | server/3rd/LuaJIT-2.0.5/src/lib_string.c:521-530 | the pattern of a, NUL and b matches the text a, where the plain search finds nothing |
| LuaFind.PiecesAreSource | server/3rd/LuaJIT-2.0.5/src/lib_string.c:676-695 | copied and matched pieces make up the source in order, with no more matches than allowed |
| LuaFind.AddS | server/3rd/LuaJIT-2.0.5/src/lib_string.c:605-624 | exactly the text that the manual says the replacement string stands for: %0 the match, %1 to %9 captures, % and another character that character; an error exactly when there is no such text |
| LuaFind.Gsub | server/3rd/LuaJIT-2.0.5/src/lib_string.c:658-697 | for a replacement string, function or table the result is the pieces with the matched ones replaced, and the count is the number of matches; the pieces are cut as the manual says, with the preferred match at every place that has one; an error comes only from the search at some place or from the replacement, for well formed patterns exactly from the replacement |
| LuaFind.PiecesAreCut | server/3rd/LuaJIT-2.0.5/src/lib_string.c:658-697 | wherever a match is looked for the preferred one is taken, and a character is copied only where there is no way to match, after an empty match, or when no more matches are wanted |
| LuaFind.ReplaceFills | server/3rd/LuaJIT-2.0.5/src/lib_string.c:605-624 | the replacement string stands for exactly the texts that the manual allows |
| LuaFind.ValuesShow | server/3rd/LuaJIT-2.0.5/src/lib_string.c:477-502 | each capture gives its text, or its position counted from 1 |
| LuaFind.AddValue | server/3rd/LuaJIT-2.0.5/src/lib_string.c:626-656 | what stands in place of a match: the replacement string with captures filled in, or what the function of all captures or the table at the first one gives, the match itself for nil and false, an error exactly for a bad capture or another kind of value |
| LuaFind.PushCaptures | server/3rd/LuaJIT-2.0.5/src/lib_string.c:494-502 | all captures as values, texts or positions counted from 1, the whole match if there is none, an error exactly when one has no value |
| LuaFind.KeepIsIdentity | server/3rd/LuaJIT-2.0.5/src/lib_string.c:649-651 | when every match is replaced by itself, as by a function or table that answers nil or false, the result is the source |
| LuaFind.GsubIdentity | server/3rd/LuaJIT-2.0.5/src/lib_string.c:658-697 | replacing every match by %0 gives back the source, for every pattern that does not throw |
| TableSort.Sorter.AuxSort | server/3rd/LuaJIT-2.0.5/src/lib_table.c:195-256 | for any comparator only places in l..u are read, only their elements are permuted, and it ends; for a strict weak order the result is sorted and no error is raised; nested calls are bounded by the logarithm of the length |
| TableSort.Sorter.Median | server/3rd/LuaJIT-2.0.5/src/lib_table.c:200-221 | the three elements are in order |
| TableSort.Sorter.Split | server/3rd/LuaJIT-2.0.5/src/lib_table.c:221-254 | partition: nothing left of the pivot is greater, nothing right of it less; bounds are never left |
| TableSort.HalfDone | server/3rd/LuaJIT-2.0.5/src/lib_table.c:249-254 | once the smaller half is sorted only the other half remains to be sorted |
| TableSort.Sorter.Sort | server/3rd/LuaJIT-2.0.5/src/lib_table.c:258-268 | table.sort: only places 1..n are read, a permutation of them, sorted for a strict weak order, whatever the length |
| MiniJson.RoundTrip | client/Assets/Scripts/Json/MiniJSON.cs:130-545 | Deserialize(Serialize(v)) is v and consumes exactly the printed text if and only if v holds no integer from 2^63 on, for every value of null, booleans, signed and unsigned 64-bit integers, UTF-16 strings, lists and dictionaries with distinct keys in any order |
| MiniJson.ReadsBack | client/Assets/Scripts/Json/MiniJSON.cs:130-545 | Deserialize(Serialize(v)) is v with every unsigned integer from 2^63 on replaced by 0 |
| JsonGrammar.JsonIsRead | client/Assets/Scripts/Json/MiniJSON.cs:110-312 | every JSON text in the sense of RFC 8259 is read as the value it denotes, with 0 for integers that do not fit into 64 bits and for numbers with an exponent but no point; the reader then stands behind the value |
| JsonGrammar.JsonIsKept | client/Assets/Scripts/Json/MiniJSON.cs:110-312 | a JSON text is read as what it denotes if and only if all its numbers can be stored |
| JsonGrammar.DenotesOne | client/Assets/Scripts/Json/MiniJSON.cs:110-312 | a JSON text whose numbers can be stored denotes one value only |
| JsonGrammar.ExponentIsLost | client/Assets/Scripts/Json/MiniJSON.cs:290-302 | the text 1e5 is read as 0 |
| JsonGrammar.PrintIsJson | client/Assets/Scripts/Json/MiniJSON.cs:404-545 | what is printed is a JSON text that denotes the value |
| JsonGrammar.CharsRead | client/Assets/Scripts/Json/MiniJSON.cs:222-288 | a string is read as what it denotes: all eight escapes, four hexadecimal digits in either case, and plain characters |
| MiniJson.UnsignedIsLost | client/Assets/Scripts/Json/MiniJSON.cs:290-312 | 2^63, the smallest of these, comes back as 0 |
| MiniJson.PrintStrIsJson | client/Assets/Scripts/Json/MiniJSON.cs:481-521 | what is printed for a string is a JSON string in the sense of section 7 of RFC 8259, of ASCII characters only |
| MiniJson.ValueBack | client/Assets/Scripts/Json/MiniJSON.cs:196-220 | a printed value is read back wherever it stands in a text, up to its last character |
| MiniJson.CharsBack | client/Assets/Scripts/Json/MiniJSON.cs:222-288 | every string is read back from its escaped form, all control and non-ASCII code units included |
| MiniJson.DeserializeDecides | client/Assets/Scripts/Json/MiniJSON.cs:130-220 | reading ends within 2n + 1 nested turns for n characters or never; it never ends if and only if a colon stands where an element of a list is due |
| MiniJson.ItemsScan | client/Assets/Scripts/Json/MiniJSON.cs:166-194 | scanning on from inside a list finds a stray colon exactly when reading the list does not end or what follows the list has one |
| MiniJson.EntriesScan | client/Assets/Scripts/Json/MiniJSON.cs:130-164 | the same from inside a dictionary |
| MiniJson.NoColonEnds | client/Assets/Scripts/Json/MiniJSON.cs:166-194 | a text without a colon has no stray colon |
| MiniJson.PrintedEnds | client/Assets/Scripts/Json/MiniJSON.cs:130-545 | a printed value has no stray colon, so reading it ends |
| MiniJson.ColonSticks | client/Assets/Scripts/Json/MiniJSON.cs:166-194 | a colon where an element of a list is due is never consumed: the loop adds null for ever |
| MiniJson.ColonInListIsEndless | client/Assets/Scripts/Json/MiniJSON.cs:166-194 | the text [: is read for ever |
| JsonObjects.Serializer.SerializeValue | client/Assets/Scripts/Json/MiniJSON.cs:420-440 | appends exactly the printed value to the builder |
| JsonObjects.Serializer.SerializeString | client/Assets/Scripts/Json/MiniJSON.cs:481-521 | appends the quoted string, character by character escaped |
| JsonObjects.Serializer.SerializeArray | client/Assets/Scripts/Json/MiniJSON.cs:463-479 | appends the elements in order between brackets, separated by commas |
| JsonObjects.Serializer.SerializeObject | client/Assets/Scripts/Json/MiniJSON.cs:442-461 | appends the entries in the order of enumeration |
| JsonObjects.Parser.ReadToken | client/Assets/Scripts/Json/MiniJSON.cs:342-391 | the token behind white space, with the reader before or behind it as the code leaves it |
| JsonObjects.Parser.ParseByToken | client/Assets/Scripts/Json/MiniJSON.cs:201-220 | the value that begins with the token |
| JsonObjects.Parser.ParseValue | client/Assets/Scripts/Json/MiniJSON.cs:196-199 | the reader reads what the reading function reads and stands behind it |
| JsonObjects.Parser.ParseString | client/Assets/Scripts/Json/MiniJSON.cs:222-288 | the string that the text denotes by section 7 of RFC 8259, with all escapes, up to its closing quote; also what is read when the text is none |
| JsonObjects.Parse | client/Assets/Scripts/Json/MiniJSON.cs:119-123 | the whole parser: every JSON text gives the value it denotes, if its numbers can be stored |
| JsonObjects.Parser.ParseArray | client/Assets/Scripts/Json/MiniJSON.cs:166-194 | the loop over elements: all elements in order, null when the text breaks off |
| JsonObjects.Parser.ParseObject | client/Assets/Scripts/Json/MiniJSON.cs:130-164 | the loop over entries: later entries replace earlier ones with the same name |
| JsonObjects.SerializeThenParse | client/Assets/Scripts/Json/MiniJSON.cs:130-545 | the two objects together: the text is a JSON text of the value, the reader is at the end, and the value comes back if and only if it holds no unsigned integer from 2^63 on |
| Timer.Timer.Create | server/engine/common/Timer.cpp:98-106 | the timer is active and queued at its time under a new number |
| Timer.DestroyedIsOk | server/engine/common/Timer.cpp:108-128 | while the worker runs, destroying an active timer keeps everything the firings rest on if and only if it is the first destroy of this timer |
| Timer.DestroyedIsQueued | server/engine/common/Timer.cpp:108-128 | destroy keeps every active timer queued or executed if and only if it is the first destroy of this timer and its handler is in progress or no other queued timer is due at the same time |
| Timer.Timer.Destroy | server/engine/common/Timer.cpp:108-128 | true exactly for an active timer, for any number and at any time; what the firings rest on is kept if and only if it is the first destroy of this timer, the worker has stopped or the timer is not active |
| Timer.Timer.Stop | server/engine/common/Timer.cpp:73-80 | from now on no handler is started |
| Timer.Timer.Pick | server/engine/common/Timer.cpp:17-29 | the handler started is that of a queued timer with the least time, which is due, and which was not destroyed |
| Timer.Timer.Return | server/engine/common/Timer.cpp:31-54 | after the handler a periodic timer is queued one period later, others and destroyed ones are gone |
| Timer.Timer.Happen | server/engine/common/Timer.cpp:4-128 | each step does what it should: create adds a queued timer; pick starts the first handler whenever the worker is idle, the timer not stopped and some queued timer due, and then one that is due no later than all others |
| Timer.SameTimeLosesOne | server/engine/common/Timer.cpp:122-122 | two timers due at the same time: destroying one takes the other out of the queue though it stays active |
| Timer.SecondDestroyLosesInstance | server/engine/common/Timer.cpp:108-128 | a second destroy while the handler runs removes the instance that the worker still uses |
| Timer.Run | server/engine/common/Timer.cpp:4-128 | every interleaving of create, destroy, clock, pick, return and stop in which no timer is destroyed twice while its handler runs: no handler starts early or before another queued one that is due earlier, periodic times never drift, a timer without a period fires at most once, and no handler starts after destroy of its timer has returned true or after the stop; and every active timer is queued or executed if no idle timer was destroyed while another was due at the same time |
| RefTable.Refs.Ref | server/3rd/LuaJIT-2.0.5/src/lib_aux.c:258-278 | nil gets its constant reference and changes nothing; any other value gets a reference that is not in use, and the live references are the old ones plus this; the free list and the live references partition 1..n |
| RefTable.Refs.Unref | server/3rd/LuaJIT-2.0.5/src/lib_aux.c:280-289 | a negative reference changes nothing; of the live references exactly this one is released and all others keep their values |
| RefTable.UnrefInOrder | server/3rd/LuaJIT-2.0.5/src/lib_aux.c:280-289 | releasing any number leaves free list and live references in order if and only if it was in use or is the next new reference |
| RefTable.SecondReleaseBreaks | server/3rd/LuaJIT-2.0.5/src/lib_aux.c:280-289 | releasing reference 1 twice makes the free list point to itself, and no count and free list fit the table any more |
| RefTable.Run | server/3rd/LuaJIT-2.0.5/src/lib_aux.c:258-289 | over every sequence of calls the table holds exactly the values stored and not released, each under the reference handed out for it |
| RefTable.BorderUnique | server/3rd/LuaJIT-2.0.5/src/lib_aux.c:274-276 | when no reference is free the table has one border only, so lua_objlen gives n |
| LuaBuffer.Buffer.AdjustStack | server/3rd/LuaJIT-2.0.5/src/lib_aux.c:183-199 | joining pieces changes no character, and fewer than LUA_MINSTACK/2 pieces remain |
| LuaBuffer.Buffer.AddValue | server/3rd/LuaJIT-2.0.5/src/lib_aux.c:226-241 | the string on the stack is added behind all that was added before, whether it fits or not |
| LuaBuffer.Buffer.AddString | server/3rd/LuaJIT-2.0.5/src/lib_aux.c:208-217 | adds the characters in order |
| LuaBuffer.Buffer.PushResult | server/3rd/LuaJIT-2.0.5/src/lib_aux.c:219-224 | leaves exactly all that was added as one string on an otherwise unchanged stack |
| LuaBuffer.FlatJoin | server/3rd/LuaJIT-2.0.5/src/lib_aux.c:183-199 | joining the last pieces changes no character |
| LuaBuffer.Build | server/3rd/LuaJIT-2.0.5/src/lib_aux.c:172-248 | for every sequence of additions of any kind the result is one string with all of them in order, on a stack that is otherwise as before |
| Framing.Send | server/engine/network/TcpConnection.cpp:137-158 | the bytes of the frame one by one: type 1, then number, body size and total size with the high byte first, then the body |
| Framing.FrameBytes | server/engine/network/TcpConnection.cpp:137-158 | a frame byte by byte |
| Framing.Connection.ReadCb | server/engine/network/TcpConnection.cpp:200-269 | for any bytes whose frames hold their bodies, delivers the packets in the frames at the front, whose headers have number and sizes with the high byte first, keeps the rest and sets the low watermark |
| Framing.CutMeans | server/engine/network/TcpConnection.cpp:200-269 | for any bytes the packets delivered are those of a run of complete acceptable frames at their front, and no further one begins behind it; the watermark is a header, the frame whose header is there, or what it was |
| Framing.CutFrames | server/engine/network/TcpConnection.cpp:200-269 | of the bytes that Send makes exactly the complete frames up to the first that is too long are taken, in order |
| Framing.Connection.Arrive | server/engine/network/TcpConnection.cpp:200-269 | for bytes in chunks of any size what was delivered is always a prefix of what was sent, and no byte is lost |
| Framing.WholeIsLongest | server/engine/network/TcpConnection.cpp:211-237 | after a run less than one whole acceptable frame is buffered |
| Framing.AllDelivered | server/engine/network/TcpConnection.cpp:233-237 | everything sent can be delivered if and only if no body is over 1017 bytes |
| Framing.WaitsIff | server/engine/network/TcpConnection.cpp:211-237 | after bytes have arrived a complete packet waits undelivered if and only if the low watermark is above what is there and it was complete, or it is the first that is too long |
| Framing.Receive | server/engine/network/TcpConnection.cpp:200-269 | over any list of chunks what is delivered is a prefix of what was sent, no byte is lost, and above the watermark only a packet that is too long is kept back |
| Framing.ShortPacketWaits | server/engine/network/TcpConnection.cpp:226-231 | the low watermark of a long packet stays after it was delivered: a short packet that follows waits |

## Left out

- Allocator: the contents of memory except how many bytes realloc copies; `lj_alloc_destroy`, and Windows and BSD mapping variants. Trimming the top chunk may use a resizing or an unmapping call; the model has one oracle for both.
- Alloc.MState.Realloc: a null pointer is not modelled here, because the entry point `AllocF` turns it into malloc.
- Mmap.System: no addresses from 2^40 on are given. The program itself asks for the low 2 GB or 4 GB of the address space only; the model needs no more than that sizes of chunks stay below 2^40.
- Alloc.MState.Malloc: which of several chunks of the same size is taken is stated only for small bins (the one released last), not for tree bins.
- DynASM: actions DISP, VREG, MARK, SETLABEL, EXTERN and REL_A, growth of buffers, 32-bit overflow of offsets, and `dasm_checkstep`; the encoders for ARM, MIPS and PPC have no shrinking.
- Dasm.DasmState.Put: after an error status nothing is promised about the buffers, because the caller must not link then.
- Dasm.DasmState.Link: local labels that are referred to must be defined, as `dasm_checkstep` demands; pass 2 itself does not look at them.
- RegShuffle.AsmState.Shuffle: the IR instructions for renames and machine code limits are not modelled; soft-float targets are left out.
- Lua strings: `gmatch`, captures pushed by `find` and `match`, and `string.format` are left out; what a replacement function or table answers is a parameter.
- TableSort.Sorter.Sort: a comparator that throws or changes the table is not modelled.
- MiniJson.RoundTrip: floating point numbers are left out, because their text comes from library calls; a number with a point is read as the word that the library would convert.
- JsonObjects.Parser.ParseArray: nested turns are bounded by a parameter, as the code itself may not end; MiniJson.DeserializeDecides shows which bound is enough.
- JsonObjects.Serializer.SerializeValue: characters and other objects are strings to the serializer and not modelled apart.
- Timer: threads, condition variables and clocks are atomic steps in any order; the handlers themselves are left out.
- Timer.Run: interleavings in which a timer is destroyed a second time while its handler runs are left out, because destroy then removes the instance in use (`DestroyedIsOk`).
- LuaBuffer.Buffer.AddValue: a number on the stack, which Lua would convert to a string first, is left out.
- Framing.Send: frames whose size does not fit the 16 bits of its header field are left out; the source then copies the body into a buffer that is too short for it.
- Framing.Connection.ReadCb: frames whose size is below that of a header or of their body are left out, because the source then reads behind its copy of the frame; sockets and sessions are left out.
- Session maps of the connection, protobuf code, Unity scripts and the rest of LuaJIT are left out.
