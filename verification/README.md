# GemOS: virtual memory, debugger, scheduler, message queue, tournament and file store

This project models the parts of the GemOS assignments whose state is hard to keep right, and
proves what they are for.

- **Virtual memory** (`Words`, `Tables`, `Paging`, `Areas`, `AreaOps`, `HugeOps`, `BreakOps`,
  `BreakLoss`, `AreaList`, `AddressSpace`, `ExecContext`). One address space is kept twice: as a
  linked list of areas that is edited in place, and as a four-level page table with 4 KiB and 2 MiB
  leaves. The table refines a map from page numbers to frames, the list refines a map from addresses to flags
  and type, and over whole runs the two agree and conversions between page sizes keep every byte.
  The words and tables follow the Intel 64 and IA-32 Software Developer's Manual, Volume 3A,
  section 4.5.
- **Debugger** (`Breakpoints`). Patching INT3 into a program and emulating `push %rbp` in the
  handler preserves what the program does (breakpoint exception, same manual, section 6.15).
- **Scheduler and handoff** (`Scheduler`, `Fairness`, `Handoff`). The round-robin pick dispatches a
  ready process within a tight bound as long as no trap or wait hands the processor over in front of
  it, and of a debugger and its debuggee exactly one can run.
- **Message queue** (`MessageQueue`), **knockout tournament** (`Tournament`) and **flat file
  store** (`FileStore`), each with its whole-run invariants.

Code that works by changing things in place is a class or a method over arrays here, proved against
functions on values (`Insert`, `UnmapAreas`, `MakeHuge`, `Break`, `Apply`, `Tick`, `Send`, `Receive`,
`Write` and so on); the theorems are about those functions and the runs made of them. `Valid` and
`Linked` tie nodes, arrays and counters to the values; the node counter of the list counts the dummy
and any nodes cut off besides. `dafny verify dfyconfig.toml` checks everything.

## Where the code departs from its purpose

The model does what the code does. Where that is not what was meant, a lemma says exactly when it is.

- `free` returns before it clears a 2 MiB leaf (`Paging.PageTable.FreeRange`), so an unmap keeps list
  and page table together if and only if it takes nothing from a huge area (`AddressSpace.UnmapKeeps`).
- The two-endpoint test of `vm_area_map` misses an area strictly inside the request, and the hint's
  fallback never leaves the dummy (`AreaOps.ClearMeans`, `AreaOps.MapFreeIff`). With an area below the
  dummy, which a fixed map can make, first fit stops at the dummy too, free or not
  (`AreaOps.FirstFitBelow`).
- First fit returns the end of the node before the gap, read after a possible merge
  (`AreaList.FirstFitReturn`): after a merge on both sides that is the end of the joined area.
- `overlap` truncates to `int` (`HugeOps.OrderKeptIff`, `HugeOps.OverlapMissesAGap`).
- `vm_area_make_hugepage` needs a full block. Else its loop does not end when an area covers the aligned
  start (`HugeOps.CarveNeverEnds`), and otherwise it links an area that ends before it starts
  (`HugeOps.MakeNoBlockIff`, `AddressSpace.MakeNoBlockBreaks`). With one it is exact if and only if no
  area straddles the right end (`HugeOps.MakeHugeExactIff`).
- `vm_area_break_hugepage` never advances its predecessor (`BreakOps.BreakLosesFirst`), does nothing
  for the exact tail of an area (`BreakOps.BreakMissesTail`), and where the request cuts an area short
  unmaps the part inside (`BreakOps.BreakTailLoses`): it is exact if and only if no huge area ends in
  the request, except a first one that it covers (`BreakOps.BreakExactIff`). Covering a huge area
  behind the first also leaves the nodes before it counted but unlinked, so the counter is too high
  from then on (`BreakLoss.LosesNodesIff`, `AddressSpace.RunCounts`). The invariant survives a break
  if and only if it cuts no area short and what it loses is harmless (`AddressSpace.BreakKeeps`).
- A trap or a wait runs its partner without a pick, so a ready process can wait forever
  (`Fairness.Starves`); a handoff is harmless to it if and only if it puts no more processes in front
  of it (`Fairness.HandoffKeepsIff`).
- Setting a disabled breakpoint enables it in the list only, and removing an enabled one leaves its
  INT3 (`Breakpoints.CoherentIff`); neither disturbs the debuggee (`Breakpoints.Transparent`).
- The wait runs the first context that names the debugger as its parent, even one that has exited
  (`Handoff.WaitExactIff`).
- Closing a queue twice makes the last member leave (`MessageQueue.LeaveExactIff`).
- A sender writes the `from` field itself, so a block stops names, not processes
  (`MessageQueue.BlockStopsIff`).
- A file write that does not fit moves the cursor back by one (`FileStore.FailedWriteIff`), at the
  start of a file into the one before it, which the next read or write reaches
  (`FileStore.ReadBeforeStart`, `FileStore.WriteBeforeStart`). An open that finds no inode
  for a new file gives out a descriptor of none (`FileStore.OpenSoundIff`). The mode
  test in `do_read_regular` and `do_write_regular` never fires, because of operator precedence; the
  tests in the system calls above them do, and are part of `DoRead` and `DoWrite`.

## Model

| member | source | states |
|---|---|---|
| Words.IndexMasks | Assignment 4/GemOS/src/include/memory.h:11-19 | On 64-bit words the four mask-and-shift indices are the four base-512 digits of the page number. |
| Words.PrefixSplits | Assignment 4/GemOS/src/include/memory.h:11-19 | The index taken at a level and the indices above it determine, and are determined by, the longer prefix of the page number: the split is injective. |
| Words.SmallEntryBits | Assignment 4/GemOS/src/mmap.c:69-73 | The word built by shift and or is the sum used in the model, for every 32-bit frame number and the three flag bits. |
| Words.HugeEntryBits | Assignment 4/GemOS/src/mmap.c:119-124 | The same for a 2 MiB entry with its size bit. |
| Words.DecodeBits | Assignment 4/GemOS/src/mmap.c:207-210 | Shift-and-mask decoding, the present and size tests and the clearing `^ 1` on machine words are the quotients and remainders of the model. |
| Words.SmallWordDecodes | Assignment 4/GemOS/src/mmap.c:69-73 | Round trip: a 4 KiB entry decodes to the frame and flags it was made of, is present and has no size bit. |
| Words.HugeWordDecodes | Assignment 4/GemOS/src/mmap.c:119-124 | Round trip for a 2 MiB entry: present, size bit set, same frame and flags. |
| Words.Cleared | Assignment 4/GemOS/src/mmap.c:210 | Clearing an entry takes away its present bit and nothing else. |
| Words.AcFlags | Assignment 4/GemOS/src/mmap.c:27 | The flags of an entry: present and user bits always set, the write bit exactly when the request has it, and no other bit. |
| Tables.LeafDecides | Assignment 4/GemOS/src/mmap.c:56-73 | If the walk reaches a level-3 table, its slot alone decides the translation; otherwise there is no 4 KiB translation. |
| Tables.TranslatePlace | Assignment 4/GemOS/src/mmap.c:15-76 | In a table tree every translation is a frame that the tree owns at exactly that page or that 2 MiB block. |
| Tables.NoSharing | Assignment 4/GemOS/src/mmap.c:15-132 | No frame backs two virtual pages, and no 2 MiB frame backs two blocks. |
| Tables.WalkElsewhere | Assignment 4/GemOS/src/mmap.c:29-68 | A write to one slot is invisible to the walk of every page that does not pass through that slot. |
| Tables.TranslateElsewhere | Assignment 4/GemOS/src/mmap.c:29-73 | A write to one slot changes the translation of no page that does not pass through it. |
| Tables.LinkTable | Assignment 4/GemOS/src/mmap.c:32-67 | Hanging a fresh empty table in an absent slot keeps the tables a tree, extends the walk of that page by one level, and changes no translation. |
| Tables.WriteLeaf | Assignment 4/GemOS/src/mmap.c:68-73 | Writing a leaf keeps the tree, maps exactly that page to the new frame, and leaves every other translation and every walk as it was. |
| Tables.ClearLeaf | Assignment 4/GemOS/src/mmap.c:206-212 | Clearing a leaf removes exactly that page, gives up exactly its frame, and leaves every walk as it was. |
| Tables.WriteHugeLeaf | Assignment 4/GemOS/src/mmap.c:116-124 | Writing a 2 MiB leaf keeps the tree and maps exactly the 512 pages of the block. |
| Tables.SplitHugeLeaf | Assignment 4/GemOS/src/mmap.c:569-593 | Replacing a 2 MiB leaf by a table of 512 leaves keeps the tree and maps exactly the pages of the block, page k to the k-th frame. |
| Paging.MappedInUse | Assignment 4/GemOS/src/mmap.c:225-256 | A frame behind a translation is in its region of memory and not free, so what a page reads is well defined. |
| Paging.PromotionKeepsReads | Assignment 4/GemOS/src/mmap.c:455-470 | Gathering the resident pages of a block into a 2 MiB frame and then hanging that frame leaves every resident page reading the same bytes. |
| Paging.DemotionKeepsReads | Assignment 4/GemOS/src/mmap.c:574-593 | Scattering a 2 MiB frame over 512 fresh frames and then hanging their table leaves every resident page reading the same bytes. |
| Paging.PageTable.Descend | Assignment 4/GemOS/src/mmap.c:32-41 | Follows one level, or hangs a fresh table there; the translations of all pages stay the same. |
| Paging.PageTable.MakeSmallEntry | Assignment 4/GemOS/src/mmap.c:15-76 | The page becomes present with a free frame and the requested write bit if it was absent, keeps its leaf if it was not; no other page moves and the tables stay a tree. |
| Paging.PageTable.MakeHugeEntry | Assignment 4/GemOS/src/mmap.c:77-127 | An absent block gets a free 2 MiB frame on all its 512 pages; a block in use is left as it is. |
| Paging.PageTable.Follow | Assignment 4/GemOS/src/mmap.c:174-205 | The read-only walk finds the next table exactly when the slot is present. |
| Paging.PageTable.FreeSmall | Assignment 4/GemOS/src/mmap.c:174-213 | Unmaps exactly that page, if it was mapped, and frees exactly its frame. |
| Paging.PageTable.FreeRange | Assignment 4/GemOS/src/mmap.c:225-241 | Unmaps exactly the 4 KiB pages of the range and frees their frames; a range of huge pages stays mapped. |
| Paging.PageTable.InstallPageTable | Assignment 4/GemOS/src/entry.c:150-200 | Maps exactly that page to a free frame with the requested write bit, whatever it was mapped to. |
| Paging.PageTable.GatherPages | Assignment 4/GemOS/src/mmap.c:455-467 | Every resident page of the block is copied to its place in the 2 MiB frame, freed and unmapped; no other page moves. |
| Paging.PageTable.PromoteBlock | Assignment 4/GemOS/src/mmap.c:448-475 | Backs exactly one block by a fresh 2 MiB frame; every resident page, in the block or not, reads the same. |
| Paging.PageTable.CopyToHuge | Assignment 4/GemOS/src/mmap.c:446-480 | Backs exactly the blocks of the range by 2 MiB frames with the given write bit; every resident page reads the same. |
| Paging.PageTable.ScatterPages | Assignment 4/GemOS/src/mmap.c:575-585 | Fills a table with 512 distinct fresh frames holding the bytes of the 2 MiB frame in order; no translation moves yet. |
| Paging.PageTable.SplitLeaf | Assignment 4/GemOS/src/mmap.c:570-594 | One block goes from a 2 MiB frame, which is freed, to 512 frames with the same write bit and the same bytes. |
| Paging.PageTable.DemoteBlock | Assignment 4/GemOS/src/mmap.c:566-600 | The same for the block of an address, making a 2 MiB leaf first when the block is absent; a block that has a level-3 table stays as it is. |
| Paging.PageTable.CopyToSmall | Assignment 4/GemOS/src/mmap.c:564-602 | For any range of whole blocks: pages in 2 MiB frames go to 4 KiB frames, as writable as before, pages in 4 KiB frames stay, absent ones may get a frame, nothing else moves; every resident page reads the same. |
| Paging.DemotedAllBig | Assignment 4/GemOS/src/mmap.c:564-602 | When the range was all in 2 MiB frames, it is all in 4 KiB frames afterwards. |
| Paging.PageTable.GrowStack | Assignment 4/GemOS/src/entry.c:253-268 | Terminates, ends with the stack at the faulting page, and installs a writable page on exactly the pages from there to the old end; no other page moves. |
| Areas.FindOnly | Assignment 4/GemOS/src/mmap.c:244-251 | In a sorted list the walk finds the one area that contains the address. |
| Areas.Canonical | Assignment 4/GemOS/src/mmap.c:259-310 | A sorted, disjoint, maximally merged list is determined by what it says of each address. |
| Areas.InsertFinds | Assignment 4/GemOS/src/mmap.c:259-310 | Wherever a node is inserted into a well-formed list, overlapping or not, the areas that were there keep their addresses and attributes, and the node gets exactly the others of its own. |
| Areas.InsertExact | Assignment 4/GemOS/src/mmap.c:259-310 | Inserting a node disjoint from a well-formed list gives a well-formed list (sorted, disjoint, maximally merged) whose address map is the old one plus the node, for all merge shapes. |
| Areas.InsertWellFormedIff | Assignment 4/GemOS/src/mmap.c:259-310 | Inserting keeps the list well formed if and only if the node overlaps no area and stays inside the address space; an overlapping node ends up out of order. |
| Areas.InsertSkips | Assignment 4/GemOS/src/mmap.c:277-282 | Insertion leaves alone the areas its walk passes. |
| AreaOps.UnmapStepKeeps | Assignment 4/GemOS/src/mmap.c:394-435 | Each round of the loop keeps what the whole pass computes: the piece it splits off is left alone when it is visited. |
| AreaOps.RoundUpIs | Assignment 4/GemOS/src/mmap.c:316 | Rounding up gives the least multiple of the unit that is not below the number, and no other number is a multiple in that range. |
| AreaOps.RoundDownIs | Assignment 4/GemOS/src/mmap.c:515-517 | Rounding down gives the greatest multiple of the unit that is not above the number. |
| AreaOps.UnmapExact | Assignment 4/GemOS/src/mmap.c:388-439 | An address stays mapped, with the same flags and type, if and only if it was mapped and the call does not take it: from a normal area it takes the whole 4 KiB pages that meet the request, from a huge area the 2 MiB steps, counted from the address of the call, that begin within its length. The list stays well formed. |
| AreaOps.ClearMeans | Assignment 4/GemOS/src/mmap.c:327-328 | The two-endpoint test passes if and only if every area misses the request or lies strictly inside it. |
| AreaOps.FirstFitLowest | Assignment 4/GemOS/src/mmap.c:341-347 | When no area starts below the dummy (a fixed map can put one there), first fit finds the lowest address, from the dummy on, at which the request fits, and it is page-aligned. |
| AreaOps.FirstFitBelow | Assignment 4/GemOS/src/mmap.c:336-350 | With an area that starts below the end of the dummy, first fit stops right behind the dummy, whatever lies there. |
| AreaOps.TakenIs | Assignment 4/GemOS/src/mmap.c:315-372 | Whether a request is taken, for how many bytes and from where, said of the addresses alone: a fixed one exactly when its address is not 0 and page-aligned and neither its first nor its last byte is mapped, and then there; a hint at its page if neither end is mapped there, else right behind the dummy; first fit at the lowest free start from the dummy on, or right behind the dummy when an area lies below it. The length is rounded up to whole pages. |
| AreaOps.MapExact | Assignment 4/GemOS/src/mmap.c:313-385 | A request that is not taken changes nothing. One that is adds exactly its range, as normal pages with its protection, where nothing was mapped; and the list stays well formed if and only if the whole range was free and ends inside the address space. |
| AreaOps.MapFreeIff | Assignment 4/GemOS/src/mmap.c:321-382 | The range of a taken request is free: for first fit, if and only if no area starts below the end of the dummy or the range right behind the dummy is free; for a fixed address, and for a hint that goes where both ends are free, if and only if no area lies strictly inside; any other hint goes right behind the dummy, onto what is mapped there. |
| HugeOps.OrderKeptIff | Assignment 4/GemOS/src/mmap.c:441-444 | Truncation to int keeps the order of a range of addresses if and only if one of the 4 GiB windows around the multiples of 4 GiB holds the range. |
| HugeOps.OverlapInWindow | Assignment 4/GemOS/src/mmap.c:441-444 | For addresses of one window, whichever it is, overlap on truncated integers is overlap of the 64-bit ranges. |
| HugeOps.OverlapMissesAGap | Assignment 4/GemOS/src/mmap.c:441-495 | Across two windows it is not: a list and a request over an unmapped gap that the scans accept. |
| HugeOps.GapMeansHole | Assignment 4/GemOS/src/mmap.c:489-495 | In any one window, the first scan fires if and only if some address of the request below the last area is not mapped. |
| HugeOps.ScanExact | Assignment 4/GemOS/src/mmap.c:485-513 | In the window in which the list begins, for every list, the scans answer, in order and exactly: a gap below the last area, something huge, another protection unless forced, else acceptance. With an area below the dummy, the gap before the first area counts the wrong way round, as met by requests that start below that area and end above the dummy. |
| HugeOps.CarveStepKeeps | Assignment 4/GemOS/src/mmap.c:522-556 | Each round of the carving loop keeps what the whole loop computes and leaves less to do. |
| HugeOps.CarveNeverEnds | Assignment 4/GemOS/src/mmap.c:530-548 | Without a full block in the request, an area that covers the aligned start keeps the loop going for any number of rounds. |
| HugeOps.MakeNoBlockIff | Assignment 4/GemOS/src/mmap.c:530-559 | Without a full block and with no area over the aligned start, the call links an area that ends before it starts; that leaves a well-formed list if and only if a huge area of the same protection ends at the aligned start, which is then cut short. |
| HugeOps.CarveExact | Assignment 4/GemOS/src/mmap.c:520-556 | Carving keeps the list well formed; if no area straddles only the right end, it removes exactly the block range. |
| HugeOps.MakeHugeExactIff | Assignment 4/GemOS/src/mmap.c:515-560 | A request with a full block that meets nothing huge turns exactly its block range huge with the new protection, and leaves every other address as it was, if and only if no area starts inside the range and runs past its end; and under the same condition, and only then, the list stays well formed. |
| BreakOps.RoundShrinks | Assignment 4/GemOS/src/mmap.c:612-654 | On any list, sorted or not, each of the five ways a round can go leaves less to do: the loop ends. |
| BreakOps.BreakWholeKeeps | Assignment 4/GemOS/src/mmap.c:619-627 | The branch for an area wholly inside the request leaves a well-formed list, whatever it lost. |
| BreakOps.BreakHeadKeeps | Assignment 4/GemOS/src/mmap.c:628-634 | The branch for an area that starts inside makes exactly its part of the request normal. |
| BreakOps.BreakMiddleKeeps | Assignment 4/GemOS/src/mmap.c:643-652 | The branch for an interior request makes exactly the request normal. |
| BreakOps.BreakFromExact | Assignment 4/GemOS/src/mmap.c:612-654 | From any point of the walk on, the loop turns exactly the huge addresses of the request into normal ones, given that no huge area still to visit ends in the request, except a first one that it covers. |
| BreakOps.BreakMissesTail | Assignment 4/GemOS/src/mmap.c:619-652 | A call for a huge area's end, from inside it, leaves the whole list unchanged. |
| BreakOps.BreakLosesFirst | Assignment 4/GemOS/src/mmap.c:605-656 | A call that covers a huge area other than the first unmaps the start of the first area of the list, whatever else it meets, because the predecessor never advances. |
| BreakOps.BreakTailLoses | Assignment 4/GemOS/src/mmap.c:605-656 | A call that cuts a huge area short unmaps the part inside the request, and no later round maps it again. |
| BreakOps.BreakExactIff | Assignment 4/GemOS/src/mmap.c:605-656 | For every well-formed list and request, the call turns exactly the huge addresses of the request into normal ones if and only if no huge area ends in the request, except a first one that it covers. |
| BreakOps.RoundHuges | Assignment 4/GemOS/src/mmap.c:612-654 | On any list, a round leaves to visit exactly the huge areas behind its own, and the piece it has split off. |
| BreakLoss.LosesNodesIff | Assignment 4/GemOS/src/mmap.c:605-627 | For every well-formed list, the loop unlinks nodes that nobody frees if and only if the request covers a huge area behind the first. |
| BreakLoss.RoundHands | Assignment 4/GemOS/src/mmap.c:612-654 | On any list, what the rest of the loop hands to copy_hpp is what this round hands over and what the rest after it does. |
| BreakLoss.HandedIff | Assignment 4/GemOS/src/mmap.c:612-654 | When no huge area starts below the request and ends in it or with it, exactly the huge addresses of the request are handed over. |
| BreakLoss.LosesBelow | Assignment 4/GemOS/src/mmap.c:612-627 | When no area is cut short, everything below the last covered area is unmapped, and from there on the call is exact. |
| BreakLoss.BreakLeaves | Assignment 4/GemOS/src/mmap.c:605-656 | A break that cuts no area short always leaves a well-formed list: exact, or unchanged, or with only the mappings below the last covered area lost. |
| BreakOps.NoSeam | Assignment 4/GemOS/src/mmap.c:287-305 | In a well-formed list neighbouring addresses with the same attributes lie in one area. |
| BreakOps.BreakThenMakeHuge | Assignment 4/GemOS/src/mmap.c:515-656 | Breaking part of a huge area and making it huge again with its protection gives back the same list, node for node. |
| AreaList.VmAreaList.constructor | Assignment 4/GemOS/src/mmap.c:317-320 | A new list: the dummy alone, counted. |
| AreaList.VmAreaList.LinkAfter | Assignment 4/GemOS/src/mmap.c:281-282 | Linking a node puts its area at that place and keeps the chain and the area sequence in step. |
| AreaList.VmAreaList.UnlinkAfter | Assignment 4/GemOS/src/mmap.c:410-412 | Unlinking takes exactly that area out and counts it off. |
| AreaList.VmAreaList.FindHead | Assignment 4/GemOS/src/mmap.c:261-280 | The walk stops at the last node that starts before the new one ends. |
| AreaList.VmAreaList.InsertFirst | Assignment 4/GemOS/src/mmap.c:262-274 | The front branch with its merge. |
| AreaList.VmAreaList.InsertBehindHead | Assignment 4/GemOS/src/mmap.c:281-305 | The other branch, with a merge on either side or both. |
| AreaList.VmAreaList.SortedInsert | Assignment 4/GemOS/src/mmap.c:259-310 | The in-place insertion makes the specified list for every list, keeps the node counter, and every node that is not merged away stays in the list where the specification says. |
| AreaList.VmAreaList.FindArea | Assignment 4/GemOS/src/mmap.c:246-251 | The walk of the list finds what the list says of the address. |
| AreaList.VmAreaList.TestClear | Assignment 4/GemOS/src/mmap.c:324-330 | The test of a fixed request against every node. |
| AreaList.VmAreaList.FindGap | Assignment 4/GemOS/src/mmap.c:339-346 | The walk stops before the first gap that is large enough. |
| AreaList.VmAreaList.AddFirstFit | Assignment 4/GemOS/src/mmap.c:336-350 | First fit adds its range; what it returns is read from the node before the gap after the insertion, also for lists with an area below the dummy. |
| AreaList.FirstFitReturn | Assignment 4/GemOS/src/mmap.c:347-349 | For every well-formed list, that value is the start of the range if and only if the range did not merge into the area on its left or an area lies below the dummy; its end if and only if, with no area below the dummy, it merged on the left and not on the right as well; after both merges it lies beyond. |
| AreaList.MergedEnd | Assignment 4/GemOS/src/mmap.c:347-349 | It is the end, after the insertion, of the node before the gap: the area there, or the dummy, before which first fit stops when an area lies below it. |
| AreaList.FirstFitAnswers | Assignment 4/GemOS/src/mmap.c:347-349 | Said of the addresses alone: first fit returns the start of its range, unless the address before it had the same attributes already and no area lies below the dummy; then it returns the end of the whole run of addresses that have them. |
| AreaList.FixedAnswers | Assignment 4/GemOS/src/mmap.c:321-334 | For a fixed request on a well-formed list: it returns -1, with the list unchanged, if and only if its address is 0 or not page-aligned or some area holds its first byte or its last; otherwise it returns its address, and if no area lies strictly inside, exactly its range is then mapped as asked. |
| AreaList.VmAreaList.Map | Assignment 4/GemOS/src/mmap.c:313-385 | The whole call in place, by `Taken`: a request that is not taken changes nothing and returns -1; one that is gets exactly its range of whole pages, and a fixed or hinted one returns its start, first fit what has just been said. For any list, or for first fit a well-formed one. |
| AreaList.VmAreaList.UnmapNode | Assignment 4/GemOS/src/mmap.c:407-434 | The list edit of one round, in each of its four branches. |
| AreaList.VmAreaList.ScanRequest | Assignment 4/GemOS/src/mmap.c:485-513 | The three scans in their order. |
| AreaList.VmAreaList.CarveNode | Assignment 4/GemOS/src/mmap.c:524-555 | The list edit of one round of carving. |
| AreaList.VmAreaList.CarveRange | Assignment 4/GemOS/src/mmap.c:520-556 | The carving loop ends and leaves the carved list. |
| AreaList.VmAreaList.BreakWholeNode | Assignment 4/GemOS/src/mmap.c:619-626 | The list edit of the branch for a covered area anywhere in the list: the nodes before it are cut off and stay counted; the walk goes on at the node behind. |
| AreaList.VmAreaList.BreakHeadNode | Assignment 4/GemOS/src/mmap.c:628-634 | The list edit of the branch for an area that starts inside, in any list. |
| AreaList.VmAreaList.BreakTailNode | Assignment 4/GemOS/src/mmap.c:635-642 | The list edit of the branch for an area that is cut short, in any list. |
| AreaList.VmAreaList.BreakMiddleNode | Assignment 4/GemOS/src/mmap.c:643-652 | The list edit of the interior branch. |
| AreaList.VmAreaList.BreakRange | Assignment 4/GemOS/src/mmap.c:605-656 | In place and for any list at all, the loop ends, makes the specified list, and cuts off exactly the specified number of nodes without freeing them, by which the counter is too high. |
| AddressSpace.NewSpaceInv | Assignment 4/GemOS/src/include/mmap.h:38-50 | An address space without areas and with an empty page table satisfies the invariant. |
| AddressSpace.FaultKeeps | Assignment 4/GemOS/src/mmap.c:244-256 | A fault keeps list and page table in agreement. |
| AddressSpace.MapKeeps | Assignment 4/GemOS/src/mmap.c:313-385 | A map keeps the list well formed and in agreement with the page table if and only if it fails or its range is free and inside the address space. |
| AddressSpace.UnmapKeeps | Assignment 4/GemOS/src/mmap.c:388-439 | An unmap keeps list and page table in agreement if and only if no huge area loses addresses: those it loses keep their 2 MiB leaves. |
| AddressSpace.MakeKeeps | Assignment 4/GemOS/src/mmap.c:483-561 | An accepted make_hugepage with a full block on which nothing is huge keeps the list well formed and in agreement with the page table if and only if no area straddles its right end; and then it is exact. |
| AddressSpace.BreakKeeps | Assignment 4/GemOS/src/mmap.c:605-656 | A break, fitting or not, keeps the list well formed and in agreement with the page table if and only if it cuts no area short and what the list loses is harmless: huge pages lost are demoted and outside the mmap range, normal pages lost in that range are not resident. A break that fits meets this and is exact. |
| AddressSpace.FitsDemotes | Assignment 4/GemOS/src/mmap.c:563-656 | When the request fits, exactly its huge pages go to 4 KiB frames, as writable as before. |
| AddressSpace.StepKeeps | Assignment 4/GemOS/src/mmap.c:244-656 | Every call that meets its condition keeps the whole invariant. |
| AddressSpace.StepKeepsIff | Assignment 4/GemOS/src/mmap.c:313-656 | A map, an unmap, a break, or a make_hugepage with a full block on which nothing is huge keeps the whole invariant if and only if the call meets its condition. |
| AddressSpace.FaultMeans | Assignment 4/GemOS/src/mmap.c:244-256 | A fault without protection error on a page of a normal area makes exactly that page resident: where it was, or in a free frame with the flags asked for; a page of a huge area is resident already; every other fault changes nothing. |
| AddressSpace.UnmapMeans | Assignment 4/GemOS/src/mmap.c:388-439 | Address by address and page by page: the list loses exactly what `Removed` says, and exactly the normal pages from the address of the call on, below its end, lose their leaves. |
| AddressSpace.MakeMeans | Assignment 4/GemOS/src/mmap.c:483-561 | With the block range given by its bounds (the least multiple of 2 MiB not below the start, the greatest not above the end): a request that is accepted and fits makes exactly its addresses huge with its protection and its pages resident in 2 MiB frames, and every resident page reads the same; a refused one changes nothing. |
| AddressSpace.BreakMeans | Assignment 4/GemOS/src/mmap.c:605-656 | A break that fits makes exactly the huge addresses of its range normal, each of their pages resident in a 4 KiB frame as writable as before, and every resident page reads the same; one that is not aligned, or empty, changes nothing. |
| AddressSpace.StepKeepsReads | Assignment 4/GemOS/src/mmap.c:244-656 | A resident page that the call does not take away reads the same bytes after it, whatever frame it has moved to. |
| AddressSpace.RunKeeps | Assignment 4/GemOS/src/mmap.c:244-656 | The invariant holds at every point of every run of such calls. |
| AddressSpace.RunSafe | Assignment 4/GemOS/src/mmap.c:225-602 | At every point of every run: a page has a huge leaf exactly when its area is huge, a 4 KiB leaf of the mmap range lies in a normal area, no two pages share a frame, no mapped frame is free, and no 4 KiB frame lies in a mapped 2 MiB frame. |
| AddressSpace.RunKeepsReads | Assignment 4/GemOS/src/mmap.c:446-602 | Over a whole run a page that was resident and is never taken away reads the same bytes. |
| AddressSpace.ListRunWellFormed | Assignment 4/GemOS/src/mmap.c:259-656 | Over every run, with any unmaps at all and any breaks that cut no area short, the list stays sorted, disjoint, non-empty per node, page-aligned and maximally merged. Every run of calls that fit is such a run (`RunIsListRun`). |
| AddressSpace.RunCounts | Assignment 4/GemOS/src/include/mmap.h:38-50 | Over every such run the node counter is never below the length of the list plus one for the dummy, and is equal to it if and only if no break so far covered a huge area behind the first. |
| AddressSpace.FitsCutsNothing | Assignment 4/GemOS/src/mmap.c:605-656 | A break that fits leaves the counter right. |
| AddressSpace.BreakMakeRestores | Assignment 4/GemOS/src/mmap.c:446-656 | Breaking whole blocks of a huge area and making them huge again with the same protection, once the second call is accepted, restores the exact list, puts exactly those pages into 2 MiB frames again, and leaves every byte reading the same. |
| AddressSpace.BreakMakeInWindow | Assignment 4/GemOS/src/mmap.c:446-656 | In a list that lies in the 4 GiB window in which the mmap area begins, the second call is accepted, so the restoring needs nothing else. |
| AddressSpace.MakeNoBlockBreaks | Assignment 4/GemOS/src/mmap.c:530-559 | Such a call by name: a page behind the dummy, in an empty list, is accepted and leaves a list that is not well formed. |
| ExecContext.ExecContext.PageFault | Assignment 4/GemOS/src/mmap.c:244-256 | In place, the fault is the specified step, keeps the invariant, and returns -1 exactly for a protection fault or an unmapped address. |
| ExecContext.ExecContext.DoPageFault | Assignment 4/GemOS/src/entry.c:223-290 | In terms of segments and code bits: a protection fault, an address at or above the used part of its segment, a write into read-only data, and an address in no segment are not handled, and what is not handled changes nothing. In the used part of data a page is installed as the fault asks; in that of read-only data, without write; in that of the stack every page down to the faulting one, writable; in the mmap range it is the fault of the areas, handled exactly when an area holds the address. Data comes before read-only data, stack and mmap. |
| ExecContext.ExecContext.MapArea | Assignment 4/GemOS/src/mmap.c:313-385 | In place, the map answers as the list does (`MapAnswers`), leaves the page table alone, keeps the invariant when its range is free, and moves the node counter with the list. |
| ExecContext.ExecContext.UnmapRound | Assignment 4/GemOS/src/mmap.c:394-435 | One round frees exactly the part of the area that leaves the list. |
| ExecContext.ExecContext.Unmap | Assignment 4/GemOS/src/mmap.c:388-439 | In place, the pass makes the list of `UnmapExact`, exactly the normal pages that leave it lose their leaves, it returns -1 for a length that is not positive or an address that is not page-aligned and 0 else, and the node counter moves with the list. |
| ExecContext.MakeAnswered | Assignment 4/GemOS/src/mmap.c:483-560 | What the call returns: -9 without an address or a length; else, in the window, -6 for a gap, -8 for something huge, -7 for another protection unless forced, in this order and by what is mapped; and otherwise the start of the first whole block. |
| ExecContext.ExecContext.MakeHugepage | Assignment 4/GemOS/src/mmap.c:483-561 | In place: a refused request changes nothing and returns its error; an accepted one has the specified effect on list, frames and bytes, and returns the start of its first whole block; the node counter moves with the list. |
| ExecContext.AcceptedTouchesNothingHuge | Assignment 4/GemOS/src/mmap.c:497-502 | In the window an accepted request meets no huge area, so its precondition on the page table holds, whatever lies below the dummy. |
| ExecContext.ExecContext.BreakRound | Assignment 4/GemOS/src/mmap.c:614-653 | In place, one round on any list is the specified round on the list and hands exactly its part to the conversion, which keeps every byte. |
| ExecContext.RoundKeeps | Assignment 4/GemOS/src/mmap.c:614-653 | A round keeps the progress invariant that ties list, page table and bytes to the state before the call, whether the request fits or not. |
| ExecContext.ExecContext.BreakHugepage | Assignment 4/GemOS/src/mmap.c:605-656 | In place, for every request, the loop ends and the call is the specified step, with -9 for an empty or unaligned one and 0 else; the counter moves with the list but for the nodes it cuts off, and exactly with it when the request fits; when the call is safe, the invariant is kept. |
| Breakpoints.ApplyConsistent | Assignment 3/src/debug.c:183-282 | Each call keeps the list facts (no address twice, the counter is the length and at most 8, numbers increase from head to tail) and fails exactly when the address is not listed, or for a new one when there are 8. |
| Breakpoints.ApplyList | Assignment 3/src/debug.c:183-282 | The list after a call: the breakpoints at other addresses are the same, in the same order; the address is listed if and only if it was, or was set with room, and the call is no remove; a listed one keeps its number and its place and has the status of the call; a new one goes last, enabled, with the next number. |
| Breakpoints.ApplyMeans | Assignment 3/src/debug.c:183-282 | A call returns 0 if its address is listed or it sets one with room, else -1 and changes nothing; only a new breakpoint raises the last number; and the text gets INT3 for a new breakpoint or an enable of a disabled one, `push %rbp` for a disable of an enabled one, and no other byte changes. |
| Breakpoints.ArmedAfter | Assignment 3/src/debug.c:183-282 | Which addresses are listed and enabled after a call. |
| Breakpoints.CoherentIff | Assignment 3/src/debug.c:183-282 | A call keeps the text in agreement with the list (INT3 exactly at the enabled breakpoints) if and only if it is not a set of a disabled one or a remove of an enabled one. |
| Breakpoints.TrapFaithful | Assignment 3/src/debug.c:101-113 | The handler after an INT3 has on registers and memory the effect of the instruction that the INT3 replaced, and reports its address. |
| Breakpoints.StoreMeans | Assignment 3/src/debug.c:106-107 | The bytes that the handler and `push %rbp` store are those of the value, lowest first, one behind the other, around the end of the address space. |
| Breakpoints.StoredElsewhere | Assignment 3/src/debug.c:106-107 | No other byte changes. |
| Breakpoints.ExecuteUnpatched | Assignment 3/src/debug.c:198-198 | No instruction that does not trap reads a patched byte. |
| Breakpoints.Transparent | Assignment 3/src/debug.c:101-282 | Debugger transparency: under any interleaving of the four calls at stops, the debuggee follows exactly the unpatched program, and each stop reports the patched address that program is about to execute. |
| Breakpoints.GoesOn | Assignment 3/src/debug.c:101-373 | Nothing keeps the debuggee: from any point of any run, let go on at each stop, it executes any number of further instructions of the unpatched program, as long as there are any. |
| Breakpoints.StepMeans | Assignment 3/src/debug.c:101-113 | A call takes effect while the debuggee is stopped, and only on list, counters and text; a stopped debuggee executes nothing; and at an INT3 it stops and its place is recorded. |
| Breakpoints.StopsWhereArmed | Assignment 3/src/debug.c:183-282 | The list facts hold over every run, and if no call tears list and text apart, the debuggee stops at exactly the enabled breakpoints. |
| Breakpoints.DebugInfo.Lookup | Assignment 3/src/debug.c:186-193 | The walk finds the first node with the address and the node before it. |
| Breakpoints.DebugInfo.SetBreakpoint | Assignment 3/src/debug.c:183-211 | In place, the call is the specified one on list, counters and text. |
| Breakpoints.DebugInfo.RemoveBreakpoint | Assignment 3/src/debug.c:219-239 | The same for remove, which leaves the text alone. |
| Breakpoints.DebugInfo.EnableBreakpoint | Assignment 3/src/debug.c:244-257 | The same for enable. |
| Breakpoints.DebugInfo.DisableBreakpoint | Assignment 3/src/debug.c:262-282 | The same for disable, which leaves the breakpoint listed (`ApplyList`). |
| Breakpoints.DebugInfo.InfoBreakpoints | Assignment 3/src/debug.c:287-303 | Fills the caller's buffer with the list in order and returns its length; the rest of the buffer is untouched. |
| Scheduler.SleepLasts | Assignment 3/src/schedule.c:44-51 | A sleeper stays waiting until its last tick and is ready from then on. |
| Scheduler.AlarmLasts | Assignment 3/src/schedule.c:57-62 | The alarm of a process that runs goes off when its count runs out, and from then on every `alarm_config_time` ticks. |
| Scheduler.TickMeans | Assignment 3/src/schedule.c:38-149 | A tick, context by context: every sleeper counts down and wakes at its last tick; only the running process' alarm counts, and is set again when it runs out; the process that ran is ready; the first that can run in the cycle is picked, runs if it is another one, and then counts as a switch; nothing else changes. |
| Scheduler.NthIsACycle | Assignment 3/src/schedule.c:19-33 | The order in which processes are looked at visits every process but the swapper exactly once, the caller last. |
| Scheduler.PickIsPicked | Assignment 3/src/schedule.c:17-35 | The pick is the first ready process in that order, or the swapper when none is ready. |
| Scheduler.PickedOnce | Assignment 3/src/schedule.c:17-35 | That determines it. |
| Scheduler.PickGetsNearer | Assignment 3/src/schedule.c:17-35 | A pick either picks a given ready process or brings it nearer. |
| Fairness.PickStep | Assignment 3/src/schedule.c:17-35 | Whether the timer, an exit or a sleep picks, a process that is ready is picked or gets nearer. |
| Fairness.Fair | Assignment 3/src/schedule.c:17-149 | In every run of ticks, exits, sleeps, forks, context changes, traps and waits in which, until it is dispatched, no trap or wait puts more processes in front of it, a process that stays ready is dispatched within N-1 picks; a trap or wait that runs it dispatches it. |
| Fairness.FairTight | Assignment 3/src/schedule.c:112-149 | The bound is reached from every running process: when all are ready, a process waits its whole turn. |
| Fairness.SureIff | Assignment 3/src/schedule.c:17-35 | A ready process is sure to be dispatched within m picks, as long as nobody hands over, if and only if fewer than m processes are looked at before it. |
| Fairness.HandoffKeepsIff | Assignment 3/src/debug.c:101-113 | A trap or a wait that hands the processor over keeps every such promise to a process if and only if it puts no more processes in front of it. |
| Fairness.Starves | Assignment 3/src/debug.c:101-373 | Without that a ready process can wait forever: with seven processes and two debuggers there are runs of any number of picks, half of them by the timer, in which a process is always ready and never dispatched. |
| Scheduler.Kernel.PickNextContext | Assignment 3/src/schedule.c:17-35 | The wrap-around loop with its sentinel ends and returns the specified pick, for every number of processes from 2 on. |
| Scheduler.Kernel.SleepAndAlarmAccount | Assignment 3/src/schedule.c:38-65 | Every sleeper's count goes down and those at zero become ready; the alarm of the running process counts down. |
| Scheduler.Kernel.Schedule | Assignment 3/src/schedule.c:92-93 | The process runs and is current. |
| Scheduler.Kernel.HandleTimerTick | Assignment 3/src/schedule.c:112-149 | The tick is the specified one; a process that is picked again stays in state READY. |
| Scheduler.Kernel.DoFork | Assignment 3/src/entry.c:15-31 | The child is a copy that waits, debugs nothing and names its parent. |
| Scheduler.Kernel.Int3Handler | Assignment 3/src/debug.c:101-113 | The debuggee waits, the debugger is told the address before the trap and runs. |
| Scheduler.Kernel.DoWaitAndContinue | Assignment 3/src/debug.c:353-373 | The search by parent finds the first such context, which runs. |
| Scheduler.Kernel.DoExit | Assignment 3/src/entry.c:34-78 | The exit makes the parent ready with the exit code, unless a debugger exits, and picks the next process. |
| Scheduler.ForkMeans | Assignment 3/src/entry.c:15-31 | The child has its parent's registers and alarm, names it, waits and debugs nothing; nothing else changes and the parent runs on. |
| Scheduler.TrapMeans | Assignment 3/src/debug.c:101-113 | After a trap the debuggee waits with its registers unchanged and its parent runs, with the address before the trap in its result register; nothing else changes. |
| Scheduler.WaitMeans | Assignment 3/src/debug.c:353-373 | After a wait the caller waits and the first context that names it as parent runs; nothing else changes. |
| Scheduler.ExitMeans | Assignment 3/src/entry.c:34-78 | After an exit the context is unused; the parent of a process that debugs nothing has the exit code and is ready; then the process that was picked runs; nothing else changes. |
| Scheduler.ExitPicks | Assignment 3/src/entry.c:34-78 | That is the first process in the cycle, from the one that exits on, that is ready by then, the parent it has made ready included, or the swapper. |
| Handoff.TickKeeps | Assignment 3/src/schedule.c:112-149 | A timer tick keeps exactly one of debugger and debuggee able to run. |
| Handoff.StepKeeps | Assignment 3/src/debug.c:83-373 | So does every event; a trap hands over with the address, an exit with its code, a wait hands back. |
| Handoff.OthersMean | Assignment 3/src/schedule.c:38-149 | The events besides those of the two: a tick counts, the others change their contexts, their exits and sleeps let the pick decide, and their traps and waits run the one they name. |
| Handoff.OneAlwaysActive | Assignment 3/src/debug.c:83-373 | Over every run of forks, waits on the live child, traps, ticks, child exits, and exits, sleeps, traps and waits of others, exactly one of debugger and debuggee is ready or running. |
| Handoff.WaitExactIff | Assignment 3/src/debug.c:358-370 | A wait keeps that if and only if the first context naming the debugger as parent is the debuggee's, or its own. |
| MessageQueue.TextMeans | Assignment 2/gemOs/src/msg_queue.c:131-135 | The text of a buffer is what stands before its first NUL, or all of it. |
| MessageQueue.SameText | Assignment 2/gemOs/src/msg_queue.c:131-135 | Copying up to and with the NUL gives the same text, whatever lay behind it. |
| MessageQueue.LeaveExactIff | Assignment 2/gemOs/src/msg_queue.c:260-267 | Leaving removes exactly the caller if and only if the caller is a member; otherwise the last member is lost. |
| MessageQueue.ReceiveTakesOldest | Assignment 2/gemOs/src/msg_queue.c:77-109 | A receive returns the oldest message pending for the process and leaves all other pending messages in order; it returns nothing exactly when nothing is pending. |
| MessageQueue.SendReaches | Assignment 2/gemOs/src/msg_queue.c:112-161 | A send adds one copy, behind all that is pending, for exactly the members it reaches: not the sender of a broadcast, nobody who blocks the sender, only the addressee otherwise. |
| MessageQueue.SendReturns | Assignment 2/gemOs/src/msg_queue.c:122-160 | A send returns the number of members it reaches, or -1 when its one addressee blocks the sender it names. |
| MessageQueue.JoinMeans | Assignment 2/gemOs/src/msg_queue.c:163-180 | After a child has joined, exactly the members before and the child are members; messages and blocks stay; and the child is reached by what it does not block: by what names it, and by broadcasts of others. |
| MessageQueue.BlockMeans | Assignment 2/gemOs/src/msg_queue.c:234-251 | A block of a member returns 0 and adds exactly that pair; one of another process returns -1; nothing else changes. |
| MessageQueue.StepKeeps | Assignment 2/gemOs/src/msg_queue.c:77-275 | Every call keeps the accounting invariant. |
| MessageQueue.StepMeans | Assignment 2/gemOs/src/msg_queue.c:77-275 | What each call does as a process sees it: a message is accepted for whom it reaches, a receive takes the oldest one pending, a block of a member adds its pair, and joining and leaving change who is a member; nothing else does. |
| MessageQueue.QueueRuns | Assignment 2/gemOs/src/msg_queue.c:77-275 | Over every run, what each process received is a prefix of what was accepted for it and the rest is pending; the size is the sum of the non-negative send results less the receives, and of all pending counts. |
| MessageQueue.BlockedForGood | Assignment 2/gemOs/src/msg_queue.c:234-251 | Once a process has blocked a member, nothing that names it as sender is accepted for the process over any further run; what it sends itself gets there only under another name. |
| MessageQueue.BlockStopsIff | Assignment 2/gemOs/src/msg_queue.c:108-161 | A message sent to a member that blocks its sender is stopped if and only if the from field that the sender wrote is that of a process the member blocks: always under its own pid, never under that of one that is not blocked. |
| MessageQueue.MsgQueue.constructor | Assignment 2/gemOs/src/msg_queue.c:50-74 | A new queue: empty, the creator its only member, nothing blocked. |
| MessageQueue.MsgQueue.CopyText | Assignment 2/gemOs/src/msg_queue.c:96-100 | The copied text is the text up to its NUL. |
| MessageQueue.MsgQueue.Put | Assignment 2/gemOs/src/msg_queue.c:129-136 | One message more at the end of the buffer. |
| MessageQueue.MsgQueue.DoSend | Assignment 2/gemOs/src/msg_queue.c:112-161 | In place, the send is the specified one, with its result. |
| MessageQueue.MsgQueue.Broadcast | Assignment 2/gemOs/src/msg_queue.c:122-140 | The loop over the members. |
| MessageQueue.MsgQueue.Unicast | Assignment 2/gemOs/src/msg_queue.c:142-159 | The loop that looks for the addressee; -EINVAL when it blocks the sender. |
| MessageQueue.MsgQueue.DoReceive | Assignment 2/gemOs/src/msg_queue.c:77-109 | In place, finding, copying out and shifting in one loop is the specified receive. |
| MessageQueue.MsgQueue.GetMsgCount | Assignment 2/gemOs/src/msg_queue.c:216-232 | The count is the number of messages pending for the process. |
| MessageQueue.MsgQueue.DoBlock | Assignment 2/gemOs/src/msg_queue.c:234-251 | Only a member can be blocked. |
| MessageQueue.MsgQueue.AddChild | Assignment 2/gemOs/src/msg_queue.c:163-180 | A child becomes the last member of a queue. |
| MessageQueue.AddChildToAll | Assignment 2/gemOs/src/msg_queue.c:163-180 | The loop over the descriptors makes the child the last member of every queue behind one of them. |
| MessageQueue.MsgQueue.DoClose | Assignment 2/gemOs/src/msg_queue.c:253-275 | The last member takes the place of the one that leaves; the queue is freed exactly when nobody is left. |
| Tournament.PointIsFair | Assignment 1/Part2/2.2/umpire2.c:116-131 | For legal moves the point goes to the move that comes next to the other in the cycle of rock, paper and scissors; a legal move of the first player also gets it against anything that is no legal move, and nothing else gets a point. |
| Tournament.ScoreCounts | Assignment 1/Part2/2.2/umpire2.c:108-132 | For any answers, the score is the number of games that count for the first player (a legal move, not beaten and not equalled) and the number that the second wins. |
| Tournament.ScoreIsFair | Assignment 1/Part2/2.2/umpire2.c:108-132 | As long as both players make legal moves, it is the number of games each has won, by the cycle, and exchanging the sides exchanges the points. |
| Tournament.FairlyOut | Assignment 1/Part2/2.2/umpire2.c:134-135 | As long as both make legal moves, a match takes out the player who has won fewer games, and the second when they have won as many. |
| Tournament.PlayersAre | Assignment 1/Part2/2.2/umpire2.c:98-105 | The list gathered from the flags holds every active player once, in order. |
| Tournament.MatchesPair | Assignment 1/Part2/2.2/umpire2.c:89-106 | Each round pairs every active player but the walkover exactly once, and nobody else, each with the next one in play, in ascending order; there is a walkover exactly when the number is odd, and it is the active player whose place in the list was chosen. |
| Tournament.WinnersCount | Assignment 1/Part2/2.2/umpire2.c:106-138 | Every match takes out exactly one player. |
| Tournament.PlayMatch | Assignment 1/Part2/2.2/umpire2.c:108-135 | The scoring loop and its rule: it takes out the second player exactly when the first has at least as many points; for legal moves, when the first has won at least as many games. |
| Tournament.Gather | Assignment 1/Part2/2.2/umpire2.c:96-105 | The loop with the moving skip index writes the active players but the walkover. |
| Tournament.PlayMatches | Assignment 1/Part2/2.2/umpire2.c:106-138 | The match loop over the seats: the flags afterwards are those of the winners. |
| Tournament.PlayRound | Assignment 1/Part2/2.2/umpire2.c:86-138 | After a round the flags are those of the winners and of the walkover. |
| Tournament.Play | Assignment 1/Part2/2.2/umpire2.c:85-154 | For any number of players, moves and legal walkovers: one player remains, n-1 matches are played, in as many rounds as the base-2 logarithm of n rounded up; and in every round of the log exactly those are still in who were and whom no match takes out by its points. |
| FileStore.StepKeeps | Assignment 2/gemOs/src/file.c:125-211 | Names stay distinct, files within 4 KiB and every cursor within its file, also when a write is refused that has a byte to step back over. |
| FileStore.OpenSoundIff | Assignment 2/gemOs/src/file.c:188-211 | An open keeps that if and only if there is an inode left for a file that it creates; otherwise its descriptor refers to none. |
| FileStore.WriteMeans | Assignment 2/gemOs/src/fs.c:325-346 | A write changes the file of its descriptor to the overlaid bytes, and no other file. |
| FileStore.OpenMeans | Assignment 2/gemOs/src/file.c:188-211 | An open changes no file, and creates an empty one exactly when the name is new and creation was asked for. |
| FileStore.OpenGives | Assignment 2/gemOs/src/file.c:188-211 | An open returns the lowest free descriptor from 3 on, at the start of the file of that name and with the flags as its mode, and moves no other; without a file, and not asked to create it, -1. |
| FileStore.ReadMeans | Assignment 2/gemOs/src/file.c:125-134 | A read returns the bytes from the cursor on, as many as asked for or as there are, and moves its cursor behind them; -4 without the mode; it changes nothing else. |
| FileStore.WriteMoves | Assignment 2/gemOs/src/file.c:138-147 | A write returns how many bytes it has written and moves its own cursor behind them; -4 without the mode; -1, and one back, when they do not fit into 4 KiB. |
| FileStore.SeekMeans | Assignment 2/gemOs/src/file.c:160-186 | For an offset that an int holds: a seek goes so many bytes from the start, from the cursor or from the end, returns that and moves nothing else, if it lies in the file or at its end; otherwise, and for any other origin, it returns -1 and changes nothing. |
| FileStore.ModeBits | Assignment 2/gemOs/src/file.c:188-211 | The bits of a mode: 1 to read, 2 to write, 8 to create; other bits do not matter. |
| FileStore.FailedWriteIff | Assignment 2/gemOs/src/file.c:138-147 | A write that does not fit returns -1 and changes no file; it leaves the cursor within the file if and only if the cursor was not at the start, where it goes to offset -1. |
| FileStore.WriteBeforeStart | Assignment 2/gemOs/src/fs.c:325-346 | The next write from there, through the same descriptor, is not refused: it replaces the last byte of the full file that lies before in memory, only the rest goes to its own file, and the cursor is behind that. |
| FileStore.ReadBeforeStart | Assignment 2/gemOs/src/fs.c:299-323 | The next read from there gets the last byte of that other file first, and then those of its own. |
| FileStore.StepAgrees | Assignment 2/gemOs/src/file.c:125-211 | Each call does to files and cursors, and returns, what a map from names to bytes with one handle for each descriptor says. |
| FileStore.RunAgrees | Assignment 2/gemOs/src/file.c:125-211 | So does every run, through any number of descriptors of one file. |
| FileStore.ReadBack | Assignment 2/gemOs/src/fs.c:299-346 | What was written is read back, through any descriptor of the file. |
| FileStore.WrittenNodes | Assignment 2/gemOs/src/fs.c:325-346 | Bytes written into the memory of one file are a write to that file alone: no other file shares its memory. |
| FileStore.ReadRefines | Assignment 2/gemOs/src/file.c:125-134 | A read at the level of memory, wherever the cursor is, is the read of the file when the cursor is within it. |
| FileStore.WriteRefines | Assignment 2/gemOs/src/file.c:138-147 | A write at the level of memory, wherever the cursor is, is the write to that file alone when the cursor is within it. |
| FileStore.FileSystem.constructor | Assignment 2/gemOs/src/fs.c:48-88 | A new store: no files, disjoint memory for each inode. |
| FileStore.FileSystem.LookupInode | Assignment 2/gemOs/src/fs.c:202-212 | Finds the first valid inode of that name. |
| FileStore.FileSystem.GetFreeInode | Assignment 2/gemOs/src/fs.c:226-237 | Finds the first free inode, or -1. |
| FileStore.FileSystem.CreateInode | Assignment 2/gemOs/src/fs.c:240-271 | Makes an empty file in the first free inode if the name is new and there is room; otherwise changes nothing and returns -1. |
| FileStore.FileSystem.FlatRead | Assignment 2/gemOs/src/fs.c:299-323 | For any offset, also a negative one, copies the bytes from there up to the end of the file, and leaves the rest of the buffer alone. |
| FileStore.FileSystem.FlatWrite | Assignment 2/gemOs/src/fs.c:325-346 | For any offset, overlays the bytes in memory and updates the size; refuses what does not fit. |
| FileStore.FileSystem.DoRead | Assignment 2/gemOs/src/file.c:125-134 | In place, wherever the cursor is, the read is the specified one and moves the cursor by what it read. |
| FileStore.FileSystem.DoWrite | Assignment 2/gemOs/src/file.c:138-147 | In place, wherever the cursor is, the write is the specified one, and moves the cursor back by one when it does not fit. |
| FileStore.FileSystem.DoLseek | Assignment 2/gemOs/src/file.c:160-186 | The cursor goes to the target, after the conversion to a 32-bit integer, if that lies within the file; otherwise nothing changes. |
| FileStore.FileSystem.DoOpen | Assignment 2/gemOs/src/file.c:188-211 | In place, the open is the specified one and returns the first free descriptor, with or without an inode to spare. |

## Left out

Assumed, because these parts belong to the kernel outside the modelled files:

- The allocators: a frame or node that is handed out is fresh, lies in its region, and a table frame holds no present entry; a node's next pointer starts as NULL. The methods require enough free frames; running out is not modelled, and nothing is claimed of the number of free frames. Freeing a page twice (mmap.c:463-464) is one insertion into the free set. Freed nodes keep their fields until the loop has read them. When a new node merges with the one behind it, mmap.c:304 frees the node after both, which is still in the list or NULL, instead of the merged one; freeing is only counted here, which comes to the same number, so the model does not show that.
- `osmap`, `get_hugepage_pfn` and `memcpy`: frames are addressed by number, and bytes copied whole.
- `copy_mm`, `setup_child_context` and `get_new_ctx`: the fork is given a free context, and debugger and debuggee share the patched text.
- `get_ctx_by_pid`: a context's pid is its place in the table.

Virtual memory:

- TLB flushes, CR3, the write bits of upper-level entries, and signal delivery are hardware effects or plumbing; only translations are modelled. Protection is not checked in `vm_area_pagefault`, and the end of the mmap area is not enforced by `vm_area_map`, so neither is here.
- Addresses are those of the 48-bit space; areas end at or below its top. Faults are below it.
- AreaList.VmAreaList.Map: the length is at most 0x7FFFF000, since the sum of `int` in mmap.c:316 overflows above it.
- AreaOps.TakenIs: the same bound on the length, here and in `MapExact` and `MapFreeIff`; with longer ones than an `int` holds the wrapped difference of first fit could be smaller than the request.
- ExecContext.ExecContext.Unmap: the length is at most 0x7FE00000, for the same reason in mmap.c:403.
- ExecContext.ExecContext.MakeHugepage: an accepted request must end its loop (a full block, or no area over its aligned start) and meet nothing huge, which the scans ensure in the window (`AcceptedTouchesNothingHuge`); beyond that the code would write over 2 MiB leaves.
- ExecContext.ExecContext.BreakHugepage: for a request that does not fit there must be frames for all its blocks in every round, although blocks already in 4 KiB frames need none again.
- Paging.PageTable.CopyToSmall: does not say which pages of a block that maps nothing get a frame; that depends on whether the block has an empty table, which the translations do not show (`DemoteBlock` says it block by block).
- Paging.PageTable.FreeHuge: the global `present` only selects a call that changes nothing, so it is not a variable here.
- AreaList.VmAreaList.constructor: the dummy is made with the list, not at the first map; `vm_area` is never NULL.
- Paging.PageTable.GrowStack: for a page-aligned `next_free`; with another one the loop of entry.c:262 does not stop at the faulting page. It installs the last page twice, as the code does.
- ExecContext.ExecContext.DoPageFault: the segments lie outside the mmap range and hold no huge leaf; `validate_page_table` and the signal are not modelled.

Debugger and scheduler:

- Breakpoints.Transparent: breakpoints are set on one-byte `push %rbp` instructions, instructions do not overlap and none of the program is INT3; programs that read or write their own text are not modelled.
- Breakpoint numbers and counters are unbounded here; 2^31 breakpoints would be needed to see the difference. A node can always be allocated.
- `do_info_registers`, `do_backtrace` and the freeing in `debugger_on_exit`: what they read is never filled in, or has no effect that the model could see.
- Handoff.OneAlwaysActive: one debuggee at a time, neither process sleeps, and other processes are neither children of the two nor change their contexts or hand the processor to them. A process whose parent is one of them would make it ready when it exits.
- Register saving, stack and address space switching in `schedule` and `handle_timer_tick`; the SIGALRM itself; file and memory cleanup on exit, and the shutdown when no process is left.

Message queue, tournament, file store:

- MessageQueue.MsgQueue.DoSend: the code does not check the capacity of 128 messages, the bound of 8 on pids or that of 4 on members; they are preconditions, as is that members are distinct.
- MessageQueue.AddChildToAll: each queue is behind one descriptor; the code reads through the NULL of a descriptor that is not open, which has no queue here.
- MessageQueue.MsgQueue.DoClose: a caller that is no member needs a free place in the member array.
- The error for a descriptor that is no message queue, and `do_msg_queue_get_member_info`, a copy of the members.
- Reading the number of players, starting the players and talking to them through pipes; moves and walkovers are arbitrary inputs. Without players the round loop does not end.
- FileStore.FileSystem.DoOpen: a descriptor must be free; the code does not check. Names shorter than 256 characters, and counts below 2^31. A descriptor of no inode cannot be used.
- FileStore.FileSystem.DoRead: the cursor, taken as an `int`, points at or above address 0; `DoWrite` likewise.
- Removing files, `dup2`, closing, reference counts, `sendfile`, pipes and the standard streams: reference counts are not raised by `dup2`, and `sendfile` writes more than it read.
- Assignment 1's command execution and the test programs: input and output plumbing.
