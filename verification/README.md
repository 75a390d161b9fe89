# Vest-OS: a verified model of memory management and the terminal stack

Vest-OS is a small x86 kernel. This Dafny project models its hard parts and
proves what they promise. Run `dafny verify dfyconfig.toml` to check it.

## What is modelled

`Common` holds what all modules share: the 32-bit word, control characters and
the size of the screen.

**Kernel heap** (`kernel/memory.c`). The allocator keeps its headers in the heap
array. `HeapBlocks` is the theory of block chains as values: first fit, splitting,
merging, what is live. `HeapLayout` says when the words of an array encode a
chain, and what each store does to that encoding. `KernelHeap.Heap` is the object
with the array itself; its methods store into it exactly where the code does.
Pointers are byte addresses, the array is an array of 32-bit words (every header
offset is a multiple of 4), the heap's size and address are parameters.

**Lock and interrupts** (`kernel/spinlock.c`). `HeapLocking` interleaves any number
of CPUs, each with a stack of interrupted contexts, one store of the heap section
at a time, with interrupts arriving and client code writing to its own blocks in
between. Every such run is equivalent to a sequential one.

**Page frames and page tables** (`src/kernel/core/memory.c`). `PageTables` is the
32-bit two-level format (Intel SDM Volume 3A, section 4.3) as a flat map;
`PageOwnership` adds who owns each frame and follows it over whole runs;
`PageFrames` has the objects that are updated in place.

**Copies** (`kernel/string.c`, `drivers/tty/vga.c`). `Copying` says exactly when an
element-by-element copy inside one buffer is right.

**Terminal stack**. `VgaScreen` and `VgaDriver` (`drivers/tty/vga.c`), `Console`
(`src/kernel/drivers/tty/tty.c`), `TtySpec`, `Ring` and `Tty` (`drivers/tty/tty.c`),
`Keyboard` (`drivers/tty/keyboard.c`), `TerminalSpec` and `Terminal`
(`kernel/terminal.c`; control sequences as in section 5.4 of ECMA-48).
`TerminalScreen` joins a terminal and the tty it writes to.

**Formatting** (`kernel/string.c`). `FormatSpec` is the unbounded formatting and
reading numbers back, `Formatting` the truncating `vsnprintf`.

In each pair the class or method file is the code as it runs, proved against
functions on values; the lemmas about those functions are the results.

## Where the code is not what its comments say

- `vga_tab` never ends from column 72 on: the next stop is 80, which the wrapping
  cursor does not reach. `VgaScreen.TabEnds` gives the exact condition, and
  `TtySpec.CookedAlwaysWrites` shows that cooked output with tab expansion cannot
  get there.
- `vga_scroll_lines` moves the cursor home when asked for 25 lines or more, which
  single scrolls never do (`VgaScreen.ScrollLinesIsRepeated`).
- `vga_copy_region` and `memcpy` overwrite cells they have yet to read for some
  overlaps (`VgaDriver.CopyRegionExact`, `Copying.MemcpyExact`).
- `ESC [ 0 m` is meant to restore the default colours and does so only when they
  are set already (`TerminalSpec.ResetExact`, `TerminalSpec.ResetKeepsPick`). The
  colours 30 to 37 and 40 to 47 have red and blue the wrong way round
  (`TerminalSpec.NamedColourExact`, `TerminalSpec.PickRedShowsBlue`).
- `ESC [ J` and `ESC [ m` without a number do nothing (`FormatSpec.BareOthersIgnored`);
  the standard lets them clear from the cursor and reset.
- A position sequence can put the cursor off the screen (`TerminalSpec.CursorExact`,
  `TerminalSpec.Line100OffScreen`). `ESC [ 2 J` takes the tty's cursor home but not
  the terminal's (`TerminalSpec.AgreementExact`, `TerminalSpec.ClearDisagrees`).
- `terminal_write` passes on all bytes, so those of a sequence are printed as well as
  obeyed, and the terminal's own cursor does not follow what is printed
  (`TerminalScreen.WriteAgreementExact`, `TerminalScreen.RightAndClear`).
- `get_physical_address` answers 0 both for "not mapped" and for physical address
  0 (`PageTables.ZeroAddress`).
- A `kmalloc` request for which `size + 31` wraps is rounded to 0 bytes and can
  succeed with a block that is too small; these are the only such requests
  (`KernelHeap.GrantedEnough`, `KernelHeap.WrappingRequestSucceeds`). A `krealloc` to
  such a size may copy past the new block (`KernelHeap.MoveRoom`,
  `KernelHeap.WrappingReallocOverruns`).
- Backspace does not always undo the echo of a key: tabs, control characters and
  the last cell of the screen are the exceptions (`TtySpec.BackspaceErasesEcho`).
- `unmap_page` of a page that maps one of the directory's own tables frees that
  table while the directory still uses it (`PageTables.UnmapKeepsTables`,
  `PageTables.SelfMappedTableFreed`).
- `map_page` under a table that exists already gives at most the rights the table's
  directory entry was created with, whatever the flags (`PageTables.RightsGranted`,
  `PageTables.NeighbourLimitsRights`).
- `map_page` at a page that is mapped already loses the frame mapped there: it stays
  used for ever (`PageOwnership.StrayStep`, `PageOwnership.NoFrameLost`,
  `PageOwnership.RemapLosesFrame`).
- The `cursor` field that `kernel/terminal.c` uses is missing from
  `include/kernel/terminal.h`; the model has it, with coordinates of 8 bits as in
  `include/drivers/vga.h`. The body of `sscanf` is not part of this model; its
  `"%d;%d"` follows the rules of ISO C, section 7.21.6.2.

## Model

| member | source | states |
|---|---|---|
| `HeapBlocks.LiveDisjoint` | kernel/memory.c:57-67 | Two live blocks never overlap: between the payload of the lower one and that of the upper one there is room for the upper one's header. |
| `HeapBlocks.AllocateLive` | kernel/memory.c:93-113 | A successful allocation adds exactly one live block, at an offset that was not live, of at least the requested size; every other live block and the heap size stay. |
| `HeapBlocks.AllocateKeepsCoalesced` | kernel/memory.c:57-67 | Allocation, with or without a split, creates no two neighbouring free blocks. |
| `HeapBlocks.ReleaseLive` | kernel/memory.c:118-131 | A release takes exactly the freed block out of the live ones, keeps the heap size, and leaves no two free neighbours. |
| `HeapBlocks.ReleaseUndoesAllocate` | kernel/memory.c:57-131 | Freeing what was just allocated restores the chain block for block. |
| `HeapBlocks.ReleaseAllRestoresInitial` | kernel/memory.c:118-131 | Freeing all live pointers, in any order, leaves one free block that fills the heap. |
| `HeapBlocks.PerformedBySections` | kernel/memory.c:136-159 | What an allocation, a release or a reallocation does to the chain is what the locked sections it enters do one after the other: none for a block large enough, one failed allocation, or an allocation and a release. |
| `HeapBlocks.RunInvariant` | kernel/memory.c:29-159 | After any run of allocations, releases and reallocations the chain still fills the heap, has no two free neighbours, and no block below 32 bytes as long as no request is. |
| `HeapBlocks.RunThenFreeAll` | kernel/memory.c:29-159 | However a run goes, freeing the pointers still live, in any order, gives back the block that `memory_init` made. |
| `HeapBlocks.WasteBounded` | kernel/memory.c:57-159 | In every heap that a run of allocations, releases and reallocations reaches, each live block has the bytes it was rounded to and at most 44 more. |
| `HeapBlocks.WholeOrTakenWhole` | kernel/memory.c:57-159 | Over runs of rounded requests each live block is exactly its request, a multiple of 32 bytes, or a block taken whole with at most 44 bytes beyond it. |
| `HeapBlocks.FitsIffGap` | kernel/memory.c:43-81 | First-fit finds a block if and only if some stretch between live blocks holds a header and the requested words: memory is never refused because free space lies in pieces next to each other. |
| `HeapLayout.SplitMemEncodes` | kernel/memory.c:57-67 | The five stores of `split_block` turn the headers of the old chain into those of the cut chain, and nothing outside the split block changes. |
| `HeapLayout.AbsorbEncodes` | kernel/memory.c:74-76 | The two stores of `merge_blocks` turn the headers of a chain into those of the chain with two neighbours fused. |
| `HeapLayout.ObjectsDisjoint` | kernel/memory.c:93-113 | The payloads of two objects occupy disjoint words of the heap array. |
| `HeapLayout.TakeObjects` | kernel/memory.c:103-109 | Taking a block adds one object and leaves the contents of all others as they were. |
| `HeapLayout.ObjectsCopied` | kernel/memory.c:152-154 | Copying into an object changes that object's leading words only, and no header. |
| `KernelHeap.RoundUpBounds` | kernel/memory.c:99 | Rounding gives at least the requested bytes and less than 32 more, unless `size + 31` wraps, and then it gives 0. |
| `KernelHeap.RoundUpExact` | kernel/memory.c:99 | Every rounded request is a multiple of 32 bytes; unless rounding wraps it is the least one that holds the size, and no other. |
| `KernelHeap.GrantExact` | kernel/memory.c:57-67 | The block found is cut to the request exactly if more than 44 bytes, a header and BLOCK_SIZE, would be left over; otherwise it is granted whole. |
| `KernelHeap.ThirtyTwoBytes` | kernel/memory.c:93-113 | Two requests for 32 bytes to a fresh heap get the blocks at bytes 12 and 56, and a heap of 44 bytes holds exactly one. |
| `KernelHeap.MinimumKept` | kernel/memory.c:93-113 | An allocation leaves a block below BLOCK_SIZE exactly when the rounding wraps and the block taken is large enough to be split. |
| `KernelHeap.GrantedEnough` | kernel/memory.c:93-113 | A granted block holds at least the bytes asked for if and only if `size + 31` does not wrap. |
| `KernelHeap.WrappingRequestSucceeds` | kernel/memory.c:93-113 | A request for 0xFFFFFFFF bytes to a fresh heap is granted, with a block of no bytes. |
| `KernelHeap.MoveRoom` | kernel/memory.c:151-154 | For a reallocation that has to move and finds a block: the old contents fit the new block if and only if rounding does not wrap, or the old block has no words, or the block found is too small to be split and no smaller than the old one. |
| `KernelHeap.WrappingReallocOverruns` | kernel/memory.c:136-156 | Reallocating the only block of a heap to 0xFFFFFFFF bytes gets a block of no words; the first word copied into it is the header of the free block behind it. |
| `KernelHeap.ClearedBytes` | kernel/memory.c:213-219 | Clearing the first `size` bytes of an object makes exactly those bytes 0. |
| `KernelHeap.Heap.constructor` | kernel/memory.c:29-38 | The heap starts as one free block with no live object. |
| `KernelHeap.Heap.FindBlock` | kernel/memory.c:43-52 | Walking the links from `heap_head` finds the first free block that is large enough, NULL if there is none. |
| `KernelHeap.Heap.SplitBlock` | kernel/memory.c:57-67 | The stores made are those of a split, and none when the rest would be too small. |
| `KernelHeap.Heap.KmallocFlags` | kernel/memory.c:93-113 | NULL exactly for size 0 or when no gap between live blocks holds a header and the least multiple of 32 bytes that is at least `size`, with the heap as it was; otherwise the first fit is split and taken, one object is added and no other object changes; the new object holds `size` bytes exactly if rounding does not wrap. |
| `KernelHeap.Heap.MergeBlocks` | kernel/memory.c:71-81 | The merge loop fuses every pair of free neighbours and keeps every object. |
| `KernelHeap.Heap.Kfree` | kernel/memory.c:118-131 | Exactly the freed object disappears; all others keep their contents; NULL does nothing. |
| `KernelHeap.Heap.KfreeUndoesKmalloc` | kernel/memory.c:93-131 | Freeing the pointer just allocated restores the block chain. |
| `KernelHeap.Heap.Krealloc` | kernel/memory.c:136-159 | For every size, except exactly those live pointers and sizes for which the copy would overrun the new block: large enough, nothing happens; otherwise all or nothing, NULL exactly when there is no gap, with the heap untouched, or a block that begins with all of the old contents, the old object gone and every other object as it was; in every case the chain is that of the one reallocation RunInvariant is about. |
| `KernelHeap.Heap.Kzalloc` | kernel/memory.c:213-219 | As `kmalloc`, and the first `size` bytes are 0; for every size, except exactly those that are granted a block with fewer bytes (GrantedEnough). |
| `HeapLocking.SectionStep` | kernel/memory.c:43-81 | Each step of the locked section, which is at most one store with the loads before it, keeps what must be true of the half-updated memory at that point. |
| `HeapLocking.LoadsAreStable` | kernel/memory.c:43-81 | Taking the loads of a step together loses nothing: whatever another CPU does before the step of the lock's holder, the step loads the same values, goes on at the same place and leaves the same memory as in the other order. |
| `HeapLocking.InvStep` | kernel/spinlock.c:23-73 | Every step of every CPU, interrupts and client stores included, keeps the invariant. |
| `HeapLocking.MutualExclusion` | kernel/spinlock.c:23-73 | In every reachable state, for any number of CPUs: at most one is inside the heap section, it has interrupts off, none of its own contexts spins on the lock, and while the lock is free the headers tile the heap without free neighbours. |
| `HeapLocking.FlagRestored` | kernel/spinlock.c:61-73 | When a call ends, the interrupt flag is what it was when the call began. |
| `HeapLocking.SectionIsAtomic` | kernel/memory.c:101-130 | When a section ends, its interleaved stores have had exactly the effect of one whole allocation or release, and it returns the pointer that allocation gives. |
| `HeapLocking.Linearised` | kernel/memory.c:93-131 | For every interleaved run: whenever the lock is free, the chain is what the finished calls make of the initial block when they run one after the other in the order in which their sections ended; and a call about to end returns what it would return after those. |
| `HeapLocking.InterleavedThenFreeAll` | kernel/memory.c:29-131 | After any interleaved run, once the lock is free, freeing what is live in any order leaves the initial block. |
| `HeapLocking.SizeWordTrue` | kernel/memory.c:146-149 | The size word of a live block is true in every reachable state, also while another CPU is in the middle of a split or merge, so `krealloc` may read it without the lock. |
| `HeapLocking.LiveStable` | kernel/memory.c:71-81 | A live block's header and words change only when its owner writes to them, and it stops being live only when it is freed. |
| `HeapLocking.LiveOverRuns` | kernel/memory.c:146-149 | Over any run in which nobody frees or writes a live block it stays live and keeps its size word and contents, whatever the other CPUs do. |
| `HeapLocking.CopyUnderInterleaving` | kernel/memory.c:151-156 | The copy `krealloc` makes outside the lock, its stores interleaved with any steps of other CPUs, leaves the new block with the contents the old one had at the start. |
| `HeapLocking.ReallocUnderInterleaving` | kernel/memory.c:136-159 | A whole `krealloc` that has to move, its allocation, copy and release interleaved with any steps of other CPUs: NULL exactly when no block fitted while it held the lock, the old block live and unchanged; otherwise another block with room for the request, which in the end begins with what the old block held when the call began, and the old block is live no more. |
| `HeapLocking.HolderProgress` | kernel/spinlock.c:23-38 | The CPU that holds the lock can always take its next step and no other kind of step, and each brings the release nearer. |
| `HeapLocking.OthersKeepHolder` | kernel/spinlock.c:23-46 | No step of another CPU releases the lock, moves its holder, or changes the chain. |
| `HeapLocking.WaitBounded` | kernel/spinlock.c:23-46 | In every run in which the holder takes more than a fixed number of steps, given by the size of the heap, the lock becomes free, however many steps the others take in between. |
| `HeapLocking.SpinTakes` | kernel/spinlock.c:23-30 | Any CPU that tries the lock while it is free holds it next and is inside the section, at the start of its own call. |
| `HeapLocking.CallCompletes` | kernel/memory.c:93-131 | A call that any CPU enters is over after a fixed number of its own steps, given by the size of the heap and not counting tries of a taken lock, whatever interrupts and other CPUs do in between; it executes exactly the operation it was entered with, once. |
| `PageTables.MapMapping` | src/kernel/core/memory.c:175-208 | `map_page` changes what the two levels map for exactly one page, also when it has to allocate and clear a table first. |
| `PageTables.MapDirectory` | src/kernel/core/memory.c:184-194 | `map_page` leaves all 1024 directory entries alone when the page has a table; otherwise it changes exactly the entry of the page, to a frame that was free with `flags | 1` as its low 12 bits. |
| `PageTables.MapRights` | src/kernel/core/memory.c:175-208 | With the rights of a page being those that both levels allow: `map_page` at a page without a table gives exactly the rights in the flags, at a page with one those that its directory entry allows too, and changes the rights of no other page. |
| `PageTables.RightsGranted` | src/kernel/core/memory.c:184-201 | The page gets the rights asked for if and only if its table is new or its directory entry already allows them. |
| `PageTables.NeighbourLimitsRights` | src/kernel/core/memory.c:184-201 | A page mapped under a table that another mapping created has only rights that both asked for. |
| `PageTables.UnmapMapping` | src/kernel/core/memory.c:213-244 | `unmap_page` removes exactly its page from the map, whatever frame the page mapped. |
| `PageTables.UnmapKeepsTables` | src/kernel/core/memory.c:231-236 | It frees a table of the directory itself exactly when the page mapped one. |
| `PageTables.SelfMappedTableFreed` | src/kernel/core/memory.c:231-236 | A directory whose first table maps itself: unmapping its page makes that table the next frame to be handed out. |
| `PageTables.MapAddress` | src/kernel/core/memory.c:175-271 | After `map_page` the 4096 addresses of the page translate into the frame at the same offset, every other address as before. |
| `PageTables.ZeroAddress` | src/kernel/core/memory.c:249-271 | The result 0 is ambiguous exactly for an unmapped page and for physical address 0. |
| `PageTables.UserHalf` | src/kernel/core/memory.c:133-154 | The user half ends at 0xC0000000: directory entries below 768 are those of lower addresses. |
| `PageTables.LowestFree` | src/kernel/core/memory.c:82-90 | The frame found is free, and every lower frame is used. |
| `PageTables.CountSet` | src/kernel/core/memory.c:84-86 | Setting or clearing one used flag changes the number of used frames by one. |
| `PageOwnership.MapOthers` | src/kernel/core/memory.c:175-208 | `map_page` on one directory changes no translation of another. |
| `PageOwnership.UnmapFacts` | src/kernel/core/memory.c:213-244 | `unmap_page` removes one translation of one directory, and no directory loses a table. |
| `PageOwnership.WriteStep` | src/kernel/core/memory.c:175-244 | Stores into frames that callers or processes own change no translation of any directory. |
| `PageOwnership.InvStep` | src/kernel/core/memory.c:78-244 | Every operation, mapping over a mapped page included, keeps the record of owners exact: used frames are the owned ones, and an entry is recorded for a frame if and only if it reaches it. |
| `PageOwnership.KernelAlways` | src/kernel/core/memory.c:133-136 | In every reachable state the kernel half of every directory maps only kernel frames and addresses outside the pool. |
| `PageOwnership.SingleOwner` | src/kernel/core/memory.c:78-244 | In every reachable state no frame is mapped at two user pages or serves as two user tables, and no frame mapped at a user page is a table of any directory or mapped by a kernel half. |
| `PageOwnership.AllocatedIsUnreached` | src/kernel/core/memory.c:78-95 | `alloc_page_frame` never returns a frame that a live directory uses as a table or maps at any page, in either half. |
| `PageOwnership.StrayStep` | src/kernel/core/memory.c:175-208 | A step makes a frame used without being the kernel's, a caller's or reached by any directory if and only if it is `map_page` at a mapped user page and the frame is the one that page mapped; such a frame stays so for ever. |
| `PageOwnership.NoFrameLost` | src/kernel/core/memory.c:78-208 | In every reachable state the used frames that are neither the kernel's, nor in a caller's hands, nor reached by a live directory are exactly the frames that some `map_page` of the run mapped over. |
| `PageOwnership.RemapLosesFrame` | src/kernel/core/memory.c:78-208 | The run that shows it: allocate and map a frame, allocate another and map it at the same page; the first frame is lost. |
| `PageOwnership.DestroyGivesBack` | src/kernel/core/memory.c:144-170 | Destroying a directory frees exactly the user tables and user frames it reaches; the kernel half, callers' frames and those of other directories stay. |
| `PageFrames.MemoryManager.constructor` | src/kernel/core/memory.c:57-69 | The pool starts with the kernel's frames used and both counters right. |
| `PageFrames.MemoryManager.AllocPageFrame` | src/kernel/core/memory.c:78-95 | Marks the lowest free frame, returns its address, and keeps free + used = total with `used_pages` counting the flags. |
| `PageFrames.MemoryManager.FreePageFrame` | src/kernel/core/memory.c:100-117 | Clears the flag of a frame in the pool, counts it once, and ignores an address outside the pool or a frame already free. |
| `PageFrames.MemoryManager.CreatePageDirectory` | src/kernel/core/memory.c:122-139 | An empty user half and the boot directory's kernel half. |
| `PageFrames.MemoryManager.MapPage` | src/kernel/core/memory.c:175-208 | The loops and stores have the effect of the flat-map update that MapMapping is about. |
| `PageFrames.MemoryManager.UnmapPage` | src/kernel/core/memory.c:213-244 | As UnmapMapping; -1 exactly when the page has no table. |
| `PageFrames.MemoryManager.GetPhysicalAddress` | src/kernel/core/memory.c:249-271 | Reads the flat map. |
| `PageFrames.MemoryManager.DestroyPageDirectory` | src/kernel/core/memory.c:144-170 | Both nested loops together clear the flags of exactly the frames the directory reaches; nothing happens to the boot directory. |
| `Copying.CopyExact` | kernel/string.c:158-165 | A copy loop gives the destination the source's old contents, for every buffer, if and only if no pass overwrites what a later pass reads. |
| `Copying.ForwardSafeExact` | kernel/string.c:174 | The test in `memmove` is exactly the condition under which a forward copy cannot go wrong. |
| `Copying.MemcpyExact` | kernel/string.c:158-165 | `memcpy` is right for all contents if and only if the destination does not start inside the source behind its first byte. |
| `Copying.Memcpy` | kernel/string.c:158-165 | Its loop is the forward copy those lemmas are about. |
| `Copying.Memmove` | kernel/string.c:170-189 | For every overlap the destination gets the source's old contents and nothing else changes. |
| `Copying.Memset` | kernel/string.c:194-200 | Exactly the n cells are set. |
| `Copying.BadOverlapExact` | drivers/tty/vga.c:342-348 | A rectangle copy can overwrite what it has yet to read if and only if the destination is later in the buffer and the rectangles overlap. |
| `VgaScreen.TabEnds` | drivers/tty/vga.c:284-290 | The loop of `vga_tab` ends if and only if the cursor is before column 72, and then at the next multiple of 8. |
| `VgaScreen.ScrollLinesIsRepeated` | drivers/tty/vga.c:213-261 | `vga_scroll_lines(n)` leaves the buffer of n single scrolls, for every n; the cursor differs exactly when n clears the screen with the cursor away from home. |
| `VgaScreen.ShowsAll` | drivers/tty/vga.c:165-305 | Whatever is printed, the screen is the bottom 25 lines of an unbounded page on which the same text is written without scrolling, with the same cursor, in range. |
| `VgaScreen.ScrollbackAll` | drivers/tty/vga.c:213-279 | Lines of the page that have left the screen never change again. |
| `VgaScreen.PrintableText` | drivers/tty/vga.c:180-189 | Printable text lands in consecutive cells of the page from the cursor on; no other cell changes. |
| `VgaScreen.LinesOfText` | drivers/tty/vga.c:165-195 | Lines of fewer than 80 characters, each followed by a newline, stand one below the other from column 0 on; new lines are blank, nothing else changes, and the cursor ends at the start of the next line. |
| `VgaScreen.ReturnOverwrites` | drivers/tty/vga.c:176-178 | Text after a carriage return overwrites the line from its first column, and nothing else. |
| `VgaScreen.TabBlanks` | drivers/tty/vga.c:170-172 | A tab writes blanks up to the next cell whose place is a multiple of 8, and nothing else. |
| `VgaScreen.BackspaceBlanks` | drivers/tty/vga.c:173-175 | A backspace blanks the cell before the cursor and goes there, across the start of a line but not past the first visible cell. |
| `VgaScreen.PrintedOne` | drivers/tty/vga.c:179-190 | Each character from the space to '~' fills the cell under the cursor. |
| `VgaScreen.OthersIgnored` | drivers/tty/vga.c:165-195 | Every other character changes nothing. |
| `VgaScreen.ColorParts` | include/drivers/vga.h:202-204 | The colour byte has the foreground in its low four bits and the background in its high four. |
| `VgaScreen.ClearShows` | drivers/tty/vga.c:52-64 | A cleared screen shows an empty page in the current colour with the cursor at the top left. |
| `VgaScreen.PlacedCell` | drivers/tty/vga.c:152-160 | Writing at a place changes the one cell there, if it is on the screen. |
| `VgaScreen.CursorClamped` | drivers/tty/vga.c:86-96 | A place on the screen is where the cursor goes, and for others the nearest place. |
| `VgaScreen.NoScroll` | drivers/tty/vga.c:266-279 | Without automatic scrolling a newline on the last line moves no cell. |
| `VgaScreen.EraseExact` | drivers/tty/vga.c:165-305 | Printing a key and then backspace, blank, backspace leaves only a blank under an unmoved cursor exactly when the key takes one cell other than the last one of the screen, or shows nothing with the cursor at the top left. |
| `VgaDriver.Vga.ClearScreen` | drivers/tty/vga.c:52-65 | Every cell blank in the current colour, cursor home. |
| `VgaDriver.Vga.PutCharAt` | drivers/tty/vga.c:152-160 | Changes the one cell, and nothing off the screen. |
| `VgaDriver.Vga.ScrollLine` | drivers/tty/vga.c:213-229 | The copy and blanking loops shift the screen up by one line. |
| `VgaDriver.Vga.ScrollLines` | drivers/tty/vga.c:234-261 | As specified for ScrollLinesIsRepeated. |
| `VgaDriver.Vga.NewLine` | drivers/tty/vga.c:266-279 | Next line, scrolling at the bottom when auto-scroll is on. |
| `VgaDriver.Vga.Backspace` | drivers/tty/vga.c:295-305 | Blanks the cell before the cursor, also across a line start, and nothing at the top left. |
| `VgaDriver.Vga.PutChar` | drivers/tty/vga.c:165-195 | Has the effect on buffer and cursor that ShowsAll is about. |
| `VgaDriver.Vga.Tab` | drivers/tty/vga.c:284-290 | Before column 72 the loop prints blanks up to the tab stop and stops. |
| `VgaDriver.Vga.CopyRegion` | drivers/tty/vga.c:334-349 | The nested loops copy cell by cell in row order; out-of-range regions change nothing. |
| `VgaDriver.CopyRegionExact` | drivers/tty/vga.c:334-349 | The copied rectangle equals the source's old contents with every other cell unchanged, for every screen, if and only if the destination is not later than the source or they do not overlap. |
| `Console.EarlierLinesKept` | src/kernel/drivers/tty/tty.c:116-165 | Output never changes a line above the cursor of the unscrolled sheet. |
| `Console.VisibleText` | src/kernel/drivers/tty/tty.c:144-150 | Visible text fills consecutive places from the cursor on, across line ends, and no other place changes. |
| `Console.LinesOfText` | src/kernel/drivers/tty/tty.c:116-162 | Writing lines of fewer than 80 visible characters, each followed by a newline, puts line k at the start of line y + k and changes nothing else; the cursor ends at the start of the line after the last. |
| `Console.FullLineSkipsOne` | src/kernel/drivers/tty/tty.c:119-160 | A line of exactly 80 characters and its newline leave the next line empty. |
| `Console.ReturnOverwrites` | src/kernel/drivers/tty/tty.c:124-126 | Text after a carriage return overwrites the line from column 0, and nothing else. |
| `Console.TabToNextStop` | src/kernel/drivers/tty/tty.c:128-134 | A tab writes nothing and goes to the next place that is a multiple of 8, from the last stop of a line to the start of the next. |
| `Console.BackspaceErases` | src/kernel/drivers/tty/tty.c:136-142 | Typing a visible character that does not end its line and erasing it restores the cursor and blanks the one place; at the start of a line backspace does nothing. |
| `Console.EntryParts` | src/kernel/drivers/tty/tty.c:59-62 | Each character from the space on is shown white on black. |
| `Console.OthersIgnored` | src/kernel/drivers/tty/tty.c:116-153 | Every other character changes nothing. |
| `Console.Display.constructor` | src/kernel/drivers/tty/tty.c:80-91 | A blank screen with the cursor home shows the empty sheet. |
| `Console.Display.ClearScreen` | src/kernel/drivers/tty/tty.c:80-91 | The screen shows an empty sheet again. |
| `Console.Display.ScrollScreen` | src/kernel/drivers/tty/tty.c:96-111 | Every line moves up, the last is blank. |
| `Console.Display.PutChar` | src/kernel/drivers/tty/tty.c:116-165 | For every character the 80 by 25 buffer stays the bottom window of a sheet that never scrolls, and the cursor stays in range. |
| `Console.Display.WriteConsole` | src/kernel/drivers/tty/tty.c:170-176 | The same for every string. |
| `TtySpec.CookedAlwaysWrites` | drivers/tty/tty.c:472-495 | With tab expansion on, no cooked output can reach the endless loop of `vga_tab`. |
| `TtySpec.EmitSent` | drivers/tty/tty.c:472-495 | What one output character turns into on the way to the screen. |
| `TtySpec.WrittenCounted` | drivers/tty/tty.c:236-261 | `bytes_written` grows by what was sent to the screen and by one more for each expanded tab, modulo 2 to the power 32. |
| `TtySpec.CookedStream` | drivers/tty/tty.c:472-495 | Over any output, no tab reaches `vga_put_char` when expansion is on, and every newline comes right after a carriage return when crlf is on. |
| `TtySpec.WriteShows` | drivers/tty/tty.c:236-261 | After any output the screen is the bottom window of the unbounded page on which the characters sent meanwhile have been written in the tty's colours. |
| `TtySpec.TabStops` | drivers/tty/tty.c:479-485 | A tab takes the cursor of the current tty to the next multiple of 8 modulo 80, and screen and device agree on it. |
| `TtySpec.FitOneMore` | drivers/tty/tty.c:547-558 | Queueing character by character with refusals keeps the longest prefix that fits. |
| `TtySpec.ReadPlusQueued` | drivers/tty/tty.c:196-231 | For any interleaving of keys, reads and flushes, bytes read plus bytes queued are the text of a log that only grows by committed lines, each cut to the longest prefix that fits the ring. |
| `TtySpec.LineComesBack` | drivers/tty/tty.c:406-467 | A line typed with room for it is queued as typed, followed by a newline. |
| `TtySpec.CorrectedLine` | drivers/tty/tty.c:406-467 | A line typed with backspaces: return queues exactly the keys that no backspace took back, and a newline. |
| `TtySpec.FullLine` | drivers/tty/tty.c:453-463 | The line takes 1023 characters and no more. |
| `TtySpec.QueueCapacity` | drivers/tty/tty.c:547-558 | The queue holds 4096 characters; what is queued more is cut. |
| `TtySpec.ReadSplits` | drivers/tty/tty.c:196-231 | A read takes from the front of the queue, as many as asked for or all there are. |
| `TtySpec.FlushedLine` | drivers/tty/tty.c:582-595 | After a flush a line typed and read comes back alone. |
| `TtySpec.LineEchoed` | drivers/tty/tty.c:406-467 | A printable line and return typed with echo: the screen shows the line from where the cursor was, nothing else has changed, and the cursor is at the start of the line after it. |
| `TtySpec.BackspaceErasesEcho` | drivers/tty/tty.c:438-463 | Typing a stored key on the tty on the screen and erasing it leaves a blank under an unmoved cursor and no other trace if and only if the key took one cell (a printable one, or a tab just before a tab stop) other than the last one of the screen, or showed nothing with the cursor at the top left. |
| `TtySpec.TabLeavesBlanks` | drivers/tty/tty.c:438-463 | A tab typed at the start of a line and erased leaves the cursor in column 7. |
| `TtySpec.CornerMovesUp` | drivers/tty/tty.c:438-463 | A key typed in the last cell of the screen and erased leaves the cursor a line higher. |
| `Ring.PutBack` | drivers/tty/tty.c:547-558 | Storing at the tail appends to the queue the ring stands for. |
| `Ring.TakeFront` | drivers/tty/tty.c:208-217 | Advancing the head removes the first of the queue and nothing else. |
| `Tty.TtyDevice.Write` | drivers/tty/tty.c:236-261 | The mutual recursion with the line discipline terminates and has the effect of the output specification; -1 for empty data or a device that is not READY. |
| `Tty.TtyDevice.PutChar` | drivers/tty/tty.c:266-268 | One character through the whole path, with what the line discipline adds to it; nothing on a device that is not READY. |
| `Tty.TtyDevice.LineOutput` | drivers/tty/tty.c:472-495 | The recursive calls for CR and blanks, and the direct one, produce exactly the specified output. |
| `Tty.TtyDevice.BufferPutChar` | drivers/tty/tty.c:547-558 | Appends to the ring if there is room, otherwise -1 and no change. |
| `Tty.TtyDevice.Commit` | drivers/tty/tty.c:416-435 | Moves the line and a newline to the ring, as much as fits, and empties the line. |
| `Tty.TtyDevice.LineInput` | drivers/tty/tty.c:406-467 | Editor state and echo after a key are those of the line editor. |
| `Tty.TtyDevice.InputChar` | drivers/tty/tty.c:273-284 | Cooked: a key of the line editor. Raw: straight to the ring. Not READY: refused. |
| `Tty.TtyDevice.KeyboardHandler` | drivers/tty/tty.c:363-368 | Only presses that stand for a character are typed; everything else changes nothing. |
| `Tty.TtyDevice.Read` | drivers/tty/tty.c:196-231 | Hands out and removes the first bytes of the queue, at most `size`. |
| `Tty.TtyDevice.FlushInput` | drivers/tty/tty.c:582-595 | Drops the line being typed and the queue. |
| `Keyboard.ShiftXorCaps` | drivers/tty/keyboard.c:191-229 | On a layout whose shifted letters are the capitals of the plain ones, a letter key gives the capital exactly when one of shift and caps lock is on, not both; num lock does not matter. |
| `Keyboard.LedsShowLocks` | drivers/tty/keyboard.c:150-186 | Over any run the LED byte shows exactly the three locks. |
| `Keyboard.LocksCountPresses` | drivers/tty/keyboard.c:150-186 | A lock is on exactly when its key has been pressed an odd number of times. |
| `Keyboard.ModifiersHeld` | drivers/tty/keyboard.c:150-186 | After any run each of the keys 0x2A (left shift), 0x36 (right shift), 0x1D (control) and 0x38 (alt) counts as held if and only if the last byte about it was a press. |
| `Keyboard.LastEvent` | drivers/tty/keyboard.c:117-145 | The event of a byte has the key and direction of the byte and the modifiers held before it. |
| `Keyboard.LetterTyped` | drivers/tty/keyboard.c:117-215 | Over any run, the press of a letter key makes an event with the capital if and only if exactly one of these holds: a shift key is down; caps lock was pressed an odd number of times. |
| `Keyboard.LocksDoNotMatter` | drivers/tty/keyboard.c:191-229 | Caps lock does not matter to characters that are no letters, num lock not to keys off the keypad. |
| `Keyboard.KeypadTyped` | drivers/tty/keyboard.c:211-226 | With num lock pressed an odd number of times the keypad types three rows of three digits, 9 at the top right, then 0 and the point. |
| `Keyboard.LedsCountPresses` | drivers/tty/keyboard.c:165-185 | Each LED bit is set if and only if its key was pressed an odd number of times. |
| `Keyboard.QueueIsLogTail` | drivers/tty/keyboard.c:398-423 | For any run of scancodes, reads and flushes the ring holds a tail of all events, in order. |
| `Keyboard.RingCapacity` | drivers/tty/keyboard.c:398-408 | The ring holds the latest 256 events, each new one then pushing the oldest out. |
| `Keyboard.ReadOnce` | drivers/tty/keyboard.c:246-252 | The events handed to readers are events of the log at rising positions: in order, and none is read twice. |
| `Keyboard.AllAccounted` | drivers/tty/keyboard.c:246-268 | Every event is read, waiting, pushed out of a full ring by a newer one, or flushed. |
| `Keyboard.FedIsTyped` | drivers/tty/tty.c:363-368 | A line editor behind the handler ends up where typing exactly the non-zero characters of the presses, in order, would take it. |
| `Keyboard.Driver.UpdateModifiers` | drivers/tty/keyboard.c:150-186 | Ends in the modifiers and the LED byte that ModifiersHeld and LedsCountPresses are about. |
| `Keyboard.Driver.PushEvent` | drivers/tty/keyboard.c:398-408 | Appends to the ring, dropping the oldest event when 256 are held. |
| `Keyboard.Driver.ReadNext` | drivers/tty/keyboard.c:246-252 | The oldest event, or -1 if there is none. |
| `Keyboard.Driver.Flush` | drivers/tty/keyboard.c:264-268 | Empties the ring. |
| `Keyboard.Driver.ProcessScancode` | drivers/tty/keyboard.c:117-145 | One event per byte, handed to the handler once and queued; LastEvent and LetterTyped say which. |
| `TerminalSpec.ScannedAgrees` | kernel/terminal.c:408-411 | The parameters read from the escape buffer depend only on the bytes up to the terminating NUL. |
| `TerminalSpec.WholeStream` | kernel/terminal.c:325-399 | For every byte stream the parser dispatches exactly the ESC [ ... letter sequences a tokenizer of the whole stream finds, each with its own bytes; and the 32-byte buffer suffices exactly when all of them are at most 31 bytes (32 for one still unfinished). |
| `TerminalSpec.ShortExact` | include/kernel/terminal.h:75 | The sequences that fit are those of at most 31 bytes, 32 while unfinished. |
| `TerminalSpec.EndsAtLetter` | kernel/terminal.c:347-363 | A sequence ends at its first letter, of either case. |
| `TerminalSpec.CutsDoNotMatter` | kernel/terminal.c:293-305 | However the stream is cut into `terminal_write` calls, the sequences found and the unfinished rest are those of the joined stream, and every call meets the demand of `Write` on the escape buffer exactly when the joined stream's sequences are at most 31 bytes (32 for one unfinished). |
| `TerminalSpec.CursorExact` | kernel/terminal.c:404-447 | Of all sequences only a position outside the screen takes the cursor off it, judged after its parameters are reduced by 1 modulo 256. |
| `TerminalSpec.Line100OffScreen` | kernel/terminal.c:443-447 | `ESC [ 100 ; 1 H` is one: it leaves the cursor on line 99 of 25. |
| `TerminalSpec.OthersDoNothing` | kernel/terminal.c:373-480 | A sequence other than A, B, C, D, H, J with 2, and m with 0, 30 to 37 or 40 to 47 changes nothing and asks nothing of the tty. |
| `TerminalSpec.CursorStays` | kernel/terminal.c:404-447 | Over a stream without such a position the cursor stays on the screen. |
| `TerminalSpec.ColoursAreLastPicked` | kernel/terminal.c:459-473 | The colours are those last picked, whatever came in between. |
| `TerminalSpec.ResetExact` | kernel/terminal.c:461-463 | After any sequences, `ESC [ 0 m` restores the initial colours if and only if the last picks before it were those colours: it restores nothing itself, because picking a colour overwrites the default. |
| `TerminalSpec.ResetKeepsPick` | kernel/terminal.c:461-466 | The stream `ESC [ 31 m ESC [ 0 m` leaves the foreground at colour 1, which is blue. |
| `TerminalSpec.NamedColourExact` | kernel/terminal.c:464-471 | After any sequences that pick a colour, it is the one the standard names for the last pick if and only if that is black, green, magenta or white: `vga.h` numbers red and blue the other way round. |
| `TerminalSpec.PickRedShowsBlue` | kernel/terminal.c:464-466 | The stream `ESC [ 31 m`, which names red, makes the foreground blue. |
| `TerminalSpec.AgreementExact` | kernel/terminal.c:448-452 | By their requests alone, before anything is printed: after any sequences the terminal's cursor and the tty's agree if and only if a move came after the last `ESC [ 2 J`, or the terminal's cursor was at home before that clear. |
| `TerminalSpec.ClearDisagrees` | kernel/terminal.c:427-452 | `ESC [ 5 C ESC [ 2 J` from the top left: the terminal's cursor is in column 5, the tty is told to be at home. |
| `TerminalScreen.PrintingAdvances` | drivers/tty/tty.c:236-261 | Output of printable bytes and ESC takes the tty's cursor on by exactly the printable ones, over line ends and scrolling. |
| `TerminalScreen.WriteAgreementExact` | kernel/terminal.c:293-309 | After a whole `terminal_write`, sequences obeyed and all bytes printed, from agreement: the two cursors agree if and only if nothing was printed, or whole lines on the last line; or, when a clear parted them, the printed cells lead from the top left to the terminal's cursor. |
| `TerminalScreen.RightAndClear` | kernel/terminal.c:293-309 | `ESC [ 5 C ESC [ 2 J` in one write: column 5 for the terminal, column 6 for the tty. |
| `TerminalScreen.ColoursFollow` | kernel/terminal.c:459-516 | After any sequences the tty has the terminal's foreground as its foreground and the background as its background. |
| `TerminalScreen.PickedColoursShown` | kernel/terminal.c:293-309 | What a write prints stands on the screen in cells whose low four colour bits are the foreground its sequences left and whose high four are the background. |
| `Terminal.Terminal.constructor` | kernel/terminal.c:100-119 | A terminal outside any sequence with an all-zero escape buffer. |
| `Terminal.Terminal.Write` | kernel/terminal.c:293-309 | The parser runs over the bytes, the terminal shows what the sequences so far ask for, and all bytes go on to the tty. |
| `Terminal.Terminal.ParseAnsiEscape` | kernel/terminal.c:325-368 | One step of the parser; after a whole sequence the state is NONE and the buffer is all zeros again; parameter bytes are answered with 0. |
| `Terminal.Terminal.ProcessCsi` | kernel/terminal.c:373-399 | Reading parameters and letter back out of the escape buffer gives the effect of exactly the sequence collected there, stale bytes notwithstanding. |
| `Terminal.Terminal.ExecuteControl` | kernel/terminal.c:404-480 | The loops and assignments have the effect on cursor, colours and tty requests that CursorExact, MoveReadBack and ColoursAreLastPicked are about. |
| `Terminal.Terminal.StepBack` | kernel/terminal.c:415-417 | The loop takes the cursor n places back, at most to 0. |
| `Terminal.Terminal.StepForward` | kernel/terminal.c:422-424 | The loop takes the cursor n places on, at most to the edge. |
| `Terminal.Terminal.ResetEscapeState` | kernel/terminal.c:485-489 | State NONE, position 0, 32 zero bytes. |
| `FormatSpec.WordFits` | kernel/string.c:295-305 | The digits of a 32-bit number fit the scratch array. |
| `FormatSpec.DigitsReadBack` | kernel/string.c:289-350 | Decimal and hexadecimal fields stand for their argument, without leading zeros. |
| `FormatSpec.ScanReadsBack` | kernel/string.c:289-325 | What "%d" writes, a "%d" of `sscanf` reads back, wherever it stands and whatever the sign. |
| `FormatSpec.PlainText` | kernel/string.c:258-264 | A format without '%' is written as it stands. |
| `FormatSpec.EscapedText` | kernel/string.c:356-362 | Any text at all, with every '%' doubled, is formatted as that text. |
| `FormatSpec.StringText` | kernel/string.c:278-288 | "%s" stands for its string, wherever it stands. |
| `FormatSpec.CharText` | kernel/string.c:270-277 | "%c" stands for the character whose number is the argument modulo 256. |
| `FormatSpec.HexFieldText` | kernel/string.c:326-355 | "%x" stands for digits with the value of its argument. |
| `FormatSpec.UnknownText` | kernel/string.c:363-373 | A directive that is none of these stands for itself. |
| `FormatSpec.MoveReadBack` | kernel/terminal.c:414-440 | A move formatted as "%d" and a letter A to D and executed by the terminal moves the cursor that many places up, down, right or left, or to the edge if that is nearer, and not otherwise. |
| `FormatSpec.PositionReadBack` | kernel/terminal.c:443-447 | A cursor position formatted as "%d;%dH" and executed by the terminal puts the cursor exactly there, for every column and row below 256. |
| `FormatSpec.BareMove` | kernel/terminal.c:404-441 | A move without a number moves one place. |
| `FormatSpec.StuckMove` | kernel/terminal.c:414-440 | A move by no or a negative number of places moves nothing, nor does one right or down from the edge or beyond it. |
| `FormatSpec.BareHome` | kernel/terminal.c:404-447 | A position without numbers is the top left, and one with a line only is the start of that line. |
| `FormatSpec.BareOthersIgnored` | kernel/terminal.c:404-474 | `ESC [ J` and `ESC [ m` without a number do nothing. |
| `FormatSpec.SpacedNumber` | kernel/terminal.c:408-411 | White space and a plus sign before a number are passed over. |
| `Formatting.ReversePrefix` | kernel/string.c:308-314 | The swap loop reverses the digits in place and touches nothing else. |
| `Formatting.PutDigits` | kernel/string.c:301-304 | The division loop writes the digits in reverse order. |
| `Formatting.DecimalText` | kernel/string.c:289-317 | The text that ScanReadsBack reads back as the argument, of any int but INT_MIN. |
| `Formatting.HexText` | kernel/string.c:326-347 | The digits that DigitsReadBack reads back as the argument, of any unsigned int. |
| `Formatting.Strlen` | kernel/string.c:14-20 | The index of the first NUL. |
| `Formatting.PutPiece` | kernel/string.c:258-374 | The text of one character or directive, cut to the room left; nothing else in the buffer changes; an unknown directive stands for itself. |
| `Formatting.Vsnprintf` | kernel/string.c:249-379 | The first min(length, size - 1) characters of the unbounded formatting, a NUL, that count as result, and nothing written behind the NUL; size 0 or a null buffer gives 0. |

## Left out

- HeapLocking.SectionStep: loads of header words, to which only the holder of the lock stores, are taken together with the store that follows them (LoadsAreStable). All CPUs see one memory at once; weaker memory orders are not modelled.
- HeapLocking.MutualExclusion: `spinlock_trylock`, `spinlock_is_locked` and the `_irq` pair are not used by the heap and not modelled; neither are the `owner` and `name` fields. Reading the flag and disabling interrupts are two steps, as they are separate instructions. Client code that passes `kfree` a pointer must hold it live when the section starts, and writes only inside its own blocks.
- HeapLocking.CallCompletes: tries of a lock that is taken are not counted, since the lock promises no fairness.
- HeapLocking.WaitBounded: which of several spinning CPUs gets the lock next is not modelled; the lock promises no fairness.
- KernelHeap.Heap.Krealloc: requires that the copy stays inside the new block (CopySafe, exact by MoveRoom); what a heap does whose headers were overwritten is not modelled.
- KernelHeap.Heap.Kzalloc: requires that a granted block holds `size` bytes, which by GrantedEnough means that rounding does not wrap.
- KernelHeap.Heap.Kfree: requires NULL or a live pointer, as the code does not check it.
- PageFrames.MemoryManager.AllocPageFrame: requires a free frame; without one the kernel panics and does not return.
- PageFrames.MemoryManager.MapPage: requires page-aligned frames and flags below 4096, which the code ORs together without checking; TLB flushes and the frame and page locks are not modelled.
- PageOwnership.InvStep: runs map and unmap user addresses only, and callers map frames they were given; the kernel half is set up before.
- `init_physical_memory` and `memory_init` of src/kernel/core/memory.c: they take the frame array from a heap not yet set up; the model starts from an initialised pool.
- `heap_alloc` and `kmalloc_aligned` are not part of this model; a new directory is a fresh object.
- `switch_page_directory`, CR3, port I/O, hardware cursor, LED commands: device effects; the state they mirror is modelled.
- `get_free_pages`, `copy_from_user`, `copy_to_user`, `access_ok`: wrappers around what is modelled and a null test.
- Tty.TtyDevice.Write: a character that would make `vga_tab` loop for ever (raw mode, or expansion off, from column 72 on) is excluded by a precondition. Echo and the lifecycle that makes a device READY: `tty_open` cannot succeed on a CLOSED device, so devices start READY. `tty_set_mode` is declared but not defined; mode and configuration are fixed per run.
- Tty.TtyDevice.KeyboardHandler: for the device whose number is the current tty; `tty_switch` and the saving of cursors between ttys are not modelled.
- TtySpec.ReadPlusQueued: cooked mode; reads return at once with what is there, as the code does.
- Keyboard.Driver.ProcessScancode: the two scancode tables are parameters; extended scancodes, repeat rates and the controller's ports are left out.
- Terminal.Terminal.Write: calls to the tty for cursor, colours and clearing are recorded in order, and so are the bytes written, but not how the two interleave from write to write; within one write all requests come first (TerminalScreen). Sessions, history, switching and focus are left out.
- TerminalScreen.WriteAgreementExact: the body of `tty_set_cursor` is not part of this model; a request is taken to put the cursors of the tty and of the screen where it says. Bytes other than printable ones and ESC, and sequences that put the cursor off the screen, are left out of this one result.
- TerminalSpec.WholeStream: numbers in parameters are unbounded; what `sscanf` does beyond the range of int is undefined.
- Formatting.Vsnprintf: "%d" of INT_MIN is excluded, as its negation overflows; arguments must match their directives, as va_arg demands; counts stay within int.
- VgaDriver.Vga.Tab: `tab_size` is the 8 that `vga_init` sets.
- `vga_put_string`, `vga_delete_line`, `vga_printf`, `tty_printf`, `strcpy` and its kin: would only add easy members.
- The shell, init, ls, cp, lib/tty.c, descriptor tables and boot code.
