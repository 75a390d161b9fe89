/** The page-frame allocator and the page-table operations, working in place on
    the frame flags, the counters, the directory entries and physical memory.
    Physical addresses are used as pointers, so the word at frame f, entry j is
    word 1024 * f + j of the memory array. */
module PageFrames {
  import opened Common
  import opened PageTables
  import opened PageOwnership

  class PageDirectory {
    const entries: array<Word>

    constructor ()
      ensures fresh(entries) && entries.Length == ENTRIES
    {
      entries := new Word[ENTRIES];
    }
  }

  class MemoryManager {
    const used: array<bool>      // page_frames[i].used
    const kernel: array<bool>    // page_frames[i].kernel
    const phys: array<Word>
    const total: nat
    const bootPageDir: PageDirectory
    var freePages: nat
    var usedPages: nat

    ghost predicate Valid()
      reads this, used, kernel
    {
      && used.Length == kernel.Length == total <= PAGES && phys.Length == 1024 * total && kernel != used
      && bootPageDir.entries.Length == ENTRIES && bootPageDir.entries != phys
      && freePages + usedPages == total
      && usedPages == CountUsed(used[..], total)
      && forall f :: 0 <= f < total && kernel[f] ==> used[f]
    }

    /** An initialised pool: the frames of the kernel image are marked used. */
    constructor (frames: nat, kernelFrames: nat, boot: PageDirectory)
      requires kernelFrames <= frames <= PAGES && boot.entries.Length == ENTRIES
      ensures Valid() && fresh(used) && fresh(kernel) && fresh(phys)
      ensures total == frames && bootPageDir == boot
      ensures forall f :: 0 <= f < frames ==> (used[f] <==> f < kernelFrames) && (kernel[f] <==> f < kernelFrames)
    {
      total := frames;
      bootPageDir := boot;
      used := new bool[frames](f => false);
      kernel := new bool[frames](f => false);
      phys := new Word[1024 * frames];
      freePages, usedPages := frames, 0;
      new;
      CountNone(used[..], total);
      for i := 0 to kernelFrames
        invariant Valid() && fresh(used) && fresh(kernel)
        invariant forall f :: 0 <= f < frames ==> (used[f] <==> f < i) && (kernel[f] <==> f < i)
      {
        ghost var u0 := used[..];
        CountSet(u0, i, total, true);
        used[i] := true;
        kernel[i] := true;
        assert used[..] == u0[i := true];
        freePages := freePages - 1;
        usedPages := usedPages + 1;
      }
    }

    lemma {:induction false} CountNone(u: seq<bool>, n: nat)
      requires n <= |u| && forall f :: 0 <= f < |u| ==> !u[f]
      ensures CountUsed(u, n) == 0
    {
      if n > 0 { CountNone(u, n - 1); }
    }

    /** The pool as a value. */
    ghost function Frames(): Pool
      reads used, phys
    {
      Pool(used[..], phys[..])
    }

    method AllocPageFrame() returns (addr: Word)
      requires Valid() && HasFree(Frames())
      modifies `freePages, `usedPages, used
      ensures Valid()
      ensures addr == 4096 * LowestFree(old(used[..]), 0)
      ensures used[..] == old(used[..])[LowestFree(old(used[..]), 0) := true]
    {
      ghost var u0 := used[..];
      addr := 0;
      for i := 0 to total
        invariant used[..] == u0 && usedPages == old(usedPages) && freePages == old(freePages)
        invariant LowestFree(u0, i) == LowestFree(u0, 0)
      {
        if !used[i] {
          CountSet(u0, i, total, true);
          used[i] := true;
          assert used[..] == u0[i := true];
          freePages := freePages - 1;
          usedPages := usedPages + 1;
          return i * 4096;
        }
      }
      assert false;
    }

    method FreePageFrame(addr: Word)
      requires Valid()
      modifies `freePages, `usedPages, used, kernel
      ensures Valid()
      ensures used[..] == FreeFrame(old(Frames()), addr / 4096).used
      ensures forall f :: 0 <= f < total ==> kernel[f] == (old(kernel[f]) && f != addr / 4096)
    {
      var frame := addr / 4096;
      if frame >= total {
        return;
      }
      ghost var u0 := used[..];
      if used[frame] {
        CountSet(u0, frame, total, false);
        used[frame] := false;
        kernel[frame] := false;
        assert used[..] == u0[frame := false];
        freePages := freePages + 1;
        usedPages := usedPages - 1;
      } else {
        assert u0[frame := false] == u0;
      }
    }

    method CreatePageDirectory() returns (dir: PageDirectory)
      requires Valid()
      ensures fresh(dir) && fresh(dir.entries)
      ensures dir.entries.Length == ENTRIES && dir.entries[..] == NewDirectory(bootPageDir.entries[..])
    {
      dir := new PageDirectory();
      for i := 0 to ENTRIES
        invariant dir.entries.Length == ENTRIES
        invariant forall k :: 0 <= k < i ==> dir.entries[k] == 0
      {
        dir.entries[i] := 0;
      }
      for i := USER_ENTRIES to ENTRIES
        invariant dir.entries.Length == ENTRIES
        invariant forall k :: 0 <= k < USER_ENTRIES ==> dir.entries[k] == 0
        invariant forall k :: USER_ENTRIES <= k < i ==> dir.entries[k] == bootPageDir.entries[k]
      {
        dir.entries[i] := bootPageDir.entries[i];
      }
    }

    /** memset of one frame to 0. */
    method ClearFrame(f: nat)
      requires Slot(f, ENTRIES) <= phys.Length
      modifies phys
      ensures phys[..] == ZeroFrame(old(phys[..]), f)
    {
      ghost var p0 := phys[..];
      for k := 0 to ENTRIES
        invariant forall x :: 0 <= x < phys.Length ==> phys[x] == if Slot(f, 0) <= x < Slot(f, k) then 0 else p0[x]
      {
        phys[Slot(f, k)] := 0;
      }
    }

    method MapPage(dir: PageDirectory, va: Word, physicalAddr: Word, flags: nat) returns (status: int)
      requires Valid() && dir.entries != phys && CanMap(Frames(), dir.entries[..], PageOf(va))
      requires physicalAddr % 4096 == 0 && flags < 4096
      modifies `freePages, `usedPages, used, phys, dir.entries
      ensures Valid() && status == 0
      ensures (Frames(), dir.entries[..]) == Map(old(Frames()), old(dir.entries[..]), PageOf(va), physicalAddr, flags)
    {
      PageIndexes(va);
      var i, j := DirIndex(va), TableIndex(va);
      ghost var m0, d0 := Frames(), dir.entries[..];
      WithTableOk(m0, d0, i, flags);
      if !Present(dir.entries[i]) {
        var table := AllocPageFrame();
        ClearFrame(table / 4096);
        dir.entries[i] := MakeEntry(table, flags);
        assert dir.entries[..] == d0[i := MakeEntry(table, flags)];
      }
      assert (Frames(), dir.entries[..]) == WithTable(m0, d0, i, flags);
      ghost var m1 := Frames();
      var f := FrameOf(dir.entries[i]);
      phys[Slot(f, j)] := MakeEntry(physicalAddr, flags);
      assert Frames() == Poke(m1, f, j, MakeEntry(physicalAddr, flags));
      status := 0;
    }

    method UnmapPage(dir: PageDirectory, va: Word) returns (status: int)
      requires Valid() && dir.entries != phys && TablesInRange(Frames(), dir.entries[..])
      modifies `freePages, `usedPages, used, kernel, phys
      ensures Valid()
      ensures Frames() == Unmap(old(Frames()), dir.entries[..], PageOf(va))
      ensures status == if Present(dir.entries[DirIndex(va)]) then 0 else -1
    {
      PageIndexes(va);
      var i, j := DirIndex(va), TableIndex(va);
      if !Present(dir.entries[i]) {
        return -1;
      }
      ghost var m0 := Frames();
      var f := FrameOf(dir.entries[i]);
      var e := phys[Slot(f, j)];
      if Present(e) {
        phys[Slot(f, j)] := 0;
        assert Frames() == Poke(m0, f, j, 0);
        FreePageFrame(FrameOf(e) * 4096);
      }
      status := 0;
    }

    method GetPhysicalAddress(dir: PageDirectory, va: Word) returns (addr: Word)
      requires Valid() && TablesInRange(Frames(), dir.entries[..])
      ensures addr == PhysicalAddress(Frames(), dir.entries[..], va)
    {
      PageIndexes(va);
      var i, j := DirIndex(va), TableIndex(va);
      if !Present(dir.entries[i]) {
        return 0;
      }
      var f := FrameOf(dir.entries[i]);
      if !Present(phys[Slot(f, j)]) {
        return 0;
      }
      addr := FrameOf(phys[Slot(f, j)]) * 4096 + va % 4096;
    }

    /** Freed so far when the loops stand at directory entry i and page v. */
    ghost predicate ReachedBefore(m: Pool, dir: seq<Word>, i: nat, v: nat, f: nat)
      requires TablesInPool(m, dir) && i <= USER_ENTRIES && v <= USER_PAGES
    {
      || (exists k :: 0 <= k < i && Present(dir[k]) && FrameOf(dir[k]) == f)
      || (exists w :: 0 <= w < v && Mapping(m, dir, w).Some? && FrameOf(Mapping(m, dir, w).value) == f)
    }

    method DestroyPageDirectory(dir: PageDirectory)
      requires Valid() && dir.entries != phys && TablesInPool(Frames(), dir.entries[..])
      modifies `freePages, `usedPages, used, kernel
      ensures Valid()
      ensures Frames() == if dir == bootPageDir then old(Frames()) else Destroy(old(Frames()), dir.entries[..])
    {
      if dir == bootPageDir {
        return;
      }
      ghost var m0, d := Frames(), dir.entries[..];
      for i := 0 to USER_ENTRIES
        invariant Valid()
        invariant FreedBefore(m0, d, i, ENTRIES * i)
      {
        if Present(dir.entries[i]) {
          FreeTable(dir, i, m0);
        } else {
          SkipEntry(m0, d, i);
        }
      }
      assert forall f :: 0 <= f < total ==> (ReachedBefore(m0, d, USER_ENTRIES, USER_PAGES, f) <==> Reaches(m0, d, f));
      assert used[..] == Destroy(m0, d).used;
    }

    lemma SkipEntry(m: Pool, d: seq<Word>, i: nat)
      requires TablesInPool(m, d) && i < USER_ENTRIES && !Present(d[i])
      ensures forall f :: ReachedBefore(m, d, i + 1, ENTRIES * (i + 1), f) <==> ReachedBefore(m, d, i, ENTRIES * i, f)
    {
      assert forall w :: ENTRIES * i <= w < ENTRIES * (i + 1) ==> w / ENTRIES == i;
    }

    lemma NextPage(m: Pool, d: seq<Word>, i: nat, v: nat, f: nat)
      requires TablesInPool(m, d) && i <= USER_ENTRIES && v < USER_PAGES
      ensures ReachedBefore(m, d, i, v + 1, f) <==>
        ReachedBefore(m, d, i, v, f) || (Mapping(m, d, v).Some? && FrameOf(Mapping(m, d, v).value) == f)
    {
    }

    /** The frames still used are those of m0 not reached so far. */
    ghost predicate FreedBefore(m0: Pool, d: seq<Word>, i: nat, v: nat)
      requires TablesInPool(m0, d) && i <= USER_ENTRIES && v <= USER_PAGES && used.Length == |m0.used|
      reads this, used
    {
      forall f :: 0 <= f < used.Length ==> (used[f] <==> m0.used[f] && !ReachedBefore(m0, d, i, v, f))
    }

    /** The body of the outer loop for a present entry. */
    method FreeTable(dir: PageDirectory, i: nat, ghost m0: Pool)
      requires Valid() && dir.entries != phys && i < USER_ENTRIES
      requires TablesInPool(m0, dir.entries[..]) && Present(dir.entries[i])
      requires |m0.used| == total && m0.phys == phys[..]
      requires FreedBefore(m0, dir.entries[..], i, ENTRIES * i)
      modifies `freePages, `usedPages, used, kernel
      ensures Valid()
      ensures FreedBefore(m0, dir.entries[..], i + 1, ENTRIES * (i + 1))
    {
      ghost var d := dir.entries[..];
      var table := FrameOf(dir.entries[i]);
      for j := 0 to ENTRIES
        invariant Valid()
        invariant FreedBefore(m0, d, i, ENTRIES * i + j)
      {
        FreePage(table, j, d, i, m0);
      }
      FreeTableFrame(table, d, i, m0);
    }

    method FreeTableFrame(table: nat, ghost d: seq<Word>, ghost i: nat, ghost m0: Pool)
      requires Valid() && TablesInPool(m0, d) && i < USER_ENTRIES && Present(d[i]) && table == FrameOf(d[i])
      requires |m0.used| == total && FreedBefore(m0, d, i, ENTRIES * i + ENTRIES)
      modifies `freePages, `usedPages, used, kernel
      ensures Valid()
      ensures FreedBefore(m0, d, i + 1, ENTRIES * (i + 1))
    {
      ghost var v, next := ENTRIES * (i + 1), i + 1;
      forall f: nat ensures ReachedBefore(m0, d, next, v, f) <==> ReachedBefore(m0, d, i, v, f) || FrameOf(d[i]) == f {
        NextEntry(m0, d, i, v, f);
      }
      FreePageFrame(table * 4096);
    }

    lemma NextEntry(m: Pool, d: seq<Word>, i: nat, v: nat, f: nat)
      requires TablesInPool(m, d) && i < USER_ENTRIES && Present(d[i]) && v <= USER_PAGES
      ensures ReachedBefore(m, d, i + 1, v, f) <==> ReachedBefore(m, d, i, v, f) || FrameOf(d[i]) == f
    {
    }

    lemma MappingAt(m: Pool, d: seq<Word>, i: nat, j: nat)
      requires TablesInPool(m, d) && i < ENTRIES && Present(d[i]) && j < ENTRIES
      ensures var e := EntryAt(m, FrameOf(d[i]), j);
        Mapping(m, d, ENTRIES * i + j) == if Present(e) then Some(e) else None
    {
      assert (ENTRIES * i + j) / ENTRIES == i && (ENTRIES * i + j) % ENTRIES == j;
    }

    /** The body of the inner loop. */
    method FreePage(table: nat, j: nat, ghost d: seq<Word>, ghost i: nat, ghost m0: Pool)
      requires Valid() && TablesInPool(m0, d) && i < USER_ENTRIES && Present(d[i]) && table == FrameOf(d[i])
      requires |m0.used| == total && m0.phys == phys[..] && j < ENTRIES
      requires FreedBefore(m0, d, i, ENTRIES * i + j)
      modifies `freePages, `usedPages, used, kernel
      ensures Valid()
      ensures FreedBefore(m0, d, i, ENTRIES * i + j + 1)
    {
      MappingAt(m0, d, i, j);
      var e := phys[Slot(table, j)];
      FreeIfPresent(e, d, i, ENTRIES * i + j, m0);
    }

    method FreeIfPresent(e: Word, ghost d: seq<Word>, ghost i: nat, ghost v: nat, ghost m0: Pool)
      requires Valid() && TablesInPool(m0, d) && |m0.used| == total && i < USER_ENTRIES && v < USER_PAGES
      requires Mapping(m0, d, v) == if Present(e) then Some(e) else None
      requires FreedBefore(m0, d, i, v)
      modifies `freePages, `usedPages, used, kernel
      ensures Valid()
      ensures FreedBefore(m0, d, i, v + 1)
    {
      ghost var next := v + 1;
      forall f: nat ensures ReachedBefore(m0, d, i, next, f) <==>
                            ReachedBefore(m0, d, i, v, f) || (Present(e) && FrameOf(e) == f)
      {
        NextPage(m0, d, i, v, f);
      }
      if Present(e) {
        FreePageFrame(FrameOf(e) * 4096);
      }
    }
  }
}
