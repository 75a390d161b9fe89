/** Two-level page tables stored in physical frames: 32-bit paging, section 4.3
    of Volume 3A of the Intel Software Developer's Manual. A directory or table has 1024
    entries; an entry holds a frame address in bits 12..31, flags below, and the
    Present bit in bit 0. */
module PageTables {
  import opened Common

  datatype Option<T> = None | Some(value: T)

  const ENTRIES: nat := 1024
  const USER_ENTRIES: nat := 768          // directory entries below KERNEL_BASE_ADDR
  const USER_PAGES: nat := 786432         // 768 * 1024
  const PAGES: nat := 0x10_0000           // pages of the 4 GB address space

  function Present(e: Word): bool { e % 2 == 1 }

  /** Frame number; the frame's address, e & 0xFFFFF000, is 4096 times that. */
  function FrameOf(e: Word): nat { e / 4096 }

  /** addr | flags | 1 for a page-aligned address and flags below 4096. */
  function MakeEntry(addr: Word, flags: nat): Word
    requires addr % 4096 == 0 && flags < 4096
  {
    addr + if flags % 2 == 1 then flags else flags + 1
  }

  lemma MakeEntryParts(addr: Word, flags: nat)
    requires addr % 4096 == 0 && flags < 4096
    ensures var e := MakeEntry(addr, flags);
      && Present(e) && FrameOf(e) == addr / 4096
      && e % 4096 == if flags % 2 == 1 then flags else flags + 1
  {
    var low := if flags % 2 == 1 then flags else flags + 1;
    EntryParts(addr / 4096, low);
    assert MakeEntry(addr, flags) == 4096 * (addr / 4096) + low;
  }

  lemma EntryParts(frame: nat, low: nat)
    requires low < 4096 && low % 2 == 1
    ensures var e := 4096 * frame + low; e % 2 == 1 && e / 4096 == frame && e % 4096 == low
  {
    assert 4096 * frame + low == 2 * (2048 * frame) + low;
  }

  /** (va >> 22) & 0x3FF and (va >> 12) & 0x3FF. */
  function DirIndex(va: Word): (i: nat) ensures i < ENTRIES { va / 0x40_0000 }
  function TableIndex(va: Word): (j: nat) ensures j < ENTRIES { va / 4096 % 1024 }

  /** The page va lies in. */
  function PageOf(va: Word): (v: nat) ensures v < PAGES { va / 4096 }

  lemma PageIndexes(va: Word)
    ensures DirIndex(va) == PageOf(va) / ENTRIES && TableIndex(va) == PageOf(va) % ENTRIES
  {
  }

  /** The user half ends at address 0xC0000000, with the last page of directory entry
      767. */
  lemma UserHalf(va: Word)
    ensures PageOf(va) < USER_PAGES <==> va < 0xC000_0000
    ensures DirIndex(va) < USER_ENTRIES <==> va < 0xC000_0000
  {
  }

  /** Word of physical memory at which entry j of the table in frame f lies. */
  function Slot(f: nat, j: nat): nat { f * 1024 + j }

  lemma SlotUnique(f: nat, j: nat, g: nat, k: nat)
    requires j < ENTRIES && k < ENTRIES && Slot(f, j) == Slot(g, k)
    ensures f == g && j == k
  {
  }

  /** The frame pool: which frames are used, and the words they hold. */
  datatype Pool = Pool(used: seq<bool>, phys: seq<Word>)

  predicate PoolOk(m: Pool) { |m.phys| == 1024 * |m.used| && |m.used| <= PAGES }

  predicate InPool(m: Pool, f: nat) { f < |m.used| && m.used[f] }

  // ---- Translation --------------------------------------------------------

  function EntryAt(m: Pool, f: nat, j: nat): Word
    requires PoolOk(m) && f < |m.used| && j < ENTRIES
  {
    m.phys[Slot(f, j)]
  }

  /** The present tables of a directory lie in physical memory. */
  predicate TablesInRange(m: Pool, dir: seq<Word>)
  {
    && PoolOk(m) && |dir| == ENTRIES
    && forall i :: 0 <= i < ENTRIES && Present(dir[i]) ==> FrameOf(dir[i]) < |m.used|
  }

  /** And their frames are marked used. */
  predicate TablesInPool(m: Pool, dir: seq<Word>)
  {
    && PoolOk(m) && |dir| == ENTRIES
    && forall i :: 0 <= i < ENTRIES && Present(dir[i]) ==> InPool(m, FrameOf(dir[i]))
  }

  /** No two entries of the directory share a table. */
  predicate TablesDistinct(dir: seq<Word>)
    requires |dir| == ENTRIES
  {
    forall i, j :: 0 <= i < j < ENTRIES && Present(dir[i]) && Present(dir[j]) ==> FrameOf(dir[i]) != FrameOf(dir[j])
  }

  /** What the directory maps page v to: the page-table entry, if both levels are
      present. This is the flat map the tables stand for. */
  function Mapping(m: Pool, dir: seq<Word>, v: nat): Option<Word>
    requires TablesInRange(m, dir) && v < PAGES
  {
    if !Present(dir[v / ENTRIES]) then None
    else
      var e := EntryAt(m, FrameOf(dir[v / ENTRIES]), v % ENTRIES);
      if Present(e) then Some(e) else None
  }

  // ---- Frame allocation ---------------------------------------------------

  /** Lowest free frame at or after `from`. */
  function LowestFree(used: seq<bool>, from: nat): (f: nat)
    requires from <= |used|
    ensures from <= f <= |used|
    ensures f < |used| ==> !used[f]
    ensures forall g :: from <= g < f ==> used[g]
    decreases |used| - from
  {
    if from == |used| || !used[from] then from else LowestFree(used, from + 1)
  }

  predicate HasFree(m: Pool) { LowestFree(m.used, 0) < |m.used| }

  function CountUsed(used: seq<bool>, n: nat): (c: nat)
    requires n <= |used|
    ensures c <= n
  {
    if n == 0 then 0 else CountUsed(used, n - 1) + if used[n-1] then 1 else 0
  }

  lemma {:induction false} CountSet(used: seq<bool>, f: nat, n: nat, b: bool)
    requires f < |used| && n <= |used| && used[f] != b
    ensures CountUsed(used[f := b], n) == CountUsed(used, n) + if n <= f then 0 else if b then 1 else -1
  {
    if n > 0 { CountSet(used, f, n - 1, b); }
  }

  // ---- map_page, unmap_page -----------------------------------------------

  /** Frame f filled with zeros. */
  function ZeroFrame(phys: seq<Word>, f: nat): (r: seq<Word>)
    requires Slot(f, ENTRIES) <= |phys|
    ensures |r| == |phys|
    ensures forall x :: 0 <= x < |phys| ==> r[x] == if Slot(f, 0) <= x < Slot(f, ENTRIES) then 0 else phys[x]
  {
    seq(|phys|, x requires 0 <= x < |phys| => if Slot(f, 0) <= x < Slot(f, ENTRIES) then 0 else phys[x])
  }

  /** The directory and pool after map_page has made sure that entry i has a table. */
  function WithTable(m: Pool, dir: seq<Word>, i: nat, flags: nat): (r: (Pool, seq<Word>))
    requires PoolOk(m) && |dir| == ENTRIES && i < ENTRIES && flags < 4096
    requires Present(dir[i]) || HasFree(m)
  {
    if Present(dir[i]) then (m, dir)
    else
      var f := LowestFree(m.used, 0);
      (Pool(m.used[f := true], ZeroFrame(m.phys, f)), dir[i := MakeEntry(f * 4096, flags)])
  }

  function Poke(m: Pool, f: nat, j: nat, e: Word): Pool
    requires PoolOk(m) && f < |m.used| && j < ENTRIES
  {
    m.(phys := m.phys[Slot(f, j) := e])
  }

  predicate CanMap(m: Pool, dir: seq<Word>, v: nat)
  {
    && TablesInPool(m, dir) && v < PAGES
    && (Present(dir[v / ENTRIES]) || HasFree(m))
  }

  function Map(m: Pool, dir: seq<Word>, v: nat, addr: Word, flags: nat): (r: (Pool, seq<Word>))
    requires CanMap(m, dir, v) && addr % 4096 == 0 && flags < 4096
  {
    WithTableOk(m, dir, v / ENTRIES, flags);
    var (m1, dir1) := WithTable(m, dir, v / ENTRIES, flags);
    (Poke(m1, FrameOf(dir1[v / ENTRIES]), v % ENTRIES, MakeEntry(addr, flags)), dir1)
  }

  lemma WithTableOk(m: Pool, dir: seq<Word>, i: nat, flags: nat)
    requires TablesInPool(m, dir) && i < ENTRIES && flags < 4096
    requires Present(dir[i]) || HasFree(m)
    ensures var (m1, dir1) := WithTable(m, dir, i, flags);
      && TablesInPool(m1, dir1) && Present(dir1[i])
      && (TablesDistinct(dir) ==> TablesDistinct(dir1))
  {
    if !Present(dir[i]) {
      MakeEntryParts(LowestFree(m.used, 0) * 4096, flags);
    }
  }

  /** Allocating and clearing a table changes no translation. */
  lemma WithTableMapping(m: Pool, dir: seq<Word>, i: nat, flags: nat, v: nat)
    requires TablesInPool(m, dir) && i < ENTRIES && flags < 4096 && v < PAGES
    requires Present(dir[i]) || HasFree(m)
    ensures var (m1, dir1) := WithTable(m, dir, i, flags);
      TablesInPool(m1, dir1) && Mapping(m1, dir1, v) == Mapping(m, dir, v)
  {
    WithTableOk(m, dir, i, flags);
    if !Present(dir[i]) {
      var f := LowestFree(m.used, 0);
      MakeEntryParts(f * 4096, flags);
    }
  }

  /** map_page changes the translation of exactly its page. */
  lemma MapMapping(m: Pool, dir: seq<Word>, v: nat, addr: Word, flags: nat, w: nat)
    requires CanMap(m, dir, v) && TablesDistinct(dir) && addr % 4096 == 0 && flags < 4096 && w < PAGES
    ensures var (m', dir') := Map(m, dir, v, addr, flags);
      && TablesInPool(m', dir') && TablesDistinct(dir')
      && Mapping(m', dir', w) == if w == v then Some(MakeEntry(addr, flags)) else Mapping(m, dir, w)
  {
    WithTableOk(m, dir, v / ENTRIES, flags);
    WithTableMapping(m, dir, v / ENTRIES, flags, w);
    MakeEntryParts(addr, flags);
    var (m1, dir1) := WithTable(m, dir, v / ENTRIES, flags);
    PokeMapping(m1, dir1, v, MakeEntry(addr, flags), w);
  }

  /** Rewriting one page-table entry changes the translation of one page. */
  lemma PokeMapping(m: Pool, dir: seq<Word>, v: nat, e: Word, w: nat)
    requires TablesInRange(m, dir) && TablesDistinct(dir) && v < PAGES && w < PAGES && Present(dir[v / ENTRIES])
    ensures var m' := Poke(m, FrameOf(dir[v / ENTRIES]), v % ENTRIES, e);
      && TablesInRange(m', dir)
      && Mapping(m', dir, w) == if w != v then Mapping(m, dir, w) else if Present(e) then Some(e) else None
  {
    var i, j := v / ENTRIES, w / ENTRIES;
    if Present(dir[j]) && Slot(FrameOf(dir[i]), v % ENTRIES) == Slot(FrameOf(dir[j]), w % ENTRIES) {
      SlotUnique(FrameOf(dir[i]), v % ENTRIES, FrameOf(dir[j]), w % ENTRIES);
      assert i == j;
    }
  }

  /** unmap_page: -1 when the table is missing; otherwise the entry is cleared if
      present and its frame is given back. */
  function Unmap(m: Pool, dir: seq<Word>, v: nat): Pool
    requires TablesInRange(m, dir) && v < PAGES
  {
    match Mapping(m, dir, v)
    case None => m
    case Some(e) => FreeFrame(Poke(m, FrameOf(dir[v / ENTRIES]), v % ENTRIES, 0), FrameOf(e))
  }

  /** free_page_frame; a frame outside the pool is ignored. */
  function FreeFrame(m: Pool, f: nat): Pool
  {
    if f < |m.used| then m.(used := m.used[f := false]) else m
  }

  /** Page v maps one of the directory's own tables. */
  predicate MapsOwnTable(m: Pool, dir: seq<Word>, v: nat)
    requires TablesInRange(m, dir) && v < PAGES
  {
    Mapping(m, dir, v).Some? &&
    exists i :: 0 <= i < ENTRIES && Present(dir[i]) && FrameOf(dir[i]) == FrameOf(Mapping(m, dir, v).value)
  }

  /** unmap_page removes exactly its page from the map. */
  lemma UnmapMapping(m: Pool, dir: seq<Word>, v: nat, w: nat)
    requires TablesInRange(m, dir) && TablesDistinct(dir) && v < PAGES && w < PAGES
    ensures var m' := Unmap(m, dir, v);
      TablesInRange(m', dir) && Mapping(m', dir, w) == if w == v then None else Mapping(m, dir, w)
  {
    if Mapping(m, dir, v).Some? { PokeMapping(m, dir, v, 0, w); }
  }

  /** It takes a table of the directory away, to be handed out again, exactly when
      the page mapped one. */
  lemma UnmapKeepsTables(m: Pool, dir: seq<Word>, v: nat)
    requires TablesInPool(m, dir) && v < PAGES
    ensures TablesInPool(Unmap(m, dir, v), dir) <==> !MapsOwnTable(m, dir, v)
  {
    var m' := Unmap(m, dir, v);
    if MapsOwnTable(m, dir, v) {
      var i :| 0 <= i < ENTRIES && Present(dir[i]) && FrameOf(dir[i]) == FrameOf(Mapping(m, dir, v).value);
      assert !InPool(m', FrameOf(dir[i]));
    }
  }

  /** 1024 entries, of which only the first is present; it points at frame 0. */
  function FirstOnly(): (r: seq<Word>)
    ensures |r| == ENTRIES && r[0] == 1 && forall i :: 0 < i < ENTRIES ==> r[i] == 0
  {
    seq(ENTRIES, i => if i == 0 then 1 else 0)
  }

  /** A table that maps itself: unmapping its page frees it, and it is the next frame
      to be handed out, while the directory still uses it. */
  lemma SelfMappedTableFreed(m: Pool, dir: seq<Word>)
    requires m == Pool([true], FirstOnly()) && dir == FirstOnly()
    ensures TablesInPool(m, dir) && MapsOwnTable(m, dir, 0)
    ensures Present(dir[0]) && FrameOf(dir[0]) == 0 == LowestFree(Unmap(m, dir, 0).used, 0)
  {
    assert Mapping(m, dir, 0) == Some(1);
    assert Unmap(m, dir, 0).used == [false];
  }

  // ---- What map_page leaves in the directory ------------------------------

  /** map_page changes no directory entry when the page has a table; otherwise exactly
      the page's, which then names a frame that was free, with the caller's flags and
      the Present bit as its low bits. */
  lemma MapDirectory(m: Pool, dir: seq<Word>, v: nat, addr: Word, flags: nat)
    requires CanMap(m, dir, v) && addr % 4096 == 0 && flags < 4096
    ensures var dir' := Map(m, dir, v, addr, flags).1; var i := v / 1024;
      && |dir'| == 1024 && (forall k :: 0 <= k < 1024 && k != i ==> dir'[k] == dir[k])
      && (dir[i] % 2 == 1 ==> dir'[i] == dir[i])
      && (dir[i] % 2 == 0 ==>
            && dir'[i] % 4096 == (if flags % 2 == 1 then flags else flags + 1)
            && dir'[i] / 4096 < |m.used| && !m.used[dir'[i] / 4096])
  {
    if !Present(dir[v / ENTRIES]) { MakeEntryParts(LowestFree(m.used, 0) * 4096, flags); }
  }

  /** The R/W and the U/S bit of an entry, or of flags. */
  predicate AllowsWrite(e: nat) { e % 8 == 2 || e % 8 == 3 || e % 8 == 6 || e % 8 == 7 }
  predicate AllowsUser(e: nat) { e % 8 >= 4 }

  datatype Rights = Rights(write: bool, user: bool)

  function Both(a: nat, b: nat): Rights
  {
    Rights(AllowsWrite(a) && AllowsWrite(b), AllowsUser(a) && AllowsUser(b))
  }

  /** What an access through the directory may do at page v: what both levels allow
      (section 4.6 of the same volume). */
  function RightsAt(m: Pool, dir: seq<Word>, v: nat): Option<Rights>
    requires TablesInRange(m, dir) && v < PAGES
  {
    match Mapping(m, dir, v)
    case None => None
    case Some(e) => Some(Both(dir[v / ENTRIES], e))
  }

  lemma LastThreeBits(q: nat, r: nat)
    requires r < 8
    ensures (8 * q + r) % 8 == r && (8 * q + r) / 8 == q
  {
  }

  lemma LowBits(frame: nat, low: nat)
    ensures (4096 * frame + low) % 8 == low % 8
  {
    var a, r := low / 8, low % 8;
    assert 4096 * frame + low == 8 * (512 * frame + a) + r;
    LastThreeBits(512 * frame + a, r);
  }

  lemma PresentRights(flags: nat)
    requires flags % 2 == 0
    ensures AllowsWrite(flags + 1) == AllowsWrite(flags) && AllowsUser(flags + 1) == AllowsUser(flags)
  {
    var half := flags / 2;
    var q, r := half / 4, 2 * (half % 4);
    assert flags == 8 * q + r;
    LastThreeBits(q, r);
    LastThreeBits(q, r + 1);
  }

  lemma EntryRights(addr: Word, flags: nat)
    requires addr % 4096 == 0 && flags < 4096
    ensures var e := MakeEntry(addr, flags);
      AllowsWrite(e) == AllowsWrite(flags) && AllowsUser(e) == AllowsUser(flags)
  {
    LowBits(addr / 4096, if flags % 2 == 1 then flags else flags + 1);
    if flags % 2 == 0 { PresentRights(flags); }
  }

  /** map_page at a page without a table gives the page exactly the rights in the
      flags; at a page with one, those that the table's entry allows too. It changes the
      rights of no other page. */
  lemma MapRights(m: Pool, dir: seq<Word>, v: nat, addr: Word, flags: nat, w: nat)
    requires CanMap(m, dir, v) && TablesDistinct(dir) && addr % 4096 == 0 && flags < 4096 && w < PAGES
    ensures var (m', dir') := Map(m, dir, v, addr, flags);
      && TablesInPool(m', dir')
      && RightsAt(m', dir', w) ==
           if w != v then RightsAt(m, dir, w)
           else if Present(dir[v / ENTRIES]) then Some(Both(dir[v / ENTRIES], flags))
           else Some(Both(flags, flags))
  {
    MapMapping(m, dir, v, addr, flags, w);
    MapDirectory(m, dir, v, addr, flags);
    EntryRights(addr, flags);
    if !Present(dir[v / ENTRIES]) { EntryRights(LowestFree(m.used, 0) * 4096, flags); }
  }

  /** So the page gets the rights asked for if and only if its table is new or was
      created with them. */
  lemma RightsGranted(m: Pool, dir: seq<Word>, v: nat, addr: Word, flags: nat)
    requires CanMap(m, dir, v) && TablesDistinct(dir) && addr % 4096 == 0 && flags < 4096
    ensures var (m', dir') := Map(m, dir, v, addr, flags); var d := dir[v / ENTRIES];
      && TablesInPool(m', dir')
      && (RightsAt(m', dir', v) == Some(Both(flags, flags)) <==>
            !Present(d) || ((AllowsWrite(flags) ==> AllowsWrite(d)) && (AllowsUser(flags) ==> AllowsUser(d))))
  {
    MapRights(m, dir, v, addr, flags, v);
  }

  /** Two pages mapped one after the other under a table that the first one creates:
      the second has only rights that both were mapped with. */
  lemma NeighbourLimitsRights(m: Pool, dir: seq<Word>, v: nat, addr: Word, flags: nat, w: nat, addr2: Word, flags2: nat)
    requires CanMap(m, dir, v) && !Present(dir[v / ENTRIES]) && TablesDistinct(dir) && w < PAGES && w / ENTRIES == v / ENTRIES
    requires addr % 4096 == 0 && addr2 % 4096 == 0 && flags < 4096 && flags2 < 4096
    ensures var (m1, dir1) := Map(m, dir, v, addr, flags);
      CanMap(m1, dir1, w) && TablesDistinct(dir1) &&
      var (m2, dir2) := Map(m1, dir1, w, addr2, flags2);
      TablesInPool(m2, dir2) && RightsAt(m2, dir2, w) == Some(Both(flags, flags2))
  {
    var (m1, dir1) := Map(m, dir, v, addr, flags);
    MapMapping(m, dir, v, addr, flags, v);
    NewTableRights(m, dir, v, addr, flags);
    MapRights(m1, dir1, w, addr2, flags2, w);
  }

  lemma NewTableRights(m: Pool, dir: seq<Word>, v: nat, addr: Word, flags: nat)
    requires CanMap(m, dir, v) && !Present(dir[v / ENTRIES]) && addr % 4096 == 0 && flags < 4096
    ensures var d := Map(m, dir, v, addr, flags).1[v / ENTRIES];
      Present(d) && AllowsWrite(d) == AllowsWrite(flags) && AllowsUser(d) == AllowsUser(flags)
  {
    EntryRights(LowestFree(m.used, 0) * 4096, flags);
    MakeEntryParts(LowestFree(m.used, 0) * 4096, flags);
  }

  /** get_physical_address: 0 stands for "not mapped". */
  function PhysicalAddress(m: Pool, dir: seq<Word>, va: Word): Word
    requires TablesInRange(m, dir)
  {
    match Mapping(m, dir, PageOf(va))
    case None => 0
    case Some(e) => FrameOf(e) * 4096 + va % 4096
  }

  /** get_physical_address cannot tell physical address 0 from "not mapped"; there
      is no other confusion. */
  lemma ZeroAddress(m: Pool, dir: seq<Word>, va: Word)
    requires TablesInRange(m, dir)
    ensures PhysicalAddress(m, dir, va) == 0 <==>
      Mapping(m, dir, PageOf(va)).None? || (FrameOf(Mapping(m, dir, PageOf(va)).value) == 0 && va % 4096 == 0)
  {
  }

  /** After map_page, the 4096 addresses of the page translate into the frame at
      the same offset, and every other address as before. */
  lemma MapAddress(m: Pool, dir: seq<Word>, va: Word, addr: Word, flags: nat, x: Word)
    requires CanMap(m, dir, PageOf(va)) && TablesDistinct(dir) && addr % 4096 == 0 && flags < 4096
    ensures var (m', dir') := Map(m, dir, PageOf(va), addr, flags);
      && TablesInPool(m', dir')
      && PhysicalAddress(m', dir', x) ==
           if PageOf(x) == PageOf(va) then addr + x % 4096 else PhysicalAddress(m, dir, x)
  {
    MapMapping(m, dir, PageOf(va), addr, flags, PageOf(x));
    MakeEntryParts(addr, flags);
  }
}
