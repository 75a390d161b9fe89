/** Who owns each physical frame while directories are created, filled, emptied
    and destroyed. The owner of a frame is recorded in a map beside the machine
    state, so a frame can have at most one; the invariant says that the record is
    exact. Callers map, at user addresses, only frames they were given by
    alloc_page_frame. Nothing keeps them from mapping over a page that is mapped
    already: map_page then drops the only reference to the old frame. */
module PageOwnership {
  import opened Common
  import opened PageTables

  datatype Owner =
    | Kernel                          // kernel image, heap, and the tables of the kernel half
    | Caller                          // handed out by alloc_page_frame
    | Table(dir: nat, index: nat)     // page table of a user directory entry
    | Data(dir: nat, page: nat)       // mapped at a user page
    | Lost                            // was mapped at a page that was mapped over

  /** dirs: the live page directories; `owner` is the record. */
  datatype System = System(pool: Pool, dirs: map<nat, seq<Word>>, owner: map<nat, Owner>)

  const BOOT: nat := 0                // boot_page_dir

  predicate UserEntry(s: System, d: nat, i: nat)
  {
    d in s.dirs && i < USER_ENTRIES && |s.dirs[d]| == ENTRIES && Present(s.dirs[d][i])
  }

  predicate UserPage(s: System, d: nat, v: nat)
    requires d in s.dirs ==> TablesInPool(s.pool, s.dirs[d])
  {
    d in s.dirs && v < USER_PAGES && Mapping(s.pool, s.dirs[d], v).Some?
  }

  function TableOf(s: System, d: nat, i: nat): nat
    requires UserEntry(s, d, i)
  {
    FrameOf(s.dirs[d][i])
  }

  function DataOf(s: System, d: nat, v: nat): nat
    requires d in s.dirs && TablesInPool(s.pool, s.dirs[d]) && UserPage(s, d, v)
  {
    FrameOf(Mapping(s.pool, s.dirs[d], v).value)
  }

  predicate Owns(s: System, f: nat, o: Owner) { f in s.owner && s.owner[f] == o }

  /** Directories are well formed: every present table is in the pool, and the
      kernel half points only at kernel frames, each at one index. */
  predicate DirsOk(s: System)
  {
    && PoolOk(s.pool) && BOOT in s.dirs
    && (forall d :: d in s.dirs ==> TablesInPool(s.pool, s.dirs[d]) && TablesDistinct(s.dirs[d]))
    && (forall d, i :: d in s.dirs && USER_ENTRIES <= i < ENTRIES && Present(s.dirs[d][i]) ==>
          Owns(s, FrameOf(s.dirs[d][i]), Kernel))
  }

  /** The record is exact: a frame is used if and only if it has an owner; user
      tables and mapped user frames are recorded under the one entry that reaches
      them; and whatever is recorded under an entry is reached by it. */
  ghost predicate Inv(s: System)
  {
    && DirsOk(s)
    && (forall f :: f in s.owner <==> InPool(s.pool, f))
    && TablesRecorded(s) && DataRecorded(s) && TablesReached(s) && DataReached(s)
  }

  ghost predicate TablesRecorded(s: System)
  {
    forall d, i :: UserEntry(s, d, i) ==> Owns(s, TableOf(s, d, i), Table(d, i))
  }

  ghost predicate DataRecorded(s: System)
    requires DirsOk(s)
  {
    forall d, v :: d in s.dirs && UserPage(s, d, v) ==> Owns(s, DataOf(s, d, v), Data(d, v))
  }

  ghost predicate TablesReached(s: System)
  {
    forall f :: f in s.owner && s.owner[f].Table? ==>
      UserEntry(s, s.owner[f].dir, s.owner[f].index) && TableOf(s, s.owner[f].dir, s.owner[f].index) == f
  }

  ghost predicate DataReached(s: System)
    requires DirsOk(s)
  {
    forall f :: f in s.owner && s.owner[f].Data? ==>
      && s.owner[f].dir in s.dirs && UserPage(s, s.owner[f].dir, s.owner[f].page)
      && DataOf(s, s.owner[f].dir, s.owner[f].page) == f
  }

  // ---- Operations ---------------------------------------------------------

  datatype Step =
    | AllocFrame
    | FreeCallerFrame(f: nat)
    | CreateDirectory(d: nat)
    | MapPage(d: nat, v: nat, f: nat, flags: nat)
    | UnmapPage(d: nat, v: nat)
    | DestroyDirectory(d: nat)
    | WriteFrame(f: nat, j: nat, w: Word)   // a store into memory a caller or a process owns

  /** What callers must respect; a step that needs a frame also needs a free one,
      as alloc_page_frame does not return otherwise. */
  predicate Enabled(s: System, t: Step)
    requires Inv(s)
  {
    match t
    case AllocFrame => HasFree(s.pool)
    case FreeCallerFrame(f) => Owns(s, f, Caller)
    case CreateDirectory(d) => d !in s.dirs
    case MapPage(d, v, f, flags) =>
      && d in s.dirs && v < USER_PAGES && Owns(s, f, Caller) && flags < 4096
      && (Present(s.dirs[d][v / ENTRIES]) || HasFree(s.pool))
    case UnmapPage(d, v) => d in s.dirs && v < USER_PAGES
    case DestroyDirectory(d) => d in s.dirs && d != BOOT
    case WriteFrame(f, j, w) => f in s.owner && (s.owner[f].Caller? || s.owner[f].Data?) && j < ENTRIES
  }

  /** create_page_directory: an empty user half under the boot directory's kernel half. */
  function NewDirectory(boot: seq<Word>): seq<Word>
    requires |boot| == ENTRIES
  {
    seq(ENTRIES, i requires 0 <= i < ENTRIES => if i < USER_ENTRIES then 0 else boot[i])
  }

  /** Frame f is a user table of the directory or mapped at one of its user pages. */
  predicate Reaches(m: Pool, dir: seq<Word>, f: nat)
    requires TablesInPool(m, dir)
  {
    || (exists i :: 0 <= i < USER_ENTRIES && Present(dir[i]) && FrameOf(dir[i]) == f)
    || (exists v :: 0 <= v < USER_PAGES && Mapping(m, dir, v).Some? && FrameOf(Mapping(m, dir, v).value) == f)
  }

  /** destroy_page_directory frees those frames and no other. */
  function Destroy(m: Pool, dir: seq<Word>): Pool
    requires TablesInPool(m, dir)
  {
    m.(used := seq(|m.used|, f requires 0 <= f < |m.used| => m.used[f] && !Reaches(m, dir, f)))
  }

  function Apply(s: System, t: Step): System
    requires Inv(s) && Enabled(s, t)
  {
    match t
    case AllocFrame =>
      var f := LowestFree(s.pool.used, 0);
      s.(pool := s.pool.(used := s.pool.used[f := true]), owner := s.owner[f := Caller])
    case FreeCallerFrame(f) => s.(pool := FreeFrame(s.pool, f), owner := s.owner - {f})
    case CreateDirectory(d) => s.(dirs := s.dirs[d := NewDirectory(s.dirs[BOOT])])
    case MapPage(d, v, f, flags) => MapIn(s, d, v, f, flags)
    case UnmapPage(d, v) =>
      s.(pool := Unmap(s.pool, s.dirs[d], v),
         owner := if UserPage(s, d, v) then s.owner - {DataOf(s, d, v)} else s.owner)
    case DestroyDirectory(d) =>
      System(Destroy(s.pool, s.dirs[d]), s.dirs - {d},
             map f | f in s.owner && !((s.owner[f].Table? || s.owner[f].Data?) && s.owner[f].dir == d) :: s.owner[f])
    case WriteFrame(f, j, w) => s.(pool := Poke(s.pool, f, j, w))
  }

  function MapIn(s: System, d: nat, v: nat, f: nat, flags: nat): System
    requires Inv(s) && Enabled(s, MapPage(d, v, f, flags))
  {
    var (m', dir') := Map(s.pool, s.dirs[d], v, f * 4096, flags);
    var owner1 := if Present(s.dirs[d][v / ENTRIES]) then s.owner
                  else s.owner[LowestFree(s.pool.used, 0) := Table(d, v / ENTRIES)];
    var owner2 := if UserPage(s, d, v) then owner1[DataOf(s, d, v) := Lost] else owner1;
    System(m', s.dirs[d := dir'], owner2[f := Data(d, v)])
  }

  // ---- Every step keeps the record exact ----------------------------------

  /** Translations of a directory depend only on its own tables. */
  lemma SameMapping(m: Pool, m': Pool, dir: seq<Word>, v: nat)
    requires TablesInPool(m, dir) && TablesInPool(m', dir) && v < PAGES
    requires Present(dir[v / ENTRIES]) ==>
      EntryAt(m', FrameOf(dir[v / ENTRIES]), v % ENTRIES) == EntryAt(m, FrameOf(dir[v / ENTRIES]), v % ENTRIES)
    ensures Mapping(m', dir, v) == Mapping(m, dir, v)
  {
  }

  lemma AllocStep(s: System)
    requires Inv(s) && Enabled(s, AllocFrame)
    ensures Inv(Apply(s, AllocFrame))
  {
    AllocTables(s);
    AllocData(s);
  }

  lemma AllocTables(s: System)
    requires Inv(s) && Enabled(s, AllocFrame)
    ensures var s' := Apply(s, AllocFrame); DirsOk(s') && TablesRecorded(s') && TablesReached(s')
  {
    var s' := Apply(s, AllocFrame);
    forall d, i | UserEntry(s', d, i) ensures Owns(s', TableOf(s', d, i), Table(d, i)) {
      assert UserEntry(s, d, i);
    }
  }

  lemma AllocData(s: System)
    requires Inv(s) && Enabled(s, AllocFrame) && DirsOk(Apply(s, AllocFrame))
    ensures var s' := Apply(s, AllocFrame); DataRecorded(s') && DataReached(s')
  {
    var s' := Apply(s, AllocFrame);
    forall d, v | d in s.dirs && v < USER_PAGES && 0 <= v
      ensures UserPage(s', d, v) == UserPage(s, d, v) && (UserPage(s, d, v) ==> DataOf(s', d, v) == DataOf(s, d, v))
    {
      SameMapping(s.pool, s'.pool, s.dirs[d], v);
    }
  }

  lemma FreeStep(s: System, f: nat)
    requires Inv(s) && Enabled(s, FreeCallerFrame(f))
    ensures Inv(Apply(s, FreeCallerFrame(f)))
  {
    var s' := Apply(s, FreeCallerFrame(f));
    forall d | d in s'.dirs ensures TablesInPool(s'.pool, s'.dirs[d]) {
      forall i | 0 <= i < ENTRIES && Present(s.dirs[d][i]) ensures InPool(s'.pool, FrameOf(s.dirs[d][i])) {
        if i < USER_ENTRIES { assert UserEntry(s, d, i); }
      }
    }
    forall d, v: nat | d in s.dirs && v < USER_PAGES ensures Mapping(s'.pool, s.dirs[d], v) == Mapping(s.pool, s.dirs[d], v) {
      SameMapping(s.pool, s'.pool, s.dirs[d], v);
    }
  }

  lemma CreateStep(s: System, d: nat)
    requires Inv(s) && Enabled(s, CreateDirectory(d))
    ensures Inv(Apply(s, CreateDirectory(d)))
  {
    CreateDirs(s, d);
    CreateRecords(s, d);
  }

  lemma CreateDirs(s: System, d: nat)
    requires Inv(s) && Enabled(s, CreateDirectory(d))
    ensures DirsOk(Apply(s, CreateDirectory(d)))
  {
    var created := NewDirectory(s.dirs[BOOT]);
    assert TablesInPool(s.pool, created) && TablesDistinct(created);
  }

  lemma CreateRecords(s: System, d: nat)
    requires Inv(s) && Enabled(s, CreateDirectory(d)) && DirsOk(Apply(s, CreateDirectory(d)))
    ensures var s' := Apply(s, CreateDirectory(d));
      TablesRecorded(s') && TablesReached(s') && DataRecorded(s') && DataReached(s')
  {
    var created := NewDirectory(s.dirs[BOOT]);
    forall v: nat | v < USER_PAGES ensures Mapping(s.pool, created, v).None? {
      assert !Present(created[v / ENTRIES]);
    }
  }

  /** A table of one directory is no table of another, except in the kernel half,
      and no mapped user frame is a table. */
  lemma TableApart(s: System, d: nat, i: nat, e: nat, j: nat)
    requires Inv(s) && UserEntry(s, d, i) && e in s.dirs && j < ENTRIES && Present(s.dirs[e][j])
    requires d != e || i != j
    ensures FrameOf(s.dirs[e][j]) != TableOf(s, d, i)
  {
    if j < USER_ENTRIES { assert UserEntry(s, e, j); }
  }

  lemma DataApart(s: System, d: nat, v: nat, e: nat, j: nat)
    requires Inv(s) && d in s.dirs && UserPage(s, d, v) && e in s.dirs && j < ENTRIES && Present(s.dirs[e][j])
    ensures FrameOf(s.dirs[e][j]) != DataOf(s, d, v)
  {
    if j < USER_ENTRIES { assert UserEntry(s, e, j); }
  }

  lemma SlotsApart(u: nat, i: nat, t: nat, j: nat)
    requires u != t && i < ENTRIES && j < ENTRIES
    ensures Slot(u, i) != Slot(t, j)
  {
  }

  /** map_page leaves every other directory's translation alone. */
  lemma MapOthers(s: System, d: nat, v: nat, f: nat, flags: nat, e: nat, w: nat)
    requires Inv(s) && Enabled(s, MapPage(d, v, f, flags)) && e in s.dirs && e != d && w < PAGES
    ensures var m' := MapIn(s, d, v, f, flags).pool;
      TablesInPool(m', s.dirs[e]) && Mapping(m', s.dirs[e], w) == Mapping(s.pool, s.dirs[e], w)
  {
    var m' := MapIn(s, d, v, f, flags).pool;
    var dir, i := s.dirs[d], v / ENTRIES;
    WithTableOk(s.pool, dir, i, flags);
    var t := FrameOf(WithTable(s.pool, dir, i, flags).1[i]);
    if !Present(dir[i]) { MakeEntryParts(LowestFree(s.pool.used, 0) * 4096, flags); }
    if Present(s.dirs[e][w / ENTRIES]) {
      if Present(dir[i]) { TableApart(s, d, i, e, w / ENTRIES); }
      var u := FrameOf(s.dirs[e][w / ENTRIES]);
      assert u != t;
      SlotsApart(u, w % ENTRIES, t, v % ENTRIES);
      SameMapping(s.pool, m', s.dirs[e], w);
    }
  }

  /** What map_page does to the directories and translations of the system. */
  ghost predicate MapResult(s: System, s': System, d: nat, v: nat, f: nat, flags: nat)
    requires Inv(s) && Enabled(s, MapPage(d, v, f, flags)) && DirsOk(s')
  {
    && s'.dirs.Keys == s.dirs.Keys
    && (forall e, i :: e in s.dirs && 0 <= i < ENTRIES && !(e == d && i == v / ENTRIES) ==>
          s'.dirs[e][i] == s.dirs[e][i])
    && (forall e, w: nat :: e in s.dirs && w < PAGES ==>
          Mapping(s'.pool, s'.dirs[e], w) ==
          if e == d && w == v then Some(MakeEntry(f * 4096, flags)) else Mapping(s.pool, s.dirs[e], w))
  }

  lemma MapOne(s: System, d: nat, v: nat, f: nat, flags: nat, e: nat, w: nat)
    requires Inv(s) && Enabled(s, MapPage(d, v, f, flags)) && e in s.dirs && w < PAGES
    ensures var s' := MapIn(s, d, v, f, flags);
      && e in s'.dirs && TablesInPool(s'.pool, s'.dirs[e]) && TablesDistinct(s'.dirs[e])
      && Mapping(s'.pool, s'.dirs[e], w) ==
         if e == d && w == v then Some(MakeEntry(f * 4096, flags)) else Mapping(s.pool, s.dirs[e], w)
  {
    if e == d { MapOwn(s, d, v, f, flags, w); } else { MapOthers(s, d, v, f, flags, e, w); }
  }

  lemma MapOwn(s: System, d: nat, v: nat, f: nat, flags: nat, w: nat)
    requires Inv(s) && Enabled(s, MapPage(d, v, f, flags)) && w < PAGES
    ensures var s' := MapIn(s, d, v, f, flags);
      && d in s'.dirs && TablesInPool(s'.pool, s'.dirs[d]) && TablesDistinct(s'.dirs[d])
      && Mapping(s'.pool, s'.dirs[d], w) ==
         if w == v then Some(MakeEntry(f * 4096, flags)) else Mapping(s.pool, s.dirs[d], w)
  {
    assert CanMap(s.pool, s.dirs[d], v) && TablesDistinct(s.dirs[d]);
    FrameAligned(f);
    MapMapping(s.pool, s.dirs[d], v, f * 4096, flags, w);
  }

  lemma FrameAligned(f: nat)
    ensures f * 4096 % 4096 == 0
  {
  }

  lemma MapDirs(s: System, d: nat, v: nat, f: nat, flags: nat)
    requires Inv(s) && Enabled(s, MapPage(d, v, f, flags))
    ensures DirsOk(MapIn(s, d, v, f, flags))
  {
    var s' := MapIn(s, d, v, f, flags);
    WithTableOk(s.pool, s.dirs[d], v / ENTRIES, flags);
    forall e | e in s'.dirs ensures TablesInPool(s'.pool, s'.dirs[e]) && TablesDistinct(s'.dirs[e]) {
      MapOne(s, d, v, f, flags, e, 0);
    }
  }

  lemma MapAll(s: System, d: nat, v: nat, f: nat, flags: nat)
    requires Inv(s) && Enabled(s, MapPage(d, v, f, flags)) && DirsOk(MapIn(s, d, v, f, flags))
    ensures MapResult(s, MapIn(s, d, v, f, flags), d, v, f, flags)
  {
    var s' := MapIn(s, d, v, f, flags);
    forall e, w: nat | e in s.dirs && w < PAGES
      ensures Mapping(s'.pool, s'.dirs[e], w) ==
              if e == d && w == v then Some(MakeEntry(f * 4096, flags)) else Mapping(s.pool, s.dirs[e], w)
    {
      MapOne(s, d, v, f, flags, e, w);
    }
  }

  lemma MapTables(s: System, d: nat, v: nat, f: nat, flags: nat)
    requires Inv(s) && Enabled(s, MapPage(d, v, f, flags)) && DirsOk(MapIn(s, d, v, f, flags))
    requires MapResult(s, MapIn(s, d, v, f, flags), d, v, f, flags)
    ensures TablesRecorded(MapIn(s, d, v, f, flags))
  {
    var s' := MapIn(s, d, v, f, flags);
    if !Present(s.dirs[d][v / ENTRIES]) { MakeEntryParts(LowestFree(s.pool.used, 0) * 4096, flags); }
    forall e, i | UserEntry(s', e, i) ensures Owns(s', TableOf(s', e, i), Table(e, i)) {
      if !(e == d && i == v / ENTRIES) {
        assert UserEntry(s, e, i);
        MapKeepsRecord(s, d, v, f, flags, TableOf(s, e, i));
      }
    }
  }

  lemma MapTablesReached(s: System, d: nat, v: nat, f: nat, flags: nat)
    requires Inv(s) && Enabled(s, MapPage(d, v, f, flags)) && DirsOk(MapIn(s, d, v, f, flags))
    requires MapResult(s, MapIn(s, d, v, f, flags), d, v, f, flags)
    ensures TablesReached(MapIn(s, d, v, f, flags))
  {
    var s' := MapIn(s, d, v, f, flags);
    if !Present(s.dirs[d][v / ENTRIES]) { MakeEntryParts(LowestFree(s.pool.used, 0) * 4096, flags); }
    forall g | g in s'.owner && s'.owner[g].Table?
      ensures UserEntry(s', s'.owner[g].dir, s'.owner[g].index) && TableOf(s', s'.owner[g].dir, s'.owner[g].index) == g
    {
      if g in s.owner && s.owner[g] == s'.owner[g] { assert UserEntry(s, s.owner[g].dir, s.owner[g].index); }
    }
  }

  lemma MapData(s: System, d: nat, v: nat, f: nat, flags: nat)
    requires Inv(s) && Enabled(s, MapPage(d, v, f, flags)) && DirsOk(MapIn(s, d, v, f, flags))
    requires MapResult(s, MapIn(s, d, v, f, flags), d, v, f, flags)
    ensures DataRecorded(MapIn(s, d, v, f, flags))
  {
    var s' := MapIn(s, d, v, f, flags);
    MakeEntryParts(f * 4096, flags);
    forall e, w | e in s'.dirs && UserPage(s', e, w) ensures Owns(s', DataOf(s', e, w), Data(e, w)) {
      if !(e == d && w == v) {
        assert UserPage(s, e, w) && DataOf(s, e, w) == DataOf(s', e, w);
        MapKeepsRecord(s, d, v, f, flags, DataOf(s, e, w));
      }
    }
  }

  /** Tables, and frames mapped elsewhere, keep their record. */
  lemma MapKeepsRecord(s: System, d: nat, v: nat, f: nat, flags: nat, g: nat)
    requires Inv(s) && Enabled(s, MapPage(d, v, f, flags))
    requires g in s.owner && (s.owner[g].Table? || (s.owner[g].Data? && s.owner[g] != Data(d, v)))
    ensures Owns(MapIn(s, d, v, f, flags), g, s.owner[g])
  {
  }

  lemma MapDataReached(s: System, d: nat, v: nat, f: nat, flags: nat)
    requires Inv(s) && Enabled(s, MapPage(d, v, f, flags)) && DirsOk(MapIn(s, d, v, f, flags))
    requires MapResult(s, MapIn(s, d, v, f, flags), d, v, f, flags)
    ensures DataReached(MapIn(s, d, v, f, flags))
  {
    var s' := MapIn(s, d, v, f, flags);
    MakeEntryParts(f * 4096, flags);
    forall g | g in s'.owner && s'.owner[g].Data?
      ensures s'.owner[g].dir in s'.dirs && UserPage(s', s'.owner[g].dir, s'.owner[g].page)
              && DataOf(s', s'.owner[g].dir, s'.owner[g].page) == g
    {
      if g != f { assert g in s.owner && s.owner[g] == s'.owner[g]; }
    }
  }

  lemma MapStep(s: System, d: nat, v: nat, f: nat, flags: nat)
    requires Inv(s) && Enabled(s, MapPage(d, v, f, flags))
    ensures Inv(MapIn(s, d, v, f, flags))
  {
    MapDirs(s, d, v, f, flags);
    MapAll(s, d, v, f, flags);
    MapTables(s, d, v, f, flags);
    MapTablesReached(s, d, v, f, flags);
    MapData(s, d, v, f, flags);
    MapDataReached(s, d, v, f, flags);
  }

  /** unmap_page takes the page out of its directory's map and changes no other
      translation of any directory. */
  lemma UnmapFacts(s: System, d: nat, v: nat, e: nat, w: nat)
    requires Inv(s) && Enabled(s, UnmapPage(d, v)) && e in s.dirs && w < PAGES
    ensures var m' := Unmap(s.pool, s.dirs[d], v);
      && TablesInPool(m', s.dirs[e])
      && Mapping(m', s.dirs[e], w) == if e == d && w == v then None else Mapping(s.pool, s.dirs[e], w)
  {
    if UserPage(s, d, v) {
      forall j | 0 <= j < ENTRIES && Present(s.dirs[e][j]) ensures FrameOf(s.dirs[e][j]) != DataOf(s, d, v) {
        DataApart(s, d, v, e, j);
      }
      if e == d {
        UnmapMapping(s.pool, s.dirs[d], v, w);
        UnmapKeepsTables(s.pool, s.dirs[d], v);
      } else {
        UnmapOther(s, d, v, e, w);
      }
    }
  }

  lemma UnmapOther(s: System, d: nat, v: nat, e: nat, w: nat)
    requires Inv(s) && Enabled(s, UnmapPage(d, v)) && e in s.dirs && e != d && w < PAGES && UserPage(s, d, v)
    requires forall j :: 0 <= j < ENTRIES && Present(s.dirs[e][j]) ==> FrameOf(s.dirs[e][j]) != DataOf(s, d, v)
    ensures var m' := Unmap(s.pool, s.dirs[d], v);
      TablesInPool(m', s.dirs[e]) && Mapping(m', s.dirs[e], w) == Mapping(s.pool, s.dirs[e], w)
  {
    var m' := Unmap(s.pool, s.dirs[d], v);
    if Present(s.dirs[e][w / ENTRIES]) {
      TableApart(s, d, v / ENTRIES, e, w / ENTRIES);
      var t, u := TableOf(s, d, v / ENTRIES), FrameOf(s.dirs[e][w / ENTRIES]);
      SlotsApart(u, w % ENTRIES, t, v % ENTRIES);
      SameMapping(s.pool, m', s.dirs[e], w);
    }
  }

  lemma UnmapAll(s: System, d: nat, v: nat)
    requires Inv(s) && Enabled(s, UnmapPage(d, v))
    ensures var m' := Unmap(s.pool, s.dirs[d], v);
      && (forall e :: e in s.dirs ==> TablesInPool(m', s.dirs[e]))
      && (forall e, w: nat :: e in s.dirs && w < PAGES ==>
            Mapping(m', s.dirs[e], w) == if e == d && w == v then None else Mapping(s.pool, s.dirs[e], w))
  {
    var m' := Unmap(s.pool, s.dirs[d], v);
    forall e | e in s.dirs ensures TablesInPool(m', s.dirs[e]) {
      UnmapFacts(s, d, v, e, 0);
    }
    forall e, w: nat | e in s.dirs && w < PAGES
      ensures Mapping(m', s.dirs[e], w) == if e == d && w == v then None else Mapping(s.pool, s.dirs[e], w)
    {
      UnmapFacts(s, d, v, e, w);
    }
  }

  lemma UnmapStep(s: System, d: nat, v: nat)
    requires Inv(s) && Enabled(s, UnmapPage(d, v))
    ensures Inv(Apply(s, UnmapPage(d, v)))
  {
    UnmapAll(s, d, v);
    KernelTablesStay(s, Apply(s, UnmapPage(d, v)));
    UnmapData(s, d, v);
  }

  lemma KernelTablesStay(s: System, s': System)
    requires Inv(s) && s'.dirs == s.dirs && PoolOk(s'.pool)
    requires forall d :: d in s.dirs ==> TablesInPool(s'.pool, s.dirs[d])
    requires forall f :: f in s.owner && !s.owner[f].Data? ==> f in s'.owner && s'.owner[f] == s.owner[f]
    requires forall f :: f in s'.owner ==> f in s.owner && s'.owner[f] == s.owner[f]
    ensures DirsOk(s') && TablesRecorded(s') && TablesReached(s')
  {
    forall d, i | UserEntry(s', d, i) ensures Owns(s', TableOf(s', d, i), Table(d, i)) {
      assert UserEntry(s, d, i);
    }
  }

  lemma UnmapData(s: System, d: nat, v: nat)
    requires Inv(s) && Enabled(s, UnmapPage(d, v)) && DirsOk(Apply(s, UnmapPage(d, v)))
    requires forall e, w: nat :: e in s.dirs && w < PAGES ==>
      Mapping(Apply(s, UnmapPage(d, v)).pool, s.dirs[e], w) ==
      if e == d && w == v then None else Mapping(s.pool, s.dirs[e], w)
    ensures DataRecorded(Apply(s, UnmapPage(d, v))) && DataReached(Apply(s, UnmapPage(d, v)))
  {
    var s' := Apply(s, UnmapPage(d, v));
    forall e, w | e in s'.dirs && UserPage(s', e, w) ensures Owns(s', DataOf(s', e, w), Data(e, w)) {
      assert UserPage(s, e, w) && DataOf(s, e, w) == DataOf(s', e, w);
    }
    forall g | g in s'.owner && s'.owner[g].Data?
      ensures s'.owner[g].dir in s'.dirs && UserPage(s', s'.owner[g].dir, s'.owner[g].page)
              && DataOf(s', s'.owner[g].dir, s'.owner[g].page) == g
    {
      assert g in s.owner && s.owner[g] == s'.owner[g];
    }
  }

  /** What a directory reaches is what is recorded under it. */
  lemma ReachedIsRecorded(s: System, d: nat, f: nat)
    requires Inv(s) && d in s.dirs
    ensures Reaches(s.pool, s.dirs[d], f) <==>
      f in s.owner && (s.owner[f].Table? || s.owner[f].Data?) && s.owner[f].dir == d
  {
    if Reaches(s.pool, s.dirs[d], f) {
      if i :| 0 <= i < USER_ENTRIES && Present(s.dirs[d][i]) && FrameOf(s.dirs[d][i]) == f {
        assert UserEntry(s, d, i);
      } else {
        var v :| 0 <= v < USER_PAGES && Mapping(s.pool, s.dirs[d], v).Some? && FrameOf(Mapping(s.pool, s.dirs[d], v).value) == f;
        assert UserPage(s, d, v);
      }
    }
  }

  /** destroy_page_directory frees exactly the frames recorded under the directory;
      no other directory loses a table or a translation. */
  lemma DestroyFacts(s: System, d: nat)
    requires Inv(s) && Enabled(s, DestroyDirectory(d))
    ensures forall f :: InPool(Apply(s, DestroyDirectory(d)).pool, f) <==>
      f in s.owner && !((s.owner[f].Table? || s.owner[f].Data?) && s.owner[f].dir == d)
    ensures forall e :: e in s.dirs && e != d ==> TablesInPool(Destroy(s.pool, s.dirs[d]), s.dirs[e])
  {
    var m' := Destroy(s.pool, s.dirs[d]);
    forall f ensures InPool(m', f) <==>
      f in s.owner && !((s.owner[f].Table? || s.owner[f].Data?) && s.owner[f].dir == d)
    {
      ReachedIsRecorded(s, d, f);
    }
    forall e | e in s.dirs && e != d ensures TablesInPool(m', s.dirs[e]) {
      forall i | 0 <= i < ENTRIES && Present(s.dirs[e][i]) ensures InPool(m', FrameOf(s.dirs[e][i])) {
        if i < USER_ENTRIES { assert UserEntry(s, e, i); }
      }
    }
  }

  lemma DestroyStep(s: System, d: nat)
    requires Inv(s) && Enabled(s, DestroyDirectory(d))
    ensures Inv(Apply(s, DestroyDirectory(d)))
  {
    var s' := Apply(s, DestroyDirectory(d));
    DestroyFacts(s, d);
    forall e, w: nat | e in s'.dirs && w < PAGES ensures Mapping(s'.pool, s'.dirs[e], w) == Mapping(s.pool, s.dirs[e], w) {
      SameMapping(s.pool, s'.pool, s.dirs[e], w);
    }
    DestroyRecord(s, d);
  }

  lemma DestroyRecord(s: System, d: nat)
    requires Inv(s) && Enabled(s, DestroyDirectory(d))
    requires var s' := Apply(s, DestroyDirectory(d));
      && PoolOk(s'.pool)
      && (forall e :: e in s'.dirs ==> TablesInPool(s'.pool, s'.dirs[e]))
      && (forall e, w: nat :: e in s'.dirs && w < PAGES ==>
            Mapping(s'.pool, s'.dirs[e], w) == Mapping(s.pool, s.dirs[e], w))
    ensures var s' := Apply(s, DestroyDirectory(d));
      DirsOk(s') && TablesRecorded(s') && TablesReached(s') && DataRecorded(s') && DataReached(s')
  {
    var s' := Apply(s, DestroyDirectory(d));
    forall e, i | UserEntry(s', e, i) ensures Owns(s', TableOf(s', e, i), Table(e, i)) {
      assert UserEntry(s, e, i);
    }
    forall e, w | e in s'.dirs && UserPage(s', e, w) ensures Owns(s', DataOf(s', e, w), Data(e, w)) {
      assert UserPage(s, e, w) && DataOf(s, e, w) == DataOf(s', e, w);
    }
  }

  /** Whatever is stored in frames that callers or processes own, no translation
      changes. */
  lemma WriteStep(s: System, f: nat, j: nat, w: Word)
    requires Inv(s) && Enabled(s, WriteFrame(f, j, w))
    ensures Inv(Apply(s, WriteFrame(f, j, w)))
    ensures forall d, v: nat :: d in s.dirs && v < PAGES ==>
      Mapping(Poke(s.pool, f, j, w), s.dirs[d], v) == Mapping(s.pool, s.dirs[d], v)
  {
    var m' := Poke(s.pool, f, j, w);
    forall d, v: nat | d in s.dirs && v < PAGES ensures Mapping(m', s.dirs[d], v) == Mapping(s.pool, s.dirs[d], v) {
      var i := v / ENTRIES;
      if Present(s.dirs[d][i]) {
        var t := FrameOf(s.dirs[d][i]);
        if i < USER_ENTRIES { assert UserEntry(s, d, i); }
        SlotsApart(t, v % ENTRIES, f, j);
      }
    }
    WriteRecord(s, f, j, w);
  }

  lemma WriteRecord(s: System, f: nat, j: nat, w: Word)
    requires Inv(s) && Enabled(s, WriteFrame(f, j, w))
    requires forall d, v: nat :: d in s.dirs && v < PAGES ==>
      Mapping(Poke(s.pool, f, j, w), s.dirs[d], v) == Mapping(s.pool, s.dirs[d], v)
    ensures Inv(Apply(s, WriteFrame(f, j, w)))
  {
    var s' := Apply(s, WriteFrame(f, j, w));
    forall e, v | e in s'.dirs && UserPage(s', e, v) ensures Owns(s', DataOf(s', e, v), Data(e, v)) {
      assert UserPage(s, e, v) && DataOf(s, e, v) == DataOf(s', e, v);
    }
    forall e, i | UserEntry(s', e, i) ensures Owns(s', TableOf(s', e, i), Table(e, i)) {
      assert UserEntry(s, e, i);
    }
  }

  lemma InvStep(s: System, t: Step)
    requires Inv(s) && Enabled(s, t)
    ensures Inv(Apply(s, t))
  {
    match t {
      case AllocFrame => AllocStep(s);
      case FreeCallerFrame(f) => FreeStep(s, f);
      case CreateDirectory(d) => CreateStep(s, d);
      case MapPage(d, v, f, flags) => MapStep(s, d, v, f, flags);
      case UnmapPage(d, v) => UnmapStep(s, d, v);
      case DestroyDirectory(d) => DestroyStep(s, d);
      case WriteFrame(f, j, w) => WriteStep(s, f, j, w);
    }
  }

  // ---- The kernel half ----------------------------------------------------

  /** What the kernel half of a directory maps is the kernel's, or lies outside the
      pool as device memory does. */
  ghost predicate KernelPages(s: System)
    requires DirsOk(s)
  {
    forall d, v: nat :: d in s.dirs && USER_PAGES <= v < PAGES && Mapping(s.pool, s.dirs[d], v).Some? ==>
      KernelFrame(s, FrameOf(Mapping(s.pool, s.dirs[d], v).value))
  }

  predicate KernelFrame(s: System, f: nat) { f < |s.pool.used| ==> Owns(s, f, Kernel) }

  /** No step changes what a kernel half maps; a new directory has the boot
      directory's. */
  lemma KernelMapping(s: System, t: Step, d: nat, v: nat)
    requires Inv(s) && Enabled(s, t) && Inv(Apply(s, t)) && d in Apply(s, t).dirs && USER_PAGES <= v < PAGES
    ensures var e := if d in s.dirs then d else BOOT;
      Mapping(Apply(s, t).pool, Apply(s, t).dirs[d], v) == Mapping(s.pool, s.dirs[e], v)
  {
    match t {
      case MapPage(c, w, f, flags) => MapOne(s, c, w, f, flags, d, v);
      case UnmapPage(c, w) => UnmapFacts(s, c, w, d, v);
      case WriteFrame(f, j, w) => WriteStep(s, f, j, w);
      case _ =>
    }
  }

  lemma KernelStep(s: System, t: Step)
    requires Inv(s) && KernelPages(s) && Enabled(s, t) && Inv(Apply(s, t))
    ensures KernelPages(Apply(s, t))
  {
    var s' := Apply(s, t);
    forall d, v: nat | d in s'.dirs && USER_PAGES <= v < PAGES && Mapping(s'.pool, s'.dirs[d], v).Some?
      ensures KernelFrame(s', FrameOf(Mapping(s'.pool, s'.dirs[d], v).value))
    {
      KernelMapping(s, t, d, v);
      KernelFramesStay(s, t, FrameOf(Mapping(s'.pool, s'.dirs[d], v).value));
    }
  }

  lemma KernelFramesStay(s: System, t: Step, f: nat)
    requires Inv(s) && Enabled(s, t) && KernelFrame(s, f)
    ensures KernelFrame(Apply(s, t), f)
  {
  }

  // ---- Results over every run ---------------------------------------------

  /** The pool as initialisation hands it over: frames are free or the kernel's,
      and only the boot directory exists, whose kernel half maps the kernel. */
  ghost predicate Initial(s: System)
  {
    Inv(s) && KernelPages(s) && s.dirs.Keys == {BOOT} && forall f :: f in s.owner ==> s.owner[f].Kernel?
  }

  ghost predicate Possible(s: System, ts: seq<Step>)
    requires Inv(s)
    decreases |ts|
  {
    ts == [] || (Enabled(s, ts[0]) && (InvStep(s, ts[0]); Possible(Apply(s, ts[0]), ts[1..])))
  }

  ghost function StateAfter(s: System, ts: seq<Step>): (r: System)
    requires Inv(s) && Possible(s, ts)
    ensures Inv(r)
    decreases |ts|
  {
    if ts == [] then s
    else
      InvStep(s, ts[0]);
      StateAfter(Apply(s, ts[0]), ts[1..])
  }

  lemma {:induction false} KernelAlways(s: System, ts: seq<Step>)
    requires Inv(s) && KernelPages(s) && Possible(s, ts)
    ensures KernelPages(StateAfter(s, ts))
    decreases |ts|
  {
    if ts != [] {
      InvStep(s, ts[0]);
      KernelStep(s, ts[0]);
      KernelAlways(Apply(s, ts[0]), ts[1..]);
    }
  }

  /** In every reachable state a frame is reached by at most one entry: two user
      directory entries or two mapped user pages that name the same frame are the
      same; no user page maps a frame that serves as a table, or one that the kernel
      half maps. */
  lemma SingleOwner(s0: System, ts: seq<Step>, d: nat, v: nat, e: nat, w: nat, i: nat, j: nat)
    requires Initial(s0) && Possible(s0, ts)
    ensures var s := StateAfter(s0, ts);
      && ((d in s.dirs && e in s.dirs && UserPage(s, d, v) && UserPage(s, e, w) && DataOf(s, d, v) == DataOf(s, e, w))
          ==> d == e && v == w)
      && (UserEntry(s, d, i) && UserEntry(s, e, j) && TableOf(s, d, i) == TableOf(s, e, j) ==> d == e && i == j)
      && ((d in s.dirs && e in s.dirs && UserPage(s, d, v) && j < ENTRIES && Present(s.dirs[e][j]))
          ==> DataOf(s, d, v) != FrameOf(s.dirs[e][j]))
      && ((d in s.dirs && e in s.dirs && UserPage(s, d, v) && USER_PAGES <= w < PAGES && Mapping(s.pool, s.dirs[e], w).Some?)
          ==> DataOf(s, d, v) != FrameOf(Mapping(s.pool, s.dirs[e], w).value))
  {
    var s := StateAfter(s0, ts);
    KernelAlways(s0, ts);
    if d in s.dirs && e in s.dirs && UserPage(s, d, v) && j < ENTRIES && Present(s.dirs[e][j]) {
      DataApart(s, d, v, e, j);
    }
  }

  /** alloc_page_frame never hands out a frame that a live directory still uses,
      as a table or as mapped memory, in either half. */
  lemma AllocatedIsUnreached(s0: System, ts: seq<Step>, d: nat)
    requires Initial(s0) && Possible(s0, ts)
    requires var s := StateAfter(s0, ts); d in s.dirs && HasFree(s.pool)
    ensures var s := StateAfter(s0, ts); var f := LowestFree(s.pool.used, 0);
      && !Reaches(s.pool, s.dirs[d], f)
      && (forall i :: 0 <= i < ENTRIES && Present(s.dirs[d][i]) ==> FrameOf(s.dirs[d][i]) != f)
      && (forall v :: 0 <= v < PAGES && Mapping(s.pool, s.dirs[d], v).Some? ==>
            FrameOf(Mapping(s.pool, s.dirs[d], v).value) != f)
  {
    var s := StateAfter(s0, ts);
    ReachedIsRecorded(s, d, LowestFree(s.pool.used, 0));
    KernelAlways(s0, ts);
  }

  /** Frame f is used although nothing needs it: it is not the kernel's, no caller
      has it, and no live directory reaches it. */
  ghost predicate Stray(s: System, f: nat)
    requires DirsOk(s)
  {
    && InPool(s.pool, f) && !Owns(s, f, Kernel) && !Owns(s, f, Caller)
    && forall d :: d in s.dirs ==> !Reaches(s.pool, s.dirs[d], f)
  }

  lemma StrayIsLost(s: System, f: nat)
    requires Inv(s)
    ensures Stray(s, f) <==> Owns(s, f, Lost)
  {
    forall d | d in s.dirs ensures Reaches(s.pool, s.dirs[d], f) <==>
      f in s.owner && (s.owner[f].Table? || s.owner[f].Data?) && s.owner[f].dir == d
    {
      ReachedIsRecorded(s, d, f);
    }
  }

  /** The frame whose only reference this step overwrites, if any. */
  function Dropped(s: System, t: Step): set<nat>
    requires DirsOk(s)
  {
    if t.MapPage? && t.d in s.dirs && UserPage(s, t.d, t.v) then {DataOf(s, t.d, t.v)} else {}
  }

  /** A step makes exactly the frame stray that it drops: map_page at a mapped page
      that page's old frame, every other step none. What is stray stays so. */
  lemma StrayStep(s: System, t: Step, f: nat)
    requires Inv(s) && Enabled(s, t)
    ensures Inv(Apply(s, t)) && (Stray(Apply(s, t), f) <==> Stray(s, f) || f in Dropped(s, t))
  {
    InvStep(s, t);
    StrayIsLost(s, f);
    StrayIsLost(Apply(s, t), f);
    LostStep(s, t, f);
  }

  lemma LostStep(s: System, t: Step, f: nat)
    requires Inv(s) && Enabled(s, t)
    ensures Owns(Apply(s, t), f, Lost) <==> Owns(s, f, Lost) || f in Dropped(s, t)
  {
  }

  ghost function DroppedIn(s: System, ts: seq<Step>): set<nat>
    requires Inv(s) && Possible(s, ts)
    decreases |ts|
  {
    if ts == [] then {}
    else
      InvStep(s, ts[0]);
      Dropped(s, ts[0]) + DroppedIn(Apply(s, ts[0]), ts[1..])
  }

  lemma {:induction false} StrayRun(s: System, ts: seq<Step>, f: nat)
    requires Inv(s) && Possible(s, ts)
    ensures Stray(StateAfter(s, ts), f) <==> Stray(s, f) || f in DroppedIn(s, ts)
    decreases |ts|
  {
    if ts != [] {
      StrayStep(s, ts[0], f);
      StrayRun(Apply(s, ts[0]), ts[1..], f);
    }
  }

  /** In every reachable state a used frame is the kernel's, in a caller's hands, or
      reached by a live directory, except exactly those frames that some map_page of
      the run dropped by mapping over them: they are never given back. */
  lemma NoFrameLost(s0: System, ts: seq<Step>, f: nat)
    requires Initial(s0) && Possible(s0, ts)
    ensures var s := StateAfter(s0, ts);
      f in DroppedIn(s0, ts) <==>
      InPool(s.pool, f) && !(
        || Owns(s, f, Kernel) || Owns(s, f, Caller)
        || (exists d :: d in s.dirs && Reaches(s.pool, s.dirs[d], f)))
  {
    StrayIsLost(s0, f);
    StrayRun(s0, ts, f);
  }

  lemma LowestIs(used: seq<bool>, from: nat, f: nat)
    requires from <= f < |used| && !used[f] && forall g :: from <= g < f ==> used[g]
    ensures LowestFree(used, from) == f
  {
    var r := LowestFree(used, from);
    assert r < |used| ==> !used[r];
  }

  lemma NoUserEntry(s: System, i: nat)
    requires Initial(s) && i < USER_ENTRIES
    ensures !Present(s.dirs[BOOT][i])
  {
    if Present(s.dirs[BOOT][i]) { assert UserEntry(s, BOOT, i); }
  }

  /** a, b and c are the lowest free frames. */
  predicate ThreeFree(used: seq<bool>, a: nat, b: nat, c: nat)
  {
    && a < b < c < |used| && !used[a] && !used[b] && !used[c]
    && forall g :: 0 <= g < c && g != a && g != b ==> used[g]
  }

  /** Map a, for which b becomes the table, then map c over it. */
  function RemapRun(v: nat, a: nat, c: nat, flags: nat): seq<Step>
  {
    [AllocFrame] + MapTwice(v, a, c, flags)
  }

  function MapTwice(v: nat, a: nat, c: nat, flags: nat): seq<Step>
  {
    [MapPage(BOOT, v, a, flags)] + ([AllocFrame] + [MapPage(BOOT, v, c, flags)])
  }

  /** The run that shows it, on any initial pool with three free frames. */
  lemma RemapLosesFrame(s0: System, a: nat, b: nat, c: nat, v: nat, flags: nat)
    requires Initial(s0) && ThreeFree(s0.pool.used, a, b, c) && v < USER_PAGES && flags < 4096
    ensures Possible(s0, RemapRun(v, a, c, flags)) && DroppedIn(s0, RemapRun(v, a, c, flags)) == {a}
  {
    var s1 := FirstTaken(s0, a, b, c);
    MappedTwice(s1, a, b, c, v, flags);
    PossibleNext(s0, AllocFrame, MapTwice(v, a, c, flags));
  }

  /** The last three steps. */
  lemma MappedTwice(s1: System, a: nat, b: nat, c: nat, v: nat, flags: nat)
    requires Inv(s1) && BOOT in s1.dirs && Owns(s1, a, Caller) && LowestFree(s1.pool.used, 0) == b < c < |s1.pool.used|
    requires v < USER_PAGES && flags < 4096 && !Present(s1.dirs[BOOT][v / ENTRIES])
    requires !s1.pool.used[c] && forall g :: 0 <= g < c && g != b ==> s1.pool.used[g]
    ensures Possible(s1, MapTwice(v, a, c, flags)) && DroppedIn(s1, MapTwice(v, a, c, flags)) == {a}
  {
    var s2 := MappedOnce(s1, a, b, v, flags);
    MappedOver(s2, a, c, v, flags);
    PossibleNext(s1, MapPage(BOOT, v, a, flags), [AllocFrame] + [MapPage(BOOT, v, c, flags)]);
  }

  /** The last two steps. */
  lemma MappedOver(s: System, a: nat, c: nat, v: nat, flags: nat)
    requires Inv(s) && BOOT in s.dirs && UserPage(s, BOOT, v) && DataOf(s, BOOT, v) == a && flags < 4096
    requires c < |s.pool.used| && !s.pool.used[c] && forall g :: 0 <= g < c ==> s.pool.used[g]
    ensures var ts := [AllocFrame] + [MapPage(BOOT, v, c, flags)]; Possible(s, ts) && DroppedIn(s, ts) == {a}
  {
    var t := MapPage(BOOT, v, c, flags);
    LowestIs(s.pool.used, 0, c);
    InvStep(s, AllocFrame);
    var s' := Apply(s, AllocFrame);
    SameMapping(s.pool, s'.pool, s.dirs[BOOT], v);
    PossibleOne(s', t);
    PossibleNext(s, AllocFrame, [t]);
  }

  /** The state after the first step. */
  lemma FirstTaken(s0: System, a: nat, b: nat, c: nat) returns (s1: System)
    requires Initial(s0) && ThreeFree(s0.pool.used, a, b, c)
    ensures Enabled(s0, AllocFrame) && s1 == Apply(s0, AllocFrame) && Inv(s1)
    ensures s1.pool.used == s0.pool.used[a := true] && LowestFree(s1.pool.used, 0) == b
    ensures BOOT in s1.dirs && Owns(s1, a, Caller) && forall i :: 0 <= i < USER_ENTRIES ==> !Present(s1.dirs[BOOT][i])
  {
    LowestIs(s0.pool.used, 0, a);
    InvStep(s0, AllocFrame);
    s1 := Apply(s0, AllocFrame);
    LowestIs(s1.pool.used, 0, b);
    forall i: nat | i < USER_ENTRIES ensures !Present(s1.dirs[BOOT][i]) { NoUserEntry(s0, i); }
  }

  /** And after the second. */
  lemma MappedOnce(s1: System, a: nat, b: nat, v: nat, flags: nat) returns (s2: System)
    requires Inv(s1) && BOOT in s1.dirs && Owns(s1, a, Caller) && LowestFree(s1.pool.used, 0) == b < |s1.pool.used|
    requires v < USER_PAGES && flags < 4096 && !Present(s1.dirs[BOOT][v / ENTRIES])
    ensures var t := MapPage(BOOT, v, a, flags); Enabled(s1, t) && Dropped(s1, t) == {} && s2 == Apply(s1, t)
    ensures Inv(s2) && s2.pool.used == s1.pool.used[b := true] && BOOT in s2.dirs
    ensures UserPage(s2, BOOT, v) && DataOf(s2, BOOT, v) == a
  {
    s2 := MapIn(s1, BOOT, v, a, flags);
    MapStep(s1, BOOT, v, a, flags);
    MapOne(s1, BOOT, v, a, flags, BOOT, v);
    MakeEntryParts(a * 4096, flags);
  }

  lemma PossibleOne(s: System, t: Step)
    requires Inv(s) && Enabled(s, t)
    ensures Possible(s, [t]) && DroppedIn(s, [t]) == Dropped(s, t)
  {
    InvStep(s, t);
    assert [t][1..] == [];
  }

  lemma PossibleNext(s: System, t: Step, ts: seq<Step>)
    requires Inv(s) && Enabled(s, t) && Inv(Apply(s, t)) && Possible(Apply(s, t), ts)
    ensures Possible(s, [t] + ts) && DroppedIn(s, [t] + ts) == Dropped(s, t) + DroppedIn(Apply(s, t), ts)
  {
    assert ([t] + ts)[1..] == ts;
  }

  /** Destroying a directory gives back exactly the frames it reaches, all of them
      used, and leaves the kernel half and every other frame alone. */
  lemma DestroyGivesBack(s0: System, ts: seq<Step>, d: nat, f: nat)
    requires Initial(s0) && Possible(s0, ts)
    requires Enabled(StateAfter(s0, ts), DestroyDirectory(d))
    ensures var s := StateAfter(s0, ts); var s' := Apply(s, DestroyDirectory(d));
      && s'.pool.phys == s.pool.phys
      && (InPool(s'.pool, f) <==> InPool(s.pool, f) && !Reaches(s.pool, s.dirs[d], f))
      && (Reaches(s.pool, s.dirs[d], f) ==> InPool(s.pool, f) && !Owns(s, f, Kernel) && !Owns(s, f, Caller))
      && forall e :: e in s.dirs && e != d ==> !(Reaches(s.pool, s.dirs[d], f) && Reaches(s.pool, s.dirs[e], f))
  {
    var s := StateAfter(s0, ts);
    ReachedIsRecorded(s, d, f);
    forall e | e in s.dirs && e != d ensures !(Reaches(s.pool, s.dirs[d], f) && Reaches(s.pool, s.dirs[e], f)) {
      ReachedIsRecorded(s, e, f);
    }
  }
}
