/** The virtual memory manager: walks, grows and edits the tables in memory. */
module VirtualMemory {
  import opened Errors
  import opened Bits
  import opened PageTables
  import opened Physical

  // Everything a new table below the end of a walk does.
  lemma Hung(root: nat, pages: Pages, pages': Pages, level: map<nat, nat>, t: nat, n: nat, page: nat, lev: nat)
    requires lev < 3 && TreeInv(root, pages, level) && Hangs(pages, pages', level, t, PageIndex(page, lev), n)
    requires Reach(root, pages, page, lev) == Some(t)
    ensures TreeInv(root, pages', level[n := level[t] + 1])
    ensures Reach(root, pages', page, lev + 1) == Some(n)
    ensures Missing(root, pages, page) == Missing(root, pages', page) + 1
    ensures forall q: nat :: Leaf(root, pages', q) == Leaf(root, pages, q)
  {
    HangKeeps(root, pages, pages', level, t, PageIndex(page, lev), n);
    HangMissing(root, pages, pages', level, t, n, page, lev);
    forall q: nat ensures Leaf(root, pages', q) == Leaf(root, pages, q) {
      HangLeaf(root, pages, pages', level, t, PageIndex(page, lev), n, q);
    }
  }

  // The pages of physical memory that hold tables.
  class PageMemory {
    var pages: Pages

    constructor (pages: Pages)
      ensures this.pages == pages
    {
      this.pages := pages;
    }

    // PageTable::clear, on whatever the page held before.
    method ClearTable(n: nat)
      modifies this
      ensures pages == old(pages)[n := Zeroed()]
    {
      assert |Zeroed()| == ENTRIES;
      var entries: seq<Entry> :| |entries| == ENTRIES;
      for i := 0 to ENTRIES
        invariant |entries| == ENTRIES && forall k :: 0 <= k < i ==> entries[k] == Entry(0)
      {
        entries := entries[i := Entry(0)];
      }
      assert entries == Zeroed();
      pages := pages[n := entries];
    }
  }

  datatype Before = Before(pages: Pages, tables: set<nat>, taken: set<nat>)

  class VirtualMemory {
    const rootTable: nat
    const memory: PageMemory
    const phys: PhysicalAllocator
    ghost var level: map<nat, nat>  // the tables of the tree, each with its depth

    // Physical memory is page-aligned and addressable by an entry.
    ghost predicate Addressable() {
      phys.baseAddr % PAGE == 0 && phys.baseAddr + phys.totalPages * PAGE_SIZE <= Pow2(48)
    }

    // No table, the root included, is a page the allocator could hand out.
    ghost predicate TablesTaken()
      reads this, phys
    {
      forall p: nat :: p < phys.totalPages && p !in phys.Allocated() ==> phys.PageAddr(p) !in level
    }

    ghost predicate Valid()
      reads this, memory, phys, phys.bitmap
    {
      && Addressable() && phys.Valid()
      && TreeInv(rootTable, memory.pages, level)
      && TablesTaken()
    }

    // The partial map the tables stand for: page number to entry.
    ghost function View(page: nat): Option<Entry>
      reads memory
    {
      Leaf(rootTable, memory.pages, page)
    }

    ghost predicate SameView(before: Pages)
      reads memory
    {
      forall q: nat :: q < VIRT_LIMIT / PAGE ==> View(q) == Leaf(rootTable, before, q)
    }

    // Only what the tables say about `page` has changed, to `entry`.
    ghost predicate ViewUpdated(before: Pages, page: nat, entry: Option<Entry>)
      reads memory
    {
      && View(page) == entry
      && forall q: nat :: q < VIRT_LIMIT / PAGE && q != page ==> View(q) == Leaf(rootTable, before, q)
    }

    ghost predicate OffPages(n: nat, taken: set<nat>) {
      n % PAGE == 0 && forall p: nat :: p in taken ==> phys.PageAddr(p) != n
    }

    // New tables have come only from pages that were not taken.
    ghost predicate Grew(tables: set<nat>, taken: set<nat>)
      reads this, phys
    {
      && taken <= phys.Allocated()
      && forall n: nat :: n in level && n !in tables ==> OffPages(n, taken)
    }

    constructor (rootTable: nat, memory: PageMemory, phys: PhysicalAllocator)
      requires rootTable in memory.pages && memory.pages[rootTable] == Zeroed()
      requires phys.Valid() && phys.baseAddr % PAGE == 0 && phys.baseAddr + phys.totalPages * PAGE_SIZE <= Pow2(48)
      requires forall p: nat :: p < phys.totalPages && p !in phys.Allocated() ==> phys.PageAddr(p) != rootTable
      ensures Valid() && this.rootTable == rootTable && this.memory == memory && this.phys == phys && level == map[rootTable := 0]
      ensures forall q: nat :: View(q) == None
    {
      this.rootTable := rootTable;
      this.memory := memory;
      this.phys := phys;
      this.level := map[rootTable := 0];
      new;
      ZeroEntry();
      forall q: nat ensures View(q) == None { assert Reach(rootTable, memory.pages, q, 1) == None; }
    }

    // Allocate, clear and hang in the table the walk for `page` is missing below `table`.
    method NewTable(page: nat, lev: nat, table: nat) returns (r: Result<nat>)
      requires Valid() && lev < 3 && Reach(rootTable, memory.pages, page, lev) == Some(table)
      requires table in memory.pages && |memory.pages[table]| == ENTRIES
      requires !IsValid(memory.pages[table][PageIndex(page, lev)])
      modifies this`level, memory, phys, phys.bitmap
      ensures Valid() && SameView(old(memory.pages)) && Grew(old(level.Keys), old(phys.Allocated()))
      ensures r.Err? <==> old(phys.freePages) == 0
      ensures r.Err? ==> r.error == Memory(OutOfMemory) && memory.pages == old(memory.pages)
      ensures r.Ok? ==>
                && Reach(rootTable, memory.pages, page, lev + 1) == Some(r.value)
                && phys.freePages == old(phys.freePages) - 1
                && Missing(rootTable, memory.pages, page) == old(Missing(rootTable, memory.pages, page)) - 1
    {
      r := TakePage();
      if r.Ok? {
        HangTable(page, lev, table, r.value);
      }
    }

    // A page just taken from the allocator holds no table yet.
    method TakePage() returns (r: Result<nat>)
      requires Valid()
      modifies phys, phys.bitmap
      ensures Valid() && old(phys.Allocated()) <= phys.Allocated()
      ensures r.Err? <==> old(phys.freePages) == 0
      ensures r.Err? ==> r.error == Memory(OutOfMemory)
      ensures r.Ok? ==> OffPages(r.value, old(phys.Allocated()))
      ensures r.Ok? ==> phys.freePages == old(phys.freePages) - 1
      ensures r.Ok? ==> r.value !in level && r.value % 4096 == 0 && r.value < Pow2(48) && NotFree(r.value)
    {
      r := phys.AllocPage();
      if r.Ok? {
        ghost var p := phys.PageOf(r.value);
        assert p < phys.totalPages && p !in old(phys.Allocated());
        assert r.value == phys.PageAddr(p);
        assert p in phys.Allocated();
        assert memory.pages == old(memory.pages) && TreeInv(rootTable, memory.pages, level);
        forall q: nat | phys.PageAddr(q) == r.value ensures q == p {}
        assert r.value % PAGE == 0;
      }
    }

    ghost predicate NotFree(n: nat)
      reads phys
    {
      forall p: nat :: p < phys.totalPages && p !in phys.Allocated() ==> phys.PageAddr(p) != n
    }

    method HangTable(page: nat, lev: nat, table: nat, n: nat)
      requires TreeInv(rootTable, memory.pages, level) && lev < 3 && Reach(rootTable, memory.pages, page, lev) == Some(table)
      requires table in memory.pages && |memory.pages[table]| == ENTRIES
      requires !IsValid(memory.pages[table][PageIndex(page, lev)])
      requires n !in level && n % 4096 == 0 && n < Pow2(48)
      modifies this`level, memory
      ensures TreeInv(rootTable, memory.pages, level) && SameView(old(memory.pages)) && level.Keys == old(level.Keys) + {n}
      ensures Reach(rootTable, memory.pages, page, lev + 1) == Some(n)
      ensures Missing(rootTable, memory.pages, page) == old(Missing(rootTable, memory.pages, page)) - 1
    {
      var index := PageIndex(page, lev);
      ghost var pages0, next := memory.pages, level[n := lev + 1];
      ghost var pages1 := pages0[n := Zeroed()][table := pages0[table][index := MakeEntry(n, Or(TABLE, VALID))]];
      ReachLevel(rootTable, pages0, level, page, lev);
      Hung(rootTable, pages0, pages1, level, table, n, page, lev);
      LinkTable(table, index, n);
      level := next;
    }

    // Clear the new table and store the entry that leads to it.
    method LinkTable(table: nat, index: nat, n: nat)
      requires table in memory.pages && |memory.pages[table]| == ENTRIES && index < ENTRIES && n != table
      modifies memory
      ensures memory.pages == old(memory.pages)[n := Zeroed()][table := old(memory.pages)[table][index := MakeEntry(n, Or(TABLE, VALID))]]
    {
      memory.ClearTable(n);
      memory.pages := memory.pages[table := memory.pages[table][index := MakeEntry(n, Or(TABLE, VALID))]];
    }

    // How many more tables the walk for a page needs than there are free pages.
    ghost function Lacking(page: nat): int
      reads this, memory, phys
    {
      Missing(rootTable, memory.pages, page) - phys.freePages
    }

    // The state before a walk, as far as the walk must keep it.
    ghost predicate Keeps(before: Before)
      reads this, memory, phys, phys.bitmap
    {
      Valid() && SameView(before.pages) && Grew(before.tables, before.taken)
    }

    // One level of the walk: the table below, made if it is missing.
    method StepCreating(virt: nat, lev: nat, table: nat, page: nat, ghost before: Before) returns (r: Result<nat>)
      requires page == virt / PAGE && Keeps(before) && lev < 3 && Reach(rootTable, memory.pages, page, lev) == Some(table)
      modifies this`level, memory, phys, phys.bitmap
      ensures Keeps(before)
      ensures r.Err? ==>
                && r.error == Memory(OutOfMemory) && old(phys.freePages) == 0 && old(Missing(rootTable, memory.pages, page)) > 0
                && Leaf(rootTable, memory.pages, page) == None
      ensures r.Ok? ==>
                && Reach(rootTable, memory.pages, page, lev + 1) == Some(r.value)
                && Lacking(page) == old(Lacking(page))
    {
      ReachLevel(rootTable, memory.pages, level, page, lev);
      var index := TableIndex(virt, lev);
      var entry := memory.pages[table][index];
      if !IsValid(entry) {
        ReachEnds(rootTable, memory.pages, page, lev);
        r := NewTable(page, lev, table);
      } else {
        r := Ok(EntryAddr(entry));
      }
    }

    // Walk down to the bottom table, growing the tree where it ends too soon.
    method WalkCreating(virt: nat) returns (r: Result<nat>)
      requires Valid() && virt < VIRT_LIMIT
      modifies this`level, memory, phys, phys.bitmap
      ensures Valid() && SameView(old(memory.pages)) && Grew(old(level.Keys), old(phys.Allocated()))
      ensures r.Ok? <==> old(Missing(rootTable, memory.pages, virt / PAGE)) <= old(phys.freePages)
      ensures r.Ok? ==> Reach(rootTable, memory.pages, virt / PAGE, 3) == Some(r.value)
      ensures r.Err? ==> r.error == Memory(OutOfMemory) && View(virt / PAGE) == None
    {
      var currentTable := rootTable;
      var page := virt / PAGE;
      ghost var before := Before(memory.pages, level.Keys, phys.Allocated());
      for lev := 0 to 3
        invariant Keeps(before) && Reach(rootTable, memory.pages, page, lev) == Some(currentTable) && Lacking(page) == old(Lacking(page))
      {
        var nextTable := StepCreating(virt, lev, currentTable, page, before);
        if nextTable.Err? {
          return nextTable;
        }
        currentTable := nextTable.value;
      }
      NothingMissing(rootTable, memory.pages, page);
      return Ok(currentTable);
    }

    // Map a page. The flag word goes into the entry as it is.
    method Map(virt: nat, paddr: nat, flags: nat) returns (r: Result<()>)
      requires Valid() && virt < VIRT_LIMIT
      modifies this`level, memory, phys, phys.bitmap
      ensures Valid() && Grew(old(level.Keys), old(phys.Allocated()))
      ensures r == if virt % PAGE != 0 || paddr % PAGE != 0 then Err(Memory(InvalidAlignment))
                   else if WritableAndExecutable(flags) then Err(PermissionDenied)
                   else if old(Missing(rootTable, memory.pages, virt / PAGE)) > old(phys.freePages) then Err(Memory(OutOfMemory))
                   else if old(View(virt / PAGE)).Some? then Err(Memory(AlreadyMapped))
                   else Ok(())
      ensures r.Ok? ==> ViewUpdated(old(memory.pages), virt / PAGE, Some(MakeEntry(paddr, Or(flags, VALID))))
      ensures r.Err? ==> SameView(old(memory.pages))
    {
      if virt % PAGE != 0 || paddr % PAGE != 0 {
        return Err(Memory(InvalidAlignment));
      }
      FlagBits(flags);
      var wx := ValidateWx(flags);
      if wx.Err? {
        return wx;
      }
      var bottom := WalkCreating(virt);
      if bottom.Err? {
        return Err(bottom.error);
      }
      var table := bottom.value;
      ReachLevel(rootTable, memory.pages, level, virt / PAGE, 3);
      var index := TableIndex(virt, 3);
      if IsValid(memory.pages[table][index]) {
        return Err(Memory(AlreadyMapped));
      }
      LeafEntry(paddr, flags);
      WriteLeaf(virt, table, MakeEntry(paddr, Or(flags, VALID)));
      return Ok(());
    }

    // Store the bottom entry the walk for virt has found.
    method WriteLeaf(virt: nat, table: nat, entry: Entry)
      requires Valid() && virt < VIRT_LIMIT && Reach(rootTable, memory.pages, virt / PAGE, 3) == Some(table)
      requires IsValid(entry) ==> !WritableAndExecutable(entry.raw)
      modifies memory
      ensures Valid() && ViewUpdated(old(memory.pages), virt / PAGE, if IsValid(entry) then Some(entry) else None)
    {
      ghost var page, pages0 := virt / PAGE, memory.pages;
      ReachLevel(rootTable, memory.pages, level, page, 3);
      var index := TableIndex(virt, 3);
      memory.pages := memory.pages[table := memory.pages[table][index := entry]];
      assert Sets(rootTable, pages0, memory.pages, page, table, entry);
      SetKeeps(rootTable, pages0, memory.pages, level, page, table, entry);
      SetLeaf(rootTable, pages0, memory.pages, level, page, table, entry);
      forall q: nat | q < VIRT_LIMIT / PAGE && q != page ensures View(q) == Leaf(rootTable, pages0, q) {
        SetOtherLeaf(rootTable, pages0, memory.pages, level, page, table, entry, q);
      }
    }

    // Walk down to the bottom table; NotMapped where the tree ends too soon.
    method Walk(virt: nat) returns (r: Result<nat>)
      requires Valid()
      ensures match Reach(rootTable, memory.pages, virt / PAGE, 3)
              case None => r == Err(Memory(NotMapped))
              case Some(t) => r == Ok(t)
    {
      var currentTable := rootTable;
      ghost var page := virt / PAGE;
      for lev := 0 to 3
        invariant Reach(rootTable, memory.pages, page, lev) == Some(currentTable)
      {
        ReachLevel(rootTable, memory.pages, level, page, lev);
        var index := TableIndex(virt, lev);
        var entry := memory.pages[currentTable][index];
        if !IsValid(entry) {
          ReachEnds(rootTable, memory.pages, page, lev);
          return Err(Memory(NotMapped));
        }
        currentTable := EntryAddr(entry);
      }
      return Ok(currentTable);
    }

    method Unmap(virt: nat) returns (r: Result<nat>)
      requires Valid() && virt < VIRT_LIMIT
      modifies memory
      ensures Valid()
      ensures r == if virt % PAGE != 0 then Err(Memory(InvalidAlignment)) else
                     match old(View(virt / PAGE))
                     case None => Err(Memory(NotMapped))
                     case Some(e) => Ok(EntryAddr(e))
      ensures r.Ok? ==> ViewUpdated(old(memory.pages), virt / PAGE, None)
      ensures r.Err? ==> memory.pages == old(memory.pages)
    {
      if virt % PAGE != 0 {
        return Err(Memory(InvalidAlignment));
      }
      var bottom := Walk(virt);
      if bottom.Err? {
        return bottom;
      }
      ReachLevel(rootTable, memory.pages, level, virt / PAGE, 3);
      var entry := memory.pages[bottom.value][TableIndex(virt, 3)];
      if !IsValid(entry) {
        return Err(Memory(NotMapped));
      }
      ZeroEntry();
      WriteLeaf(virt, bottom.value, Entry(0));
      return Ok(EntryAddr(entry));
    }

    method Translate(virt: nat) returns (r: Result<nat>)
      requires Valid() && virt < VIRT_LIMIT
      ensures r == match View(virt / PAGE)
                   case None => Err(Memory(NotMapped))
                   case Some(e) => Ok(EntryAddr(e) + virt % PAGE)
    {
      var aligned := AlignDown(virt);
      var offset := PageOffset(virt);
      assert aligned / PAGE == virt / PAGE;
      var entry := FindLeaf(aligned);
      if entry.None? {
        return Err(Memory(NotMapped));
      }
      return Ok(EntryAddr(entry.value) + offset);
    }

    // The walk of translate, which would also end at a block.
    method FindLeaf(aligned: nat) returns (r: Option<Entry>)
      requires Valid() && aligned < VIRT_LIMIT
      ensures r == View(aligned / PAGE)
    {
      var currentTable := rootTable;
      ghost var page := aligned / PAGE;
      for lev := 0 to 4
        invariant lev < 4 && Reach(rootTable, memory.pages, page, lev) == Some(currentTable)
      {
        ReachLevel(rootTable, memory.pages, level, page, lev);
        var index := TableIndex(aligned, lev);
        var entry := memory.pages[currentTable][index];
        if !IsValid(entry) {
          if lev < 3 { ReachEnds(rootTable, memory.pages, page, lev); }
          return None;
        }
        if lev < 3 { NoBlock(page, lev, currentTable); }
        if lev == 3 || IsBlock(entry) {
          return Some(entry);
        }
        currentTable := EntryAddr(entry);
      }
    }

    // Above the bottom every valid entry leads to a table.
    lemma NoBlock(page: nat, lev: nat, table: nat)
      requires Valid() && lev < 3 && Reach(rootTable, memory.pages, page, lev) == Some(table)
      requires table in memory.pages && |memory.pages[table]| == ENTRIES && IsValid(memory.pages[table][PageIndex(page, lev)])
      ensures !IsBlock(memory.pages[table][PageIndex(page, lev)])
    {
      ReachLevel(rootTable, memory.pages, level, page, lev);
    }

    method Protect(virt: nat, flags: nat) returns (r: Result<()>)
      requires Valid() && virt < VIRT_LIMIT
      modifies memory
      ensures Valid()
      ensures r == if virt % PAGE != 0 then Err(Memory(InvalidAlignment))
                   else if WritableAndExecutable(flags) then Err(PermissionDenied)
                   else if old(View(virt / PAGE)).None? then Err(Memory(NotMapped))
                   else Ok(())
      ensures r.Ok? ==> ViewUpdated(old(memory.pages), virt / PAGE,
                                    Some(MakeEntry(old(View(virt / PAGE)).value.raw, Or(flags, VALID))))
      ensures r.Err? ==> memory.pages == old(memory.pages)
    {
      if virt % PAGE != 0 {
        return Err(Memory(InvalidAlignment));
      }
      FlagBits(flags);
      var wx := ValidateWx(flags);
      if wx.Err? {
        return wx;
      }
      var bottom := Walk(virt);
      if bottom.Err? {
        return Err(bottom.error);
      }
      ReachLevel(rootTable, memory.pages, level, virt / PAGE, 3);
      var entry := memory.pages[bottom.value][TableIndex(virt, 3)];
      if !IsValid(entry) {
        return Err(Memory(NotMapped));
      }
      LeafEntry(entry.raw, flags);
      WriteLeaf(virt, bottom.value, MakeEntry(entry.raw, Or(flags, VALID)));
      return Ok(());
    }

    // No reachable entry of a mapped page is both writable and executable.
    lemma NeverWritableAndExecutable(page: nat)
      requires Valid()
      ensures View(page).Some? ==> !WritableAndExecutable(View(page).value.raw)
    {
      ReachLevel(rootTable, memory.pages, level, page, 3);
    }
  }
}
