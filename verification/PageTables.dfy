/** Four-level page tables on values: entries, the walk, and the tree the tables form. */
module PageTables {
  import opened Errors
  import opened Bits

  const PAGE: nat := 4096
  const ENTRIES: nat := 512
  const VIRT_LIMIT: nat := 0x1_0000_0000_0000  // addresses are masked to 48 bits

  const VALID: nat := 1                            // bit 0
  const TABLE: nat := 2                            // bit 1
  const READ_ONLY: nat := 0x80                     // bit 7
  const EXECUTE: nat := 0x20_0000_0000_0000        // bit 53
  const ADDR_MASK: nat := 0x0000_FFFF_FFFF_F000    // bits 12 to 47

  // ----- virtual addresses -----

  // The index a virtual page number selects at each level: its base-512 digits, the top one first.
  function PageIndex(page: nat, level: nat): (index: nat)
    requires level <= 3
    ensures index < ENTRIES
    decreases 3 - level
  {
    if level == 3 then page % 512 else PageIndex(page / 512, level + 1)
  }

  // Nine bits of the address for each level.
  function TableIndex(v: nat, level: nat): (index: nat)
    requires level <= 3
    ensures index == PageIndex(v / PAGE, level)
  {
    ShiftedDigit(v, level);
    var shift := 12 + (3 - level) * 9;
    And(v / Pow2(shift), 0x1FF)
  }

  lemma ShiftedDigit(v: nat, level: nat)
    requires level <= 3
    ensures And(v / Pow2(12 + (3 - level) * 9), 0x1FF) == PageIndex(v / PAGE, level)
  {
    Pow2Words();
    ShiftTwice(v, 12, (3 - level) * 9);
    LowMask(v / Pow2(12 + (3 - level) * 9), 9);
    DigitByShift(v / PAGE, level);
  }

  lemma {:induction false} DigitByShift(page: nat, level: nat)
    requires level <= 3
    ensures page / Pow2((3 - level) * 9) % 512 == PageIndex(page, level)
    decreases 3 - level
  {
    Pow2Words();
    if level < 3 {
      ShiftTwice(page, 9, (2 - level) * 9);
      DigitByShift(page / 512, level + 1);
    }
  }

  // v & (PAGE_SIZE - 1)
  function PageOffset(v: nat): (offset: nat)
    ensures offset == v % PAGE
  {
    Pow2Words();
    LowMask(v, 12);
    And(v, 0xFFF)
  }

  // v & !(PAGE_SIZE - 1)
  function AlignDown(v: nat): (aligned: nat)
    requires v < VIRT_LIMIT
    ensures aligned == v - v % PAGE
  {
    Pow2Words();
    ClearLowBits(v, 12, 64);
    And(v, Not(64, 0xFFF))
  }

  // Two pages below 2^36 with the same four indices are the same page.
  lemma IndicesDetermine(p: nat, q: nat)
    requires p < VIRT_LIMIT / PAGE && q < VIRT_LIMIT / PAGE
    requires forall level :: 0 <= level <= 3 ==> PageIndex(p, level) == PageIndex(q, level)
    ensures p == q
  {
    Digits(p);
    Digits(q);
    assert PageIndex(p, 0) == PageIndex(q, 0);
    assert PageIndex(p, 1) == PageIndex(q, 1);
    assert PageIndex(p, 2) == PageIndex(q, 2);
    assert PageIndex(p, 3) == PageIndex(q, 3);
    var p1, q1 := p / 512, q / 512;
    var p2, q2 := p1 / 512, q1 / 512;
    assert p2 / 512 == q2 / 512;
    assert p2 == q2;
    assert p1 == q1;
  }

  lemma Digits(p: nat)
    ensures PageIndex(p, 3) == p % 512 && PageIndex(p, 2) == p / 512 % 512
    ensures PageIndex(p, 1) == p / 512 / 512 % 512 && PageIndex(p, 0) == p / 512 / 512 / 512 % 512
    ensures p < VIRT_LIMIT / PAGE ==> p / 512 / 512 / 512 < 512
  {
  }

  // ----- entries -----

  datatype Entry = Entry(raw: nat)

  predicate IsValid(e: Entry) { And(e.raw, VALID) != 0 }

  predicate IsTable(e: Entry) { And(e.raw, TABLE) != 0 }

  predicate IsBlock(e: Entry) { IsValid(e) && !IsTable(e) }

  function EntryAddr(e: Entry): nat { And(e.raw, ADDR_MASK) }

  // set_addr: the address bits of addr, and the flag word as it is
  function MakeEntry(addr: nat, flags: nat): Entry { Entry(Or(And(addr, ADDR_MASK), flags)) }

  predicate Contains(flags: nat, other: nat) { And(flags, other) == other }

  // A page must not be both writable and executable.
  function ValidateWx(flags: nat): Result<()> {
    var writable := !Contains(flags, READ_ONLY);
    var executable := Contains(flags, EXECUTE);
    if writable && executable then Err(PermissionDenied) else Ok(())
  }

  predicate WritableAndExecutable(flags: nat) {
    !Bit(flags, 7) && Bit(flags, 53)
  }

  lemma FlagBits(e: nat)
    ensures IsValid(Entry(e)) <==> Bit(e, 0)
    ensures IsTable(Entry(e)) <==> Bit(e, 1)
    ensures ValidateWx(e).Ok? <==> !WritableAndExecutable(e)
  {
    Pow2Words();
    TestBit(e, 0);
    TestBit(e, 1);
    assert Pow2(7) == READ_ONLY;
    Pow2Add(48, 5);
    assert Pow2(5) == 32;
    ContainsBit(e, 7);
    ContainsBit(e, 53);
  }

  // The refusal in numbers: bit 7, read-only, clear and bit 53, executable, set.
  lemma WxIs(flags: nat)
    ensures WritableAndExecutable(flags) <==> flags / 0x80 % 2 == 0 && flags / 0x20_0000_0000_0000 % 2 == 1
    ensures ValidateWx(flags) ==
              if flags / 0x80 % 2 == 0 && flags / 0x20_0000_0000_0000 % 2 == 1 then Err(PermissionDenied) else Ok(())
  {
    FlagBits(flags);
    BitIs(flags, 7);
    BitIs(flags, 53);
    Pow2Words();
    Pow2Add(48, 5);
    assert Pow2(5) == 32 && Pow2(7) == 0x80 && Pow2(53) == 0x20_0000_0000_0000;
  }

  lemma {:induction false} BitIs(w: nat, k: nat)
    ensures Bit(w, k) <==> w / Pow2(k) % 2 == 1
    decreases k
  {
    if k > 0 {
      BitIs(w / 2, k - 1);
      ShiftTwice(w, 1, k - 1);
      assert Pow2(1) == 2;
    } else {
      assert Pow2(0) == 1;
    }
  }

  lemma ContainsBit(w: nat, k: nat)
    ensures Contains(w, Pow2(k)) <==> Bit(w, k)
  {
    if Bit(w, k) {
      forall i: nat ensures Bit(And(w, Pow2(k)), i) == Bit(Pow2(k), i) {
        BitwiseBit(OpAnd, w, Pow2(k), i);
        Pow2Bit(k, i);
      }
      Extensional(And(w, Pow2(k)), Pow2(k));
    } else {
      BitwiseBit(OpAnd, w, Pow2(k), k);
      Pow2Bit(k, k);
    }
  }

  lemma MaskBit(i: nat)
    ensures Bit(ADDR_MASK, i) <==> 12 <= i < 48
  {
    Pow2Words();
    var low := Pow2(12) - 1;
    assert ADDR_MASK == Not(48, low);
    NotBit(48, low, i);
    if i < 12 { AllOnesBit(12, i); } else { HighBitClear(low, 12, i); }
  }

  lemma EntryBit(addr: nat, flags: nat, i: nat)
    ensures Bit(MakeEntry(addr, flags).raw, i) <==> Bit(flags, i) || (12 <= i < 48 && Bit(addr, i))
    ensures Bit(EntryAddr(Entry(addr)), i) <==> 12 <= i < 48 && Bit(addr, i)
  {
    MaskBit(i);
    BitwiseBit(OpAnd, addr, ADDR_MASK, i);
    BitwiseBit(OpOr, And(addr, ADDR_MASK), flags, i);
  }

  // A page frame: aligned and below 2^48.
  ghost predicate IsFrame(addr: nat) {
    forall i: nat :: Bit(addr, i) ==> 12 <= i < 48
  }

  // The flag word carries no address bit that the frame does not have already.
  ghost predicate FlagsWithin(flags: nat, addr: nat) {
    forall i: nat :: 12 <= i < 48 && Bit(flags, i) ==> Bit(addr, i)
  }

  // An entry gives its address back exactly when the address is a frame and the flags stay out of it.
  lemma EntryRoundTrip(addr: nat, flags: nat)
    ensures EntryAddr(MakeEntry(addr, flags)) == addr <==> IsFrame(addr) && FlagsWithin(flags, addr)
  {
    var e := MakeEntry(addr, flags);
    forall i: nat ensures Bit(EntryAddr(e), i) <==> 12 <= i < 48 && (Bit(flags, i) || Bit(addr, i)) {
      EntryBit(addr, flags, i);
      EntryBit(e.raw, 0, i);
    }
    if IsFrame(addr) && FlagsWithin(flags, addr) {
      Extensional(EntryAddr(e), addr);
    }
    if EntryAddr(e) == addr {
      assert forall i: nat :: Bit(addr, i) ==> 12 <= i < 48;
    }
  }

  lemma FrameIff(addr: nat)
    requires addr < Pow2(48) && addr % 4096 == 0
    ensures IsFrame(addr)
  {
    Pow2Words();
    assert addr % Pow2(12) == 0;
    forall i: nat | Bit(addr, i) ensures 12 <= i < 48 {
      if i >= 48 { HighBitClear(addr, 48, i); }
      if i < 12 {
        LowMask(addr, 12);
        BitwiseBit(OpAnd, addr, Pow2(12) - 1, i);
        AllOnesBit(12, i);
        ZeroBit(i);
      }
    }
  }

  // The entry of an intermediate table.
  lemma TableEntry(addr: nat)
    requires addr < Pow2(48) && addr % 4096 == 0
    ensures var e := MakeEntry(addr, Or(TABLE, VALID));
            IsValid(e) && IsTable(e) && EntryAddr(e) == addr
  {
    var flags := Or(TABLE, VALID);
    Pow2Words();
    var e := MakeEntry(addr, flags);
    forall i: nat ensures Bit(flags, i) <==> i == 0 || i == 1 {
      BitwiseBit(OpOr, TABLE, VALID, i);
      Pow2Bit(1, i);
      Pow2Bit(0, i);
    }
    FrameIff(addr);
    EntryRoundTrip(addr, flags);
    FlagBits(e.raw);
    EntryBit(addr, flags, 0);
    EntryBit(addr, flags, 1);
  }

  // The entry of a mapped page: valid, and as writable and executable as its flags.
  lemma LeafEntry(addr: nat, flags: nat)
    ensures var e := MakeEntry(addr, Or(flags, VALID));
            IsValid(e) && WritableAndExecutable(e.raw) == WritableAndExecutable(flags)
  {
    Pow2Words();
    var e := MakeEntry(addr, Or(flags, VALID));
    forall i: nat ensures Bit(Or(flags, VALID), i) <==> i == 0 || Bit(flags, i) {
      BitwiseBit(OpOr, flags, VALID, i);
      Pow2Bit(0, i);
    }
    EntryBit(addr, Or(flags, VALID), 0);
    EntryBit(addr, Or(flags, VALID), 7);
    EntryBit(addr, Or(flags, VALID), 53);
    FlagBits(e.raw);
  }

  lemma ZeroEntry()
    ensures !IsValid(Entry(0))
  {
    FlagBits(0);
    ZeroBit(0);
  }

  // ----- the tree of tables -----

  type Pages = map<nat, seq<Entry>>  // the 512 entries of each page that holds a table

  // A cleared table.
  function Zeroed(): (entries: seq<Entry>)
    ensures |entries| == ENTRIES && forall i :: 0 <= i < ENTRIES ==> entries[i] == Entry(0)
  {
    seq(ENTRIES, _ => Entry(0))
  }

  // level: the tables of the tree, each with its depth. Valid entries above the bottom lead to
  // tables one level down, no two of them to the same one; valid entries at the bottom respect W^X.
  ghost predicate TreeInv(root: nat, pages: Pages, level: map<nat, nat>) {
    && root in level && level[root] == 0
    && TablesOk(pages, level) && ChildrenOk(pages, level) && NoSharing(pages, level) && LeavesOk(pages, level)
  }

  ghost predicate TablesOk(pages: Pages, level: map<nat, nat>) {
    forall t :: t in level ==> t in pages && |pages[t]| == ENTRIES && level[t] <= 3
  }

  ghost predicate ChildrenOk(pages: Pages, level: map<nat, nat>)
    requires TablesOk(pages, level)
  {
    forall t, i :: t in level && level[t] < 3 && 0 <= i < ENTRIES && IsValid(pages[t][i]) ==>
      && IsTable(pages[t][i])
      && EntryAddr(pages[t][i]) in level && level[EntryAddr(pages[t][i])] == level[t] + 1
  }

  ghost predicate NoSharing(pages: Pages, level: map<nat, nat>)
    requires TablesOk(pages, level)
  {
    forall t, i, u, j {:trigger pages[t][i], pages[u][j]} ::
      t in level && u in level && level[t] < 3 && level[u] < 3 && 0 <= i < ENTRIES && 0 <= j < ENTRIES
      && IsValid(pages[t][i]) && IsValid(pages[u][j]) && EntryAddr(pages[t][i]) == EntryAddr(pages[u][j]) ==>
      t == u && i == j
  }

  ghost predicate LeavesOk(pages: Pages, level: map<nat, nat>)
    requires TablesOk(pages, level)
  {
    forall t, i :: t in level && level[t] == 3 && 0 <= i < ENTRIES && IsValid(pages[t][i]) ==>
      !WritableAndExecutable(pages[t][i].raw)
  }

  // The table a page number selects at each level, if the walk gets that far.
  ghost function Reach(root: nat, pages: Pages, page: nat, lev: nat): Option<nat>
    requires lev <= 3
    decreases lev
  {
    if lev == 0 then Some(root)
    else match Reach(root, pages, page, lev - 1)
      case None => None
      case Some(t) =>
        var i := PageIndex(page, lev - 1);
        if t in pages && |pages[t]| == ENTRIES && IsValid(pages[t][i]) then Some(EntryAddr(pages[t][i])) else None
  }

  // What the tables say about a page: its valid bottom entry, or nothing.
  ghost function Leaf(root: nat, pages: Pages, page: nat): Option<Entry> {
    match Reach(root, pages, page, 3)
    case None => None
    case Some(t) =>
      var i := PageIndex(page, 3);
      if t in pages && |pages[t]| == ENTRIES && IsValid(pages[t][i]) then Some(pages[t][i]) else None
  }

  lemma {:induction false} ReachLevel(root: nat, pages: Pages, level: map<nat, nat>, page: nat, lev: nat)
    requires TreeInv(root, pages, level) && lev <= 3
    ensures var r := Reach(root, pages, page, lev);
            r.Some? ==> r.value in level && level[r.value] == lev
    decreases lev
  {
    if lev > 0 { ReachLevel(root, pages, level, page, lev - 1); }
  }

  lemma {:induction false} ReachPrefix(root: nat, pages: Pages, page: nat, a: nat, b: nat)
    requires a <= b <= 3 && Reach(root, pages, page, b).Some?
    ensures Reach(root, pages, page, a).Some?
    decreases b
  {
    if a < b { ReachPrefix(root, pages, page, a, b - 1); }
  }

  // A walk that has stopped gets no further.
  lemma ReachEnds(root: nat, pages: Pages, page: nat, lev: nat)
    requires lev < 3 && Reach(root, pages, page, lev + 1) == None
    ensures Reach(root, pages, page, 3) == None && Leaf(root, pages, page) == None
    ensures Missing(root, pages, page) > 0
  {
    if Reach(root, pages, page, 3).Some? { ReachPrefix(root, pages, page, lev + 1, 3); }
  }

  // The entry through which the walk came.
  lemma ReachStep(root: nat, pages: Pages, level: map<nat, nat>, page: nat, lev: nat) returns (t: nat, i: nat)
    requires TreeInv(root, pages, level) && 0 < lev <= 3 && Reach(root, pages, page, lev).Some?
    ensures Reach(root, pages, page, lev - 1) == Some(t) && i == PageIndex(page, lev - 1)
    ensures t in level && level[t] == lev - 1 && t in pages && |pages[t]| == ENTRIES
    ensures IsValid(pages[t][i]) && EntryAddr(pages[t][i]) == Reach(root, pages, page, lev).value
  {
    ReachLevel(root, pages, level, page, lev - 1);
    t, i := Reach(root, pages, page, lev - 1).value, PageIndex(page, lev - 1);
  }

  lemma OneParent(root: nat, pages: Pages, level: map<nat, nat>, t: nat, i: nat, u: nat, j: nat)
    requires TreeInv(root, pages, level) && t in level && u in level && level[t] < 3 && level[u] < 3
    requires i < ENTRIES && j < ENTRIES && IsValid(pages[t][i]) && IsValid(pages[u][j])
    requires EntryAddr(pages[t][i]) == EntryAddr(pages[u][j])
    ensures t == u && i == j
  {
  }

  // There is one way to a table: pages that reach the same one agree on every index on the way.
  lemma {:induction false} ReachUnique(root: nat, pages: Pages, level: map<nat, nat>, p: nat, q: nat, lev: nat)
    requires TreeInv(root, pages, level) && lev <= 3
    requires Reach(root, pages, p, lev).Some? && Reach(root, pages, p, lev) == Reach(root, pages, q, lev)
    ensures forall k :: 0 <= k < lev ==> PageIndex(p, k) == PageIndex(q, k)
    decreases lev
  {
    if lev > 0 {
      var t, i := ReachStep(root, pages, level, p, lev);
      var u, j := ReachStep(root, pages, level, q, lev);
      OneParent(root, pages, level, t, i, u, j);
      ReachUnique(root, pages, level, p, q, lev - 1);
    }
  }

  // ----- hanging a new, empty table into the tree -----

  ghost predicate Hangs(pages: Pages, pages': Pages, level: map<nat, nat>, t: nat, i: nat, n: nat) {
    && t in level && level[t] < 3 && i < ENTRIES && t in pages && |pages[t]| == ENTRIES && !IsValid(pages[t][i])
    && n !in level && n % 4096 == 0 && n < Pow2(48)
    && pages' == pages[n := Zeroed()][t := pages[t][i := MakeEntry(n, Or(TABLE, VALID))]]
  }

  // Entry i of t is the only entry that changed, and the new table has no valid one.
  lemma HangEntry(pages: Pages, pages': Pages, level: map<nat, nat>, t: nat, i: nat, n: nat, u: nat, j: nat)
    requires Hangs(pages, pages', level, t, i, n) && u in pages' && 0 <= j < ENTRIES && |pages'[u]| == ENTRIES && IsValid(pages'[u][j])
    ensures u != n
    ensures if u == t && j == i then EntryAddr(pages'[u][j]) == n else u in pages && pages'[u] == (if u == t then pages'[t] else pages[u]) && |pages[u]| == ENTRIES && pages'[u][j] == pages[u][j]
  {
    TableEntry(n);
    ZeroEntry();
  }

  lemma HangNoSharing(root: nat, pages: Pages, pages': Pages, level: map<nat, nat>, level': map<nat, nat>, t: nat, i: nat, n: nat)
    requires TreeInv(root, pages, level) && Hangs(pages, pages', level, t, i, n)
    requires level' == level[n := level[t] + 1] && TablesOk(pages', level')
    ensures NoSharing(pages', level')
  {
    forall u, j, v, k | u in level' && v in level' && level'[u] < 3 && level'[v] < 3 && 0 <= j < ENTRIES && 0 <= k < ENTRIES
        && IsValid(pages'[u][j]) && IsValid(pages'[v][k]) && EntryAddr(pages'[u][j]) == EntryAddr(pages'[v][k])
      ensures u == v && j == k
    {
      HangEntry(pages, pages', level, t, i, n, u, j);
      HangEntry(pages, pages', level, t, i, n, v, k);
      if !(u == t && j == i) && !(v == t && k == i) {
        OneParent(root, pages, level, u, j, v, k);
      }
    }
  }

  lemma HangKeeps(root: nat, pages: Pages, pages': Pages, level: map<nat, nat>, t: nat, i: nat, n: nat)
    requires TreeInv(root, pages, level) && Hangs(pages, pages', level, t, i, n)
    ensures TreeInv(root, pages', level[n := level[t] + 1])
  {
    TableEntry(n);
    var level' := level[n := level[t] + 1];
    assert TablesOk(pages', level');
    forall u, j | u in level' && 0 <= j < ENTRIES && IsValid(pages'[u][j])
      ensures (u == t && j == i && EntryAddr(pages'[u][j]) == n && IsTable(pages'[u][j])) || (u in level && pages'[u][j] == pages[u][j])
    {
      HangEntry(pages, pages', level, t, i, n, u, j);
    }
    HangNoSharing(root, pages, pages', level, level', t, i, n);
  }

  lemma {:induction false} HangReachBack(root: nat, pages: Pages, pages': Pages, level: map<nat, nat>, t: nat, i: nat, n: nat, page: nat, lev: nat)
    requires TreeInv(root, pages, level) && Hangs(pages, pages', level, t, i, n) && lev <= 3
    ensures Reach(root, pages', page, lev).Some? ==>
              Reach(root, pages', page, lev) == Some(n) || Reach(root, pages', page, lev) == Reach(root, pages, page, lev)
    decreases lev
  {
    if lev > 0 && Reach(root, pages', page, lev).Some? {
      HangReachBack(root, pages, pages', level, t, i, n, page, lev - 1);
      var u := Reach(root, pages', page, lev - 1).value;
      HangEntry(pages, pages', level, t, i, n, u, PageIndex(page, lev - 1));
    }
  }

  lemma {:induction false} HangReach(root: nat, pages: Pages, pages': Pages, level: map<nat, nat>, t: nat, i: nat, n: nat, page: nat, lev: nat)
    requires TreeInv(root, pages, level) && Hangs(pages, pages', level, t, i, n) && lev <= 3
    ensures Reach(root, pages, page, lev).Some? ==> Reach(root, pages', page, lev) == Reach(root, pages, page, lev)
    decreases lev
  {
    if lev > 0 && Reach(root, pages, page, lev).Some? {
      HangReach(root, pages, pages', level, t, i, n, page, lev - 1);
      var u, j := ReachStep(root, pages, level, page, lev);
    }
  }

  // The levels at which the walk for a page finds no table.
  ghost function Missing(root: nat, pages: Pages, page: nat): nat {
    (if Reach(root, pages, page, 1).None? then 1 else 0)
    + (if Reach(root, pages, page, 2).None? then 1 else 0)
    + (if Reach(root, pages, page, 3).None? then 1 else 0)
  }

  lemma NothingMissing(root: nat, pages: Pages, page: nat)
    requires Reach(root, pages, page, 3).Some?
    ensures Missing(root, pages, page) == 0
  {
    ReachPrefix(root, pages, page, 1, 3);
    ReachPrefix(root, pages, page, 2, 3);
  }

  // The walk for the page reaches the new table and ends there.
  lemma HangFurther(root: nat, pages: Pages, pages': Pages, level: map<nat, nat>, t: nat, n: nat, page: nat, lev: nat)
    requires lev < 3 && TreeInv(root, pages, level) && Hangs(pages, pages', level, t, PageIndex(page, lev), n)
    requires Reach(root, pages, page, lev) == Some(t)
    ensures Reach(root, pages, page, lev + 1) == None && Reach(root, pages', page, lev + 1) == Some(n)
    ensures lev < 2 ==> Reach(root, pages', page, lev + 2) == None
  {
    HangReach(root, pages, pages', level, t, PageIndex(page, lev), n, page, lev);
    TableEntry(n);
    ZeroEntry();
  }

  lemma NoneBeyond(root: nat, pages: Pages, page: nat, a: nat, b: nat)
    requires a <= b <= 3 && Reach(root, pages, page, a) == None
    ensures Reach(root, pages, page, b) == None
  {
    if Reach(root, pages, page, b).Some? { ReachPrefix(root, pages, page, a, b); }
  }

  // The page whose walk stopped at the entry gets one level further.
  lemma HangMissing(root: nat, pages: Pages, pages': Pages, level: map<nat, nat>, t: nat, n: nat, page: nat, lev: nat)
    requires lev < 3 && TreeInv(root, pages, level) && Hangs(pages, pages', level, t, PageIndex(page, lev), n)
    requires Reach(root, pages, page, lev) == Some(t)
    ensures Reach(root, pages', page, lev + 1) == Some(n)
    ensures Missing(root, pages, page) == Missing(root, pages', page) + 1
  {
    HangFurther(root, pages, pages', level, t, n, page, lev);
    MissingIs(root, pages, page, lev);
    MissingIs(root, pages', page, lev + 1);
  }

  // A walk that gets to one level and no further misses the levels after it.
  lemma MissingIs(root: nat, pages: Pages, page: nat, lev: nat)
    requires lev <= 3 && Reach(root, pages, page, lev).Some? && (lev < 3 ==> Reach(root, pages, page, lev + 1) == None)
    ensures Missing(root, pages, page) == 3 - lev
  {
    if lev > 0 { ReachPrefix(root, pages, page, 1, lev); }
    if lev > 1 { ReachPrefix(root, pages, page, 2, lev); }
    if lev < 2 { NoneBeyond(root, pages, page, lev + 1, 2); }
    if lev < 3 { NoneBeyond(root, pages, page, lev + 1, 3); }
  }

  // A new table changes no translation.
  lemma HangLeaf(root: nat, pages: Pages, pages': Pages, level: map<nat, nat>, t: nat, i: nat, n: nat, page: nat)
    requires TreeInv(root, pages, level) && Hangs(pages, pages', level, t, i, n)
    ensures Leaf(root, pages', page) == Leaf(root, pages, page)
  {
    HangReach(root, pages, pages', level, t, i, n, page, 3);
    HangReachBack(root, pages, pages', level, t, i, n, page, 3);
    ReachLevel(root, pages, level, page, 3);
    ZeroEntry();
  }

  // ----- rewriting a bottom entry -----

  lemma {:induction false} SetReach(root: nat, pages: Pages, pages': Pages, level: map<nat, nat>, t: nat, page: nat, lev: nat)
    requires TreeInv(root, pages, level) && t in level && level[t] == 3 && lev <= 3
    requires forall u :: u in level && u != t ==> u in pages' && pages'[u] == pages[u]
    ensures Reach(root, pages', page, lev) == Reach(root, pages, page, lev)
    decreases lev
  {
    if lev > 0 {
      SetReach(root, pages, pages', level, t, page, lev - 1);
      var up := Reach(root, pages, page, lev - 1);
      if up.Some? {
        ReachLevel(root, pages, level, page, lev - 1);
        assert pages'[up.value] == pages[up.value];
      }
    }
  }

  // No other page selects the bottom entry of p.
  lemma OtherLeaf(root: nat, pages: Pages, level: map<nat, nat>, p: nat, q: nat, t: nat)
    requires TreeInv(root, pages, level) && p < VIRT_LIMIT / PAGE && q < VIRT_LIMIT / PAGE && p != q
    requires Reach(root, pages, p, 3) == Some(t)
    ensures Reach(root, pages, q, 3) == Some(t) ==> PageIndex(q, 3) != PageIndex(p, 3)
  {
    if Reach(root, pages, q, 3) == Some(t) && PageIndex(q, 3) == PageIndex(p, 3) {
      ReachUnique(root, pages, level, p, q, 3);
      IndicesDetermine(p, q);
    }
  }

  ghost predicate Sets(root: nat, pages: Pages, pages': Pages, p: nat, t: nat, e: Entry) {
    && Reach(root, pages, p, 3) == Some(t)
    && t in pages && |pages[t]| == ENTRIES && pages' == pages[t := pages[t][PageIndex(p, 3) := e]]
  }

  // Writing a bottom entry keeps the tree and the W^X rule...
  lemma SetKeeps(root: nat, pages: Pages, pages': Pages, level: map<nat, nat>, p: nat, t: nat, e: Entry)
    requires TreeInv(root, pages, level) && Sets(root, pages, pages', p, t, e)
    requires IsValid(e) ==> !WritableAndExecutable(e.raw)
    ensures TreeInv(root, pages', level)
  {
    ReachLevel(root, pages, level, p, 3);
    forall u | u in level && u != t ensures pages'[u] == pages[u] {}
  }

  // ... says what was written about the page that selects it...
  lemma SetLeaf(root: nat, pages: Pages, pages': Pages, level: map<nat, nat>, p: nat, t: nat, e: Entry)
    requires TreeInv(root, pages, level) && Sets(root, pages, pages', p, t, e)
    ensures Leaf(root, pages', p) == if IsValid(e) then Some(e) else None
  {
    ReachLevel(root, pages, level, p, 3);
    SetReach(root, pages, pages', level, t, p, 3);
  }

  // ... and nothing new about any other page.
  lemma SetOtherLeaf(root: nat, pages: Pages, pages': Pages, level: map<nat, nat>, p: nat, t: nat, e: Entry, q: nat)
    requires TreeInv(root, pages, level) && Sets(root, pages, pages', p, t, e)
    requires p < VIRT_LIMIT / PAGE && q < VIRT_LIMIT / PAGE && p != q
    ensures Leaf(root, pages', q) == Leaf(root, pages, q)
  {
    ReachLevel(root, pages, level, p, 3);
    SetReach(root, pages, pages', level, t, q, 3);
    OtherLeaf(root, pages, level, p, q, t);
  }

  // ----- what others may do -----

  // The tables depend on nothing but their own pages.
  lemma {:induction false} ReachFrame(root: nat, pages: Pages, pages': Pages, level: map<nat, nat>, page: nat, lev: nat)
    requires TreeInv(root, pages, level) && lev <= 3
    requires forall t :: t in level ==> t in pages' && pages'[t] == pages[t]
    ensures Reach(root, pages', page, lev) == Reach(root, pages, page, lev)
    decreases lev
  {
    if lev > 0 {
      ReachFrame(root, pages, pages', level, page, lev - 1);
      ReachLevel(root, pages, level, page, lev - 1);
    }
  }

  lemma LeafFrame(root: nat, pages: Pages, pages': Pages, level: map<nat, nat>, page: nat)
    requires TreeInv(root, pages, level)
    requires forall t :: t in level ==> t in pages' && pages'[t] == pages[t]
    ensures TreeInv(root, pages', level) && Leaf(root, pages', page) == Leaf(root, pages, page)
  {
    ReachFrame(root, pages, pages', level, page, 3);
    ReachLevel(root, pages, level, page, 3);
  }
}
