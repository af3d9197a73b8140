/** The kernel heap: requests below a page go to the slab lists, the others to the buddy system,
    and the ledger of what is out stays consistent with both. */
module Heap {
  import opened Errors
  import opened Bits
  import opened BuddyPool
  import opened ByteMemory
  import opened Buddy
  import opened SlabPool
  import opened SlabAllocation
  import Physical

  const NULL: nat := 0

  datatype Layout = Layout(size: nat, align: nat)

  // What the language guarantees of every layout.
  ghost predicate LayoutOk(l: Layout) {
    l.size <= WORD_MAX && exists k: nat :: l.align == Pow2(k)
  }

  function OrderFor(size: nat): nat {
    TrailingZeros(NextPow2((size + 4095) / 4096))
  }

  function RoundedSize(size: nat): nat {
    NextPow2(if size < 8 then 8 else size)
  }

  // The requests turned down whatever the state of the heap.
  predicate Rejected(l: Layout) {
    || l.size == 0
    || l.align > 4096
    || (l.size < 4096 && (l.align > RoundedSize(l.size) || l.size > 2048))
    || (l.size >= 4096 && (l.size + 4095 > WORD_MAX || OrderFor(l.size) >= ORDERS))
  }

  // The bytes set aside for a layout.
  function Capacity(l: Layout): nat {
    if l.size < 4096 then SlotSize(SizeToSlab(l.size)) else Size(OrderFor(l.size))
  }

  // The buddy order is the least whose power-of-two page count covers the request.
  lemma OrderForLeast(size: nat)
    requires size > 0
    ensures size <= Size(OrderFor(size))
    ensures forall o: nat :: o < OrderFor(size) ==> Size(o) < size
  {
    var pages := (size + 4095) / 4096;
    NextPow2Least(pages);
    TrailingZerosPow2(CeilLog2(pages));
    SizeInPages(OrderFor(size));
    forall o: nat | o < OrderFor(size) ensures Size(o) < size {
      SizeInPages(o);
      assert Pow2(o) < pages;
    }
  }

  // Apart from alignment, these sizes are refused: none, what lies between the largest slot and a page, and
  // what is more than the largest block.
  lemma RefusedSizes(size: nat)
    ensures Rejected(Layout(size, 1)) <==> size == 0 || 2048 < size < 4096 || size > 0x40_0000
  {
    if size >= 4096 {
      OrderForLeast(size);
      SizeInPages(10);
      Pow2Add(8, 2);
      Pow2Words();
      assert Size(10) == 0x40_0000;
      if OrderFor(size) < ORDERS { SizeMono(OrderFor(size), 10); }
    } else if size > 0 {
      NextPow2Least(if size < 8 then 8 else size);
    }
  }

  // For every layout: besides those sizes, an alignment above a page, and for less than a page one above the least
  // power of two that holds the size and 8 bytes. Alignments being powers of two, that one is above it exactly if its
  // half holds them too.
  lemma RefusedIff(l: Layout)
    requires LayoutOk(l)
    ensures Rejected(l) <==>
            || l.size == 0 || 2048 < l.size < 4096 || l.size > 0x40_0000
            || l.align > 4096
            || (l.size < 4096 && l.align / 2 >= l.size && l.align / 2 >= 8)
    ensures l.size == 0 || exists c: nat :: LeastPow2(c, l.size) && (l.align > Pow2(c) <==> l.align / 2 >= l.size && l.align / 2 >= 8)
  {
    RefusedSizes(l.size);
    if l.size > 0 {
      var n := if l.size < 8 then 8 else l.size;
      NextPow2Least(n);
      var k: nat :| l.align == Pow2(k);
      HalfHolds(k, n);
      assert LeastPow2(CeilLog2(n), l.size);
    }
  }

  // 2^c is the least power of two that is at least the size and at least 8.
  ghost predicate LeastPow2(c: nat, size: nat) {
    Pow2(c) >= size && Pow2(c) >= 8 && forall d: nat :: d < c ==> Pow2(d) < size || Pow2(d) < 8
  }

  lemma HalfHolds(k: nat, n: nat)
    requires n > 0
    ensures Pow2(k) > NextPow2(n) <==> Pow2(k) / 2 >= n
  {
    NextPow2Least(n);
    var c := CeilLog2(n);
    if k > c {
      Pow2Mono(c, k);
      if k - 1 > c { Pow2Mono(c, k - 1); }
    } else {
      if k < c { Pow2Mono(k, c); }
      if k > 0 { assert Pow2(k - 1) < n; }
    }
  }

  lemma SizeMono(j: nat, k: nat)
    requires j <= k
    ensures Size(j) <= Size(k)
  {
    if j < k { Pow2Mono(j + 12, k + 12); }
  }

  // ----- the ledger -----

  ghost predicate IsPage(slots: Slots, b: Block) {
    b.order == 0 && b.addr in slots.pages
  }

  // Where an allocation lives: in a slot, or in a block that is no slab page.
  ghost predicate Housed(pool: Pool, slots: Slots, p: nat, l: Layout) {
    if l.size < 4096 then Slot(p, SizeToSlab(l.size)) in slots.live
    else Block(p, OrderFor(l.size)) in pool.live && !IsPage(slots, Block(p, OrderFor(l.size)))
  }

  // Every live allocation has its slot or block, and every slot and block that is out belongs to a
  // live allocation or is a slab page.
  ghost predicate HeapInv(pool: Pool, slots: Slots, allocs: map<nat, Layout>) {
    && pool.Inv() && slots.Inv()
    && (forall page :: page in slots.pages ==> Block(page, 0) in pool.live)
    && (forall p :: p in allocs ==> LayoutOk(allocs[p]) && !Rejected(allocs[p]) && Housed(pool, slots, p, allocs[p]))
    && (forall b :: b in pool.live ==>
          IsPage(slots, b) || (b.addr in allocs && allocs[b.addr].size >= 4096 && OrderFor(allocs[b.addr].size) == b.order))
    && (forall s :: s in slots.live ==>
          s.addr in allocs && allocs[s.addr].size < 4096 && SizeToSlab(allocs[s.addr].size) == s.cls)
  }

  // Two slots, a slot and a block, or two blocks: the bytes of two live allocations never meet.
  lemma LiveDisjoint(pool: Pool, slots: Slots, allocs: map<nat, Layout>, p: nat, q: nat)
    requires HeapInv(pool, slots, allocs) && p in allocs && q in allocs && p != q
    ensures p + Capacity(allocs[p]) <= q || q + Capacity(allocs[q]) <= p
    ensures allocs[p].size <= Capacity(allocs[p])
  {
    var lp, lq := allocs[p], allocs[q];
    HouseSize(lp);
    if lp.size < 4096 && lq.size < 4096 {
      SlotsDisjoint(slots, Slot(p, SizeToSlab(lp.size)), Slot(q, SizeToSlab(lq.size)));
    } else if lp.size < 4096 {
      SlotBlockDisjoint(pool, slots, Slot(p, SizeToSlab(lp.size)), Block(q, OrderFor(lq.size)));
    } else if lq.size < 4096 {
      SlotBlockDisjoint(pool, slots, Slot(q, SizeToSlab(lq.size)), Block(p, OrderFor(lp.size)));
    } else {
      assert pool.Holds(Block(p, OrderFor(lp.size))) && pool.Holds(Block(q, OrderFor(lq.size)));
    }
  }

  lemma HouseSize(l: Layout)
    requires !Rejected(l)
    ensures l.size <= Capacity(l)
  {
    if l.size < 4096 { SizeToSlabLeast(l.size); } else { OrderForLeast(l.size); }
  }

  lemma SlotBlockDisjoint(pool: Pool, slots: Slots, s: Slot, b: Block)
    requires pool.Inv() && slots.Inv() && (forall page :: page in slots.pages ==> Block(page, 0) in pool.live)
    requires slots.Holds(s) && b in pool.live && !IsPage(slots, b)
    ensures s.End() <= b.addr || b.End() <= s.addr
  {
    var page, i: nat :| page in slots.pages && slots.pages[page] == s.cls && IthSlot(s, page, i);
    InPage(s, page, i);
    Pow2Words();
    assert Size(0) == PAGE;
    assert pool.Holds(Block(page, 0)) && pool.Holds(b);
  }

  lemma {:induction false} NthMod(page: nat, size: nat, i: nat, align: nat)
    requires align > 0 && size % align == 0
    ensures Nth(page, size, i) % align == page % align
    decreases i
  {
    if i > 0 {
      NthMod(page, size, i - 1, align);
      AddMod(Nth(page, size, i - 1), size, align);
    }
  }

  lemma AddMod(x: nat, y: nat, d: nat)
    requires d > 0 && y % d == 0
    ensures (x + y) % d == x % d
  {
    var q, m := x / d, y / d;
    assert x == q * d + x % d && y == m * d;
    assert (q + m) * d == q * d + m * d;
    DivUnique(x + y, d, q + m, x % d);
  }

  lemma Pow2Divides(j: nat, k: nat)
    requires j <= k
    ensures Pow2(k) % Pow2(j) == 0
  {
    Pow2Add(k - j, j);
    DivUnique(Pow2(k), Pow2(j), Pow2(k - j), 0);
  }

  lemma Pow2LeMono(j: nat, k: nat)
    requires Pow2(j) <= Pow2(k)
    ensures j <= k
  {
    if k < j { Pow2Mono(k, j); }
  }

  lemma SlotAligned(pool: Pool, slots: Slots, s: Slot, k: nat) returns (page: nat)
    requires pool.Inv() && slots.Inv() && slots.Holds(s) && k <= s.cls + 3
    requires forall page :: page in slots.pages ==> Block(page, 0) in pool.live
    ensures pool.Holds(Block(page, 0)) && s.addr % Pow2(k) == page % Pow2(k)
  {
    var pg, i: nat :| pg in slots.pages && slots.pages[pg] == s.cls && IthSlot(s, pg, i);
    page := pg;
    Pow2Divides(k, s.cls + 3);
    NthMod(page, SlotSize(s.cls), i, Pow2(k));
  }

  // An allocation is aligned to its layout exactly when the page allocator's base is.
  lemma LiveAligned(pool: Pool, slots: Slots, allocs: map<nat, Layout>, p: nat, base: nat)
    requires HeapInv(pool, slots, allocs) && OnPages(pool, base % 4096) && p in allocs
    ensures allocs[p].align > 0 && p % allocs[p].align == base % allocs[p].align
  {
    var l := allocs[p];
    var k: nat :| l.align == Pow2(k);
    Pow2Words();
    Pow2LeMono(k, 12);
    Pow2Divides(k, 12);
    if l.size < 4096 {
      SizeToSlabLeast(l.size);
      Pow2LeMono(k, SizeToSlab(l.size) + 3);
      var page := SlotAligned(pool, slots, Slot(p, SizeToSlab(l.size)), k);
      SameResidue(page, base, l.align);
    } else {
      assert pool.Holds(Block(p, OrderFor(l.size)));
      SameResidue(p, base, l.align);
    }
  }

  lemma SameResidue(x: nat, y: nat, d: nat)
    requires d > 0 && 4096 % d == 0 && x % 4096 == y % 4096
    ensures x % d == y % d
  {
    MultipleMod(x / 4096, d);
    MultipleMod(y / 4096, d);
    AddMod(x % 4096, x / 4096 * 4096, d);
    AddMod(y % 4096, y / 4096 * 4096, d);
  }

  lemma MultipleMod(q: nat, d: nat)
    requires d > 0 && 4096 % d == 0
    ensures q * 4096 % d == 0
  {
    var m := 4096 / d;
    assert 4096 == m * d;
    assert q * 4096 == (q * m) * d;
    DivUnique(q * 4096, d, q * m, 0);
  }

  // ----- how the ledger follows the two allocators -----

  // A block new to the live side starts nowhere a live allocation starts.
  lemma BigOut(pool: Pool, pool': Pool, slots: Slots, allocs: map<nat, Layout>, p: nat, l: Layout)
    requires HeapInv(pool, slots, allocs) && LayoutOk(l) && !Rejected(l) && l.size >= 4096
    requires pool'.Inv() && Block(p, OrderFor(l.size)) !in pool.live
    requires pool'.live == pool.live + {Block(p, OrderFor(l.size))}
    ensures p !in allocs && HeapInv(pool', slots, allocs[p := l])
  {
    var b := Block(p, OrderFor(l.size));
    assert pool'.Holds(b);
    forall c | c in pool.live ensures c.addr != p { assert pool'.Holds(c); }
    if p in allocs && allocs[p].size < 4096 {
      SlotBlockDisjoint(pool', slots, Slot(p, SizeToSlab(allocs[p].size)), b);
    }
  }

  lemma SmallOut(pool: Pool, pool': Pool, slots: Slots, slots': Slots, allocs: map<nat, Layout>, p: nat, l: Layout)
    requires HeapInv(pool, slots, allocs) && LayoutOk(l) && !Rejected(l) && l.size < 4096
    requires pool'.Inv() && slots'.Inv() && Slot(p, SizeToSlab(l.size)) !in slots.live
    requires slots'.live == slots.live + {Slot(p, SizeToSlab(l.size))}
    requires || (pool'.live == pool.live && slots'.pages == slots.pages)
             || (&& pool'.live == pool.live + {Block(p, 0)} && Block(p, 0) !in pool.live
                 && slots'.pages == slots.pages[p := SizeToSlab(l.size)])
    ensures p !in allocs && HeapInv(pool', slots', allocs[p := l])
  {
    var s := Slot(p, SizeToSlab(l.size));
    assert slots'.Holds(s);
    if p in allocs {
      if allocs[p].size < 4096 {
        SlotsDisjoint(slots', s, Slot(p, SizeToSlab(allocs[p].size)));
      } else {
        var b := Block(p, OrderFor(allocs[p].size));
        assert !IsPage(slots', b);
        SlotBlockDisjoint(pool', slots', s, b);
      }
    }
  }

  lemma BigBack(pool: Pool, pool': Pool, slots: Slots, allocs: map<nat, Layout>, p: nat)
    requires HeapInv(pool, slots, allocs) && p in allocs && allocs[p].size >= 4096
    requires pool'.Inv() && pool'.live == pool.live - {Block(p, OrderFor(allocs[p].size))}
    ensures HeapInv(pool', slots, allocs - {p})
  {
    var gone := Block(p, OrderFor(allocs[p].size));
    forall page | page in slots.pages ensures Block(page, 0) in pool'.live {
      assert Block(page, 0) != gone;
    }
    assert pool.Holds(gone);
    forall b | b in pool'.live && b.addr == p ensures IsPage(slots, b) { assert pool.Holds(b); }
  }

  lemma SmallBack(pool: Pool, slots: Slots, slots': Slots, allocs: map<nat, Layout>, p: nat)
    requires HeapInv(pool, slots, allocs) && p in allocs && allocs[p].size < 4096
    requires slots'.Inv() && slots'.pages == slots.pages
    requires slots'.live == slots.live - {Slot(p, SizeToSlab(allocs[p].size))}
    ensures HeapInv(pool, slots', allocs - {p})
  {
    forall b | b in pool.live && !IsPage(slots', b) ensures b.addr != p {
      assert b.addr in allocs && allocs[b.addr].size >= 4096;
    }
  }

  // No byte a live allocation was granted has been written.
  ghost predicate Preserved(keep: map<nat, Layout>, before: Bytes, after: Bytes) {
    forall q, a: nat :: q in keep && q <= a < q + keep[q].size ==> SameAt(before, after, a)
  }

  lemma PreservedFromParts(pool: Pool, slots: Slots, allocs: map<nat, Layout>, keep: map<nat, Layout>, before: Bytes, after: Bytes, blocks: set<Block>, held: set<Slot>)
    requires HeapInv(pool, slots, allocs) && keep.Keys <= allocs.Keys && (forall q :: q in keep ==> keep[q] == allocs[q])
    requires Untouched(blocks, before, after) && UntouchedSlots(held, before, after)
    requires forall q :: q in keep ==>
               if keep[q].size < 4096 then Slot(q, SizeToSlab(keep[q].size)) in held else Block(q, OrderFor(keep[q].size)) in blocks
    ensures Preserved(keep, before, after)
  {
    forall q, a: nat | q in keep && q <= a < q + keep[q].size ensures SameAt(before, after, a) {
      HouseSize(keep[q]);
      if keep[q].size < 4096 {
        assert Slot(q, SizeToSlab(keep[q].size)) in held;
      } else {
        assert Block(q, OrderFor(keep[q].size)).Contains(a);
      }
    }
  }

  // The same but for, at most, the word at a0.
  ghost predicate PreservedBut(keep: map<nat, Layout>, before: Bytes, after: Bytes, a0: nat) {
    forall q, a: nat :: q in keep && q <= a < q + keep[q].size && !(a0 <= a < a0 + WORD) ==> SameAt(before, after, a)
  }

  lemma PreservedButFromBlocks(pool: Pool, slots: Slots, allocs: map<nat, Layout>, before: Bytes, after: Bytes, a0: nat)
    requires HeapInv(pool, slots, allocs) && UntouchedBut(pool.live, before, after, a0)
    ensures PreservedBut(allocs, before, after, a0)
  {
    forall q, a: nat | q in allocs && q <= a < q + allocs[q].size && !(a0 <= a < a0 + WORD) ensures SameAt(before, after, a) {
      var l := allocs[q];
      HouseSize(l);
      if l.size < 4096 {
        var b := SlotInBlock(slots, pool.live, Slot(q, SizeToSlab(l.size)));
        assert b.Contains(a);
      } else {
        assert Block(q, OrderFor(l.size)).Contains(a);
      }
    }
  }

  lemma EightByteList(slots: Slots, size: nat)
    requires slots.Inv() && LinksFit(slots) && size > 0
    ensures size <= 8 ==> SizeToSlab(size) == 0 && slots.lists[0] == []
  {
    if size <= 8 {
      LinkFitsSize(size);
      NoEightByteSlots(slots);
    }
  }

  // Writing within one allocation's room leaves the others.
  lemma PreservedBeside(pool: Pool, slots: Slots, allocs: map<nat, Layout>, p: nat, before: Bytes, after: Bytes)
    requires HeapInv(pool, slots, allocs) && p in allocs
    requires SameOutside(before, after, p, p + Capacity(allocs[p]))
    ensures Preserved(allocs - {p}, before, after)
  {
    forall q, a: nat | q in allocs - {p} && q <= a < q + (allocs - {p})[q].size ensures SameAt(before, after, a) {
      LiveDisjoint(pool, slots, allocs, p, q);
      LiveDisjoint(pool, slots, allocs, q, p);
    }
  }

  lemma NullOff(base: nat, owned: set<nat>)
    requires base > 0 || 0 !in owned
    ensures !Buddy.InPages(base, owned, NULL)
  {
  }

  // The least order whose blocks hold the size.
  ghost predicate IsLeastOrder(size: nat, order: nat) {
    Size(order) >= size && forall o: nat :: o < order ==> Size(o) < size
  }

  ghost predicate TakenWithin(taken: set<nat>, start: nat, n: nat) {
    exists p: nat :: start <= p < start + n && p in taken
  }

  // No free slot of the size's class, no free block of that order or a larger one, and no run of that many free pages.
  ghost predicate NothingHolds(pool: Pool, slots: Slots, taken: set<nat>, total: nat, size: nat, order: nat) {
    && (size < 4096 ==> forall s: Slot :: slots.Listed(s) ==> s.cls != SizeToSlab(size))
    && (forall b: Block :: pool.Listed(b) ==> b.order < order)
    && (forall start: nat :: start + Pow2(order) <= total ==> TakenWithin(taken, start, Pow2(order)))
  }

  lemma LeastOrder(l: Layout, order: nat)
    requires !Rejected(l) && IsLeastOrder(l.size, order)
    ensures order < ORDERS && order == if l.size < 4096 then 0 else OrderFor(l.size)
  {
    Pow2Words();
    assert Size(0) == 4096;
    if l.size >= 4096 { OrderForLeast(l.size); }
  }

  lemma NothingIff(pool: Pool, slots: Slots, taken: set<nat>, total: nat, l: Layout, order: nat)
    requires |pool.lists| == ORDERS && |slots.lists| == CLASSES && order < ORDERS && !Rejected(l)
    ensures l.size < 4096 ==> SizeToSlab(l.size) < CLASSES
    ensures NothingHolds(pool, slots, taken, total, l.size, order) <==>
              && (l.size < 4096 ==> slots.lists[SizeToSlab(l.size)] == [])
              && FirstFree(pool.lists, order) == ORDERS && Physical.NoFreeRun(taken, total, Pow2(order))
  {
    NoneListed(pool, order);
    if l.size < 4096 { NoneInClass(slots, l.size); }
    EveryRunTaken(taken, total, Pow2(order));
  }

  lemma EveryRunTaken(taken: set<nat>, total: nat, n: nat)
    ensures Physical.NoFreeRun(taken, total, n) <==> forall start: nat :: start + n <= total ==> TakenWithin(taken, start, n)
  {
    forall start: nat
      ensures Physical.FreeRun(taken, total, start, n) <==> start + n <= total && !TakenWithin(taken, start, n)
    {
    }
  }

  lemma NoneListed(pool: Pool, order: nat)
    requires |pool.lists| == ORDERS && order < ORDERS
    ensures FirstFree(pool.lists, order) == ORDERS <==> forall b: Block :: pool.Listed(b) ==> b.order < order
  {
    var h := FirstFree(pool.lists, order);
    if h < ORDERS { assert pool.Listed(Block(pool.lists[h][0], h)); }
  }

  lemma NoneInClass(slots: Slots, size: nat)
    requires |slots.lists| == CLASSES && 0 < size <= 2048
    ensures SizeToSlab(size) < CLASSES
    ensures slots.lists[SizeToSlab(size)] == [] <==> forall s: Slot :: slots.Listed(s) ==> s.cls != SizeToSlab(size)
  {
    SizeToSlabLeast(size);
    var c := SizeToSlab(size);
    if slots.lists[c] != [] { assert slots.Listed(Slot(slots.lists[c][0], c)); }
  }

  class HeapAllocator {
    const buddy: BuddyAllocator
    const slab: SlabAllocator
    ghost var allocs: map<nat, Layout>  // the allocations that are out; one at NULL has an owner that does not know

    ghost predicate Valid()
      reads this, slab, slab.slabs, buddy, buddy.freeLists, buddy.memory, buddy.phys, buddy.phys.bitmap
    {
      && slab.buddy == buddy
      && slab.Valid()
      && HeapInv(buddy.pool, slab.slots, allocs)
    }

    constructor (phys: Physical.PhysicalAllocator)
      requires phys.Valid()
      ensures Valid() && allocs == map[] && buddy.phys == phys && buddy.owned == {}
    {
      var memory := new Store();
      var b := new BuddyAllocator(memory, phys);
      var s := new SlabAllocator(b);
      this.buddy := b;
      this.slab := s;
      this.allocs := map[];
    }

    // Nothing free for the request in the lists, and no run of pages for it either.
    ghost predicate Exhausted(l: Layout)
      requires Valid() && !Rejected(l)
      reads this, slab, slab.slabs, buddy, buddy.freeLists, buddy.memory, buddy.phys, buddy.phys.bitmap
    {
      var order := if l.size < 4096 then 0 else OrderFor(l.size);
      && (l.size < 4096 ==> slab.slots.lists[SizeToSlab(l.size)] == [])
      && buddy.OutOfBlocks(order)
    }

    // The heap is exhausted for a request exactly when nothing is left that would hold it.
    lemma ExhaustedIff(l: Layout, order: nat)
      requires Valid() && !Rejected(l) && IsLeastOrder(l.size, order)
      ensures Exhausted(l) <==> NothingHolds(buddy.pool, slab.slots, buddy.phys.Allocated(), buddy.phys.totalPages, l.size, order)
    {
      LeastOrder(l, order);
      NothingIff(buddy.pool, slab.slots, buddy.phys.Allocated(), buddy.phys.totalPages, l, order);
    }

    // Where a request is served that neither is rejected nor finds the heap exhausted.
    ghost predicate Serves(l: Layout, p: nat)
      requires Valid() && !Rejected(l)
      reads this, slab, slab.slabs, buddy, buddy.freeLists, buddy.memory, buddy.phys, buddy.phys.bitmap
    {
      if l.size < 4096 && slab.slots.lists[SizeToSlab(l.size)] != [] then p == slab.slots.lists[SizeToSlab(l.size)][0]
      else buddy.Serves(if l.size < 4096 then 0 else OrderFor(l.size), p)
    }

    // Address 0 is none of the heap's and cannot become so: physical memory does not begin there, or its first page
    // has been taken by someone else.
    ghost predicate NullTaken()
      reads this, buddy, buddy.phys
    {
      buddy.phys.baseAddr > 0 || buddy.phys.totalPages == 0 || (0 in buddy.phys.Allocated() && 0 !in buddy.owned)
    }

    // Then what is served is not null.
    lemma ServesNonNull(l: Layout, p: nat)
      requires Valid() && !Rejected(l) && NullTaken() && Serves(l, p)
      ensures p != NULL
    {
      if l.size < 4096 && slab.slots.lists[SizeToSlab(l.size)] != [] {
        var s := Slot(p, SizeToSlab(l.size));
        assert slab.slots.Listed(s);
        var b := SlotInBlock(slab.slots, buddy.pool.live, s);
        OwnNonNull(b, p);
      } else {
        var order := if l.size < 4096 then 0 else OrderFor(l.size);
        var h := FirstFree(buddy.pool.lists, order);
        if h < ORDERS {
          var b := Block(p, h);
          assert buddy.pool.Listed(b) && b.Contains(p);
          OwnNonNull(b, p);
        } else {
          assert buddy.phys.PageOf(p) !in buddy.phys.Allocated();
        }
      }
    }

    lemma OwnNonNull(b: Block, p: nat)
      requires Valid() && NullTaken() && buddy.pool.Holds(b) && b.Contains(p)
      ensures p != NULL
    {
      assert buddy.pool.Covers(p);
      NullOff(buddy.phys.baseAddr, buddy.owned);
    }

    // On a heap that nothing has been asked of yet, some request is answered with null although it is served exactly
    // when physical memory begins at 0 and its first page is free.
    lemma NullServedIff()
      requires Valid() && buddy.pool == BuddyPool.EMPTY && buddy.owned == {} && slab.slots == SlabPool.EMPTY
      ensures (exists l: Layout :: LayoutOk(l) && l.size > 8 && !Rejected(l) && !Exhausted(l) && Serves(l, NULL)) <==> !NullTaken()
    {
      if NullTaken() {
        forall l: Layout | !Rejected(l) ensures !Serves(l, NULL) { if Serves(l, NULL) { ServesNonNull(l, NULL); } }
      } else {
        FirstIsNull(Layout(16, 1));
      }
    }

    lemma FirstIsNull(l: Layout)
      requires Valid() && buddy.pool == BuddyPool.EMPTY && slab.slots == SlabPool.EMPTY && l == Layout(16, 1)
      requires buddy.phys.baseAddr == 0 && buddy.phys.totalPages > 0 && 0 !in buddy.phys.Allocated()
      ensures LayoutOk(l) && !Rejected(l) && !Exhausted(l) && Serves(l, NULL)
    {
      assert Pow2(0) == 1;
      NextPow2Least(16);
      SizeToSlabLeast(16);
      var phys := buddy.phys;
      assert Physical.FreeRun(phys.Allocated(), phys.totalPages, 0, 1);
      assert FirstFree(buddy.pool.lists, 0) == ORDERS && phys.PageOf(0) == 0 && phys.PageAddr(0) == 0;
    }

    // A request is served in one place.
    lemma ServedOnce(l: Layout)
      requires Valid() && !Rejected(l)
      ensures forall p: nat :: Serves(l, p) ==> (Serves(l, NULL) <==> p == NULL) && (NullTaken() ==> p != NULL)
    {
      forall p: nat | Serves(l, p) ensures (Serves(l, NULL) <==> p == NULL) && (NullTaken() ==> p != NULL) {
        if Serves(l, NULL) && !(l.size < 4096 && slab.slots.lists[SizeToSlab(l.size)] != []) {
          buddy.ServesOne(if l.size < 4096 then 0 else OrderFor(l.size), p, NULL);
        }
        if NullTaken() { ServesNonNull(l, p); }
      }
    }

    // A request of 1 to 8 bytes gets a page of its own, and the word behind that page is overwritten, whoever has it.
    ghost predicate Spills(keep: map<nat, Layout>, live: set<Block>, before: Bytes, page: nat)
      reads buddy, buddy.memory
    {
      && Block(page, 0) !in live && buddy.pool.live == live + {Block(page, 0)}
      && PreservedBut(keep, before, buddy.memory.bytes, page + PAGE)
      && WordAt(buddy.memory.bytes, page + PAGE, page + PAGE - LINK)
    }

    // Null comes back for what is rejected, for what finds the heap exhausted, and for what is served at address 0.
    // All but the requests of 1 to 8 bytes that are served leave the heap consistent.
    method Alloc(layout: Layout) returns (ptr: nat)
      requires Valid() && LayoutOk(layout)
      modifies this`allocs, slab`slots, slab.slabs, buddy`pool, buddy`owned, buddy.freeLists, buddy.memory, buddy.phys, buddy.phys.bitmap
      ensures buddy.Grew(old(buddy.owned), old(buddy.phys.Allocated())) && (old(NullTaken()) ==> NullTaken())
      ensures Rejected(layout) || layout.size > 8 || old(Exhausted(layout)) ==>
                Valid() && Preserved(old(allocs), old(buddy.memory.bytes), buddy.memory.bytes)
      ensures if Rejected(layout) || old(Exhausted(layout)) then ptr == NULL && allocs == old(allocs)
              else && old(Serves(layout, ptr))
                   && if layout.size > 8 then ptr !in old(allocs) && allocs == old(allocs)[ptr := layout]
                      else Spills(old(allocs), old(buddy.pool.live), old(buddy.memory.bytes), ptr)
      ensures ptr == NULL <==> Rejected(layout) || old(Exhausted(layout)) || old(Serves(layout, NULL))
      ensures old(NullTaken()) ==> (ptr == NULL <==> Rejected(layout) || old(Exhausted(layout)))
    {
      var size, align := layout.size, layout.align;
      if !Rejected(layout) { ServedOnce(layout); }
      if size == 0 {
        return NULL;
      }
      if align > 4096 {
        return NULL;
      }
      if size < 4096 {
        if align > RoundedSize(size) {
          return NULL;
        }
        ptr := AllocSmall(layout);
      } else {
        if size + 4095 > WORD_MAX {
          return NULL;
        }
        var order := OrderFor(size);
        if order >= 11 {
          return NULL;
        }
        ptr := AllocBig(layout, order);
      }
    }

    method AllocSmall(layout: Layout) returns (ptr: nat)
      requires Valid() && LayoutOk(layout) && 0 < layout.size < 4096
      requires layout.align <= 4096 && layout.align <= RoundedSize(layout.size)
      modifies this`allocs, slab`slots, slab.slabs, buddy`pool, buddy`owned, buddy.freeLists, buddy.memory, buddy.phys, buddy.phys.bitmap
      ensures buddy.Grew(old(buddy.owned), old(buddy.phys.Allocated()))
      ensures Rejected(layout) || layout.size > 8 || old(Exhausted(layout)) ==>
                Valid() && Preserved(old(allocs), old(buddy.memory.bytes), buddy.memory.bytes)
      ensures if Rejected(layout) || old(Exhausted(layout)) then ptr == NULL && allocs == old(allocs)
              else && old(Serves(layout, ptr))
                   && if layout.size > 8 then ptr !in old(allocs) && allocs == old(allocs)[ptr := layout]
                      else Spills(old(allocs), old(buddy.pool.live), old(buddy.memory.bytes), ptr)
    {
      ghost var pool0, slots0, next0 := buddy.pool, slab.slots, buddy.memory.bytes;
      EightByteList(slots0, layout.size);
      var r := slab.Alloc(layout.size);
      if r.Err? || layout.size > 8 {
        PreservedFromParts(pool0, slots0, allocs, allocs, next0, buddy.memory.bytes, pool0.live, slots0.live);
      }
      if r.Err? {
        return NULL;
      }
      if layout.size > 8 {
        SmallOut(pool0, buddy.pool, slots0, slab.slots, allocs, r.value, layout);
        allocs := allocs[r.value := layout];
      } else {
        PreservedButFromBlocks(pool0, slots0, allocs, next0, buddy.memory.bytes, r.value + PAGE);
      }
      return r.value;
    }

    method AllocBig(layout: Layout, order: nat) returns (ptr: nat)
      requires Valid() && LayoutOk(layout) && !Rejected(layout) && layout.size >= 4096 && order == OrderFor(layout.size)
      modifies this`allocs, buddy`pool, buddy`owned, buddy.freeLists, buddy.memory, buddy.phys, buddy.phys.bitmap
      ensures buddy.Grew(old(buddy.owned), old(buddy.phys.Allocated()))
      ensures Valid() && Preserved(old(allocs), old(buddy.memory.bytes), buddy.memory.bytes)
      ensures if old(Exhausted(layout)) then ptr == NULL && allocs == old(allocs)
              else old(Serves(layout, ptr)) && ptr !in old(allocs) && allocs == old(allocs)[ptr := layout]
    {
      ghost var pool0, next0 := buddy.pool, buddy.memory.bytes;
      var r := slab.TakeBlock(order);
      PreservedFromParts(pool0, slab.slots, allocs, allocs, next0, buddy.memory.bytes, pool0.live, slab.slots.live);
      if r.Err? {
        return NULL;
      }
      BigOut(pool0, buddy.pool, slab.slots, allocs, r.value, layout);
      allocs := allocs[r.value := layout];
      return r.value;
    }

    // The layout must be the one the pointer was allocated with. Null does nothing, so what was served at address 0
    // stays out for good.
    method Dealloc(ptr: nat, layout: Layout)
      requires Valid()
      requires ptr != NULL && layout.size > 0 ==> ptr in allocs && allocs[ptr] == layout
      modifies this`allocs, slab`slots, slab.slabs, buddy`pool, buddy.freeLists, buddy.memory
      ensures Valid() && (old(NullTaken()) ==> NullTaken())
      ensures allocs == if ptr != NULL && layout.size > 0 then old(allocs) - {ptr} else old(allocs)
      ensures Preserved(allocs, old(buddy.memory.bytes), buddy.memory.bytes)
    {
      if ptr == NULL {
        return;
      }
      var size := layout.size;
      if size == 0 {
        return;
      }
      if size < 4096 {
        DeallocSmall(ptr, size);
      } else {
        var order := OrderFor(size);
        if order >= 11 {
          assert false;  // such a layout was rejected
        }
        DeallocBig(ptr, order);
      }
    }

    method DeallocSmall(p: nat, size: nat)
      requires Valid() && p in allocs && allocs[p].size == size < 4096
      modifies this`allocs, slab`slots, slab.slabs, buddy.memory
      ensures Valid() && allocs == old(allocs) - {p}
      ensures Preserved(allocs, old(buddy.memory.bytes), buddy.memory.bytes)
    {
      ghost var slots0, before := slab.slots, buddy.memory.bytes;
      HeldSlotFits(slots0, Slot(p, SizeToSlab(size)));
      var _ := slab.Free(p, size);
      PreservedBeside(buddy.pool, slots0, allocs, p, before, buddy.memory.bytes);
      SmallBack(buddy.pool, slots0, slab.slots, allocs, p);
      allocs := allocs - {p};
    }

    method DeallocBig(p: nat, order: nat)
      requires Valid() && p in allocs && allocs[p].size >= 4096 && order == OrderFor(allocs[p].size)
      modifies this`allocs, buddy`pool, buddy.freeLists, buddy.memory
      ensures Valid() && allocs == old(allocs) - {p}
      ensures Preserved(allocs, old(buddy.memory.bytes), buddy.memory.bytes)
    {
      ghost var pool0, next0 := buddy.pool, buddy.memory.bytes;
      ReleaseBlock(p, order);
      BigBack(pool0, buddy.pool, slab.slots, allocs, p);
      allocs := allocs - {p};
      PreservedFromParts(buddy.pool, slab.slots, allocs, allocs, next0, buddy.memory.bytes, buddy.pool.live, slab.slots.live);
    }

    // Giving a block back to the buddy system leaves the slab lists and all other bytes in use alone.
    method ReleaseBlock(p: nat, order: nat)
      requires slab.buddy == buddy && slab.Valid()
      requires order < ORDERS && Block(p, order) in buddy.pool.live && !IsPage(slab.slots, Block(p, order))
      modifies buddy`pool, buddy.freeLists, buddy.memory
      ensures slab.Valid() && buddy.pool.live == old(buddy.pool.live) - {Block(p, order)}
      ensures Untouched(buddy.pool.live, old(buddy.memory.bytes), buddy.memory.bytes)
      ensures UntouchedSlots(slab.slots.live, old(buddy.memory.bytes), buddy.memory.bytes)
    {
      ghost var next0 := buddy.memory.bytes;
      var _ := buddy.Free(p, order);
      SlabFrame(slab.slots, buddy.pool.live, slab.Heads(), next0, buddy.memory.bytes);
    }

    // The owner of an allocation writes a byte of it: whatever it writes, the allocators stay consistent and
    // the other allocations keep their contents.
    method Touch(p: nat, offset: nat, value: Byte)
      requires Valid() && p in allocs && offset < allocs[p].size
      modifies buddy.memory
      ensures Valid() && buddy.memory.bytes == PutByte(old(buddy.memory.bytes), p + offset, value)
      ensures Preserved(allocs - {p}, old(buddy.memory.bytes), buddy.memory.bytes)
    {
      ghost var before, l := buddy.memory.bytes, allocs[p];
      HouseSize(l);
      buddy.memory.SaveByte(p + offset, value);
      assert SameOutside(before, buddy.memory.bytes, p, p + Capacity(l));
      PreservedBeside(buddy.pool, slab.slots, allocs, p, before, buddy.memory.bytes);
      Written(p, before);
    }

    lemma Written(p: nat, before: Bytes)
      requires slab.Shape() && slab.buddy == buddy && LinksFit(slab.slots) && slab.PagesOut()
      requires HeapInv(buddy.pool, slab.slots, allocs) && p in allocs
      requires SameOutside(before, buddy.memory.bytes, p, p + Capacity(allocs[p]))
      requires Chains(buddy.freeLists[..], before, buddy.pool.lists) && Chains(slab.Heads(), before, slab.slots.lists)
      ensures Chains(buddy.freeLists[..], buddy.memory.bytes, buddy.pool.lists)
      ensures Chains(slab.Heads(), buddy.memory.bytes, slab.slots.lists)
    {
      if allocs[p].size < 4096 {
        SlotWritten(Slot(p, SizeToSlab(allocs[p].size)), before);
      } else {
        BlockWritten(Block(p, OrderFor(allocs[p].size)), before);
      }
    }

    lemma SlotWritten(s: Slot, before: Bytes)
      requires slab.Shape() && slab.buddy == buddy && buddy.pool.Inv() && slab.slots.Inv() && LinksFit(slab.slots) && slab.PagesOut()
      requires s in slab.slots.live && SameOutside(before, buddy.memory.bytes, s.addr, s.End())
      requires Chains(buddy.freeLists[..], before, buddy.pool.lists) && Chains(slab.Heads(), before, slab.slots.lists)
      ensures Chains(buddy.freeLists[..], buddy.memory.bytes, buddy.pool.lists)
      ensures Chains(slab.Heads(), buddy.memory.bytes, slab.slots.lists)
    {
      WriteInSlot(slab.slots, slab.Heads(), before, buddy.memory.bytes, s);
      var b := SlotInBlock(slab.slots, buddy.pool.live, s);
      assert b.Contains(s.addr) && b.Contains(s.End() - 1);
      slab.BuddyStays(before, b);
    }

    lemma BlockWritten(b: Block, before: Bytes)
      requires slab.Shape() && slab.buddy == buddy && buddy.pool.Inv() && slab.slots.Inv() && LinksFit(slab.slots) && slab.PagesOut()
      requires b in buddy.pool.live && !IsPage(slab.slots, b) && SameOutside(before, buddy.memory.bytes, b.addr, b.End())
      requires Chains(buddy.freeLists[..], before, buddy.pool.lists) && Chains(slab.Heads(), before, slab.slots.lists)
      ensures Chains(buddy.freeLists[..], buddy.memory.bytes, buddy.pool.lists)
      ensures Chains(slab.Heads(), buddy.memory.bytes, slab.slots.lists)
    {
      slab.BuddyStays(before, b);
      OthersUntouched(buddy.pool, before, buddy.memory.bytes, b);
      SlabFrame(slab.slots, buddy.pool.live - {b}, slab.Heads(), before, buddy.memory.bytes);
    }
  }
}
