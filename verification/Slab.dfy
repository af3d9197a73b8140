/** The slab allocator in place: nine lists of equal slots, refilled a page at a time from the buddy. */
module SlabAllocation {
  import opened Errors
  import opened Bits
  import opened BuddyPool
  import opened ByteMemory
  import opened Buddy
  import opened SlabPool

  datatype Slab = Slab(size: nat, freeList: Option<nat>)

  // max(size, 8), rounded up to a power of two, as an index: 8 -> 0, 16 -> 1, ...
  function SizeToSlab(size: nat): (cls: nat)
    ensures size <= 2048 ==> cls < CLASSES
  {
    var rounded := NextPow2(if size < 8 then 8 else size);
    RoundedAtLeast8(size);
    TrailingZeros(rounded) - 3
  }

  lemma RoundedAtLeast8(size: nat)
    ensures var n := if size < 8 then 8 else size;
            CeilLog2(n) >= 3 && TrailingZeros(NextPow2(n)) == CeilLog2(n)
    ensures size <= 2048 ==> CeilLog2(if size < 8 then 8 else size) <= 11
  {
    var n := if size < 8 then 8 else size;
    NextPow2Least(n);
    TrailingZerosPow2(CeilLog2(n));
    Pow2Words();
    Pow2Add(8, 3);
    assert CeilLog2(n) < 3 ==> Pow2(CeilLog2(n)) <= 4;
    assert 11 < CeilLog2(n) ==> Pow2(11) < n;
  }

  // The class chosen is the smallest that holds the request.
  lemma SizeToSlabLeast(size: nat)
    requires 0 < size <= 2048
    ensures SizeToSlab(size) < CLASSES && size <= SlotSize(SizeToSlab(size))
    ensures forall c: nat :: c < SizeToSlab(size) ==> SlotSize(c) < size
    ensures SlotSize(SizeToSlab(size)) == NextPow2(if size < 8 then 8 else size)
  {
    RoundedAtLeast8(size);
    NextPow2Least(if size < 8 then 8 else size);
    forall c: nat | c < SizeToSlab(size) ensures SlotSize(c) < size { SmallerSlot(size, c); }
  }

  lemma SmallerSlot(size: nat, c: nat)
    requires 0 < size <= 2048 && c < SizeToSlab(size)
    ensures SlotSize(c) < size
  {
    var n := if size < 8 then 8 else size;
    RoundedAtLeast8(size);
    NextPow2Least(n);
    Pow2Words();
    assert Pow2(c + 3) < n;
    if c > 0 { Pow2Mono(3, c + 3); }
  }

  // The slots are too small for their own links exactly in the smallest class: requests of 1 to 8 bytes.
  lemma LinkFitsSize(size: nat)
    requires 0 < size <= 2048
    ensures SlotSize(SizeToSlab(size)) >= LINK <==> size > 8
    ensures SlotSize(SizeToSlab(size)) < LINK <==> SizeToSlab(size) == 0
  {
    Pow2Words();
    SizeToSlabLeast(size);
    SlotSizes(SizeToSlab(size));
    assert SlotSize(0) == 8;
  }

  lemma SlotSizes(cls: nat)
    ensures SlotSize(cls) >= LINK <==> cls > 0
  {
    Pow2Words();
    if cls > 0 { Pow2Mono(3, cls + 3); }
  }

  // So a pointer stored in a free slot stays inside it exactly for the other classes.
  lemma LinkStaysInSlot(s: Slot, next: nat)
    ensures (forall m: Bytes :: SameOutside(m, PutLink(m, s.addr, Some(next)), s.addr, s.End())) <==> SlotSize(s.cls) >= LINK
  {
    if SlotSize(s.cls) >= LINK {
      forall m: Bytes ensures SameOutside(m, PutLink(m, s.addr, Some(next)), s.addr, s.End()) {
        PutLinkSpec(m, s.addr, Some(next));
      }
    } else {
      SlotSizes(s.cls);
      assert SlotSize(0) == 8;
      assert !SameAt(Blank(), PutLink(Blank(), s.addr, Some(next)), s.End());
    }
  }

  // No page has been cut for a class whose slots are smaller than a link.
  ghost predicate LinksFit(p: Slots) {
    forall page :: page in p.pages ==> SlotSize(p.pages[page]) >= LINK
  }

  lemma HeldSlotFits(p: Slots, s: Slot)
    requires p.Inv() && LinksFit(p) && p.Holds(s)
    ensures SlotSize(s.cls) >= LINK
  {
    var page, i: nat :| page in p.pages && p.pages[page] == s.cls && IthSlot(s, page, i);
  }

  ghost predicate UntouchedSlots(keep: set<Slot>, before: Bytes, after: Bytes) {
    forall s, a: nat :: s in keep && s.addr <= a < s.End() ==> SameAt(before, after, a)
  }

  // The page a held slot lies in is a block that is out.
  lemma SlotInBlock(p: Slots, live: set<Block>, s: Slot) returns (b: Block)
    requires p.Inv() && p.Holds(s)
    requires forall page :: page in p.pages ==> Block(page, 0) in live
    ensures b in live && b.order == 0 && b.addr in p.pages
    ensures forall a: nat :: s.addr <= a < s.End() ==> b.Contains(a)
    ensures b.Contains(s.addr)
  {
    var page, i: nat :| page in p.pages && p.pages[page] == s.cls && IthSlot(s, page, i);
    InPage(s, page, i);
    Pow2Words();
    b := Block(page, 0);
  }

  // Lists whose slots' links have not been written are the lists they were.
  lemma SlotChainsFrame(p: Slots, heads: seq<Option<nat>>, m: Bytes, m': Bytes)
    requires p.Inv() && LinksFit(p) && Chains(heads, m, p.lists)
    requires forall s: Slot :: p.Listed(s) ==> SameWithin(m, m', s.addr, s.End())
    ensures Chains(heads, m', p.lists)
  {
    forall c | 0 <= c < CLASSES ensures Chain(heads[c], m', p.lists[c]) {
      forall k | 0 <= k < |p.lists[c]| ensures SameWithin(m, m', p.lists[c][k], p.lists[c][k] + LINK) {
        var s := Slot(p.lists[c][k], c);
        assert p.Listed(s) && p.Holds(s);
        HeldSlotFits(p, s);
      }
      ChainFrame(heads[c], m, m', p.lists[c]);
    }
  }

  // What the buddy allocator leaves alone, the slab lists may rely on.
  lemma SlabFrame(p: Slots, live: set<Block>, heads: seq<Option<nat>>, before: Bytes, after: Bytes)
    requires p.Inv() && LinksFit(p) && (forall page :: page in p.pages ==> Block(page, 0) in live)
    requires Chains(heads, before, p.lists) && Untouched(live, before, after)
    ensures Chains(heads, after, p.lists) && UntouchedSlots(p.live, before, after)
  {
    forall s, a: nat | p.Holds(s) && s.addr <= a < s.End() ensures SameAt(before, after, a) {
      var b := SlotInBlock(p, live, s);
      assert b.Contains(a);
    }
    SlotChainsFrame(p, heads, before, after);
  }

  // Writing within one slot that is out leaves the lists and the other slots.
  lemma WriteInSlot(p: Slots, heads: seq<Option<nat>>, m: Bytes, m': Bytes, s: Slot)
    requires p.Inv() && LinksFit(p) && s in p.live && Chains(heads, m, p.lists) && SameOutside(m, m', s.addr, s.End())
    ensures Chains(heads, m', p.lists) && UntouchedSlots(p.live - {s}, m, m')
  {
    assert p.Holds(s) && !p.Listed(s);
    forall t: Slot | p.Holds(t) && t != s ensures SameWithin(m, m', t.addr, t.End()) { SlotsDisjoint(p, s, t); }
    SlotChainsFrame(p, heads, m, m');
  }

  // A page the buddy has just handed out is none of the pages already cut.
  lemma FreshPage(p: Slots, pool: Pool, live: set<Block>, page: nat)
    requires pool.Inv() && pool.live == live + {Block(page, 0)} && Block(page, 0) !in live
    requires forall q :: q in p.pages ==> Block(q, 0) in live
    ensures forall q :: q in p.pages ==> q + PAGE <= page || page + PAGE <= q
  {
    Pow2Words();
    assert Size(0) == PAGE;
    forall q | q in p.pages ensures q + PAGE <= page || page + PAGE <= q {
      assert pool.Holds(Block(q, 0)) && pool.Holds(Block(page, 0));
    }
  }

  // Cutting the fresh page writes inside nothing that was out before.
  lemma OutsidePage(p: Slots, pool: Pool, live: set<Block>, page: nat, m0: Bytes, m1: Bytes, m2: Bytes)
    requires pool.Inv() && pool.live == live + {Block(page, 0)} && Block(page, 0) !in live
    requires p.Inv() && forall q :: q in p.pages ==> Block(q, 0) in live
    requires Untouched(live, m0, m1) && SameOutside(m1, m2, page, page + PAGE)
    ensures Untouched(live, m0, m2) && UntouchedSlots(p.live, m0, m2)
  {
    Pow2Words();
    assert Size(0) == PAGE;
    forall b, a: nat | b in live && b.Contains(a) ensures SameAt(m0, m2, a) {
      assert pool.Holds(b) && pool.Holds(Block(page, 0));
      assert SameAt(m0, m1, a) && SameAt(m1, m2, a);
    }
    forall s, a: nat | s in p.live && s.addr <= a < s.End() ensures SameAt(m0, m2, a) {
      var b := SlotInBlock(p, live, s);
      assert b.Contains(a);
    }
  }

  // Nothing in these blocks has been written but, at most, the word at a0.
  ghost predicate UntouchedBut(keep: set<Block>, before: Bytes, after: Bytes, a0: nat) {
    forall b, a: nat :: b in keep && b.Contains(a) && !(a0 <= a < a0 + WORD) ==> SameAt(before, after, a)
  }

  // What a page cut for 8-byte slots does to the blocks that are out: the word behind the page is overwritten with
  // the address of the page's last slot but one.
  ghost predicate Spilled(live: set<Block>, before: Bytes, after: Bytes, page: nat) {
    UntouchedBut(live, before, after, page + PAGE) && WordAt(after, page + PAGE, page + PAGE - LINK)
  }

  lemma SpillBeside(pool: Pool, live: set<Block>, page: nat, m0: Bytes, m1: Bytes, m2: Bytes)
    requires pool.Inv() && pool.live == live + {Block(page, 0)} && Block(page, 0) !in live
    requires Untouched(live, m0, m1) && SameOutside(m1, m2, page, page + PAGE + WORD)
    ensures UntouchedBut(live, m0, m2, page + PAGE)
  {
    forall b, a: nat | b in live && b.Contains(a) && !(page + PAGE <= a < page + PAGE + WORD) ensures SameAt(m0, m2, a) {
      assert pool.Holds(b) && pool.Holds(Block(page, 0)) && b != Block(page, 0);
      assert SameAt(m0, m1, a);
      assert a < page || page + PAGE <= a by { PageIsBlock(page); }
      assert SameAt(m1, m2, a);
    }
  }

  // No slot of 8 bytes waits in a heap whose links fit.
  lemma NoEightByteSlots(p: Slots)
    requires p.Inv() && LinksFit(p)
    ensures p.lists[0] == []
  {
    SlotSizes(0);
    if p.lists[0] != [] {
      var s := Slot(p.lists[0][0], 0);
      assert p.Listed(s) && p.Holds(s);
      HeldSlotFits(p, s);
    }
  }

  // ----- cutting a page, for any class -----

  // The head of the list when the slots before the k-th have been linked in.
  function CutHead(page: nat, size: nat, k: nat, head: Option<nat>): Option<nat> {
    if k <= 1 then head else Some(Nth(page, size, k - 1))
  }

  // The memory by then.
  function CutMemory(m: Bytes, page: nat, size: nat, k: nat, head: Option<nat>): Bytes {
    if k <= 1 then m
    else PutLink(CutMemory(m, page, size, k - 1, head), Nth(page, size, k - 1), CutHead(page, size, k - 1, head))
  }

  lemma CutNext(m: Bytes, page: nat, size: nat, i: nat, head: Option<nat>)
    requires i >= 1
    ensures CutMemory(m, page, size, i + 1, head) == PutLink(CutMemory(m, page, size, i, head), page + i * size, CutHead(page, size, i, head))
    ensures CutHead(page, size, i + 1, head) == Some(page + i * size)
  {
    NthIs(page, size, i);
  }

  // With slots that hold their links, the list is the slots cut, and nothing behind the last one is written.
  lemma {:induction false} CutChain(m: Bytes, page: nat, size: nat, k: nat)
    requires size >= LINK
    ensures Chain(CutHead(page, size, k, None), CutMemory(m, page, size, k, None), Cut(page, size, k))
    ensures SameOutside(m, CutMemory(m, page, size, k, None), page, Nth(page, size, k))
    decreases k
  {
    if k > 1 {
      CutChain(m, page, size, k - 1);
      CutOne(m, page, size, k);
    }
  }

  lemma CutOne(m: Bytes, page: nat, size: nat, k: nat)
    requires size >= LINK && k > 1
    requires Chain(CutHead(page, size, k - 1, None), CutMemory(m, page, size, k - 1, None), Cut(page, size, k - 1))
    requires SameOutside(m, CutMemory(m, page, size, k - 1, None), page, Nth(page, size, k - 1))
    ensures Chain(CutHead(page, size, k, None), CutMemory(m, page, size, k, None), Cut(page, size, k))
    ensures SameOutside(m, CutMemory(m, page, size, k, None), page, Nth(page, size, k))
  {
    var before, slot, head := CutMemory(m, page, size, k - 1, None), Nth(page, size, k - 1), CutHead(page, size, k - 1, None);
    CutBelow(page, size, k - 1);
    Prepend(head, before, Cut(page, size, k - 1), slot);
    PutLinkSpec(before, slot, head);
    if k > 2 { NthMono(page, size, 0, k - 1); }
    NthShift(page, size, k - 1);
    assert SameOutside(before, PutLink(before, slot, head), slot, Nth(page, size, k));
    OutsideTwice(m, before, PutLink(before, slot, head), page, slot, Nth(page, size, k), slot);
  }

  lemma CutBelow(page: nat, size: nat, k: nat)
    requires size > 0
    ensures forall i :: 0 <= i < |Cut(page, size, k)| ==> Cut(page, size, k)[i] + size <= Nth(page, size, k)
  {
    var s := Cut(page, size, k);
    CutSpec(page, size, k);
    forall i | 0 <= i < |s| ensures s[i] + size <= Nth(page, size, k) {
      assert s[i] in s;
      var j: nat :| IsCut(page, size, k, j, s[i]);
      NthMono(page, size, j, k);
    }
  }

  // The lists after a page has been cut for an empty class whose slots hold their links.
  lemma CutChains(p: Slots, heads: seq<Option<nat>>, m: Bytes, page: nat, cls: nat)
    requires p.Inv() && LinksFit(p) && cls < CLASSES && SlotSize(cls) >= LINK && p.lists[cls] == []
    requires forall q :: q in p.pages ==> q + PAGE <= page || page + PAGE <= q
    requires Chains(heads, m, p.lists)
    ensures var size, n := SlotSize(cls), SlotsPerPage(cls);
            var m' := CutMemory(m, page, size, n, heads[cls]);
            && heads[cls] == None && SameOutside(m, m', page, page + PAGE)
            && Chains(heads[cls := CutHead(page, size, n, None)], m', Refill(p, page, cls).lists)
  {
    var size, n := SlotSize(cls), SlotsPerPage(cls);
    var m' := CutMemory(m, page, size, n, None);
    SlotDivides(cls);
    NthShift(page, size, n);
    CutChain(m, page, size, n);
    assert Cut(page, size, n) + [] == Cut(page, size, n);
    forall s: Slot | p.Listed(s) ensures SameWithin(m, m', s.addr, s.End()) {
      assert p.Holds(s);
      SlotClear(p, page, s);
    }
    SlotChainsFrame(p, heads, m, m');
  }

  lemma SlotClear(p: Slots, page: nat, s: Slot)
    requires p.Inv() && p.Holds(s)
    requires forall q :: q in p.pages ==> q + PAGE <= page || page + PAGE <= q
    ensures s.End() <= page || page + PAGE <= s.addr
  {
    var pg, i: nat :| pg in p.pages && p.pages[pg] == s.cls && IthSlot(s, pg, i);
    InPage(s, pg, i);
  }

  ghost predicate CutWithin(m: Bytes, page: nat, size: nat, n: nat) {
    SameOutside(m, CutMemory(m, page, size, n, None), page, page + PAGE)
  }

  // Cutting writes within the page exactly for the classes whose slots hold their links.
  lemma CutStaysInPage(page: nat, cls: nat)
    requires cls < CLASSES
    ensures (forall m: Bytes :: CutWithin(m, page, SlotSize(cls), SlotsPerPage(cls))) <==> SlotSize(cls) >= LINK
  {
    var size, n := SlotSize(cls), SlotsPerPage(cls);
    SlotDivides(cls);
    NthShift(page, size, n);
    SlotSizes(cls);
    if size >= LINK {
      forall m: Bytes ensures CutWithin(m, page, size, n) { CutChain(m, page, size, n); }
    } else {
      NthIs(page, size, n);
      CutCrosses(Blank(), page, n);
    }
  }

  lemma CutCrosses(m: Bytes, page: nat, n: nat)
    requires n > 2 && Nth(page, 8, n) == page + PAGE && m(page + PAGE) == Unknown
    ensures !CutWithin(m, page, 8, n)
  {
    LastLink(m, page, n);
    assert !SameAt(m, CutMemory(m, page, 8, n, None), page + PAGE);
  }

  // With 8-byte slots the last link cut lies across the page's end, and its first word stands where the link
  // before it had its pointer.
  lemma LastLink(m: Bytes, page: nat, n: nat)
    requires n > 2 && Nth(page, 8, n) == page + PAGE
    ensures var m' := CutMemory(m, page, 8, n, None);
            && WordAt(m', page + PAGE - 16, 1) && WordAt(m', page + PAGE - 8, 1) && WordAt(m', page + PAGE, page + PAGE - 16)
            && CutHead(page, 8, n, None) == Some(page + PAGE - 8)
  {
    var before, a := CutMemory(m, page, 8, n - 2, None), page + PAGE - 16;
    var v := CutHead(page, 8, n - 2, None);
    assert Nth(page, 8, n - 1) == a + 8 && Nth(page, 8, n - 2) == a;
    assert CutMemory(m, page, 8, n - 1, None) == PutLink(before, a, v);
    assert CutMemory(m, page, 8, n, None) == PutLink(PutLink(before, a, v), a + 8, Some(a));
    TwoLinks(before, a, v);
  }

  // And it writes nothing behind the word that it spills.
  lemma {:induction false} CutSpills(m: Bytes, page: nat, k: nat)
    requires k >= 1
    ensures SameOutside(m, CutMemory(m, page, 8, k, None), page, Nth(page, 8, k) + WORD)
    decreases k
  {
    if k > 1 {
      CutSpills(m, page, k - 1);
      var before, slot, head := CutMemory(m, page, 8, k - 1, None), Nth(page, 8, k - 1), CutHead(page, 8, k - 1, None);
      PutLinkSpec(before, slot, head);
      NthMono(page, 8, 0, k - 1);
      NthShift(page, 8, k - 1);
      OutsideTwice(m, before, PutLink(before, slot, head), page, slot + WORD, slot + LINK, slot);
    }
  }

  lemma CutEight(m: Bytes, page: nat)
    ensures var m' := CutMemory(m, page, SlotSize(0), SlotsPerPage(0), None);
            SameOutside(m, m', page, page + PAGE + WORD) && WordAt(m', page + PAGE, page + PAGE - LINK)
  {
    var n := SlotsPerPage(0);
    SlotDivides(0);
    assert SlotSize(0) == 8;
    NthShift(page, 8, n);
    NthIs(page, 8, n);
    CutSpills(m, page, n);
    LastLink(m, page, n);
  }

  lemma TwoLinks(m: Bytes, a: nat, v: Option<nat>)
    requires v.Some?
    ensures var m' := PutLink(PutLink(m, a, v), a + 8, Some(a));
            WordAt(m', a, 1) && WordAt(m', a + 8, 1) && WordAt(m', a + 16, a)
  {
    var one := PutLink(m, a, v);
    PutLinkSpec(m, a, v);
    PutLinkSpec(one, a + 8, Some(a));
    WordFrame(one, PutLink(one, a + 8, Some(a)), a, 1);
  }

  // What goes wrong there. On a fresh heap three requests of 8 bytes get the page's start, its last slot and the
  // slot before. If the owner of the last slot writes a word v into it before the third request, the third takes
  // v for a link, and the fourth returns it, whatever it is.
  lemma EightByteRun(m: Bytes, page: nat, v: nat)
    ensures var size, n, last := SlotSize(0), SlotsPerPage(0), page + PAGE - 8;
            var cut := CutMemory(m, page, size, n, None);
            var used := PutWord(cut, last, v);
            && CutHead(page, size, n, None) == Some(last)     // the second request gets this slot,
            && LinkAt(cut, last, Some(last - 8))              // the third the one before,
            && LinkAt(used, last - 8, Some(v))                // and the fourth v
  {
    var n := SlotsPerPage(0);
    SlotDivides(0);
    assert SlotSize(0) == 8;
    NthShift(page, 8, n);
    NthIs(page, 8, n);
    LastLink(m, page, n);
    UsedLink(CutMemory(m, page, 8, n, None), page + PAGE - 8, v);
  }

  lemma UsedLink(m: Bytes, last: nat, v: nat)
    requires last >= 8 && WordAt(m, last - 8, 1)
    ensures LinkAt(PutWord(m, last, v), last - 8, Some(v))
  {
    PutWordSpec(m, last, v);
    WordFrame(m, PutWord(m, last, v), last - 8, 1);
  }

  lemma PageIsBlock(page: nat)
    ensures Block(page, 0).End() == page + PAGE
  {
    Pow2Words();
  }

  lemma SizesArePowers(sizes: seq<nat>)
    requires sizes == [8, 16, 32, 64, 128, 256, 512, 1024, 2048]
    ensures forall c :: 0 <= c < CLASSES ==> sizes[c] == SlotSize(c)
  {
    Pow2Words();
    assert Pow2(5) == 32 && Pow2(6) == 64 && Pow2(7) == 128;
    assert Pow2(10) == 1024 && Pow2(11) == 2048;
  }

  class SlabAllocator {
    const slabs: array<Slab>
    const buddy: BuddyAllocator
    ghost var slots: Slots

    ghost function Heads(): (heads: seq<Option<nat>>)
      requires slabs.Length == CLASSES
      reads slabs
      ensures |heads| == CLASSES && forall c :: 0 <= c < CLASSES ==> heads[c] == slabs[c].freeList
    {
      seq(CLASSES, c requires 0 <= c < CLASSES reads slabs => slabs[c].freeList)
    }

    // The parts of the heap are distinct objects, and the sizes are the nine powers of two.
    ghost predicate Shape()
      reads this, slabs, buddy
    {
      && slabs.Length == CLASSES
      && (forall c :: 0 <= c < CLASSES ==> slabs[c].size == SlotSize(c))
      && slabs as object != buddy.freeLists && slabs as object != buddy.phys.bitmap
    }

    ghost predicate PagesOut()
      reads this, buddy
    {
      forall page :: page in slots.pages ==> Block(page, 0) in buddy.pool.live
    }

    ghost predicate Valid()
      reads this, slabs, buddy, buddy.freeLists, buddy.memory, buddy.phys, buddy.phys.bitmap
    {
      && Shape()
      && buddy.Valid()
      && slots.Inv() && LinksFit(slots)
      && PagesOut()
      && Chains(Heads(), buddy.memory.bytes, slots.lists)
    }

    constructor (buddy: BuddyAllocator)
      requires buddy.Valid()
      ensures Valid() && fresh(slabs)
      ensures this.buddy == buddy && slots == SlabPool.EMPTY
    {
      this.slabs := new Slab[CLASSES](_ => Slab(0, None));
      this.buddy := buddy;
      this.slots := SlabPool.EMPTY;
      new;
      EmptyInv();
      Init();
    }

    method Init()
      requires slabs.Length == CLASSES
      modifies slabs
      ensures forall c :: 0 <= c < CLASSES ==> slabs[c] == Slab(SlotSize(c), old(slabs[c].freeList))
    {
      var sizes: seq<nat> := [8, 16, 32, 64, 128, 256, 512, 1024, 2048];
      for i := 0 to |sizes|
        invariant forall c :: 0 <= c < i ==> slabs[c] == Slab(sizes[c], old(slabs[c].freeList))
        invariant forall c :: i <= c < CLASSES ==> slabs[c] == old(slabs[c])
      {
        slabs[i] := slabs[i].(size := sizes[i]);
      }
      SizesArePowers(sizes);
    }

    // Put a slot at the head of its list, whatever its size.
    method LinkSlot(addr: nat, cls: nat)
      requires slabs.Length == CLASSES && cls < CLASSES
      modifies slabs, buddy.memory
      ensures buddy.memory.bytes == PutLink(old(buddy.memory.bytes), addr, old(slabs[cls].freeList))
      ensures slabs[cls] == old(slabs[cls]).(freeList := Some(addr))
      ensures forall c :: 0 <= c < CLASSES && c != cls ==> slabs[c] == old(slabs[c])
    {
      buddy.memory.Save(addr, slabs[cls].freeList);
      slabs[cls] := slabs[cls].(freeList := Some(addr));
    }

    // Cut a page just received: all slots but the first go onto the list. This is the code for every class,
    // and what it does to memory.
    method CutPage(page: nat, cls: nat)
      requires slabs.Length == CLASSES && cls < CLASSES && slabs[cls].size == SlotSize(cls)
      modifies slabs, buddy.memory
      ensures var size, n, head := SlotSize(cls), SlotsPerPage(cls), old(slabs[cls].freeList);
              && buddy.memory.bytes == CutMemory(old(buddy.memory.bytes), page, size, n, head)
              && slabs[cls] == Slab(size, CutHead(page, size, n, head))
      ensures forall c :: 0 <= c < CLASSES && c != cls ==> slabs[c] == old(slabs[c])
    {
      var blockSize := slabs[cls].size;
      ghost var m, head := buddy.memory.bytes, slabs[cls].freeList;
      SlotDivides(cls);
      var blocksPerPage := 4096 / blockSize;
      for i := 1 to blocksPerPage
        invariant buddy.memory.bytes == CutMemory(m, page, blockSize, i, head)
        invariant slabs[cls] == Slab(blockSize, CutHead(page, blockSize, i, head))
        invariant forall c :: 0 <= c < CLASSES && c != cls ==> slabs[c] == old(slabs[c])
      {
        CutNext(m, page, blockSize, i, head);
        LinkSlot(page + i * blockSize, cls);
      }
    }

    // A request of 1 to 8 bytes is served like the others, but spills over: EightByteRun shows how it goes on.
    method Alloc(size: nat) returns (r: Result<nat>)
      requires Valid()
      modifies this`slots, slabs, buddy`pool, buddy`owned, buddy.freeLists, buddy.memory, buddy.phys, buddy.phys.bitmap
      ensures buddy.Grew(old(buddy.owned), old(buddy.phys.Allocated()))
      ensures r.Err? || size > 8 ==>
                && Valid()
                && UntouchedSlots(old(slots.live), old(buddy.memory.bytes), buddy.memory.bytes)
                && Untouched(old(buddy.pool.live), old(buddy.memory.bytes), buddy.memory.bytes)
      ensures r.Ok? && size > 8 ==>
                var cls := SizeToSlab(size);
                && size <= 2048 && Slot(r.value, cls) !in old(slots.live)
                && slots.live == old(slots.live) + {Slot(r.value, cls)}
      ensures size == 0 || size > 2048 ==> r == Err(Memory(InvalidSize)) && slots == old(slots) && buddy.pool == old(buddy.pool)
      ensures 0 < size <= 2048 ==>
                var cls := SizeToSlab(size);
                if old(slots).lists[cls] != [] then
                  size > 8 && r == Ok(old(slots).lists[cls][0]) && slots == TakeSlot(old(slots), cls) && buddy.pool == old(buddy.pool)
                else match r
                  case Ok(page) =>
                    && (size > 8 ==> slots == Refill(old(slots), page, cls))
                    && (size <= 8 ==> Spilled(old(buddy.pool.live), old(buddy.memory.bytes), buddy.memory.bytes, page))
                    && Block(page, 0) !in old(buddy.pool.live)
                    && buddy.pool.live == old(buddy.pool.live) + {Block(page, 0)}
                  case Err(e) =>
                    e == Memory(OutOfMemory) && slots == old(slots) && buddy.pool == old(buddy.pool)
      ensures r.Ok? && old(slots).lists[SizeToSlab(size)] == [] ==> old(buddy.Serves(0, r.value))
      ensures 0 < size <= 2048 ==> (r.Err? <==> old(slots).lists[SizeToSlab(size)] == [] && old(buddy.OutOfBlocks(0)))
    {
      if size == 0 || size > 2048 {
        return Err(Memory(InvalidSize));
      }
      SizeToSlabLeast(size);
      LinkFitsSize(size);
      NoEightByteSlots(slots);
      var slabIdx := SizeToSlab(size);
      if slabs[slabIdx].freeList.Some? {
        r := PopSlot(slabIdx);
        return;
      }
      r := RefillFromBuddy(slabIdx);
    }

    method PopSlot(cls: nat) returns (r: Result<nat>)
      requires Valid() && cls < CLASSES && slots.lists[cls] != []
      modifies this`slots, slabs
      ensures Valid() && r == Ok(old(slots).lists[cls][0]) && slots == TakeSlot(old(slots), cls)
      ensures Slot(r.value, cls) !in old(slots.live)
    {
      var block := slabs[cls].freeList.value;
      ghost var s, heads := slots.lists[cls], Heads();
      TakeSlotKeeps(slots, cls);
      TakeChains(slots, heads, buddy.memory.bytes, cls);
      var next := buddy.memory.Load(block, At(s, 1));
      slabs[cls] := slabs[cls].(freeList := next);
      slots := TakeSlot(slots, cls);
      assert Heads() == heads[cls := next];
      return Ok(block);
    }

    method RefillFromBuddy(cls: nat) returns (r: Result<nat>)
      requires Valid() && cls < CLASSES && slots.lists[cls] == []
      modifies this`slots, slabs, buddy`pool, buddy`owned, buddy.freeLists, buddy.memory, buddy.phys, buddy.phys.bitmap
      ensures buddy.Grew(old(buddy.owned), old(buddy.phys.Allocated()))
      ensures r.Err? || SlotSize(cls) >= LINK ==>
                && Valid()
                && UntouchedSlots(old(slots.live), old(buddy.memory.bytes), buddy.memory.bytes)
                && Untouched(old(buddy.pool.live), old(buddy.memory.bytes), buddy.memory.bytes)
      ensures match r
              case Ok(page) =>
                && Block(page, 0) !in old(buddy.pool.live)
                && buddy.pool.live == old(buddy.pool.live) + {Block(page, 0)}
                && if SlotSize(cls) >= LINK then slots == Refill(old(slots), page, cls) && Slot(page, cls) !in old(slots.live)
                   else Spilled(old(buddy.pool.live), old(buddy.memory.bytes), buddy.memory.bytes, page)
              case Err(e) =>
                e == Memory(OutOfMemory) && slots == old(slots) && buddy.pool == old(buddy.pool)
      ensures r.Ok? ==> old(buddy.Serves(0, r.value))
      ensures r.Err? <==> old(buddy.OutOfBlocks(0))
    {
      ghost var live, m0 := buddy.pool.live, buddy.memory.bytes;
      SlotSizes(cls);
      r := TakeBlock(0);
      if r.Err? {
        return;
      }
      if cls > 0 {
        Fill(r.value, cls, live, m0);
      } else {
        Spill(r.value, live, m0);
      }
    }

    // The page just taken is cut for 8-byte slots, by the same loop.
    method Spill(page: nat, ghost live: set<Block>, ghost m0: Bytes)
      requires Valid() && slots.lists[0] == []
      requires Block(page, 0) !in live && buddy.pool.live == live + {Block(page, 0)}
      requires Untouched(live, m0, buddy.memory.bytes)
      modifies slabs, buddy.memory
      ensures Spilled(live, m0, buddy.memory.bytes, page)
    {
      ghost var m1 := buddy.memory.bytes;
      assert Heads()[0] == None;
      CutPage(page, 0);
      CutEight(m1, page);
      SpillBeside(buddy.pool, live, page, m0, m1, buddy.memory.bytes);
    }

    // The page just taken becomes a page of slots; nothing that was in use before is written.
    method Fill(page: nat, cls: nat, ghost live: set<Block>, ghost m0: Bytes)
      requires Valid() && cls < CLASSES && slots.lists[cls] == [] && SlotSize(cls) >= LINK
      requires Block(page, 0) !in live && buddy.pool.live == live + {Block(page, 0)}
      requires forall q :: q in slots.pages ==> Block(q, 0) in live
      requires UntouchedSlots(slots.live, m0, buddy.memory.bytes) && Untouched(live, m0, buddy.memory.bytes)
      modifies this`slots, slabs, buddy.memory
      ensures Valid() && slots == Refill(old(slots), page, cls) && Slot(page, cls) !in old(slots.live)
      ensures UntouchedSlots(old(slots.live), m0, buddy.memory.bytes) && Untouched(live, m0, buddy.memory.bytes)
    {
      ghost var m1 := buddy.memory.bytes;
      FreshPage(slots, buddy.pool, live, page);
      AddPage(page, cls);
      OutsidePage(old(slots), buddy.pool, live, page, m0, m1, buddy.memory.bytes);
    }

    // Taking a block from the buddy allocator leaves the slab lists and all bytes in use alone.
    method TakeBlock(order: nat) returns (r: Result<nat>)
      requires Valid() && order < ORDERS
      modifies buddy`pool, buddy`owned, buddy.freeLists, buddy.memory, buddy.phys, buddy.phys.bitmap
      ensures buddy.Grew(old(buddy.owned), old(buddy.phys.Allocated()))
      ensures Valid() && (r.Err? <==> old(buddy.OutOfBlocks(order)))
      ensures Untouched(old(buddy.pool.live), old(buddy.memory.bytes), buddy.memory.bytes)
      ensures UntouchedSlots(slots.live, old(buddy.memory.bytes), buddy.memory.bytes)
      ensures r.Err? ==> r == Err(Memory(OutOfMemory)) && buddy.pool == old(buddy.pool)
      ensures r.Ok? ==> old(buddy.Serves(order, r.value))
      ensures r.Ok? ==> Block(r.value, order) !in old(buddy.pool.live)
                        && buddy.pool.live == old(buddy.pool.live) + {Block(r.value, order)}
    {
      ghost var live, before := buddy.pool.live, buddy.memory.bytes;
      r := buddy.Alloc(order);
      SlabFrame(slots, live, Heads(), before, buddy.memory.bytes);
    }

    // A block of one page becomes a page of slots, the first of them handed out.
    method AddPage(page: nat, cls: nat)
      requires Valid() && cls < CLASSES && slots.lists[cls] == [] && SlotSize(cls) >= LINK
      requires Block(page, 0) in buddy.pool.live && forall q :: q in slots.pages ==> q + PAGE <= page || page + PAGE <= q
      modifies this`slots, slabs, buddy.memory
      ensures Valid() && slots == Refill(old(slots), page, cls) && Slot(page, cls) !in old(slots.live)
      ensures SameOutside(old(buddy.memory.bytes), buddy.memory.bytes, page, page + PAGE)
    {
      ghost var m, heads := buddy.memory.bytes, Heads();
      CutChains(slots, heads, m, page, cls);
      RefillKeeps(slots, page, cls);
      PageIsBlock(page);
      CutPage(page, cls);
      assert Heads() == heads[cls := CutHead(page, SlotSize(cls), SlotsPerPage(cls), None)];
      BuddyStays(m, Block(page, 0));
      Become(Refill(slots, page, cls));
    }

    // The lists in memory are those of the next pool already.
    ghost method Become(next: Slots)
      requires Shape() && buddy.Valid() && next.Inv() && LinksFit(next) && Chains(Heads(), buddy.memory.bytes, next.lists)
      requires forall page :: page in next.pages ==> Block(page, 0) in buddy.pool.live
      modifies this`slots
      ensures Valid() && slots == next
    {
      slots := next;
    }

    // The caller hands back a slot it was given for a request of this size.
    method Free(ptr: nat, size: nat) returns (r: Result<()>)
      requires Valid() && (0 < size <= 2048 ==> Slot(ptr, SizeToSlab(size)) in slots.live)
      modifies this`slots, slabs, buddy.memory
      ensures Valid() && buddy.pool == old(buddy.pool)
      ensures r == if size == 0 || size > 2048 then Err(Memory(InvalidSize)) else Ok(())
      ensures slots == if r.Ok? then GiveSlot(old(slots), ptr, SizeToSlab(size)) else old(slots)
      ensures SameOutside(old(buddy.memory.bytes), buddy.memory.bytes, ptr, ptr + LINK)
      ensures UntouchedSlots(slots.live, old(buddy.memory.bytes), buddy.memory.bytes)
    {
      if size == 0 || size > 2048 {
        return Err(Memory(InvalidSize));
      }
      GiveBack(ptr, SizeToSlab(size));
      return Ok(());
    }

    method GiveBack(ptr: nat, cls: nat)
      requires Valid() && cls < CLASSES && Slot(ptr, cls) in slots.live
      modifies this`slots, slabs, buddy.memory
      ensures Valid() && slots == GiveSlot(old(slots), ptr, cls)
      ensures SameOutside(old(buddy.memory.bytes), buddy.memory.bytes, ptr, ptr + LINK)
      ensures UntouchedSlots(slots.live, old(buddy.memory.bytes), buddy.memory.bytes)
    {
      ghost var heads, m, s := Heads(), buddy.memory.bytes, Slot(ptr, cls);
      GiveChains(slots, heads, m, s);
      GiveSlotKeeps(slots, ptr, cls);
      ghost var page := SlotInBlock(slots, buddy.pool.live, s);
      LinkSlot(ptr, cls);
      assert Heads() == heads[cls := Some(ptr)];
      InBlock(m, buddy.memory.bytes, s, page);
      BuddyStays(m, page);
      Become(GiveSlot(slots, ptr, cls));
    }

    // Writing within a block that is out leaves the buddy allocator consistent.
    lemma BuddyStays(m: Bytes, b: Block)
      requires Shape() && b in buddy.pool.live && SameOutside(m, buddy.memory.bytes, b.addr, b.End())
      requires buddy.pool.Inv() && Chains(buddy.freeLists[..], m, buddy.pool.lists)
      ensures Chains(buddy.freeLists[..], buddy.memory.bytes, buddy.pool.lists)
    {
      ChainsFrame(buddy.pool, buddy.freeLists[..], m, buddy.memory.bytes, b);
    }
  }

  // Taking the head: the rest of the list is the list.
  lemma TakeChains(p: Slots, heads: seq<Option<nat>>, m: Bytes, cls: nat)
    requires cls < |p.lists| && p.lists[cls] != [] && Chains(heads, m, p.lists)
    ensures Chains(heads[cls := At(p.lists[cls], 1)], m, TakeSlot(p, cls).lists)
  {
    var s := p.lists[cls];
    var t := s[1..];
    forall k | 0 <= k < |t| ensures LinkAt(m, t[k], At(t, k + 1)) { assert t[k] == s[k + 1] && At(t, k + 1) == At(s, k + 2); }
  }

  // Giving a slot back writes its link within the slot.
  lemma GiveChains(p: Slots, heads: seq<Option<nat>>, m: Bytes, s: Slot)
    requires p.Inv() && LinksFit(p) && s in p.live && Chains(heads, m, p.lists)
    ensures s.cls < CLASSES
    ensures var m' := PutLink(m, s.addr, heads[s.cls]);
            && SameOutside(m, m', s.addr, s.addr + LINK) && s.addr + LINK <= s.End()
            && UntouchedSlots(p.live - {s}, m, m')
            && Chains(heads[s.cls := Some(s.addr)], m', GiveSlot(p, s.addr, s.cls).lists)
  {
    assert p.Holds(s) && p.OnGrid(s);
    HeldSlotFits(p, s);
    var m' := PutLink(m, s.addr, heads[s.cls]);
    PutLinkSpec(m, s.addr, heads[s.cls]);
    WriteInSlot(p, heads, m, m', s);
    var list := p.lists[s.cls];
    forall k | 0 <= k < |list| ensures Apart(list[k], s.addr) {
      assert p.Listed(Slot(list[k], s.cls)) && p.Holds(Slot(list[k], s.cls));
      SlotsDisjoint(p, Slot(list[k], s.cls), s);
    }
    Prepend(heads[s.cls], m, list, s.addr);
  }

  lemma InBlock(m: Bytes, m': Bytes, s: Slot, b: Block)
    requires SameOutside(m, m', s.addr, s.addr + LINK) && s.addr + LINK <= s.End()
    requires forall a: nat :: s.addr <= a < s.End() ==> b.Contains(a)
    ensures SameOutside(m, m', b.addr, b.End())
  {
    assert b.Contains(s.addr) && b.Contains(s.addr + LINK - 1);
  }
}
