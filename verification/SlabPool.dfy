/** The slab layer on values: pages cut into equal slots, each slot on its class's list or handed out. */
module SlabPool {
  import opened Bits
  import opened BuddyPool

  const CLASSES: nat := 9
  const PAGE: nat := 4096

  // 8, 16, ..., 2048 bytes
  function SlotSize(cls: nat): (size: nat)
    ensures size > 0
  {
    Pow2(cls + 3)
  }

  // 4096 / size: SlotDivides
  function SlotsPerPage(cls: nat): nat
    requires cls < CLASSES
  {
    Pow2(9 - cls)
  }

  // The i-th of a row of slots: page + i * size, by NthIs
  function Nth(page: nat, size: nat, i: nat): nat {
    if i == 0 then page else Nth(page, size, i - 1) + size
  }

  lemma {:induction false} NthIs(page: nat, size: nat, i: nat)
    ensures Nth(page, size, i) == page + i * size
    decreases i
  {
    if i > 0 { NthIs(page, size, i - 1); }
  }

  lemma {:induction false} NthMono(page: nat, size: nat, i: nat, j: nat)
    requires i < j
    ensures Nth(page, size, i) + size <= Nth(page, size, j)
    decreases j
  {
    if i < j - 1 { NthMono(page, size, i, j - 1); }
  }

  datatype Slot = Slot(addr: nat, cls: nat) {
    function End(): nat { addr + SlotSize(cls) }
  }

  // Slot s is the i-th of a page cut for its class.
  predicate IthSlot(s: Slot, page: nat, i: nat) {
    s.cls < CLASSES && i < SlotsPerPage(s.cls) && s.addr == Nth(page, SlotSize(s.cls), i)
  }

  // pages: each page taken from the buddy allocator, with the class it was cut for.
  datatype Slots = Slots(lists: seq<seq<nat>>, live: set<Slot>, pages: map<nat, nat>) {
    predicate Listed(s: Slot) {
      s.cls < |lists| && s.addr in lists[s.cls]
    }

    predicate Holds(s: Slot) {
      Listed(s) || s in live
    }

    ghost predicate OnGrid(s: Slot) {
      exists page, i: nat :: page in pages && pages[page] == s.cls && IthSlot(s, page, i)
    }

    // The held slots are exactly the slots of the pages, each free or out but not both.
    ghost predicate Inv() {
      && |lists| == CLASSES
      && (forall c :: 0 <= c < CLASSES ==> NoDup(lists[c]))
      && (forall s :: s in live ==> !Listed(s))
      && (forall s :: Holds(s) <==> OnGrid(s))
      && (forall page :: page in pages ==> pages[page] < CLASSES)
      && (forall p, q :: p in pages && q in pages && p != q ==> p + PAGE <= q || q + PAGE <= p)
    }
  }

  const EMPTY: Slots := Slots(seq(CLASSES, _ => []), {}, map[])

  lemma EmptyInv()
    ensures EMPTY.Inv()
  {
    assert forall s :: !EMPTY.OnGrid(s);
  }

  lemma SlotDivides(cls: nat)
    requires cls < CLASSES
    ensures SlotsPerPage(cls) == PAGE / SlotSize(cls) && SlotsPerPage(cls) >= 2
    ensures Nth(0, SlotSize(cls), SlotsPerPage(cls)) == PAGE
  {
    Pow2Words();
    Pow2Add(9 - cls, cls + 3);
    DivUnique(PAGE, SlotSize(cls), Pow2(9 - cls), 0);
    Pow2Mono(0, 9 - cls);
    NthIs(0, SlotSize(cls), SlotsPerPage(cls));
  }

  lemma {:induction false} NthShift(page: nat, size: nat, i: nat)
    ensures Nth(page, size, i) == page + Nth(0, size, i)
    decreases i
  {
    if i > 0 { NthShift(page, size, i - 1); }
  }

  // A slot lies inside its page.
  lemma InPage(s: Slot, page: nat, i: nat)
    requires IthSlot(s, page, i)
    ensures page <= s.addr && s.End() <= page + PAGE
  {
    SlotDivides(s.cls);
    NthShift(page, SlotSize(s.cls), SlotsPerPage(s.cls));
    NthMono(page, SlotSize(s.cls), i, SlotsPerPage(s.cls));
    NthShift(page, SlotSize(s.cls), i);
  }

  // No two held slots share a byte.
  lemma SlotsDisjoint(p: Slots, a: Slot, b: Slot)
    requires p.Inv() && p.Holds(a) && p.Holds(b) && a != b
    ensures a.End() <= b.addr || b.End() <= a.addr
  {
    var pa, i: nat :| pa in p.pages && p.pages[pa] == a.cls && IthSlot(a, pa, i);
    var pb, j: nat :| pb in p.pages && p.pages[pb] == b.cls && IthSlot(b, pb, j);
    InPage(a, pa, i);
    InPage(b, pb, j);
    if pa == pb {
      if i < j {
        NthMono(pa, SlotSize(a.cls), i, j);
      } else if j < i {
        NthMono(pa, SlotSize(a.cls), j, i);
      }
    }
  }

  // ----- moves -----

  function TakeSlot(p: Slots, cls: nat): Slots
    requires cls < |p.lists| && p.lists[cls] != []
  {
    p.(lists := p.lists[cls := p.lists[cls][1..]], live := p.live + {Slot(p.lists[cls][0], cls)})
  }

  function GiveSlot(p: Slots, addr: nat, cls: nat): Slots
    requires cls < |p.lists|
  {
    p.(lists := p.lists[cls := [addr] + p.lists[cls]], live := p.live - {Slot(addr, cls)})
  }

  // The slots 1, ..., k - 1 of a page, the last one cut first.
  function Cut(page: nat, size: nat, k: nat): seq<nat> {
    if k <= 1 then [] else [Nth(page, size, k - 1)] + Cut(page, size, k - 1)
  }

  // A fresh page: its first slot goes out, the others onto the list.
  function Refill(p: Slots, page: nat, cls: nat): Slots
    requires cls < |p.lists| == CLASSES
  {
    p.(lists := p.lists[cls := Cut(page, SlotSize(cls), SlotsPerPage(cls)) + p.lists[cls]],
       live := p.live + {Slot(page, cls)},
       pages := p.pages[page := cls])
  }

  lemma TakeSlotKeeps(p: Slots, cls: nat)
    requires p.Inv() && cls < CLASSES && p.lists[cls] != []
    ensures TakeSlot(p, cls).Inv() && Slot(p.lists[cls][0], cls) !in p.live
  {
    var s := p.lists[cls];
    var q := TakeSlot(p, cls);
    assert s == [s[0]] + s[1..];
    assert p.Listed(Slot(s[0], cls));
    assert forall t :: q.Holds(t) <==> p.Holds(t);
    assert forall t :: q.OnGrid(t) <==> p.OnGrid(t);
  }

  lemma GiveSlotKeeps(p: Slots, addr: nat, cls: nat)
    requires p.Inv() && cls < CLASSES && Slot(addr, cls) in p.live
    ensures GiveSlot(p, addr, cls).Inv()
  {
    var q := GiveSlot(p, addr, cls);
    assert !p.Listed(Slot(addr, cls));
    assert q.lists[cls][1..] == p.lists[cls];
    assert forall t :: q.Holds(t) <==> p.Holds(t);
    assert forall t :: q.OnGrid(t) <==> p.OnGrid(t);
  }

  lemma {:induction false} CutSpec(page: nat, size: nat, k: nat)
    requires size > 0
    ensures forall a :: a in Cut(page, size, k) <==> exists i: nat :: IsCut(page, size, k, i, a)
    ensures NoDup(Cut(page, size, k))
    decreases k
  {
    if k > 1 {
      CutSpec(page, size, k - 1);
      var first := Nth(page, size, k - 1);
      assert Cut(page, size, k)[1..] == Cut(page, size, k - 1);
      forall a ensures a in Cut(page, size, k) <==> exists i: nat :: IsCut(page, size, k, i, a) {
        if a == first { assert IsCut(page, size, k, k - 1, a); }
        if a in Cut(page, size, k - 1) {
          var i: nat :| IsCut(page, size, k - 1, i, a);
          assert IsCut(page, size, k, i, a);
        }
        if i: nat :| IsCut(page, size, k, i, a) && i < k - 1 {
          assert IsCut(page, size, k - 1, i, a);
        }
      }
      forall i: nat {:trigger IsCut(page, size, k - 1, i, first)} ensures !IsCut(page, size, k - 1, i, first) {
        if i < k - 1 { NthMono(page, size, i, k - 1); }
      }
    }
  }

  predicate IsCut(page: nat, size: nat, k: nat, i: nat, a: nat) {
    1 <= i < k && a == Nth(page, size, i)
  }

  // Held slots keep clear of a page that is not theirs.
  lemma ClearOf(p: Slots, page: nat, s: Slot)
    requires p.Inv() && p.Holds(s)
    requires forall q :: q in p.pages ==> q + PAGE <= page || page + PAGE <= q
    ensures s.addr < page || page + PAGE <= s.addr
  {
    var pg, i: nat :| pg in p.pages && p.pages[pg] == s.cls && IthSlot(s, pg, i);
    InPage(s, pg, i);
  }

  // The slots of one page: the first, and those that were cut.
  lemma CutIsGrid(s: Slot, page: nat)
    requires s.cls < CLASSES
    ensures (exists i: nat :: IthSlot(s, page, i)) <==>
              s.addr == page || s.addr in Cut(page, SlotSize(s.cls), SlotsPerPage(s.cls))
  {
    var size, n := SlotSize(s.cls), SlotsPerPage(s.cls);
    SlotDivides(s.cls);
    CutSpec(page, size, n);
    if i: nat :| IthSlot(s, page, i) {
      assert i == 0 || IsCut(page, size, n, i, s.addr);
    }
    if s.addr == page {
      assert IthSlot(s, page, 0);
    } else if s.addr in Cut(page, size, n) {
      var i: nat :| IsCut(page, size, n, i, s.addr);
      assert IthSlot(s, page, i);
    }
  }

  lemma GridWithPage(p: Slots, q: Slots, page: nat, cls: nat, s: Slot)
    requires q.pages == p.pages[page := cls] && page !in p.pages
    ensures q.OnGrid(s) <==> p.OnGrid(s) || (s.cls == cls && exists i: nat :: IthSlot(s, page, i))
  {
    if p.OnGrid(s) {
      var pg, i: nat :| pg in p.pages && p.pages[pg] == s.cls && IthSlot(s, pg, i);
      assert pg in q.pages && q.pages[pg] == s.cls;
    }
    if s.cls == cls && exists i: nat :: IthSlot(s, page, i) {
      var i: nat :| IthSlot(s, page, i);
      assert page in q.pages && q.pages[page] == s.cls;
    }
  }

  // Refilling an empty list adds exactly the new page's slots.
  lemma RefillKeeps(p: Slots, page: nat, cls: nat)
    requires p.Inv() && cls < CLASSES && p.lists[cls] == []
    requires forall q :: q in p.pages ==> q + PAGE <= page || page + PAGE <= q
    ensures Refill(p, page, cls).Inv() && Slot(page, cls) !in p.live
  {
    var q := Refill(p, page, cls);
    var cut := Cut(page, SlotSize(cls), SlotsPerPage(cls));
    var first := Slot(page, cls);
    CutSpec(page, SlotSize(cls), SlotsPerPage(cls));
    assert q.lists[cls] == cut;
    assert !p.Holds(first) by {
      if p.Holds(first) { ClearOf(p, page, first); }
    }
    forall i: nat ensures !IsCut(page, SlotSize(cls), SlotsPerPage(cls), i, page) {
      if i >= 1 { NthMono(page, SlotSize(cls), 0, i); }
    }
    forall s ensures q.Holds(s) <==> q.OnGrid(s) {
      GridWithPage(p, q, page, cls, s);
      if s.cls == cls { CutIsGrid(s, page); }
    }
    forall s | s in q.live ensures !q.Listed(s) {
      assert p.Holds(s) || s == first;
      if p.Holds(s) && s.cls == cls && s.addr in cut {
        CutIsGrid(s, page);
        var i: nat :| IthSlot(s, page, i);
        InPage(s, page, i);
        ClearOf(p, page, s);
      }
    }
  }
}
