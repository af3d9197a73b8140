/** The buddy allocator in place: free blocks are linked through their own first words, and the
    blocks it cannot split come from the bitmap allocator. */
module Buddy {
  import opened Errors
  import opened Bits
  import opened BuddyPool
  import opened ByteMemory
  import opened Physical

  function At(s: seq<nat>, k: nat): Option<nat> {
    if k < |s| then Some(s[k]) else None
  }

  // Following the links from head visits exactly s.
  ghost predicate Chain(head: Option<nat>, m: Bytes, s: seq<nat>) {
    && head == At(s, 0)
    && forall k :: 0 <= k < |s| ==> LinkAt(m, s[k], At(s, k + 1))
  }

  ghost predicate Chains(heads: seq<Option<nat>>, m: Bytes, lists: seq<seq<nat>>) {
    |heads| == |lists| && forall o :: 0 <= o < |lists| ==> Chain(heads[o], m, lists[o])
  }

  // No byte inside the blocks `keep` has been written.
  ghost predicate Untouched(keep: set<Block>, before: Bytes, after: Bytes) {
    forall b, a: nat :: b in keep && b.Contains(a) ==> SameAt(before, after, a)
  }

  lemma UntouchedTwice(keep: set<Block>, m0: Bytes, m1: Bytes, m2: Bytes)
    requires Untouched(keep, m0, m1) && Untouched(keep, m1, m2)
    ensures Untouched(keep, m0, m2)
  {
    forall b, a: nat | b in keep && b.Contains(a) ensures SameAt(m0, m2, a) {
      assert SameAt(m0, m1, a) && SameAt(m1, m2, a);
    }
  }

  // Two links share no byte.
  predicate Apart(a: nat, b: nat) {
    a + LINK <= b || b + LINK <= a
  }

  ghost predicate AllApart(s: seq<nat>) {
    forall i, j :: 0 <= i < j < |s| ==> Apart(s[i], s[j])
  }

  lemma {:induction false} RemoveOneAt(s: seq<nat>, x: nat, k: nat)
    requires k < |s| && s[k] == x && x !in s[..k]
    ensures RemoveOne(s, x) == s[..k] + s[k + 1..]
    decreases s
  {
    if k > 0 {
      assert s[1..][..k - 1] == s[..k][1..];
      RemoveOneAt(s[1..], x, k - 1);
    }
  }

  lemma {:induction false} NoDupIndex(s: seq<nat>, i: nat, j: nat)
    requires NoDup(s) && i < j < |s|
    ensures s[i] != s[j]
    decreases s
  {
    if i > 0 {
      NoDupIndex(s[1..], i - 1, j - 1);
    } else {
      assert s[j] == s[1..][j - 1];
    }
  }

  // A block has room for a link.
  lemma RoomForLink(order: nat)
    ensures Size(order) >= 4096 >= LINK
  {
    SizeInPages(order);
  }

  // A list whose links have not been written is the list it was.
  lemma ChainFrame(head: Option<nat>, m: Bytes, m': Bytes, s: seq<nat>)
    requires Chain(head, m, s)
    requires forall k :: 0 <= k < |s| ==> SameWithin(m, m', s[k], s[k] + LINK)
    ensures Chain(head, m', s)
  {
    forall k | 0 <= k < |s| ensures LinkAt(m', s[k], At(s, k + 1)) { LinkFrame(m, m', s[k], At(s, k + 1)); }
  }

  // Writing within a held block leaves the links of every other listed block.
  lemma OtherChain(p: Pool, head: Option<nat>, m: Bytes, m': Bytes, b: Block, o: nat)
    requires p.Inv() && p.Holds(b) && o < ORDERS && Chain(head, m, p.lists[o])
    requires SameOutside(m, m', b.addr, b.End()) && (b.order == o ==> b.addr !in p.lists[o])
    ensures Chain(head, m', p.lists[o])
  {
    var s := p.lists[o];
    RoomForLink(o);
    forall k | 0 <= k < |s| ensures SameWithin(m, m', s[k], s[k] + LINK) {
      assert p.Holds(Block(s[k], o)) && p.Listed(Block(s[k], o)) && Disjoint(Block(s[k], o), b);
    }
    ChainFrame(head, m, m', s);
  }

  // Writing within a block that is out breaks no list.
  lemma ChainsFrame(p: Pool, heads: seq<Option<nat>>, m: Bytes, m': Bytes, b: Block)
    requires p.Inv() && b in p.live && Chains(heads, m, p.lists) && SameOutside(m, m', b.addr, b.End())
    ensures Chains(heads, m', p.lists)
  {
    forall o | 0 <= o < ORDERS ensures Chain(heads[o], m', p.lists[o]) {
      assert !p.Listed(b);
      OtherChain(p, heads[o], m, m', b, o);
    }
  }

  // Nor does it touch the other blocks that are out.
  lemma OthersUntouched(p: Pool, m: Bytes, m': Bytes, b: Block)
    requires p.Inv() && p.Holds(b) && SameOutside(m, m', b.addr, b.End())
    ensures Untouched(p.live - {b}, m, m')
  {
    forall c, a: nat | c in p.live - {b} && c.Contains(a) ensures SameAt(m, m', a) {
      assert p.Holds(c) && Disjoint(c, b);
    }
  }

  // A block's address and a link field inside it.
  predicate HoldsLink(b: Block, ptr: nat) {
    b.addr <= ptr && ptr + LINK <= b.End()
  }

  lemma PutInside(m: Bytes, ptr: nat, v: Option<nat>, b: Block)
    requires HoldsLink(b, ptr)
    ensures LinkAt(PutLink(m, ptr, v), ptr, v) && SameOutside(m, PutLink(m, ptr, v), b.addr, b.End())
  {
    PutLinkSpec(m, ptr, v);
  }

  // A link written apart from a list's links, holding the list's head, heads the longer list.
  lemma Prepend(head: Option<nat>, m: Bytes, s: seq<nat>, a: nat)
    requires Chain(head, m, s) && forall k :: 0 <= k < |s| ==> Apart(s[k], a)
    ensures Chain(Some(a), PutLink(m, a, head), [a] + s)
  {
    var m', t := PutLink(m, a, head), [a] + s;
    PutLinkSpec(m, a, head);
    ChainFrame(head, m, m', s);
    forall k | 0 <= k < |t| ensures LinkAt(m', t[k], At(t, k + 1)) {
      if k > 0 { assert t[k] == s[k - 1] && At(t, k + 1) == At(s, k); }
    }
  }

  // Linking a block in at the head of one list leaves the other lists as they were.
  lemma PushChains(p: Pool, heads: seq<Option<nat>>, m: Bytes, ptr: nat, order: nat, b: Block)
    requires p.Inv() && b in p.live && HoldsLink(b, ptr) && order < ORDERS
    requires Chains(heads, m, p.lists)
    ensures Chains(heads[order := Some(ptr)], PutLink(m, ptr, heads[order]), p.lists[order := [ptr] + p.lists[order]])
  {
    var m' := PutLink(m, ptr, heads[order]);
    PutInside(m, ptr, heads[order], b);
    ChainsFrame(p, heads, m, m', b);
    forall k | 0 <= k < |p.lists[order]| ensures Apart(p.lists[order][k], ptr) {
      RoomForLink(order);
      var c := Block(p.lists[order][k], order);
      assert p.Listed(c) && p.Holds(c) && p.Holds(b) && Disjoint(c, b);
    }
    Prepend(heads[order], m, p.lists[order], ptr);
  }

  lemma {:induction false} ListApart(p: Pool, order: nat)
    requires p.Inv() && order < ORDERS
    ensures AllApart(p.lists[order])
  {
    var s := p.lists[order];
    forall i, j | 0 <= i < j < |s| ensures Apart(s[i], s[j]) {
      NoDupIndex(s, i, j);
      RoomForLink(order);
      assert p.Listed(Block(s[i], order)) && p.Listed(Block(s[j], order));
      assert p.Holds(Block(s[i], order)) && p.Holds(Block(s[j], order));
    }
  }

  // Unlinking the k-th block: its predecessor, or the head, takes over its link.
  lemma UnlinkOne(head: Option<nat>, m: Bytes, s: seq<nat>, k: nat)
    requires Chain(head, m, s) && AllApart(s) && k < |s|
    ensures k == 0 ==> Chain(At(s, 1), m, s[1..])
    ensures k > 0 ==> Chain(head, PutLink(m, s[k - 1], At(s, k + 1)), s[..k] + s[k + 1..])
  {
    if k == 0 {
      var t := s[1..];
      forall i | 0 <= i < |t| ensures LinkAt(m, t[i], At(t, i + 1)) { assert t[i] == s[i + 1] && At(t, i + 1) == At(s, i + 2); }
    } else {
      var t := s[..k] + s[k + 1..];
      var m' := PutLink(m, s[k - 1], At(s, k + 1));
      PutLinkSpec(m, s[k - 1], At(s, k + 1));
      forall i | 0 <= i < |t| ensures LinkAt(m', t[i], At(t, i + 1)) {
        var j := if i < k then i else i + 1;
        assert t[i] == s[j];
        if j == k - 1 {
          assert At(t, i + 1) == At(s, k + 1);
        } else {
          assert At(t, i + 1) == At(s, j + 1);
          assert Apart(s[j], s[k - 1]);
          LinkFrame(m, m', s[j], At(s, j + 1));
        }
      }
    }
  }

  lemma UnlinkChains(p: Pool, heads: seq<Option<nat>>, m: Bytes, order: nat, k: nat)
    requires p.Inv() && order < ORDERS && k < |p.lists[order]|
    requires Chains(heads, m, p.lists)
    ensures var s := p.lists[order];
            var heads' := if k == 0 then heads[order := At(s, 1)] else heads;
            var m' := if k == 0 then m else PutLink(m, s[k - 1], At(s, k + 1));
            Chains(heads', m', p.lists[order := RemoveOne(s, s[k])])
  {
    var s := p.lists[order];
    ListApart(p, order);
    UnlinkOne(heads[order], m, s, k);
    forall i | 0 <= i < k ensures s[i] != s[k] { NoDupIndex(s, i, k); }
    RemoveOneAt(s, s[k], k);
    if k > 0 {
      var b := Block(s[k - 1], order);
      var m' := PutLink(m, s[k - 1], At(s, k + 1));
      RoomForLink(order);
      PutInside(m, s[k - 1], At(s, k + 1), b);
      assert p.Listed(b) && p.Holds(b);
      forall o | 0 <= o < ORDERS && o != order ensures Chain(heads[o], m', p.lists[o]) {
        OtherChain(p, heads[o], m, m', b, o);
      }
    }
  }

  // The second half of a block, which goes onto a list, lies in the block.
  lemma HalfHoldsLink(ptr: nat, from: nat)
    requires from > 0
    ensures HoldsLink(Block(ptr, from), ptr + Size(from - 1))
  {
    RoomForLink(from - 1);
    assert Size(from) == 2 * Size(from - 1);
  }

  // Redirecting a listed block's link touches no block that is out.
  lemma UnlinkUntouched(p: Pool, m: Bytes, order: nat, k: nat, v: Option<nat>)
    requires p.Inv() && order < ORDERS && k < |p.lists[order]|
    ensures Untouched(p.live, m, PutLink(m, p.lists[order][k], v))
  {
    var b := Block(p.lists[order][k], order);
    RoomForLink(order);
    PutInside(m, b.addr, v, b);
    assert p.Listed(b) && p.Holds(b);
    OthersUntouched(p, m, PutLink(m, b.addr, v), b);
    assert p.live - {b} == p.live;
  }

  // The byte lies in one of the pages.
  predicate InPages(base: nat, pages: set<nat>, x: nat) {
    x >= base && (x - base) / PAGE_SIZE in pages
  }

  // The held blocks tile exactly the pages.
  ghost predicate Tiles(p: Pool, base: nat, pages: set<nat>) {
    forall x: nat :: p.Covers(x) <==> InPages(base, pages, x)
  }

  // The bytes of a block that starts a page are those of its run of pages.
  lemma BlockIsRun(base: nat, page: nat, order: nat)
    ensures forall x: nat :: Block(base + page * PAGE_SIZE, order).Contains(x) <==> InPages(base, Run(page, Pow2(order)), x)
  {
    SizeInPages(order);
    forall x: nat ensures Block(base + page * PAGE_SIZE, order).Contains(x) <==> InPages(base, Run(page, Pow2(order)), x) {
      PagesOfRun(base, page, Pow2(order), x);
    }
  }

  lemma PagesOfRun(base: nat, page: nat, count: nat, x: nat)
    ensures base + page * PAGE_SIZE <= x < base + page * PAGE_SIZE + 4096 * count
            <==> x >= base && page <= (x - base) / PAGE_SIZE < page + count
  {
  }

  // A run of fresh pages becomes a block of the pool.
  lemma GrowByRun(p: Pool, base: nat, own: set<nat>, page: nat, b: Block)
    requires p.Inv() && Tiles(p, base, own) && own !! Run(page, Pow2(b.order)) && b.addr == base + page * PAGE_SIZE
    ensures Grow(p, b).Inv() && b !in p.live && Tiles(Grow(p, b), base, own + Run(page, Pow2(b.order)))
    ensures OnPages(p, base % PAGE_SIZE) ==> OnPages(Grow(p, b), base % PAGE_SIZE)
  {
    var order, run := b.order, Run(page, Pow2(b.order));
    GrowOnPages(p, base, page, b);
    BlockIsRun(base, page, order);
    forall x: nat | b.Contains(x) ensures !p.Covers(x) { assert InPages(base, run, x) && !InPages(base, own, x); }
    GrowKeeps(p, b);
    forall x: nat ensures Grow(p, b).Covers(x) <==> InPages(base, own + run, x) {
      assert b.Contains(x) <==> InPages(base, run, x);
      assert p.Covers(x) <==> InPages(base, own, x);
    }
  }

  lemma GrowOnPages(p: Pool, base: nat, page: nat, b: Block)
    requires b.addr == base + page * PAGE_SIZE
    ensures OnPages(p, base % PAGE_SIZE) ==> OnPages(Grow(p, b), base % PAGE_SIZE)
  {
    assert b.addr % PAGE_SIZE == base % PAGE_SIZE;
    assert forall c :: Grow(p, b).Holds(c) ==> p.Holds(c) || c == b;
  }

  // Not among the elements up to the k-th.
  ghost predicate Unseen(s: seq<nat>, x: nat, k: nat) {
    forall i :: 0 <= i < |s| && i <= k ==> s[i] != x
  }

  lemma UnseenNext(s: seq<nat>, x: nat, k: nat)
    requires Unseen(s, x, k) && At(s, k + 1) != Some(x)
    ensures Unseen(s, x, k + 1)
  {
  }

  class BuddyAllocator {
    const freeLists: array<Option<nat>>
    const memory: Store
    const phys: PhysicalAllocator
    ghost var pool: Pool
    ghost var owned: set<nat>  // the physical pages taken so far

    ghost predicate Linked()
      reads this, freeLists, memory
    {
      && freeLists.Length == ORDERS
      && pool.Inv()
      && Chains(freeLists[..], memory.bytes, pool.lists)
    }

    ghost predicate Valid()
      reads this, freeLists, memory, phys, phys.bitmap
    {
      && freeLists as object != phys.bitmap
      && Linked()
      && phys.Valid()
      && owned <= phys.Allocated()
      && Tiles(pool, phys.baseAddr, owned)   // the pages taken from the bitmap allocator
      && OnPages(pool, phys.baseAddr % PAGE_SIZE)
    }

    // No block of this size or larger is free, and no run of pages for one.
    ghost predicate OutOfBlocks(order: nat)
      requires |pool.lists| == ORDERS && order < ORDERS
      reads this, phys
    {
      FirstFree(pool.lists, order) == ORDERS && NoFreeRun(phys.Allocated(), phys.totalPages, Pow2(order))
    }

    // Where a request that is served is served: the first block of the first list that is not empty, or the
    // leftmost run of pages.
    ghost predicate Serves(order: nat, ptr: nat)
      requires |pool.lists| == ORDERS && order < ORDERS
      reads this, phys
    {
      var h := FirstFree(pool.lists, order);
      if h < ORDERS then ptr == pool.lists[h][0]
      else
        && ptr >= phys.baseAddr && ptr == phys.PageAddr(phys.PageOf(ptr))
        && LeftmostFreeRun(phys.Allocated(), phys.totalPages, phys.PageOf(ptr), Pow2(order))
    }

    lemma ServesOne(order: nat, p: nat, q: nat)
      requires |pool.lists| == ORDERS && order < ORDERS && Serves(order, p) && Serves(order, q)
      ensures p == q
    {
    }

    // Addresses do not wrap: every block the allocator knows ends within 64 bits, and its buddy begins there.
    lemma BlocksFit(b: Block)
      requires Valid() && pool.Holds(b)
      ensures b.End() <= WORD_MAX + 1 && (b.order < ORDERS ==> BuddyOf(b.addr, b.order) <= WORD_MAX)
    {
      assert b.Contains(b.End() - 1) && pool.Covers(b.End() - 1);
      var page := (b.End() - 1 - phys.baseAddr) / PAGE_SIZE;
      assert page in owned && page < phys.totalPages;
      if b.order < ORDERS {
        Pow2Words();
        if b.order + 12 < 64 { Pow2Mono(b.order + 12, 64); }
        BitwiseFits(OpXor, b.addr, Size(b.order), 64);
      }
    }

    constructor (memory: Store, phys: PhysicalAllocator)
      requires phys.Valid()
      ensures Valid() && fresh(freeLists)
      ensures this.memory == memory && this.phys == phys && pool == EMPTY && owned == {}
    {
      this.freeLists := new Option<nat>[ORDERS](_ => None);
      this.memory := memory;
      this.phys := phys;
      this.pool := EMPTY;
      this.owned := {};
    }

    // Link a block in at the head of its list.
    method PushFree(ptr: nat, order: nat, ghost holder: Block)
      requires Linked() && order < ORDERS && holder in pool.live && HoldsLink(holder, ptr)
      modifies freeLists, memory
      ensures freeLists.Length == ORDERS
      ensures Chains(freeLists[..], memory.bytes, pool.lists[order := [ptr] + pool.lists[order]])
      ensures Untouched(pool.live - {holder}, old(memory.bytes), memory.bytes)
    {
      PushChains(pool, freeLists[..], memory.bytes, ptr, order, holder);
      PutInside(memory.bytes, ptr, freeLists[order], holder);
      OthersUntouched(pool, memory.bytes, PutLink(memory.bytes, ptr, freeLists[order]), holder);
      ghost var heads := freeLists[..];
      memory.Save(ptr, freeLists[order]);
      freeLists[order] := Some(ptr);
      assert freeLists[..] == heads[order := Some(ptr)];
    }

    // Pages have come only from those that were not taken, and none has gone back.
    ghost predicate Grew(before: set<nat>, taken: set<nat>)
      reads this, phys
    {
      before <= owned && taken <= phys.Allocated() && (owned - before) !! taken
    }

    // Take the head of a list that is not empty.
    method PopFree(order: nat) returns (block: nat)
      requires Linked() && order < ORDERS && pool.lists[order] != []
      modifies this`pool, freeLists
      ensures Linked() && block == old(pool).lists[order][0] && pool == Pop(old(pool), order)
    {
      ghost var s := pool.lists[order];
      block := freeLists[order].value;
      UnlinkChains(pool, freeLists[..], memory.bytes, order, 0);
      ghost var heads := freeLists[..];
      var next := memory.Load(block, At(s, 1));
      freeLists[order] := next;
      assert freeLists[..] == heads[order := next];
      PopKeeps(pool, order);
      pool := Pop(pool, order);
    }

    method Alloc(order: nat) returns (r: Result<nat>)
      requires Valid()
      modifies this`pool, this`owned, freeLists, memory, phys, phys.bitmap
      ensures Valid() && Untouched(old(pool.live), old(memory.bytes), memory.bytes) && Grew(old(owned), old(phys.Allocated()))
      ensures r.Ok? ==> pool.live == old(pool.live) + {Block(r.value, order)} && Block(r.value, order) !in old(pool.live)
      ensures order >= ORDERS ==> r == Err(Memory(InvalidSize)) && pool == old(pool) && owned == old(owned)
      ensures order < ORDERS ==> (r.Err? <==> old(OutOfBlocks(order))) && (r.Ok? ==> old(Serves(order, r.value)))
      ensures order < ORDERS ==>
                var h := FirstFree(old(pool.lists), order);
                if h < ORDERS then
                  // a free block of this size or larger: the first half of the first half of ...
                  && r == Ok(old(pool).lists[h][0]) && pool == BuddyPool.Alloc(old(pool), order)
                  && owned == old(owned) && phys.Allocated() == old(phys.Allocated())
                else match r
                  case Ok(ptr) =>
                    && ptr >= phys.baseAddr && ptr == phys.PageAddr(phys.PageOf(ptr))
                    && LeftmostFreeRun(old(phys.Allocated()), phys.totalPages, phys.PageOf(ptr), Pow2(order))
                    && pool == Grow(old(pool), Block(ptr, order)) && Block(ptr, order) !in old(pool.live)
                    && owned == old(owned) + Run(phys.PageOf(ptr), Pow2(order))
                  case Err(e) =>
                    e == Memory(OutOfMemory) && pool == old(pool) && owned == old(owned)
    {
      if order >= 11 {
        return Err(Memory(InvalidSize));
      }
      if freeLists[order].Some? {
        r := Serve(order, order);
        return;
      }
      for higherOrder := order + 1 to 11
        invariant pool == old(pool) && owned == old(owned) && memory.bytes == old(memory.bytes)
        invariant Valid() && phys.Allocated() == old(phys.Allocated())
        invariant forall o :: order <= o < higherOrder ==> pool.lists[o] == []
      {
        if freeLists[higherOrder].Some? {
          r := Serve(order, higherOrder);
          return;
        }
      }
      assert FirstFree(pool.lists, order) == ORDERS;
      r := TakePages(order);
    }

    // Take the first block of the first list that is not empty, and split it down.
    method Serve(order: nat, from: nat) returns (r: Result<nat>)
      requires Valid() && order <= from < ORDERS && pool.lists[from] != [] && forall o :: order <= o < from ==> pool.lists[o] == []
      modifies this`pool, freeLists, memory
      ensures Valid() && Untouched(old(pool.live), old(memory.bytes), memory.bytes)
      ensures from == FirstFree(old(pool.lists), order)
      ensures r == Ok(old(pool).lists[from][0]) && pool == BuddyPool.Alloc(old(pool), order)
      ensures pool.live == old(pool.live) + {Block(r.value, order)} && Block(r.value, order) !in old(pool.live)
    {
      ghost var before := pool;
      assert FirstFree(pool.lists, order) == from;
      AllocKeeps(pool, order);
      AllocOnPages(pool, order, phys.baseAddr % PAGE_SIZE);
      PopKeeps(pool, from);
      var block := PopFree(from);
      assert pool.live - {Block(block, from)} == before.live;
      r := SplitBlock(block, from, order);
    }

    // The last resort of Alloc: a fresh run of 1 << order pages.
    method TakePages(order: nat) returns (r: Result<nat>)
      requires Valid() && order < ORDERS
      modifies this`pool, this`owned, phys, phys.bitmap
      ensures Valid() && Grew(old(owned), old(phys.Allocated()))
      ensures match r
              case Ok(ptr) =>
                && ptr >= phys.baseAddr && ptr == phys.PageAddr(phys.PageOf(ptr))
                && LeftmostFreeRun(old(phys.Allocated()), phys.totalPages, phys.PageOf(ptr), Pow2(order))
                && pool == Grow(old(pool), Block(ptr, order)) && Block(ptr, order) !in old(pool.live)
                && owned == old(owned) + Run(phys.PageOf(ptr), Pow2(order))
              case Err(e) =>
                && e == Memory(OutOfMemory) && NoFreeRun(old(phys.Allocated()), phys.totalPages, Pow2(order))
                && pool == old(pool) && owned == old(owned)
    {
      var pages := Pow2(order);
      r := phys.AllocPages(pages);
      if r.Ok? {
        Adopt(r.value, order);
      }
    }

    // A run of pages just taken from the bitmap allocator becomes a block.
    ghost method Adopt(ptr: nat, order: nat)
      requires freeLists as object != phys.bitmap && Linked() && phys.Valid() && order < ORDERS
      requires Tiles(pool, phys.baseAddr, owned) && OnPages(pool, phys.baseAddr % PAGE_SIZE)
      requires ptr >= phys.baseAddr && ptr == phys.PageAddr(phys.PageOf(ptr))
      requires owned !! Run(phys.PageOf(ptr), Pow2(order)) && owned + Run(phys.PageOf(ptr), Pow2(order)) <= phys.Allocated()
      modifies this`pool, this`owned
      ensures Valid() && pool == Grow(old(pool), Block(ptr, order)) && Block(ptr, order) !in old(pool.live)
      ensures owned == old(owned) + Run(phys.PageOf(ptr), Pow2(order))
    {
      GrowByRun(pool, phys.baseAddr, owned, phys.PageOf(ptr), Block(ptr, order));
      pool, owned := Grow(pool, Block(ptr, order)), owned + Run(phys.PageOf(ptr), Pow2(order));
    }

    method SplitBlock(ptr: nat, fromOrder: nat, toOrder: nat) returns (r: Result<nat>)
      requires Linked() && toOrder <= fromOrder < ORDERS && Block(ptr, fromOrder) in pool.live
      modifies this`pool, freeLists, memory
      ensures Linked() && r == Ok(ptr) && pool == SplitDown(old(pool), ptr, fromOrder, toOrder)
      ensures Untouched(old(pool.live) - {Block(ptr, fromOrder)}, old(memory.bytes), memory.bytes)
      decreases fromOrder
    {
      if fromOrder == toOrder {
        return Ok(ptr);
      }
      ghost var p, m0 := pool, memory.bytes;
      HalveKeeps(pool, ptr, fromOrder);
      SplitOff(ptr, fromOrder - 1);
      ghost var m1 := memory.bytes;
      r := SplitBlock(ptr, fromOrder - 1, toOrder);
      assert Untouched(p.live - {Block(ptr, fromOrder)}, m1, memory.bytes);
      UntouchedTwice(p.live - {Block(ptr, fromOrder)}, m0, m1, memory.bytes);
    }

    // The second half of a block goes onto its list.
    method SplitOff(ptr: nat, splitOrder: nat)
      requires Linked() && splitOrder + 1 < ORDERS && Block(ptr, splitOrder + 1) in pool.live
      modifies this`pool, freeLists, memory
      ensures Linked() && pool == Halve(old(pool), ptr, splitOrder + 1)
      ensures Untouched(old(pool.live) - {Block(ptr, splitOrder + 1)}, old(memory.bytes), memory.bytes)
    {
      var splitSize := Size(splitOrder);
      var buddy := ptr + splitSize;
      HalveKeeps(pool, ptr, splitOrder + 1);
      HalfHoldsLink(ptr, splitOrder + 1);
      PushFree(buddy, splitOrder, Block(ptr, splitOrder + 1));
      pool := Halve(pool, ptr, splitOrder + 1);
    }

    method IsFree(ptr: nat, order: nat) returns (found: bool)
      requires Linked() && order < ORDERS
      ensures found <==> ptr in pool.lists[order]
    {
      var current := freeLists[order];
      ghost var k := 0;
      ghost var s := pool.lists[order];
      while current.Some?
        invariant k <= |s| && current == At(s, k) && ptr !in s[..k]
        decreases |s| - k
      {
        var block := current.value;
        if block == ptr {
          return true;
        }
        current := memory.Load(block, At(s, k + 1));
        k := k + 1;
      }
      return false;
    }

    // The k-th block of the list, which links to the buddy of `own`, takes over the buddy's link.
    method Bypass(block: nat, ptr: nat, order: nat, ghost own: nat, ghost k: nat)
      requires Linked() && order < ORDERS && Block(own, order) in pool.live
      requires k + 1 < |pool.lists[order]| && pool.lists[order][k] == block && pool.lists[order][k + 1] == ptr == BuddyOf(own, order)
      modifies this`pool, memory
      ensures Linked() && pool == Merge(old(pool), own, order)
      ensures Untouched(old(pool.live), old(memory.bytes), memory.bytes)
    {
      MergeKeeps(pool, own, order);
      var after := memory.Load(ptr, At(pool.lists[order], k + 2));
      UnlinkChains(pool, freeLists[..], memory.bytes, order, k + 1);
      UnlinkUntouched(pool, memory.bytes, order, k, after);
      memory.Save(block, after);
      pool := Merge(pool, own, order);
    }

    // Unlink the buddy of the block `own`, which the caller holds; from here on it holds both as one.
    method RemoveFromList(ptr: nat, order: nat, ghost own: nat)
      requires Linked() && order < ORDERS && Block(own, order) in pool.live
      requires ptr == BuddyOf(own, order) && ptr in pool.lists[order]
      modifies this`pool, freeLists, memory
      ensures Linked() && pool == Merge(old(pool), own, order)
      ensures Untouched(old(pool.live), old(memory.bytes), memory.bytes)
    {
      if freeLists[order] == Some(ptr) {
        RemoveHead(ptr, order, own);
      } else {
        var block, k := FindBefore(ptr, order);
        Bypass(block, ptr, order, own, k);
      }
    }

    method RemoveHead(ptr: nat, order: nat, ghost own: nat)
      requires Linked() && order < ORDERS && Block(own, order) in pool.live
      requires ptr == BuddyOf(own, order) && freeLists[order] == Some(ptr)
      modifies this`pool, freeLists
      ensures Linked() && pool == Merge(old(pool), own, order)
    {
      ghost var s, heads := pool.lists[order], freeLists[..];
      assert s != [] && s[0] == ptr;
      MergeKeeps(pool, own, order);
      UnlinkChains(pool, heads, memory.bytes, order, 0);
      var next := memory.Load(ptr, At(s, 1));
      freeLists[order] := next;
      assert freeLists[..] == heads[order := next];
      pool := Merge(pool, own, order);
    }

    // The block that links to ptr.
    method FindBefore(ptr: nat, order: nat) returns (block: nat, ghost k: nat)
      requires Linked() && order < ORDERS && ptr in pool.lists[order] && freeLists[order] != Some(ptr)
      ensures k + 1 < |pool.lists[order]| && pool.lists[order][k] == block && pool.lists[order][k + 1] == ptr
    {
      ghost var s := pool.lists[order];
      var current := freeLists[order];
      k := 0;
      while current.Some?
        invariant k <= |s| && current == At(s, k) && Unseen(s, ptr, k)
        decreases |s| - k
      {
        block := current.value;
        var next := memory.Load(block, At(s, k + 1));
        if next == Some(ptr) {
          return;
        }
        UnseenNext(s, ptr, k);
        current := next;
        k := k + 1;
      }
      assert false;  // the buddy is in the list
    }

    // The caller hands back a block it was given. Above the largest order there is no list, so a
    // block that has climbed there is dropped and InvalidSize comes back.
    method Free(ptr: nat, order: nat) returns (r: Result<()>)
      requires Valid() && (order < ORDERS ==> Block(ptr, order) in pool.live)
      modifies this`pool, freeLists, memory
      ensures Valid() && pool == BuddyPool.Free(old(pool), ptr, order)
      ensures pool.live == old(pool.live) - {Block(ptr, order)}
      ensures r == if ClimbsOut(old(pool.lists), ptr, order) then Err(Memory(InvalidSize)) else Ok(())
      ensures Untouched(old(pool.live) - {Block(ptr, order)}, old(memory.bytes), memory.bytes)
      decreases ORDERS - order
    {
      if order >= 11 {
        if Block(ptr, order) in pool.live { LeakKeeps(pool, Block(ptr, order)); }
        forall b | Leak(pool, Block(ptr, order)).Holds(b) ensures b.addr % PAGE_SIZE == phys.baseAddr % PAGE_SIZE {
          assert pool.Holds(b);
        }
        pool := Leak(pool, Block(ptr, order));
        return Err(Memory(InvalidSize));
      }
      var buddyPtr := BuddyOf(ptr, order);
      var free := IsFree(buddyPtr, order);
      if free {
        MergeKeeps(pool, ptr, order);
        MergeClimbs(pool, ptr, order);
        MergeOnPages(pool, ptr, order, phys.baseAddr % PAGE_SIZE);
        RemoveFromList(buddyPtr, order, ptr);
        var coalesced := if ptr < buddyPtr then ptr else buddyPtr;
        r := Free(coalesced, order + 1);
        return;
      }
      PushKeeps(pool, ptr, order);
      FreeOnPages(pool, ptr, order, phys.baseAddr % PAGE_SIZE);
      RoomForLink(order);
      PushFree(ptr, order, Block(ptr, order));
      pool := Push(pool, ptr, order);
      return Ok(());
    }
  }
}
