/** The buddy system on values: eleven free lists, the blocks handed out, and the elementary
    moves every allocation and every release is made of. */
module BuddyPool {
  import opened Bits

  const ORDERS: nat := 11

  // 4096 << order
  function Size(order: nat): (size: nat)
    ensures size > 0
  {
    Pow2(order + 12)
  }

  function BuddyOf(ptr: nat, order: nat): nat {
    Xor(ptr, Size(order))
  }

  datatype Block = Block(addr: nat, order: nat) {
    function End(): nat { addr + Size(order) }

    predicate Contains(x: nat) { addr <= x < End() }
  }

  predicate Disjoint(a: Block, b: Block) {
    a.End() <= b.addr || b.End() <= a.addr
  }

  predicate NoDup(s: seq<nat>) {
    s == [] || (s[0] !in s[1..] && NoDup(s[1..]))
  }

  function RemoveOne(s: seq<nat>, x: nat): seq<nat> {
    if s == [] then []
    else if s[0] == x then s[1..]
    else [s[0]] + RemoveOne(s[1..], x)
  }

  lemma {:induction false} RemoveOneSpec(s: seq<nat>, x: nat)
    requires NoDup(s)
    ensures NoDup(RemoveOne(s, x))
    ensures forall y :: y in RemoveOne(s, x) <==> y in s && y != x
  {
    if s != [] {
      assert s == [s[0]] + s[1..];
      if s[0] != x {
        RemoveOneSpec(s[1..], x);
        assert RemoveOne(s, x)[1..] == RemoveOne(s[1..], x);
      }
    }
  }

  // live: blocks handed out; leaked: pairs of order-10 buddies that met and fell off the top.
  datatype Pool = Pool(lists: seq<seq<nat>>, live: set<Block>, leaked: set<Block>) {
    predicate Listed(b: Block) {
      b.order < |lists| && b.addr in lists[b.order]
    }

    predicate Holds(b: Block) {
      Listed(b) || b in live || b in leaked
    }

    // Every block is held once, and no two held blocks share a byte.
    ghost predicate Inv() {
      && |lists| == ORDERS
      && (forall o :: 0 <= o < ORDERS ==> NoDup(lists[o]))
      && live !! leaked
      && (forall b :: b in live || b in leaked ==> !Listed(b))
      && (forall a, b {:trigger Holds(a), Holds(b)} :: Holds(a) && Holds(b) && a != b ==> Disjoint(a, b))
    }

    ghost predicate Covers(x: nat) {
      exists b :: Holds(b) && b.Contains(x)
    }

    ghost predicate SameCover(q: Pool) {
      forall x: nat :: Covers(x) <==> q.Covers(x)
    }
  }

  const EMPTY: Pool := Pool(seq(ORDERS, _ => []), {}, {})

  // ----- the elementary moves -----

  function Pop(p: Pool, order: nat): Pool
    requires order < |p.lists| && p.lists[order] != []
  {
    p.(lists := p.lists[order := p.lists[order][1..]], live := p.live + {Block(p.lists[order][0], order)})
  }

  function Push(p: Pool, ptr: nat, order: nat): Pool
    requires order < |p.lists|
  {
    p.(lists := p.lists[order := [ptr] + p.lists[order]], live := p.live - {Block(ptr, order)})
  }

  // Keep the first half of a block, list the second.
  function Halve(p: Pool, ptr: nat, from: nat): Pool
    requires 0 < from <= |p.lists|
  {
    p.(lists := p.lists[from - 1 := [ptr + Size(from - 1)] + p.lists[from - 1]],
       live := p.live - {Block(ptr, from)} + {Block(ptr, from - 1)})
  }

  function Lower(ptr: nat, order: nat): nat {
    if ptr < BuddyOf(ptr, order) then ptr else BuddyOf(ptr, order)
  }

  // Take the free buddy off its list and hold the two as one block.
  function Merge(p: Pool, ptr: nat, order: nat): Pool
    requires order < |p.lists|
  {
    p.(lists := p.lists[order := RemoveOne(p.lists[order], BuddyOf(ptr, order))],
       live := p.live - {Block(ptr, order)} + {Block(Lower(ptr, order), order + 1)})
  }

  function Leak(p: Pool, b: Block): Pool {
    if b in p.live then p.(live := p.live - {b}, leaked := p.leaked + {b}) else p
  }

  function Grow(p: Pool, b: Block): Pool {
    p.(live := p.live + {b})
  }

  // The exclusive-or buddy is always the neighbouring block, on one side or the other.
  lemma BuddyAdjacent(ptr: nat, order: nat)
    ensures BuddyOf(ptr, order) == ptr + Size(order) || BuddyOf(ptr, order) == ptr - Size(order)
    ensures BuddyOf(BuddyOf(ptr, order), order) == ptr
    ensures Lower(ptr, order) + Size(order) == if Lower(ptr, order) == ptr then BuddyOf(ptr, order) else ptr
  {
    XorPow2(ptr, order + 12);
    XorTwice(ptr, Size(order));
  }

  lemma PopKeeps(p: Pool, order: nat)
    requires p.Inv() && order < ORDERS && p.lists[order] != []
    ensures Pop(p, order).Inv() && Pop(p, order).SameCover(p)
    ensures Block(p.lists[order][0], order) !in p.live
  {
    var s := p.lists[order];
    var q := Pop(p, order);
    assert s == [s[0]] + s[1..];
    assert p.Listed(Block(s[0], order));
    assert forall b :: q.Holds(b) <==> p.Holds(b);
  }

  lemma PushKeeps(p: Pool, ptr: nat, order: nat)
    requires p.Inv() && order < ORDERS && Block(ptr, order) in p.live
    ensures Push(p, ptr, order).Inv() && Push(p, ptr, order).SameCover(p)
  {
    var q := Push(p, ptr, order);
    assert !p.Listed(Block(ptr, order));
    assert q.lists[order][1..] == p.lists[order];
    assert forall b :: q.Holds(b) <==> p.Holds(b);
  }

  // Trading a block for its two halves, either way round, covers the same bytes.
  lemma HalvesCover(p: Pool, q: Pool, whole: Block, first: Block, second: Block)
    requires first.addr == whole.addr && first.End() == second.addr && second.End() == whole.End()
    requires p.Holds(whole) && q.Holds(first) && q.Holds(second)
    requires forall b :: q.Holds(b) ==> b == first || b == second || p.Holds(b)
    requires forall b :: p.Holds(b) ==> b == whole || q.Holds(b)
    ensures p.SameCover(q)
  {
    forall x: nat ensures p.Covers(x) <==> q.Covers(x) {
      if p.Covers(x) {
        var b :| p.Holds(b) && b.Contains(x);
        assert q.Holds(if b != whole then b else if first.Contains(x) then first else second);
      }
      if q.Covers(x) {
        var b :| q.Holds(b) && b.Contains(x);
        assert p.Holds(if b == first || b == second then whole else b);
      }
    }
  }

  lemma HalveHolds(p: Pool, ptr: nat, from: nat)
    requires p.Inv() && 0 < from <= ORDERS && Block(ptr, from) in p.live
    ensures Size(from) == 2 * Size(from - 1)
    ensures var (q, first, second) := (Halve(p, ptr, from), Block(ptr, from - 1), Block(ptr + Size(from - 1), from - 1));
            && !p.Holds(first) && !p.Holds(second) && NoDup(q.lists[from - 1])
            && forall b :: q.Holds(b) <==> b == first || b == second || (p.Holds(b) && b != Block(ptr, from))
  {
    var first, second := Block(ptr, from - 1), Block(ptr + Size(from - 1), from - 1);
    assert p.Holds(Block(ptr, from));
    assert Halve(p, ptr, from).lists[from - 1][1..] == p.lists[from - 1];
    assert !p.Holds(first) && !p.Holds(second);
  }

  lemma HalveKeeps(p: Pool, ptr: nat, from: nat)
    requires p.Inv() && 0 < from <= ORDERS && Block(ptr, from) in p.live
    ensures Halve(p, ptr, from).Inv() && Halve(p, ptr, from).SameCover(p)
    ensures forall b :: b in p.live && b != Block(ptr, from) ==> b in Halve(p, ptr, from).live && b != Block(ptr, from - 1)
  {
    HalveHolds(p, ptr, from);
    var whole, first, second := Block(ptr, from), Block(ptr, from - 1), Block(ptr + Size(from - 1), from - 1);
    assert p.Holds(whole);
    HalvesCover(p, Halve(p, ptr, from), whole, first, second);
  }

  lemma MergeHolds(p: Pool, ptr: nat, order: nat)
    requires p.Inv() && order < ORDERS && Block(ptr, order) in p.live
    requires BuddyOf(ptr, order) in p.lists[order]
    ensures var (q, own, buddy, whole) :=
              (Merge(p, ptr, order), Block(ptr, order), Block(BuddyOf(ptr, order), order), Block(Lower(ptr, order), order + 1));
            && NoDup(q.lists[order]) && !p.Holds(whole) && p.Holds(own) && p.Holds(buddy) && own != buddy
            && forall b :: q.Holds(b) <==> b == whole || (p.Holds(b) && b != own && b != buddy)
  {
    var own, buddy, whole := Block(ptr, order), Block(BuddyOf(ptr, order), order), Block(Lower(ptr, order), order + 1);
    BuddyAdjacent(ptr, order);
    RemoveOneSpec(p.lists[order], BuddyOf(ptr, order));
    assert Size(order + 1) == 2 * Size(order);
    assert p.Holds(own) && p.Holds(buddy);
    assert !p.Holds(whole);
  }

  lemma MergeKeeps(p: Pool, ptr: nat, order: nat)
    requires p.Inv() && order < ORDERS && Block(ptr, order) in p.live
    requires BuddyOf(ptr, order) in p.lists[order]
    ensures Merge(p, ptr, order).Inv() && Merge(p, ptr, order).SameCover(p)
    ensures Merge(p, ptr, order).live - {Block(Lower(ptr, order), order + 1)} == p.live - {Block(ptr, order)}
  {
    var q := Merge(p, ptr, order);
    var own, buddy, whole := Block(ptr, order), Block(BuddyOf(ptr, order), order), Block(Lower(ptr, order), order + 1);
    MergeHolds(p, ptr, order);
    BuddyAdjacent(ptr, order);
    RemoveOneSpec(p.lists[order], BuddyOf(ptr, order));
    assert Size(order + 1) == 2 * Size(order);
    if own.addr < buddy.addr {
      HalvesCover(q, p, whole, own, buddy);
    } else {
      HalvesCover(q, p, whole, buddy, own);
    }
  }

  lemma LeakKeeps(p: Pool, b: Block)
    requires p.Inv() && b in p.live
    ensures Leak(p, b).Inv() && Leak(p, b).SameCover(p)
  {
    assert forall c :: Leak(p, b).Holds(c) <==> p.Holds(c);
  }

  lemma GrowKeeps(p: Pool, b: Block)
    requires p.Inv()
    requires forall x: nat :: b.Contains(x) ==> !p.Covers(x)
    ensures Grow(p, b).Inv() && b !in p.live
    ensures forall x: nat :: Grow(p, b).Covers(x) <==> p.Covers(x) || b.Contains(x)
  {
    var q := Grow(p, b);
    forall c | p.Holds(c) ensures Disjoint(b, c) && b != c {
      if !Disjoint(b, c) {
        var x := if b.addr <= c.addr then c.addr else b.addr;
        assert c.Contains(x) && b.Contains(x);
      }
      assert b.Contains(b.addr);
    }
    assert !p.Holds(b);
    assert forall c :: q.Holds(c) <==> p.Holds(c) || c == b;
    forall x: nat ensures q.Covers(x) <==> p.Covers(x) || b.Contains(x) {
      if p.Covers(x) {
        var c :| p.Holds(c) && c.Contains(x);
        assert q.Holds(c);
      }
      if b.Contains(x) { assert q.Holds(b); }
    }
  }

  // ----- whole requests -----

  // The smallest order from `order` up with a free block, or ORDERS.
  function FirstFree(lists: seq<seq<nat>>, order: nat): (h: nat)
    requires |lists| == ORDERS && order <= ORDERS
    ensures order <= h <= ORDERS
    ensures forall o :: order <= o < h ==> lists[o] == []
    ensures h < ORDERS ==> lists[h] != []
    decreases ORDERS - order
  {
    if order == ORDERS || lists[order] != [] then order else FirstFree(lists, order + 1)
  }

  function SplitDown(p: Pool, ptr: nat, from: nat, to: nat): (q: Pool)
    requires to <= from < ORDERS && |p.lists| == ORDERS
    ensures |q.lists| == ORDERS
    decreases from
  {
    if from == to then p else SplitDown(Halve(p, ptr, from), ptr, from - 1, to)
  }

  // A request served from the lists.
  function Alloc(p: Pool, order: nat): (q: Pool)
    requires |p.lists| == ORDERS && order < ORDERS && FirstFree(p.lists, order) < ORDERS
    ensures |q.lists| == ORDERS
  {
    var h := FirstFree(p.lists, order);
    SplitDown(Pop(p, h), p.lists[h][0], h, order)
  }

  function Free(p: Pool, ptr: nat, order: nat): (q: Pool)
    requires |p.lists| == ORDERS
    ensures |q.lists| == ORDERS
    decreases ORDERS - order
  {
    if order >= ORDERS then Leak(p, Block(ptr, order))
    else if BuddyOf(ptr, order) in p.lists[order] then Free(Merge(p, ptr, order), Lower(ptr, order), order + 1)
    else Push(p, ptr, order)
  }

  // Every size from `order` up finds its buddy free: the block climbs past the largest order.
  predicate ClimbsOut(lists: seq<seq<nat>>, ptr: nat, order: nat)
    requires |lists| == ORDERS
    decreases ORDERS - order
  {
    order >= ORDERS || (BuddyOf(ptr, order) in lists[order] && ClimbsOut(lists, Lower(ptr, order), order + 1))
  }

  lemma {:induction false} SplitDownKeeps(p: Pool, ptr: nat, from: nat, to: nat)
    requires p.Inv() && to <= from < ORDERS && Block(ptr, from) in p.live
    ensures SplitDown(p, ptr, from, to).Inv() && SplitDown(p, ptr, from, to).SameCover(p)
    ensures SplitDown(p, ptr, from, to).live == p.live - {Block(ptr, from)} + {Block(ptr, to)}
    ensures SplitDown(p, ptr, from, to).leaked == p.leaked
    ensures from != to ==> Block(ptr, to) !in p.live
    decreases from
  {
    if from != to {
      HalveKeeps(p, ptr, from);
      var q := Halve(p, ptr, from);
      SplitDownKeeps(q, ptr, from - 1, to);
      assert p.Holds(Block(ptr, from));
      assert Block(ptr, to) in p.live ==> p.Holds(Block(ptr, to));
    }
  }

  // An allocation from the lists moves one block of the size asked for to the live side;
  // it neither loses nor creates a byte.
  lemma AllocKeeps(p: Pool, order: nat)
    requires p.Inv() && order < ORDERS && FirstFree(p.lists, order) < ORDERS
    ensures var b := Block(p.lists[FirstFree(p.lists, order)][0], order);
            && Alloc(p, order).Inv() && Alloc(p, order).SameCover(p)
            && b !in p.live && Alloc(p, order).live == p.live + {b} && Alloc(p, order).leaked == p.leaked
  {
    var h := FirstFree(p.lists, order);
    var ptr := p.lists[h][0];
    PopKeeps(p, h);
    SplitDownKeeps(Pop(p, h), ptr, h, order);
  }

  // A release takes exactly the block back and keeps the tiling, however far it climbs.
  lemma {:induction false} FreeKeeps(p: Pool, ptr: nat, order: nat)
    requires p.Inv() && order <= ORDERS && Block(ptr, order) in p.live
    ensures Free(p, ptr, order).Inv() && Free(p, ptr, order).SameCover(p)
    ensures Free(p, ptr, order).live == p.live - {Block(ptr, order)}
    ensures p.leaked <= Free(p, ptr, order).leaked
    ensures Free(p, ptr, order).leaked == p.leaked <==> !ClimbsOut(p.lists, ptr, order)
    decreases ORDERS - order
  {
    if order >= ORDERS {
      LeakKeeps(p, Block(ptr, order));
    } else if BuddyOf(ptr, order) in p.lists[order] {
      MergeKeeps(p, ptr, order);
      var q := Merge(p, ptr, order);
      FreeKeeps(q, Lower(ptr, order), order + 1);
      MergeClimbs(p, ptr, order);
    } else {
      PushKeeps(p, ptr, order);
    }
  }

  // Merging at one order leaves the lists above it alone.
  lemma MergeClimbs(p: Pool, ptr: nat, order: nat)
    requires |p.lists| == ORDERS && order < ORDERS
    ensures ClimbsOut(Merge(p, ptr, order).lists, Lower(ptr, order), order + 1) == ClimbsOut(p.lists, Lower(ptr, order), order + 1)
  {
    ClimbsOutAbove(p.lists, Merge(p, ptr, order).lists, Lower(ptr, order), order + 1);
  }

  lemma {:induction false} ClimbsOutAbove(a: seq<seq<nat>>, b: seq<seq<nat>>, ptr: nat, order: nat)
    requires |a| == |b| == ORDERS
    requires forall o :: order <= o < ORDERS ==> a[o] == b[o]
    ensures ClimbsOut(a, ptr, order) == ClimbsOut(b, ptr, order)
    decreases ORDERS - order
  {
    if order < ORDERS {
      ClimbsOutAbove(a, b, Lower(ptr, order), order + 1);
    }
  }

  // ----- page offsets -----

  // Every held block starts at the same offset within a page.
  ghost predicate OnPages(p: Pool, offset: nat) {
    forall b :: p.Holds(b) ==> b.addr % 4096 == offset
  }

  lemma SizeInPages(order: nat)
    ensures Size(order) == 4096 * Pow2(order) && Size(order) % 4096 == 0
  {
    Pow2Add(order, 12);
    Pow2Words();
  }

  lemma {:induction false} SplitDownOnPages(p: Pool, ptr: nat, from: nat, to: nat, offset: nat)
    requires p.Inv() && to <= from < ORDERS && Block(ptr, from) in p.live && OnPages(p, offset)
    ensures OnPages(SplitDown(p, ptr, from, to), offset)
    decreases from
  {
    if from != to {
      var q := Halve(p, ptr, from);
      HalveKeeps(p, ptr, from);
      SizeInPages(from - 1);
      assert p.Holds(Block(ptr, from));
      forall b | q.Holds(b) ensures b.addr % 4096 == offset {
        assert p.Holds(b) || b.addr == ptr || b.addr == ptr + Size(from - 1);
      }
      SplitDownOnPages(q, ptr, from - 1, to, offset);
    }
  }

  lemma AllocOnPages(p: Pool, order: nat, offset: nat)
    requires p.Inv() && order < ORDERS && FirstFree(p.lists, order) < ORDERS && OnPages(p, offset)
    ensures OnPages(Alloc(p, order), offset)
  {
    var h := FirstFree(p.lists, order);
    PopKeeps(p, h);
    assert p.lists[h] == [p.lists[h][0]] + p.lists[h][1..];
    assert p.Listed(Block(p.lists[h][0], h));
    forall b | Pop(p, h).Holds(b) ensures b.addr % 4096 == offset { assert p.Holds(b); }
    SplitDownOnPages(Pop(p, h), p.lists[h][0], h, order, offset);
  }

  lemma MergeOnPages(p: Pool, ptr: nat, order: nat, offset: nat)
    requires p.Inv() && order < ORDERS && Block(ptr, order) in p.live && OnPages(p, offset)
    requires BuddyOf(ptr, order) in p.lists[order]
    ensures OnPages(Merge(p, ptr, order), offset)
  {
    RemoveOneSpec(p.lists[order], BuddyOf(ptr, order));
    assert p.Holds(Block(ptr, order)) && p.Holds(Block(BuddyOf(ptr, order), order));
    forall b | Merge(p, ptr, order).Holds(b) ensures b.addr % 4096 == offset {
      assert p.Holds(b) || b.addr == Lower(ptr, order);
    }
  }

  lemma {:induction false} FreeOnPages(p: Pool, ptr: nat, order: nat, offset: nat)
    requires p.Inv() && order <= ORDERS && Block(ptr, order) in p.live && OnPages(p, offset)
    ensures OnPages(Free(p, ptr, order), offset)
    decreases ORDERS - order
  {
    if order < ORDERS && BuddyOf(ptr, order) in p.lists[order] {
      MergeKeeps(p, ptr, order);
      MergeOnPages(p, ptr, order, offset);
      FreeOnPages(Merge(p, ptr, order), Lower(ptr, order), order + 1, offset);
    } else {
      assert p.Holds(Block(ptr, order));
      forall b | Free(p, ptr, order).Holds(b) ensures b.addr % 4096 == offset { assert p.Holds(b); }
    }
  }

  // ----- natural alignment -----

  // The low order + 12 address bits are clear.
  ghost predicate Aligned(b: Block) {
    forall i: nat :: i < b.order + 12 ==> !Bit(b.addr, i)
  }

  ghost predicate AllAligned(p: Pool) {
    forall b :: p.Listed(b) || b in p.live ==> Aligned(b)
  }

  ghost predicate NoBuddyPair(p: Pool) {
    forall b :: p.Listed(b) ==> !p.Listed(Block(BuddyOf(b.addr, b.order), b.order))
  }

  // Both halves of an aligned block are aligned, and each is the other's buddy.
  lemma AlignedHalves(ptr: nat, order: nat)
    requires Aligned(Block(ptr, order + 1))
    ensures BuddyOf(ptr, order) == ptr + Size(order) && Lower(ptr, order) == ptr
    ensures Aligned(Block(ptr, order)) && Aligned(Block(ptr + Size(order), order))
  {
    XorPow2(ptr, order + 12);
    assert !Bit(ptr, order + 12);
    forall i: nat | i < order + 12 ensures !Bit(BuddyOf(ptr, order), i) {
      BitwiseBit(OpXor, ptr, Size(order), i);
      Pow2Bit(order + 12, i);
    }
  }

  lemma AlignedMerge(ptr: nat, order: nat)
    requires Aligned(Block(ptr, order))
    ensures Aligned(Block(Lower(ptr, order), order + 1))
  {
    XorPow2(ptr, order + 12);
    forall i: nat | i < order + 13 ensures !Bit(Lower(ptr, order), i) {
      BitwiseBit(OpXor, ptr, Size(order), i);
      Pow2Bit(order + 12, i);
    }
  }

  lemma {:induction false} SplitDownTidy(p: Pool, ptr: nat, from: nat, to: nat)
    requires p.Inv() && to <= from < ORDERS && Block(ptr, from) in p.live
    requires AllAligned(p) && NoBuddyPair(p)
    ensures AllAligned(SplitDown(p, ptr, from, to)) && NoBuddyPair(SplitDown(p, ptr, from, to))
    decreases from
  {
    if from != to {
      var q := Halve(p, ptr, from);
      var second := Block(ptr + Size(from - 1), from - 1);
      AlignedHalves(ptr, from - 1);
      BuddyAdjacent(ptr, from - 1);
      HalveKeeps(p, ptr, from);
      assert forall b :: q.Listed(b) <==> b == second || p.Listed(b);
      forall b | q.Listed(b) ensures !q.Listed(Block(BuddyOf(b.addr, b.order), b.order)) {
        BuddyAdjacent(b.addr, b.order);
        assert Block(ptr, from - 1) in q.live;
      }
      SplitDownTidy(q, ptr, from - 1, to);
    }
  }

  // Under natural alignment no block and its buddy are ever both free at one order: allocation...
  lemma AllocTidy(p: Pool, order: nat)
    requires p.Inv() && order < ORDERS && FirstFree(p.lists, order) < ORDERS
    requires AllAligned(p) && NoBuddyPair(p)
    ensures AllAligned(Alloc(p, order)) && NoBuddyPair(Alloc(p, order))
  {
    var h := FirstFree(p.lists, order);
    PopKeeps(p, h);
    var q := Pop(p, h);
    assert p.lists[h] == [p.lists[h][0]] + p.lists[h][1..];
    assert forall b :: q.Listed(b) ==> p.Listed(b);
    assert p.Listed(Block(p.lists[h][0], h));
    SplitDownTidy(q, p.lists[h][0], h, order);
  }

  // ... and release.
  lemma {:induction false} FreeTidy(p: Pool, ptr: nat, order: nat)
    requires p.Inv() && order <= ORDERS && Block(ptr, order) in p.live
    requires AllAligned(p) && NoBuddyPair(p)
    ensures AllAligned(Free(p, ptr, order)) && NoBuddyPair(Free(p, ptr, order))
    decreases ORDERS - order
  {
    if order < ORDERS && BuddyOf(ptr, order) in p.lists[order] {
      var q := Merge(p, ptr, order);
      MergeKeeps(p, ptr, order);
      AlignedMerge(ptr, order);
      RemoveOneSpec(p.lists[order], BuddyOf(ptr, order));
      assert forall b :: q.Listed(b) ==> p.Listed(b);
      FreeTidy(q, Lower(ptr, order), order + 1);
    } else if order < ORDERS {
      var q := Push(p, ptr, order);
      assert forall b :: q.Listed(b) <==> b == Block(ptr, order) || p.Listed(b);
      forall b | q.Listed(b) ensures !q.Listed(Block(BuddyOf(b.addr, b.order), b.order)) {
        BuddyAdjacent(b.addr, b.order);
      }
    }
  }

  // Splitting and then releasing the piece is the same as releasing the whole.
  lemma {:induction false} SplitThenFree(p: Pool, ptr: nat, from: nat, to: nat)
    requires |p.lists| == ORDERS && to <= from < ORDERS
    requires Aligned(Block(ptr, from)) && Block(ptr, from) in p.live
    requires forall o :: to <= o < from ==> Block(ptr, o) !in p.live
    ensures Free(SplitDown(p, ptr, from, to), ptr, to) == Free(p, ptr, from)
    decreases from
  {
    if from != to {
      var q := Halve(p, ptr, from);
      AlignedHalves(ptr, from - 1);
      SplitThenFree(q, ptr, from - 1, to);
      var s := p.lists[from - 1];
      assert ([ptr + Size(from - 1)] + s)[1..] == s;
      assert Merge(q, ptr, from - 1).lists == p.lists;
      assert Merge(q, ptr, from - 1).live == p.live;
    }
  }

  // Releasing at once what was just allocated restores all eleven lists, element for element.
  lemma AllocThenFree(p: Pool, order: nat)
    requires p.Inv() && order < ORDERS && FirstFree(p.lists, order) < ORDERS
    requires AllAligned(p) && NoBuddyPair(p)
    ensures Free(Alloc(p, order), p.lists[FirstFree(p.lists, order)][0], order) == p
  {
    var h := FirstFree(p.lists, order);
    var s := p.lists[h];
    var ptr := s[0];
    var q := Pop(p, h);
    PopKeeps(p, h);
    assert s == [ptr] + s[1..];
    assert p.Listed(Block(ptr, h));
    forall o | order <= o < h ensures Block(ptr, o) !in q.live {
      assert p.Holds(Block(ptr, h));
      assert Block(ptr, o) in q.live ==> p.Holds(Block(ptr, o));
    }
    SplitThenFree(q, ptr, h, order);
    assert BuddyOf(ptr, h) in q.lists[h] ==> p.Listed(Block(BuddyOf(ptr, h), h));
    assert Push(q, ptr, h).lists == p.lists;
    assert Push(q, ptr, h).live == p.live;
  }

  // ----- whole runs -----

  // Take: an allocation; `spare` is where the bitmap allocator would put the block, should the lists
  // have none. Give: a release of a block that is out.
  datatype Request = Take(order: nat, spare: nat) | Give(block: Block)

  predicate FromLists(p: Pool, r: Request)
    requires |p.lists| == ORDERS
  {
    r.Take? && r.order < ORDERS && FirstFree(p.lists, r.order) < ORDERS
  }

  function Serve(p: Pool, r: Request): (q: Pool)
    requires |p.lists| == ORDERS
    ensures |q.lists| == ORDERS
  {
    match r
    case Take(order, spare) => if FromLists(p, r) then Alloc(p, order) else Grow(p, Block(spare, order))
    case Give(b) => Free(p, b.addr, b.order)
  }

  // Releases name live blocks, and fresh pages are fresh.
  ghost predicate Proper(p: Pool, r: Request)
    requires |p.lists| == ORDERS
  {
    match r
    case Take(order, spare) =>
      order < ORDERS && (FromLists(p, r) || forall x: nat :: Block(spare, order).Contains(x) ==> !p.Covers(x))
    case Give(b) => b.order < ORDERS && b in p.live
  }

  ghost predicate ProperRun(p: Pool, run: seq<Request>)
    requires |p.lists| == ORDERS
    decreases run
  {
    run == [] || (Proper(p, run[0]) && ProperRun(Serve(p, run[0]), run[1..]))
  }

  ghost function After(p: Pool, run: seq<Request>): Pool
    requires |p.lists| == ORDERS && ProperRun(p, run)
    decreases run
  {
    if run == [] then p else After(Serve(p, run[0]), run[1..])
  }

  // The blocks a run took from the bitmap allocator.
  ghost function FreshBlocks(p: Pool, run: seq<Request>): set<Block>
    requires |p.lists| == ORDERS && ProperRun(p, run)
    decreases run
  {
    if run == [] then {}
    else
      (if run[0].Take? && !FromLists(p, run[0]) then {Block(run[0].spare, run[0].order)} else {})
      + FreshBlocks(Serve(p, run[0]), run[1..])
  }

  // No release of the run climbs past the largest order.
  ghost predicate NeverClimbsOut(p: Pool, run: seq<Request>)
    requires |p.lists| == ORDERS && ProperRun(p, run)
    decreases run
  {
    run == [] ||
    ((run[0].Give? ==> !ClimbsOut(p.lists, run[0].block.addr, run[0].block.order)) &&
     NeverClimbsOut(Serve(p, run[0]), run[1..]))
  }

  lemma ServeKeeps(p: Pool, r: Request)
    requires p.Inv() && Proper(p, r)
    ensures Serve(p, r).Inv() && p.leaked <= Serve(p, r).leaked
    ensures Serve(p, r).leaked == p.leaked <==> (r.Give? ==> !ClimbsOut(p.lists, r.block.addr, r.block.order))
    ensures forall x: nat :: Serve(p, r).Covers(x) <==>
              p.Covers(x) || (r.Take? && !FromLists(p, r) && Block(r.spare, r.order).Contains(x))
  {
    match r
    case Take(order, spare) =>
      if FromLists(p, r) { AllocKeeps(p, order); } else { GrowKeeps(p, Block(spare, order)); }
    case Give(b) => FreeKeeps(p, b.addr, b.order);
  }

  // Over any run: disjoint blocks, tiling exactly what was there and what was taken since; and a
  // block drops out of the system exactly if some release climbs past the largest order.
  lemma {:induction false} RunKeeps(p: Pool, run: seq<Request>)
    requires p.Inv() && ProperRun(p, run)
    ensures After(p, run).Inv() && p.leaked <= After(p, run).leaked
    ensures After(p, run).leaked == p.leaked <==> NeverClimbsOut(p, run)
    ensures forall x: nat :: After(p, run).Covers(x) <==>
              p.Covers(x) || exists b :: b in FreshBlocks(p, run) && b.Contains(x)
    decreases run
  {
    if run != [] {
      ServeKeeps(p, run[0]);
      RunKeeps(Serve(p, run[0]), run[1..]);
    }
  }

  // Two neighbouring blocks of the largest order, handed out by the bitmap allocator and then given back.
  function PairRun(b0: Block, b1: Block): seq<Request> {
    [Take(b0.order, b0.addr), Take(b1.order, b1.addr), Give(b0), Give(b1)]
  }

  // From any base whose bit 22 is clear, 0 and 0x4000_0000 among them, they are buddies: when both have come back
  // no list has them.
  lemma PairLeaks(at: nat)
    requires !Bit(at, 22)
    ensures var run := PairRun(Block(at, 10), Block(at + Size(10), 10));
            EMPTY.Inv() && ProperRun(EMPTY, run) && After(EMPTY, run) == Pool(EMPTY.lists, {}, {Block(at, 11)})
  {
    var (b0, b1) := (Block(at, 10), Block(at + Size(10), 10));
    AreBuddies(at, 10);
    PairTaken(b0, b1);
    PairReturns(b0, b1);
    PairRuns(b0, b1);
  }

  lemma PairRuns(b0: Block, b1: Block)
    requires var (p1, p2) := (Grow(EMPTY, b0), Grow(Grow(EMPTY, b0), b1));
             && Proper(EMPTY, Take(b0.order, b0.addr)) && Serve(EMPTY, Take(b0.order, b0.addr)) == p1
             && Proper(p1, Take(b1.order, b1.addr)) && Serve(p1, Take(b1.order, b1.addr)) == p2
             && ProperRun(p2, [Give(b0), Give(b1)])
    ensures ProperRun(EMPTY, PairRun(b0, b1))
    ensures After(EMPTY, PairRun(b0, b1)) == After(Grow(Grow(EMPTY, b0), b1), [Give(b0), Give(b1)])
  {
    var run := [Take(b1.order, b1.addr)] + [Give(b0), Give(b1)];
    Then(Grow(EMPTY, b0), Take(b1.order, b1.addr), [Give(b0), Give(b1)]);
    Then(EMPTY, Take(b0.order, b0.addr), run);
    assert PairRun(b0, b1) == [Take(b0.order, b0.addr)] + run;
  }

  lemma PairReturns(b0: Block, b1: Block)
    requires b0.order == b1.order == 10 && b0.addr < b1.addr
    requires BuddyOf(b0.addr, 10) == b1.addr && BuddyOf(b1.addr, 10) == b0.addr
    ensures var p2 := Pool(EMPTY.lists, {b0, b1}, {});
            && ProperRun(p2, [Give(b0), Give(b1)])
            && After(p2, [Give(b0), Give(b1)]) == Pool(EMPTY.lists, {}, {Block(b0.addr, 11)})
  {
    var p2 := Pool(EMPTY.lists, {b0, b1}, {});
    PairGiven(b0, b1);
    Then(Serve(p2, Give(b0)), Give(b1), []);
    Then(p2, Give(b0), [Give(b1)]);
  }

  lemma AreBuddies(at: nat, order: nat)
    requires !Bit(at, order + 12)
    ensures BuddyOf(at, order) == at + Size(order) && BuddyOf(at + Size(order), order) == at
  {
    XorPow2(at, order + 12);
    BuddyAdjacent(at, order);
  }

  lemma PairTaken(b0: Block, b1: Block)
    requires b0.order == b1.order == 10 && b1.addr == b0.addr + Size(10)
    ensures var (p1, p2) := (Grow(EMPTY, b0), Grow(Grow(EMPTY, b0), b1));
            && EMPTY.Inv() && Proper(EMPTY, Take(10, b0.addr)) && Serve(EMPTY, Take(10, b0.addr)) == p1
            && p1.Inv() && Proper(p1, Take(10, b1.addr)) && Serve(p1, Take(10, b1.addr)) == p2
            && p2 == Pool(EMPTY.lists, {b0, b1}, {}) && p2.Inv()
  {
    GrowKeeps(EMPTY, b0);
    GrowKeeps(Grow(EMPTY, b0), b1);
  }

  lemma PairGiven(b0: Block, b1: Block)
    requires b0.order == b1.order == 10 && b0.addr < b1.addr
    requires BuddyOf(b0.addr, 10) == b1.addr && BuddyOf(b1.addr, 10) == b0.addr
    ensures var p2 := Pool(EMPTY.lists, {b0, b1}, {});
            && b1 in Serve(p2, Give(b0)).live
            && Serve(Serve(p2, Give(b0)), Give(b1)) == Pool(EMPTY.lists, {}, {Block(b0.addr, 11)})
  {
    var none := EMPTY.lists;
    FirstGiven(Pool(none, {b0, b1}, {}), b0, b1);
    SecondGiven(Pool(none[10 := [b0.addr]], {b1}, {}), b1);
    assert none[10 := [b0.addr]][10 := []] == none;
  }

  lemma FirstGiven(p: Pool, b: Block, c: Block)
    requires |p.lists| == ORDERS && p.lists[10] == [] && p.live == {b, c} && b != c && b.order == 10
    ensures Free(p, b.addr, 10) == p.(lists := p.lists[10 := [b.addr]], live := {c})
  {
    assert BuddyOf(b.addr, 10) !in p.lists[10];
    assert [b.addr] + p.lists[10] == [b.addr] && p.live - {b} == {c};
  }

  lemma SecondGiven(p: Pool, b: Block)
    requires |p.lists| == ORDERS && p.lists[10] == [BuddyOf(b.addr, 10)] && p.live == {b} && b.order == 10
    requires p.leaked == {}
    ensures Free(p, b.addr, 10) == Pool(p.lists[10 := []], {}, {Block(Lower(b.addr, 10), 11)})
  {
    var top := Block(Lower(b.addr, 10), 11);
    assert RemoveOne(p.lists[10], BuddyOf(b.addr, 10)) == [];
    assert Merge(p, b.addr, 10) == p.(lists := p.lists[10 := []], live := {top});
    assert {top} - {top} == {};
  }

  lemma Then(p: Pool, r: Request, rest: seq<Request>)
    requires |p.lists| == ORDERS && Proper(p, r) && ProperRun(Serve(p, r), rest)
    ensures ProperRun(p, [r] + rest) && After(p, [r] + rest) == After(Serve(p, r), rest)
  {
    assert ([r] + rest)[1..] == rest;
  }

  // Over any run whose fresh blocks are naturally aligned, coalescing is never missed.
  lemma {:induction false} RunTidy(p: Pool, run: seq<Request>)
    requires p.Inv() && ProperRun(p, run) && AllAligned(p) && NoBuddyPair(p)
    requires forall b :: b in FreshBlocks(p, run) ==> Aligned(b)
    ensures AllAligned(After(p, run)) && NoBuddyPair(After(p, run))
    decreases run
  {
    if run != [] {
      ServeKeeps(p, run[0]);
      match run[0] {
        case Take(order, spare) =>
          if FromLists(p, run[0]) {
            AllocTidy(p, order);
          } else {
            assert Block(spare, order) in FreshBlocks(p, run);
            assert forall b :: Grow(p, Block(spare, order)).Listed(b) <==> p.Listed(b);
          }
        case Give(b) => FreeTidy(p, b.addr, b.order);
      }
      RunTidy(Serve(p, run[0]), run[1..]);
    }
  }
}
