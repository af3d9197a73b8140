/** The bitmap page allocator: one bit a page, set while the page is handed out. */
module Physical {
  import opened Errors
  import opened Bits

  const PAGE_SIZE: nat := 4096
  const MAX_PAGES: nat := 4194304
  const BITMAP_WORDS: nat := 65536

  // The pages start, start + 1, ..., start + count - 1.
  ghost function Run(start: nat, count: nat): (run: set<nat>)
    ensures forall p: nat :: p in run <==> start <= p < start + count
    ensures |run| == count
    decreases count
  {
    if count == 0 then {} else Run(start, count - 1) + {start + count - 1}
  }

  ghost function PagesBelow(n: nat): (pages: set<nat>) {
    Run(0, n)
  }

  ghost predicate FreeRun(taken: set<nat>, total: nat, start: nat, count: nat) {
    start + count <= total && forall p: nat :: start <= p < start + count ==> p !in taken
  }

  ghost predicate AllIn(taken: set<nat>, from: nat, to: nat) {
    forall p: nat :: from <= p < to ==> p in taken
  }

  // What a successful request for `count` pages is promised: no lower run would have done.
  ghost predicate LeftmostFreeRun(taken: set<nat>, total: nat, start: nat, count: nat) {
    && FreeRun(taken, total, start, count)
    && NoFreeRunBelow(taken, total, start, count)
  }

  ghost predicate NoFreeRunBelow(taken: set<nat>, total: nat, bound: nat, count: nat) {
    forall s: nat :: s < bound ==> !FreeRun(taken, total, s, count)
  }

  ghost predicate NoFreeRun(taken: set<nat>, total: nat, count: nat) {
    forall s: nat :: !FreeRun(taken, total, s, count)
  }

  lemma {:induction false} SubsetSize<T>(a: set<T>, b: set<T>)
    requires a <= b
    ensures |a| <= |b|
    ensures |a| == |b| ==> a == b
  {
    assert b == a + (b - a);
    assert |b| == |a| + |b - a|;
  }

  // A taken page ends every run that would have to contain it.
  lemma MissedRuns(taken: set<nat>, total: nat, from: nat, page: nat, count: nat)
    requires page in taken && page < from + count
    requires NoFreeRunBelow(taken, total, from, count)
    ensures NoFreeRunBelow(taken, total, page + 1, count)
  {
  }

  lemma MissedPages(taken: set<nat>, total: nat, page: nat)
    requires forall p: nat :: p < page ==> p in taken
    ensures NoFreeRunBelow(taken, total, page, 1)
  {
    forall s: nat | s < page ensures !FreeRun(taken, total, s, 1) {
      assert s in taken;
    }
  }

  // The quick refusal is never wrong: a free run needs that many clear bits below the total.
  lemma RunNeedsFreePages(taken: set<nat>, total: nat, start: nat, count: nat)
    requires taken <= PagesBelow(total) && FreeRun(taken, total, start, count)
    ensures count <= total - |taken|
  {
    SubsetSize(taken + Run(start, count), PagesBelow(total));
  }

  lemma TooFewFreePages(taken: set<nat>, total: nat, count: nat)
    requires taken <= PagesBelow(total) && total - |taken| < count
    ensures NoFreeRun(taken, total, count)
  {
    forall s: nat ensures !FreeRun(taken, total, s, count) {
      if FreeRun(taken, total, s, count) { RunNeedsFreePages(taken, total, s, count); }
    }
  }

  lemma SparePage(taken: set<nat>, total: nat) returns (spare: nat)
    requires taken <= PagesBelow(total) && |taken| != total
    ensures spare < total && spare !in taken
  {
    assert taken != PagesBelow(total);
    spare :| spare in PagesBelow(total) && spare !in taken;
  }

  // The set once the first n pages of a run are taken.
  ghost predicate TakenUpTo(taken: set<nat>, pages: set<nat>, start: nat, n: nat) {
    forall p: nat :: p in pages <==> p in taken || start <= p < start + n
  }

  lemma TakenOne(taken: set<nat>, pages: set<nat>, start: nat, n: nat)
    requires TakenUpTo(taken, pages, start, n)
    ensures TakenUpTo(taken, pages + {start + n}, start, n + 1)
  {
  }

  lemma RunTaken(taken: set<nat>, pages: set<nat>, total: nat, start: nat, count: nat)
    requires taken <= PagesBelow(total) && FreeRun(taken, total, start, count)
    requires TakenUpTo(taken, pages, start, count)
    ensures pages == taken + Run(start, count) && pages <= PagesBelow(total)
    ensures |pages| == |taken| + count <= total
  {
    RunNeedsFreePages(taken, total, start, count);
    assert pages == taken + Run(start, count);
  }

  // The set once the first n pages of a run are given back.
  ghost predicate ClearedUpTo(taken: set<nat>, pages: set<nat>, start: nat, n: nat) {
    forall p: nat :: p in pages <==> p in taken && !(start <= p < start + n)
  }

  lemma ClearedOne(taken: set<nat>, pages: set<nat>, start: nat, n: nat)
    requires ClearedUpTo(taken, pages, start, n)
    ensures ClearedUpTo(taken, pages - {start + n}, start, n + 1)
  {
  }

  lemma RunCleared(taken: set<nat>, pages: set<nat>, start: nat, count: nat)
    requires Run(start, count) <= taken
    requires ClearedUpTo(taken, pages, start, count)
    ensures pages == taken - Run(start, count) && |pages| == |taken| - count
  {
    assert pages == taken - Run(start, count);
    assert taken == pages + Run(start, count);
  }

  predicate WordsOk(words: seq<nat>) {
    forall w :: 0 <= w < |words| ==> words[w] < Pow2(64)
  }

  predicate PageBit(words: seq<nat>, p: nat)
    requires p < 64 * |words|
  {
    Bit(words[p / 64], p % 64)
  }

  // Of the pages the words describe, `pages` are exactly those whose bit is set.
  ghost predicate Shows(words: seq<nat>, pages: set<nat>) {
    forall p: nat {:trigger PageBit(words, p)} :: p < 64 * |words| ==> (PageBit(words, p) <==> p in pages)
  }

  lemma MarkPage(words: seq<nat>, pages: set<nat>, page: nat)
    requires WordsOk(words) && Shows(words, pages) && page < 64 * |words|
    ensures var words' := words[page / 64 := Or(words[page / 64], Pow2(page % 64))];
            WordsOk(words') && Shows(words', pages + {page})
  {
    SetBit(words[page / 64], page % 64, 64);
    var words' := words[page / 64 := Or(words[page / 64], Pow2(page % 64))];
    forall p: nat | p < 64 * |words| ensures PageBit(words', p) <==> p in pages + {page} {
      assert PageBit(words, p) <==> p in pages;
    }
  }

  lemma UnmarkPage(words: seq<nat>, pages: set<nat>, page: nat)
    requires WordsOk(words) && Shows(words, pages) && page < 64 * |words|
    ensures Pow2(page % 64) < Pow2(64)
    ensures var words' := words[page / 64 := And(words[page / 64], Not(64, Pow2(page % 64)))];
            WordsOk(words') && Shows(words', pages - {page})
  {
    ClearBit(words[page / 64], page % 64, 64);
    var words' := words[page / 64 := And(words[page / 64], Not(64, Pow2(page % 64)))];
    forall p: nat | p < 64 * |words| ensures PageBit(words', p) <==> p in pages - {page} {
      assert PageBit(words, p) <==> p in pages;
    }
  }

  lemma InWord(words: seq<nat>, pages: set<nat>, w: nat, i: nat)
    requires Shows(words, pages) && w < |words| && i < 64
    ensures 64 * w + i in pages <==> Bit(words[w], i)
  {
    var p := 64 * w + i;
    assert p / 64 == w && p % 64 == i;
    assert PageBit(words, p) <==> p in pages;
  }

  // A full word hides no free page; any other word shows its lowest free page.
  lemma ScanWord(words: seq<nat>, pages: set<nat>, w: nat)
    requires WordsOk(words) && Shows(words, pages) && w < |words|
    ensures words[w] == WORD_MAX ==> forall p: nat :: 64 * w <= p < 64 * w + 64 ==> p in pages
    ensures words[w] != WORD_MAX ==>
              var k := TrailingOnes(words[w]);
              && k < 64 && 64 * w + k !in pages
              && forall p: nat :: 64 * w <= p < 64 * w + k ==> p in pages
  {
    Pow2Words();
    if words[w] == WORD_MAX {
      forall p: nat | 64 * w <= p < 64 * w + 64 ensures p in pages {
        AllOnesBit(64, p - 64 * w);
        InWord(words, pages, w, p - 64 * w);
      }
    } else {
      var k := TrailingOnes(words[w]);
      TrailingOnesFits(words[w], 64);
      TrailingOnesSpec(words[w]);
      InWord(words, pages, w, k);
      forall p: nat | 64 * w <= p < 64 * w + k ensures p in pages {
        InWord(words, pages, w, p - 64 * w);
      }
    }
  }

  lemma NoneMarked(words: seq<nat>)
    requires forall w :: 0 <= w < |words| ==> words[w] == 0
    ensures Shows(words, {})
  {
    forall p: nat | p < 64 * |words| ensures !PageBit(words, p) { ZeroBit(p % 64); }
  }

  class PhysicalAllocator {
    const bitmap: array<nat>
    const totalPages: nat
    const baseAddr: nat
    var freePages: nat

    ghost var pages: set<nat>  // the pages whose bit is set

    ghost function Allocated(): set<nat>
      reads this
    {
      pages
    }

    ghost predicate Backed(pages: set<nat>)
      reads bitmap
    {
      bitmap.Length == BITMAP_WORDS && WordsOk(bitmap[..]) && Shows(bitmap[..], pages)
    }

    // The bits at and above totalPages are clear.
    ghost predicate BitmapOk()
      reads this, bitmap
    {
      && Backed(pages)
      && totalPages <= MAX_PAGES
      && pages <= PagesBelow(totalPages)
    }

    // Physical memory ends within the 64 bits of an address.
    ghost predicate Fits() {
      baseAddr + totalPages * PAGE_SIZE <= WORD_MAX + 1
    }

    // The counter is the number of clear bits below totalPages.
    ghost predicate Valid()
      reads this, bitmap
    {
      && Fits() && BitmapOk()
      && freePages == totalPages - |Allocated()|
    }

    constructor (baseAddr: nat, totalPages: nat)
      requires totalPages <= MAX_PAGES && baseAddr + totalPages * PAGE_SIZE <= WORD_MAX + 1
      ensures Valid() && fresh(bitmap)
      ensures this.baseAddr == baseAddr && this.totalPages == totalPages
      ensures Allocated() == {}
    {
      this.bitmap := new nat[BITMAP_WORDS](_ => 0);
      this.totalPages := totalPages;
      this.baseAddr := baseAddr;
      this.freePages := totalPages;
      this.pages := {};
      new;
      NoneMarked(bitmap[..]);
    }

    method Init() returns (r: Result<()>)
      requires Valid()
      modifies this, bitmap
      ensures Valid() && r == Ok(()) && Allocated() == {}
    {
      for i := 0 to bitmap.Length
        invariant forall w :: 0 <= w < i ==> bitmap[w] == 0
      {
        bitmap[i] := 0;
      }
      freePages := totalPages;
      pages := {};
      NoneMarked(bitmap[..]);
      return Ok(());
    }

    ghost function PageAddr(page: nat): nat {
      baseAddr + page * PAGE_SIZE
    }

    ghost function PageOf(addr: nat): nat
      requires addr >= baseAddr
    {
      (addr - baseAddr) / PAGE_SIZE
    }

    method IsPageFree(page: nat) returns (free: bool)
      requires BitmapOk() && page < MAX_PAGES
      ensures free <==> page !in Allocated()
    {
      var wordIdx, bitIdx := page / 64, page % 64;
      TestBit(bitmap[wordIdx], bitIdx);
      assert PageBit(bitmap[..], page) <==> page in pages;
      return And(bitmap[wordIdx], Pow2(bitIdx)) == 0;
    }

    method MarkPageAllocated(page: nat)
      requires BitmapOk() && page < totalPages
      modifies this`pages, bitmap
      ensures BitmapOk() && Allocated() == old(Allocated()) + {page}
    {
      var wordIdx, bitIdx := page / 64, page % 64;
      ghost var words := bitmap[..];
      MarkPage(words, pages, page);
      bitmap[wordIdx] := Or(bitmap[wordIdx], Pow2(bitIdx));
      assert bitmap[..] == words[wordIdx := bitmap[wordIdx]];
      pages := pages + {page};
    }

    method MarkPageFree(page: nat)
      requires BitmapOk() && page < totalPages
      modifies this`pages, bitmap
      ensures BitmapOk() && Allocated() == old(Allocated()) - {page}
    {
      var wordIdx, bitIdx := page / 64, page % 64;
      ghost var words := bitmap[..];
      UnmarkPage(words, pages, page);
      bitmap[wordIdx] := And(bitmap[wordIdx], Not(64, Pow2(bitIdx)));
      assert bitmap[..] == words[wordIdx := bitmap[wordIdx]];
      pages := pages - {page};
    }

    // The tail of AllocPage: the exchange of the word just loaded (nothing runs in between), and the counter.
    method TakeOne(pageNum: nat) returns (r: Result<nat>)
      requires Valid() && freePages > 0 && pageNum < totalPages && pageNum !in Allocated()
      modifies this, bitmap
      ensures Valid() && r == Ok(PageAddr(pageNum)) && PageOf(r.value) == pageNum
      ensures Allocated() == old(Allocated()) + {pageNum}
    {
      MarkPageAllocated(pageNum);
      freePages := freePages - 1;
      return Ok(baseAddr + pageNum * PAGE_SIZE);
    }

    method AllocPage() returns (r: Result<nat>)
      requires Valid()
      modifies this, bitmap
      ensures Valid()
      ensures match r
              case Ok(addr) =>
                && addr >= baseAddr && addr == PageAddr(PageOf(addr))
                && LeftmostFreeRun(old(Allocated()), totalPages, PageOf(addr), 1)
                && Allocated() == old(Allocated()) + {PageOf(addr)}
              case Err(e) =>
                && e == Memory(OutOfMemory)
                && NoFreeRun(old(Allocated()), totalPages, 1)
                && Allocated() == old(Allocated())
      ensures r.Err? <==> old(freePages) == 0
    {
      ghost var taken := Allocated();
      if freePages == 0 {
        TooFewFreePages(taken, totalPages, 1);
        return Err(Memory(OutOfMemory));
      }
      ghost var spare := SparePage(taken, totalPages);

      for wordIdx := 0 to bitmap.Length
        invariant forall p: nat :: p < 64 * wordIdx ==> p in taken
        invariant Valid() && Allocated() == taken
      {
        var current := bitmap[wordIdx];
        ScanWord(bitmap[..], pages, wordIdx);
        if current != WORD_MAX {
          var bitIdx := TrailingOnes(current);
          var pageNum := wordIdx * 64 + bitIdx;
          if pageNum >= totalPages {
            assert false;  // spare lies below the total and at or above pageNum
          }
          MissedPages(taken, totalPages, pageNum);
          r := TakeOne(pageNum);
          return;
        }
      }
      assert false;  // spare is below every bit the loop has passed
    }

    method AllocPages(count: nat) returns (r: Result<nat>)
      requires Valid()
      modifies this, bitmap
      ensures Valid()
      ensures match r
              case Ok(addr) =>
                && count > 0 && addr >= baseAddr && addr == PageAddr(PageOf(addr))
                && LeftmostFreeRun(old(Allocated()), totalPages, PageOf(addr), count)
                && Allocated() == old(Allocated()) + Run(PageOf(addr), count)
              case Err(e) =>
                && (count == 0 ==> e == InvalidParameter)
                && (count > 0 ==> e == Memory(OutOfMemory) && NoFreeRun(old(Allocated()), totalPages, count))
                && Allocated() == old(Allocated())
    {
      if count == 0 {
        return Err(InvalidParameter);
      }
      if count == 1 {
        r := AllocPage();
        if r.Ok? { assert Run(PageOf(r.value), 1) == {PageOf(r.value)}; }
        return;
      }
      ghost var taken := Allocated();
      if freePages < count {
        TooFewFreePages(taken, totalPages, count);
        return Err(Memory(OutOfMemory));
      }

      var start, consecutive := 0, 0;
      for page := 0 to totalPages
        invariant consecutive < count && consecutive <= page
        invariant consecutive > 0 ==> start == page - consecutive
        invariant forall p: nat :: page - consecutive <= p < page ==> p !in taken
        invariant consecutive < page ==> page - consecutive - 1 in taken
        invariant NoFreeRunBelow(taken, totalPages, page - consecutive, count)
        invariant Valid() && Allocated() == taken
      {
        var free := IsPageFree(page);
        if free {
          if consecutive == 0 {
            start := page;
          }
          consecutive := consecutive + 1;
          if consecutive == count {
            r := TakeRun(start, count);
            return;
          }
        } else {
          MissedRuns(taken, totalPages, page - consecutive, page, count);
          consecutive := 0;
        }
      }
      return Err(Memory(OutOfMemory));
    }

    // The tail of AllocPages: mark the run found and account for it.
    method TakeRun(start: nat, count: nat) returns (r: Result<nat>)
      requires Valid() && FreeRun(Allocated(), totalPages, start, count)
      modifies this, bitmap
      ensures Valid()
      ensures r == Ok(PageAddr(start)) && PageOf(r.value) == start
      ensures Allocated() == old(Allocated()) + Run(start, count)
    {
      ghost var taken := Allocated();
      for i := 0 to count
        invariant BitmapOk() && freePages == old(freePages)
        invariant TakenUpTo(taken, pages, start, i)
      {
        TakenOne(taken, pages, start, i);
        MarkPageAllocated(start + i);
      }
      RunTaken(taken, pages, totalPages, start, count);
      freePages := freePages - count;
      return Ok(baseAddr + start * PAGE_SIZE);
    }

    method AddrToPage(addr: nat) returns (r: Result<nat>)
      ensures r == if addr >= baseAddr && PageOf(addr) < totalPages then Ok(PageOf(addr)) else Err(Memory(InvalidAddress))
    {
      if addr < baseAddr {
        return Err(Memory(InvalidAddress));
      }
      var page := (addr - baseAddr) / PAGE_SIZE;
      if page >= totalPages {
        return Err(Memory(InvalidAddress));
      }
      return Ok(page);
    }

    // What freeing must answer, from the arguments and the set of pages handed out.
    ghost function FreeOutcome(taken: set<nat>, addr: nat, count: nat): Result<()> {
      if count == 0 then Err(InvalidParameter)
      else if addr % PAGE_SIZE != 0 then Err(Memory(InvalidAlignment))
      else if addr < baseAddr || PageOf(addr) >= totalPages then Err(Memory(InvalidAddress))
      else if Run(PageOf(addr), count) <= taken then Ok(())
      else Err(Memory(DoubleFree))
    }

    // What has been handed out can be given back exactly when physical memory begins on a page boundary.
    lemma TakenCanBeFreed(page: nat, count: nat)
      requires Valid() && count > 0 && Run(page, count) <= Allocated()
      ensures PageOf(PageAddr(page)) == page
      ensures FreeOutcome(Allocated(), PageAddr(page), count) ==
              if baseAddr % PAGE_SIZE == 0 then Ok(()) else Err(Memory(InvalidAlignment))
    {
      DivUnique(page * PAGE_SIZE, PAGE_SIZE, page, 0);
      assert page in Run(page, count);
      assert PageAddr(page) % PAGE_SIZE == baseAddr % PAGE_SIZE;
    }

    // A release succeeds exactly when all of its pages are handed out, and otherwise says what is wrong.
    lemma OutcomeIff(addr: nat, count: nat)
      requires Valid()
      ensures var (r, page) := (FreeOutcome(Allocated(), addr, count), (addr as int - baseAddr) / 4096);
              && (r == Ok(()) <==> count > 0 && addr % 4096 == 0 && page >= 0 && AllIn(Allocated(), page, page + count))
              && (r == Err(Memory(DoubleFree)) <==>
                    count > 0 && addr % 4096 == 0 && 0 <= page < totalPages && !AllIn(Allocated(), page, page + count))
              && (r == Err(Memory(InvalidAddress)) <==> count > 0 && addr % 4096 == 0 && !(0 <= page < totalPages))
              && (r == Err(Memory(InvalidAlignment)) <==> count > 0 && addr % 4096 != 0)
              && (r == Err(InvalidParameter) <==> count == 0)
    {
      if addr >= baseAddr {
        var page := PageOf(addr);
        assert Run(page, count) <= Allocated() <==> AllIn(Allocated(), page, page + count);
        assert count > 0 && AllIn(Allocated(), page, page + count) ==> page in Allocated();
      }
    }

    method FreePage(addr: nat) returns (r: Result<()>)
      requires Valid()
      modifies this, bitmap
      ensures Valid()
      ensures r == FreeOutcome(old(Allocated()), addr, 1)
      ensures Allocated() == if r.Ok? then old(Allocated()) - {PageOf(addr)} else old(Allocated())
    {
      if addr % PAGE_SIZE != 0 {
        return Err(Memory(InvalidAlignment));
      }
      var pageNum := AddrToPage(addr);
      if pageNum.Err? {
        return Err(pageNum.error);
      }
      assert Run(pageNum.value, 1) == {pageNum.value};
      var free := IsPageFree(pageNum.value);
      if free {
        assert pageNum.value in Run(pageNum.value, 1);
        return Err(Memory(DoubleFree));
      }
      MarkPageFree(pageNum.value);
      freePages := freePages + 1;
      return Ok(());
    }

    // The bitmap has no bit at MAX_PAGES: of a run that is taken as far as there are bits and goes on, the first
    // loop looks one word too far.
    ghost predicate RunsOver(taken: set<nat>, addr: nat, count: nat) {
      && count > 0 && addr % PAGE_SIZE == 0 && addr >= baseAddr && PageOf(addr) < totalPages <= MAX_PAGES
      && PageOf(addr) + count > MAX_PAGES && AllIn(taken, PageOf(addr), MAX_PAGES)
    }

    // None is the panic.
    method FreePages(addr: nat, count: nat) returns (r: Option<Result<()>>)
      requires Valid()
      modifies this, bitmap
      ensures Valid()
      ensures r.None? <==> RunsOver(old(Allocated()), addr, count)
      ensures r.Some? ==> r.value == FreeOutcome(old(Allocated()), addr, count)
      ensures Allocated() == if r == Some(Ok(())) then old(Allocated()) - Run(PageOf(addr), count) else old(Allocated())
    {
      if count == 0 {
        return Some(Err(InvalidParameter));
      }
      if addr % PAGE_SIZE != 0 {
        return Some(Err(Memory(InvalidAlignment)));
      }
      var startPage := AddrToPage(addr);
      if startPage.Err? {
        return Some(Err(startPage.error));
      }
      var start := startPage.value;
      var taken := AllTaken(start, count);
      assert Run(start, count) <= Allocated() <==> AllIn(Allocated(), start, start + count);
      if taken.None? {
        return None;
      }
      if !taken.value {
        return Some(Err(Memory(DoubleFree)));
      }
      ReleaseRun(start, count);
      return Some(Ok(()));
    }

    // The first loop of FreePages.
    method AllTaken(start: nat, count: nat) returns (r: Option<bool>)
      requires Valid() && start < totalPages
      ensures r.None? <==> start + count > MAX_PAGES && AllIn(Allocated(), start, MAX_PAGES)
      ensures r.Some? ==> (r.value <==> AllIn(Allocated(), start, start + count))
    {
      ghost var taken := Allocated();
      for i := 0 to count
        invariant start + i <= MAX_PAGES && AllIn(taken, start, start + i)
      {
        if start + i >= MAX_PAGES {
          return None;
        }
        var free := IsPageFree(start + i);
        if free {
          assert start + i !in taken;
          return Some(false);
        }
      }
      return Some(true);
    }

    // The tail of FreePages: clear the run's bits and account for them.
    method ReleaseRun(start: nat, count: nat)
      requires Valid() && Run(start, count) <= Allocated()
      modifies this, bitmap
      ensures Valid()
      ensures Allocated() == old(Allocated()) - Run(start, count)
    {
      ghost var taken := Allocated();
      for i := 0 to count
        invariant BitmapOk() && freePages == old(freePages)
        invariant ClearedUpTo(taken, pages, start, i)
      {
        assert start + i in Run(start, count);
        ClearedOne(taken, pages, start, i);
        MarkPageFree(start + i);
      }
      RunCleared(taken, pages, start, count);
      freePages := freePages + count;
    }
  }
}
