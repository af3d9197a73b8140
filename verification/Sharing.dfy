/** The heap and the page tables draw their pages from one physical allocator, and keep out of each other's way. */
module Sharing {
  import opened Errors
  import opened Bits
  import opened Physical
  import opened BuddyPool
  import opened Buddy
  import opened Heap
  import opened SlabPool
  import opened SlabAllocation
  import PageTables
  import VM = VirtualMemory

  // Both are consistent, and no table lies on a page of the heap.
  ghost predicate Apart(heap: HeapAllocator, vm: VM.VirtualMemory)
    reads heap, heap.slab, heap.slab.slabs, heap.buddy, heap.buddy.freeLists, heap.buddy.memory
    reads vm, vm.memory, vm.phys, vm.phys.bitmap, heap.buddy.phys, heap.buddy.phys.bitmap
  {
    && heap.buddy.phys == vm.phys && heap.Valid() && vm.Valid()
    && TablesOff(vm, heap.buddy.owned)
  }

  ghost predicate TablesOff(vm: VM.VirtualMemory, owned: set<nat>)
    reads vm
  {
    forall n: nat :: n in vm.level ==> vm.OffPages(n, owned)
  }

  // Every block of the heap, free or out, is apart from every page table.
  lemma BlocksOffTables(heap: HeapAllocator, vm: VM.VirtualMemory, b: Block, n: nat)
    requires Apart(heap, vm) && heap.buddy.pool.Holds(b) && n in vm.level
    ensures n + PageTables.PAGE <= b.addr || b.End() <= n
  {
    forall x: nat | n <= x < n + PageTables.PAGE ensures !b.Contains(x) {
      PageOff(vm.phys.baseAddr, heap.buddy.owned, n, x);
      assert !heap.buddy.pool.Covers(x);
    }
    assert b.Contains(b.addr) && !b.Contains(n);
  }

  // No byte of a page that is not among the pages is in them.
  lemma PageOff(base: nat, pages: set<nat>, n: nat, x: nat)
    requires base % 4096 == 0 && n % 4096 == 0 && n <= x < n + 4096
    requires forall p: nat :: p in pages ==> base + p * 4096 != n
    ensures !InPages(base, pages, x)
  {
    if x >= base { assert base + (x - base) / 4096 * 4096 == n; }
  }

  // So is every live allocation, slab slots included: no table is where the heap has given memory away.
  lemma AllocsOffTables(heap: HeapAllocator, vm: VM.VirtualMemory, ptr: nat, n: nat)
    requires Apart(heap, vm) && ptr in heap.allocs && n in vm.level
    ensures n + PageTables.PAGE <= ptr || ptr + heap.allocs[ptr].size <= n
  {
    var l := heap.allocs[ptr];
    HouseSize(l);
    if l.size < 4096 {
      var s := Slot(ptr, SizeToSlab(l.size));
      var b := SlotInBlock(heap.slab.slots, heap.buddy.pool.live, s);
      assert s.End() == ptr + Capacity(l) && b.Contains(s.End() - 1);
      BlocksOffTables(heap, vm, b, n);
    } else {
      BlocksOffTables(heap, vm, Block(ptr, OrderFor(l.size)), n);
    }
  }

  // A request of 1 to 8 bytes that is served may break this: what it spills lies in the page behind its own, which may
  // be a table.
  method Allocate(heap: HeapAllocator, vm: VM.VirtualMemory, layout: Layout) returns (ptr: nat)
    requires Apart(heap, vm) && LayoutOk(layout)
    modifies heap`allocs, heap.slab`slots, heap.slab.slabs, heap.buddy`pool, heap.buddy`owned, heap.buddy.freeLists, heap.buddy.memory
    modifies heap.buddy.phys, heap.buddy.phys.bitmap
    ensures Rejected(layout) || layout.size > 8 || old(heap.Exhausted(layout)) ==>
              Apart(heap, vm) && vm.SameView(old(vm.memory.pages))
  {
    ptr := heap.Alloc(layout);
  }

  method Deallocate(heap: HeapAllocator, vm: VM.VirtualMemory, ptr: nat, layout: Layout)
    requires Apart(heap, vm) && (ptr != NULL && layout.size > 0 ==> ptr in heap.allocs && heap.allocs[ptr] == layout)
    modifies heap`allocs, heap.slab`slots, heap.slab.slabs, heap.buddy`pool, heap.buddy.freeLists, heap.buddy.memory
    ensures Apart(heap, vm) && vm.SameView(old(vm.memory.pages))
  {
    heap.Dealloc(ptr, layout);
  }

  method Map(heap: HeapAllocator, vm: VM.VirtualMemory, virt: nat, paddr: nat, flags: nat) returns (r: Result<()>)
    requires Apart(heap, vm) && virt < PageTables.VIRT_LIMIT
    modifies vm`level, vm.memory, vm.phys, vm.phys.bitmap
    ensures Apart(heap, vm) && heap.buddy.memory.bytes == old(heap.buddy.memory.bytes)
  {
    r := vm.Map(virt, paddr, flags);
    assert heap.buddy.Valid();
    assert heap.slab.Valid();
  }

  method Unmap(heap: HeapAllocator, vm: VM.VirtualMemory, virt: nat) returns (r: Result<nat>)
    requires Apart(heap, vm) && virt < PageTables.VIRT_LIMIT
    modifies vm.memory
    ensures Apart(heap, vm) && heap.buddy.memory.bytes == old(heap.buddy.memory.bytes)
  {
    r := vm.Unmap(virt);
  }

  method Protect(heap: HeapAllocator, vm: VM.VirtualMemory, virt: nat, flags: nat) returns (r: Result<()>)
    requires Apart(heap, vm) && virt < PageTables.VIRT_LIMIT
    modifies vm.memory
    ensures Apart(heap, vm) && heap.buddy.memory.bytes == old(heap.buddy.memory.bytes)
  {
    r := vm.Protect(virt, flags);
  }

  // An empty heap, and a root table on a page of its own that the allocator cannot hand out.
  method Start(phys: PhysicalAllocator, rootTable: nat, memory: VM.PageMemory) returns (heap: HeapAllocator, vm: VM.VirtualMemory)
    requires rootTable in memory.pages && memory.pages[rootTable] == PageTables.Zeroed() && rootTable % PageTables.PAGE == 0
    requires phys.Valid() && phys.baseAddr % PageTables.PAGE == 0 && phys.baseAddr + phys.totalPages * PAGE_SIZE <= Pow2(48)
    requires forall p: nat :: p < phys.totalPages && p !in phys.Allocated() ==> phys.PageAddr(p) != rootTable
    ensures Apart(heap, vm) && vm.phys == phys
  {
    heap := new HeapAllocator(phys);
    vm := new VM.VirtualMemory(rootTable, memory, phys);
  }
}
