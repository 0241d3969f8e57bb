/** The kernel heap: slab caches inside order-0 buddy pages, and kmalloc/kfree over both.

    Addresses are byte offsets from HEAP_START; `None` is the null pointer. */
module KernelHeap {
  import opened Blocks
  import opened Seqs
  import opened Buddy

  const NUM_CACHES: nat := 8
  const SLAB_HEADER: nat := 40
  const MAX_SMALL: nat := 2048
  /** The largest request the buddy allocator can serve: one block of order 12. */
  const MAX_REQUEST: nat := 0x100_0000

  /** A slab page: its cache and its free objects, first to be handed out first. */
  datatype Slab = Slab(cache: nat, free: seq<nat>)

  /** `partial[c]` and `full[c]` are the slab lists of cache `c`, head first; pages are numbers. */
  datatype Heap = Heap(buddy: State, slabs: map<nat, Slab>, partial: seq<seq<nat>>, full: seq<seq<nat>>)

  function ObjSize(c: nat): (s: nat)
    requires c < NUM_CACHES
    ensures 16 <= s <= 2048
  {
    [16, 32, 64, 128, 256, 512, 1024, 2048][c]
  }

  /** Objects per slab page. */
  function Total(c: nat): (n: nat)
    requires c < NUM_CACHES
  {
    (PAGE_SIZE - SLAB_HEADER) / ObjSize(c)
  }

  function SlotAddr(page: nat, c: nat, i: nat): nat
    requires c < NUM_CACHES
  {
    page * PAGE_SIZE + SLAB_HEADER + i * ObjSize(c)
  }

  /** The objects of a slab page, in address order. */
  function Slots(page: nat, c: nat): (s: seq<nat>)
    requires c < NUM_CACHES
    ensures |s| == Total(c)
    ensures forall i :: 0 <= i < |s| ==> s[i] == SlotAddr(page, c, i)
  {
    seq(Total(c), i requires 0 <= i => SlotAddr(page, c, i))
  }

  /** The first cache whose objects are large enough. */
  function ClassFrom(c: nat, size: nat): (r: nat)
    requires c < NUM_CACHES && size <= MAX_SMALL
    ensures c <= r < NUM_CACHES && size <= ObjSize(r)
    ensures forall d :: c <= d < r ==> ObjSize(d) < size
    decreases NUM_CACHES - c
  {
    if size <= ObjSize(c) then c else ClassFrom(c + 1, size)
  }

  function ClassFor(size: nat): (r: nat)
    requires size <= MAX_SMALL
    ensures r < NUM_CACHES && size <= ObjSize(r)
  {
    ClassFrom(0, size)
  }

  /** The doubling loop of kmalloc, from `s = 2^order` pages. */
  function OrderFrom(order: nat, size: nat): (r: nat)
    requires order <= MAX_ORDERS && size <= MAX_REQUEST
    ensures order <= r <= MAX_ORDERS && size <= Pow2(r) * PAGE_SIZE
    ensures r == order || Pow2(r - 1) * PAGE_SIZE < size
    decreases MAX_ORDERS - order
  {
    Pow2Values();
    if size <= Pow2(order) * PAGE_SIZE then order else OrderFrom(order + 1, size)
  }

  function OrderFor(size: nat): (r: nat)
    requires size <= MAX_REQUEST
    ensures r <= MAX_ORDERS && size <= Pow2(r) * PAGE_SIZE
    ensures r == 0 || Pow2(r - 1) * PAGE_SIZE < size
  {
    OrderFrom(0, size)
  }

  // ---- operations -----------------------------------------------------------------------

  ghost predicate Wf(h: Heap)
  {
    && Shape(h.buddy) && InHeap(h.buddy)
    && |h.partial| == NUM_CACHES == |h.full|
    && (forall c: nat, p: nat :: c < NUM_CACHES && p in h.partial[c] ==>
          p in h.slabs && h.slabs[p].free != [] && h.slabs[p].cache < NUM_CACHES)
  }

  function SetSlabFlag(b: State, page: nat, flag: bool): (r: State)
    requires page < |b.meta|
    ensures |r.meta| == |b.meta| && r.areas == b.areas && r.heapEnd == b.heapEnd
  {
    b.(meta := b.meta[page := b.meta[page].(isSlab := flag)])
  }

  ghost predicate RoomFor(b: State, order: nat)
    requires Shape(b) && order <= MAX_ORDERS
  {
    NeedsGrowth(b, order) ==> CanGrow(b)
  }

  /** `slab_create` and the listing of the new slab by `slab_alloc`. */
  ghost function SlabCreate(h: Heap, c: nat): (r: Heap)
    requires Wf(h) && c < NUM_CACHES && RoomFor(h.buddy, 0)
  {
    var (b, page) := Alloc(h.buddy, 0);
    WithSlab(h, b, page, c)
  }

  /** A new slab on `page`: all its objects free, first on the partial list. */
  ghost function WithSlab(h: Heap, b: State, page: nat, c: nat): (r: Heap)
    requires |h.partial| == NUM_CACHES && c < NUM_CACHES && page < |b.meta|
  {
    Heap(SetSlabFlag(b, page, true), h.slabs[page := Slab(c, Slots(page, c))],
         h.partial[c := [page] + h.partial[c]], h.full)
  }

  /** Hand out the first free object of the first partial slab. */
  ghost function SlabPop(h: Heap, c: nat): (r: (Heap, nat))
    requires |h.partial| == NUM_CACHES == |h.full| && c < NUM_CACHES && h.partial[c] != []
    requires h.partial[c][0] in h.slabs && h.slabs[h.partial[c][0]].free != []
  {
    var page := h.partial[c][0];
    var slab := h.slabs[page];
    var h' := h.(slabs := h.slabs[page := slab.(free := slab.free[1..])]);
    if |slab.free| == 1 then
      (h'.(partial := h.partial[c := Without(h.partial[c], page)], full := h.full[c := [page] + h.full[c]]), slab.free[0])
    else (h', slab.free[0])
  }

  /** Return an object to its slab; a slab that was full moves to the partial list. */
  ghost function SlabPush(h: Heap, addr: nat): (r: Heap)
    requires |h.partial| == NUM_CACHES == |h.full|
    requires addr / PAGE_SIZE in h.slabs && h.slabs[addr / PAGE_SIZE].cache < NUM_CACHES
  {
    var page: nat := addr / PAGE_SIZE;
    var slab := h.slabs[page];
    var c := slab.cache;
    var h' := h.(slabs := h.slabs[page := slab.(free := [addr] + slab.free)]);
    if slab.free == [] then
      h'.(full := h.full[c := Without(h.full[c], page)], partial := h.partial[c := [page] + h.partial[c]])
    else h'
  }

  /** Give the page of a slab without live objects back to the buddy allocator. */
  ghost function SlabRelease(h: Heap, page: nat): (r: Heap)
    requires Shape(h.buddy) && |h.partial| == NUM_CACHES && page in h.slabs && h.slabs[page].cache < NUM_CACHES
    requires page < |h.buddy.meta| && h.buddy.meta[page].order <= MAX_ORDERS
  {
    var c := h.slabs[page].cache;
    h.(buddy := Free(SetSlabFlag(h.buddy, page, false), page),
       slabs := h.slabs - {page},
       partial := h.partial[c := Without(h.partial[c], page)])
  }

  // ---- kmalloc and kfree ------------------------------------------------------------------

  /** The slab whose object `slab_alloc` hands out: the first partial one, created if there is none. */
  ghost predicate CanMalloc(h: Heap, size: nat)
    requires Wf(h)
  {
    if size == 0 then true
    else if size > MAX_SMALL then size <= MAX_REQUEST && RoomFor(h.buddy, OrderFor(size))
    else h.partial[ClassFor(size)] == [] ==> RoomFor(h.buddy, 0)
  }

  ghost function SlabAlloc(h: Heap, c: nat): (r: (Heap, nat))
    requires Wf(h) && c < NUM_CACHES && (h.partial[c] == [] ==> RoomFor(h.buddy, 0))
  {
    SomePartial(h, c);
    SlabPop(if h.partial[c] == [] then SlabCreate(h, c) else h, c)
  }

  lemma NewSlabIsPartial(h: Heap, b: State, page: nat, c: nat)
    requires |h.partial| == NUM_CACHES == |h.full| && c < NUM_CACHES && page < |b.meta|
    ensures var m := WithSlab(h, b, page, c);
      |m.partial| == NUM_CACHES == |m.full| && m.partial[c] != []
      && m.partial[c][0] in m.slabs && m.slabs[m.partial[c][0]].free != []
  {
    assert Total(c) > 0;
  }

  lemma SomePartial(h: Heap, c: nat)
    requires Wf(h) && c < NUM_CACHES && (h.partial[c] == [] ==> RoomFor(h.buddy, 0))
    ensures var m := if h.partial[c] == [] then SlabCreate(h, c) else h;
      |m.partial| == NUM_CACHES == |m.full| && m.partial[c] != []
      && m.partial[c][0] in m.slabs && m.slabs[m.partial[c][0]].free != []
  {
    if h.partial[c] != [] {
      assert h.partial[c][0] in h.partial[c];
    } else {
      var (b, page) := Alloc(h.buddy, 0);
      NewSlabIsPartial(h, b, page, c);
    }
  }

  ghost function SlabFree(h: Heap, addr: nat): (r: Heap)
    requires Wf(h) && addr / PAGE_SIZE in h.slabs && h.slabs[addr / PAGE_SIZE].cache < NUM_CACHES
    requires addr / PAGE_SIZE < |h.buddy.meta| && h.buddy.meta[addr / PAGE_SIZE].order <= MAX_ORDERS
  {
    var page: nat := addr / PAGE_SIZE;
    var pushed := SlabPush(h, addr);
    if |pushed.slabs[page].free| == Total(pushed.slabs[page].cache) then SlabRelease(pushed, page) else pushed
  }

  ghost function Kmalloc(h: Heap, size: nat): (r: (Heap, Option<nat>))
    requires Wf(h) && CanMalloc(h, size)
  {
    if size == 0 then (h, None)
    else if size > MAX_SMALL then
      var (b, page) := Alloc(h.buddy, OrderFor(size));
      (h.(buddy := b), Some(page * PAGE_SIZE))
    else
      var (h', addr) := SlabAlloc(h, ClassFor(size));
      (h', Some(addr))
  }

  /** What kfree needs of its pointer; every issued pointer satisfies it. */
  ghost predicate CanFree(h: Heap, addr: nat)
  {
    var page: nat := addr / PAGE_SIZE;
    && page < |h.buddy.meta| && h.buddy.meta[page].order <= MAX_ORDERS
    && (h.buddy.meta[page].isSlab ==> page in h.slabs && h.slabs[page].cache < NUM_CACHES)
  }

  ghost function Kfree(h: Heap, ptr: Option<nat>): (r: Heap)
    requires Wf(h) && (ptr.Some? ==> CanFree(h, ptr.value))
  {
    if ptr.None? then h
    else
      var page: nat := ptr.value / PAGE_SIZE;
      if h.buddy.meta[page].isSlab then SlabFree(h, ptr.value)
      else h.(buddy := Free(h.buddy, page))
  }
}
