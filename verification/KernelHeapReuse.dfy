/** Which memory kmalloc hands out: it reuses what slabs hold before it takes a page, and a page before it grows the heap. */
module KernelHeapReuse {
  import opened Blocks
  import opened Seqs
  import opened Buddy
  import opened BuddyCanon
  import BuddyRuns
  import opened KernelHeap
  import opened KernelHeapInv
  import opened KernelHeapSteps
  import opened KernelHeapRuns

  // ---- size classes and slab pages --------------------------------------------------------------------------------

  /** The class chosen is the least that fits. */
  lemma ClassIsLeast(size: nat, d: nat)
    requires size <= MAX_SMALL && d < NUM_CACHES && size <= ObjSize(d)
    ensures size <= ObjSize(ClassFor(size)) <= ObjSize(d)
  {
    var c := ClassFor(size);
    if c < d { SizesGrow(c, d); }
  }

  lemma {:induction false} SizesGrow(c: nat, d: nat)
    requires c <= d < NUM_CACHES
    ensures ObjSize(c) <= ObjSize(d)
    decreases d - c
  {
    if c < d {
      SizesGrow(c, d - 1);
      assert ObjSize(d) == 2 * ObjSize(d - 1);
    }
  }

  /** A slab page is cut into objects without gaps behind its header, as many as fit. */
  lemma PageIsFilled(page: nat, c: nat)
    requires c < NUM_CACHES
    ensures Total(c) > 0 && Slots(page, c)[0] == page * PAGE_SIZE + SLAB_HEADER
    ensures forall i: nat :: i + 1 < Total(c) ==> Slots(page, c)[i + 1] == Slots(page, c)[i] + ObjSize(c)
    ensures var end := Slots(page, c)[Total(c) - 1] + ObjSize(c); end <= (page + 1) * PAGE_SIZE < end + ObjSize(c)
  {
    SlotsDistinct(page, c);
    SlotBounds(page, c, Total(c) - 1);
    LastSlot(c);
    forall i: nat | i + 1 < Total(c) ensures Slots(page, c)[i + 1] == Slots(page, c)[i] + ObjSize(c) { NextSlot(page, c, i); }
  }

  lemma NextSlot(page: nat, c: nat, i: nat)
    requires c < NUM_CACHES
    ensures SlotAddr(page, c, i + 1) == SlotAddr(page, c, i) + ObjSize(c)
  {
  }

  lemma LastSlot(c: nat)
    requires c < NUM_CACHES && Total(c) > 0
    ensures SLAB_HEADER + (Total(c) - 1) * ObjSize(c) + 2 * ObjSize(c) > PAGE_SIZE
  {
    assert c == 0 || c == 1 || c == 2 || c == 3 || c == 4 || c == 5 || c == 6 || c == 7;
  }

  // ---- small requests ---------------------------------------------------------------------------------------------------

  /** Some slab of the class has an object that nobody holds. */
  ghost predicate SpareObject(c: Config, k: nat)
    requires k < NUM_CACHES
  {
    exists p: nat, x: nat :: IsSpare(c, k, p, x)
  }

  ghost predicate IsSpare(c: Config, k: nat, p: nat, x: nat)
    requires k < NUM_CACHES
  {
    p in c.h.slabs && c.h.slabs[p].cache == k && x in Slots(p, k) && x !in c.held.small
  }

  lemma SpareIsPartial(c: Config, k: nat)
    requires Good(c) && k < NUM_CACHES
    ensures SpareObject(c, k) <==> c.h.partial[k] != []
  {
    if p: nat, x: nat :| IsSpare(c, k, p, x) {
      assert SlabOk(p, c.h.slabs[p], c.held.small);
      assert p in c.h.partial[k];
    }
    if c.h.partial[k] != [] {
      var p := c.h.partial[k][0];
      assert p in c.h.partial[k] && SlabOk(p, c.h.slabs[p], c.held.small);
      var x := c.h.slabs[p].free[0];
      assert x in c.h.slabs[p].free;
      assert IsSpare(c, k, p, x);
    }
  }

  /** What taking the first object of the first partial slab leaves as it was. */
  lemma PopFacts(h: Heap, c: nat)
    requires |h.partial| == NUM_CACHES == |h.full| && c < NUM_CACHES && h.partial[c] != []
    requires h.partial[c][0] in h.slabs && h.slabs[h.partial[c][0]].free != []
    ensures var (r, x) := SlabPop(h, c);
      && x == h.slabs[h.partial[c][0]].free[0] && r.buddy == h.buddy && r.slabs.Keys == h.slabs.Keys
      && r.slabs[h.partial[c][0]].free == h.slabs[h.partial[c][0]].free[1..]
  {
  }

  /** The pointer is such an object, and no page has been taken. */
  ghost predicate Reused(c: Config, k: nat, h: Heap, ptr: Option<nat>)
    requires k < NUM_CACHES
  {
    && ptr.Some? && IsSpare(c, k, ptr.value / PAGE_SIZE, ptr.value)
    && h.buddy == c.h.buddy && h.slabs.Keys == c.h.slabs.Keys
  }

  /** A small request gets an object of a slab of its class while there is one that nobody holds, and then takes no page. */
  lemma ReusesSlab(c: Config, size: nat)
    requires Good(c) && Enabled(c, Malloc(size)) && 0 < size <= MAX_SMALL && SpareObject(c, ClassFor(size))
    ensures Reused(c, ClassFor(size), Kmalloc(c.h, size).0, Kmalloc(c.h, size).1)
  {
    var k := ClassFor(size);
    SpareIsPartial(c, k);
    SomePartial(c.h, k);
    PopFacts(c.h, k);
    FirstIsSpare(c, k);
  }

  lemma FirstIsSpare(c: Config, k: nat)
    requires Good(c) && k < NUM_CACHES && c.h.partial[k] != [] && c.h.partial[k][0] in c.h.slabs
    requires c.h.slabs[c.h.partial[k][0]].free != []
    ensures var x := c.h.slabs[c.h.partial[k][0]].free[0]; IsSpare(c, k, x / PAGE_SIZE, x)
  {
    var p := c.h.partial[k][0];
    assert p in c.h.partial[k] && SlabOk(p, c.h.slabs[p], c.held.small);
    var x := c.h.slabs[p].free[0];
    assert x in c.h.slabs[p].free;
    SlotOf(p, k, x);
  }

  /** One page has been taken for a slab: the pointer is its first object, the others are free in address order, and the heap
      has grown only if no page was left. */
  ghost predicate OnePage(c: Config, k: nat, h: Heap, ptr: Option<nat>, page: nat)
    requires k < NUM_CACHES
  {
    && ptr == Some(page * PAGE_SIZE + SLAB_HEADER)
    && page !in c.h.slabs && page !in c.held.large && h.slabs.Keys == c.h.slabs.Keys + {page}
    && h.slabs[page].cache == k && Slots(page, k) == [page * PAGE_SIZE + SLAB_HEADER] + h.slabs[page].free
    && (|h.buddy.meta| == |c.h.buddy.meta| <==> PageLeft(c))
  }

  /** Otherwise it takes exactly one page. */
  lemma TakesOnePage(c: Config, size: nat) returns (page: nat)
    requires Good(c) && Enabled(c, Malloc(size)) && 0 < size <= MAX_SMALL && !SpareObject(c, ClassFor(size))
    ensures OnePage(c, ClassFor(size), Kmalloc(c.h, size).0, Kmalloc(c.h, size).1, page)
  {
    var k := ClassFor(size);
    SpareIsPartial(c, k);
    SomePartial(c.h, k);
    var b;
    b, page := Alloc(c.h.buddy, 0).0, Alloc(c.h.buddy, 0).1;
    NewPage(c);
    NewSlabPopped(c, b, page, k);
  }

  lemma NewSlabPopped(c: Config, b: State, page: nat, k: nat)
    requires k < NUM_CACHES && |c.h.partial| == NUM_CACHES == |c.h.full| && page < |b.meta|
    requires page !in c.h.slabs && page !in c.held.large && (|b.meta| == |c.h.buddy.meta| <==> PageLeft(c))
    ensures var m := WithSlab(c.h, b, page, k);
      && m.partial[k][0] in m.slabs && m.slabs[m.partial[k][0]].free != []
      && var (h, x) := SlabPop(m, k); OnePage(c, k, h, Some(x), page)
  {
    var m := WithSlab(c.h, b, page, k);
    NewSlabIsPartial(c.h, b, page, k);
    PopFacts(m, k);
    PageIsFilled(page, k);
    assert m.partial[k][0] == page && m.slabs[page].free == Slots(page, k);
  }

  /** Some managed page is neither a slab page nor in a large block. */
  ghost predicate PageLeft(c: Config)
  {
    exists p: nat :: p < |c.h.buddy.meta| && p !in Covered(BlocksOf(c.h.slabs, c.held.large))
  }

  lemma NewPage(c: Config)
    requires Good(c) && RoomFor(c.h.buddy, 0)
    ensures var (b, page) := Alloc(c.h.buddy, 0);
      && page !in c.h.slabs && page !in c.held.large && (|b.meta| == |c.h.buddy.meta| <==> PageLeft(c))
  {
    var d := BuddyRuns.Config(c.h.buddy, BlocksOf(c.h.slabs, c.held.large));
    AllocKeepsInv(d.b, d.blocks, 0);
    BlocksMembers(c.h.slabs, c.held.large);
    GrowsForPage(d);
    assert PageLeft(c) <==> exists p: nat :: p < |d.b.meta| && p !in Covered(d.blocks);
  }

  lemma GrowsForPage(d: BuddyRuns.Config)
    requires BuddyRuns.Good(d) && BuddyRuns.Enabled(d, BuddyRuns.AllocOp(0)) && InHeap(d.b)
    ensures |Alloc(d.b, 0).0.meta| == |d.b.meta| <==> exists p: nat :: p < |d.b.meta| && p !in Covered(d.blocks)
  {
    BuddyRuns.AllocGrowsIff(d, 0);
    if p: nat :| p < |d.b.meta| && p !in Covered(d.blocks) {
      assert Aligned(p, 0) && Clear(Covered(d.blocks), p, 0);
    }
    if BuddyRuns.ClearRun(d, 0) {
      var a: nat :| a < |d.b.meta| && Aligned(a, 0) && Clear(Covered(d.blocks), a, 0);
      assert a !in Covered(d.blocks);
    }
  }

  // ---- other requests -----------------------------------------------------------------------------------------------------

  /** A large request leaves the slabs alone and grows the heap only when no aligned run of its size is clear; a request for
      nothing does nothing. */
  lemma LargeTakesBlock(c: Config, size: nat)
    requires Good(c) && Enabled(c, Malloc(size)) && (size == 0 || size > MAX_SMALL)
    ensures var (h, ptr) := Kmalloc(c.h, size);
      && h.slabs == c.h.slabs && h.partial == c.h.partial && h.full == c.h.full
      && (size == 0 ==> h == c.h && ptr.None?)
      && (size > 0 ==> (|h.buddy.meta| == |c.h.buddy.meta| <==>
            BuddyRuns.ClearRun(BuddyRuns.Config(c.h.buddy, BlocksOf(c.h.slabs, c.held.large)), OrderFor(size))))
  {
    if size > 0 {
      BuddyRuns.AllocGrowsIff(BuddyRuns.Config(c.h.buddy, BlocksOf(c.h.slabs, c.held.large)), OrderFor(size));
    }
  }

  /** Freeing an object changes whether its own page is a slab page, if anything. */
  lemma OtherPagesStay(h: Heap, a: nat)
    requires Wf(h) && a / PAGE_SIZE in h.slabs && h.slabs[a / PAGE_SIZE].cache < NUM_CACHES
    requires a / PAGE_SIZE < |h.buddy.meta| && h.buddy.meta[a / PAGE_SIZE].order <= MAX_ORDERS
    ensures forall p: nat :: p != a / PAGE_SIZE ==> (p in SlabFree(h, a).slabs <==> p in h.slabs)
    ensures |SlabFree(h, a).buddy.meta| == |h.buddy.meta|
    ensures a / PAGE_SIZE in SlabFree(h, a).slabs ==> SlabFree(h, a) == SlabPush(h, a)
  {
    var m: Heap := SlabPush(h, a);
    assert m.slabs.Keys == h.slabs.Keys && m.buddy == h.buddy;
  }

  /** Something else of the page is held. */
  ghost predicate OtherHeld(small: map<nat, nat>, a: nat)
  {
    exists b: nat :: b in small && b != a && b / PAGE_SIZE == a / PAGE_SIZE
  }

  lemma SlabHasHeld(r: Heap, small: map<nat, nat>, large: map<nat, nat>, a: nat)
    requires HeapInv(r, Held(small - {a}, large))
    ensures a / PAGE_SIZE in r.slabs <==> OtherHeld(small, a)
  {
    var page := a / PAGE_SIZE;
    if page in r.slabs {
      assert SlabOk(page, r.slabs[page], small - {a});
      FreePlusHeld(page, r.slabs[page], small - {a});
      var b :| b in HeldIn(page, r.slabs[page].cache, small - {a});
      SlotOf(page, r.slabs[page].cache, b);
      assert b in small && b != a;
    }
    if b: nat :| b in small && b != a && b / PAGE_SIZE == page {
      assert b in small - {a} && ObjectOk(r.slabs, b, (small - {a})[b]);
    }
  }

  /** Freeing an object gives its page back if and only if nothing else of the page is held; no other page changes hands. */
  lemma PageGoesBackIff(c: Config, a: nat)
    requires Good(c) && a in c.held.small && CanFree(c.h, a)
    ensures var r := Kfree(c.h, Some(a));
      && (a / PAGE_SIZE in r.slabs <==> OtherHeld(c.held.small, a))
      && (forall p: nat :: p != a / PAGE_SIZE ==> (p in r.slabs <==> p in c.h.slabs)) && |r.buddy.meta| == |c.h.buddy.meta|
  {
    KfreeKeeps(c.h, c.held, Some(a));
    DispatchIsRight(c.h, c.held, a);
    OtherPagesStay(c.h, a);
    SlabHasHeld(Kfree(c.h, Some(a)), c.held.small, c.held.large, a);
  }

  /** Freeing a large block leaves the slabs and the size of the heap alone; freeing nothing does nothing. */
  lemma LargeGoesBack(c: Config, ptr: Option<nat>)
    requires Good(c) && (ptr.Some? ==> Issued(c.held, ptr.value) && ptr.value !in c.held.small && CanFree(c.h, ptr.value))
    ensures var r := Kfree(c.h, ptr);
      && r.slabs == c.h.slabs && r.partial == c.h.partial && r.full == c.h.full && |r.buddy.meta| == |c.h.buddy.meta|
      && (ptr.None? ==> r == c.h)
  {
    if ptr.Some? { DispatchIsRight(c.h, c.held, ptr.value); }
  }

  /** Last freed, first taken: an object whose slab had been full is what the next request of its class gets. */
  lemma FreedIsNext(c: Config, a: nat, size: nat)
    requires Good(c) && a in c.held.small && OtherHeld(c.held.small, a) && CanFree(c.h, a)
    requires a / PAGE_SIZE in c.h.slabs && c.h.slabs[a / PAGE_SIZE].free == []
    requires 0 < size <= MAX_SMALL && ClassFor(size) == ClassFor(c.held.small[a])
    ensures var r := Kfree(c.h, Some(a)); Wf(r) && CanMalloc(r, size) && Kmalloc(r, size).1 == Some(a)
  {
    var k := ClassFor(size);
    KfreeKeeps(c.h, c.held, Some(a));
    ConsistentIsWf(Kfree(c.h, Some(a)), AfterFree(c.held, Some(a)));
    DispatchIsRight(c.h, c.held, a);
    PageGoesBackIff(c, a);
    OtherPagesStay(c.h, a);
    assert ObjectOk(c.h.slabs, a, c.held.small[a]);
    PushedFirst(c.h, a, k);
    PopFacts(SlabPush(c.h, a), k);
  }

  lemma PushedFirst(h: Heap, a: nat, k: nat)
    requires |h.partial| == NUM_CACHES == |h.full| && k < NUM_CACHES
    requires a / PAGE_SIZE in h.slabs && h.slabs[a / PAGE_SIZE] == Slab(k, [])
    ensures var m := SlabPush(h, a);
      && |m.partial| == NUM_CACHES == |m.full| && m.partial[k] != [] && m.partial[k][0] == a / PAGE_SIZE
      && a / PAGE_SIZE in m.slabs && m.slabs[a / PAGE_SIZE].free == [a]
  {
  }
}
