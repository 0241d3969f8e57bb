/** Where the allocators keep their own data inside the heap, and that it never lies in memory a caller holds. */
module KernelHeapBookkeeping {
  import opened Blocks
  import opened Seqs
  import opened Buddy
  import opened BuddyCanon
  import opened KernelHeap
  import opened KernelHeapInv
  import opened KernelHeapSteps
  import opened KernelHeapRuns

  /** The two link pointers at the start of a free block. */
  const LINKS: nat := 16

  /** The link pointer at the start of a free object. */
  const WORD: nat := 8

  ghost predicate InHeader(h: Heap, p: nat, x: nat)
  {
    p in h.slabs && p * PAGE_SIZE <= x < p * PAGE_SIZE + SLAB_HEADER
  }

  ghost predicate InFreeObject(h: Heap, p: nat, y: nat, x: nat)
  {
    p in h.slabs && y in h.slabs[p].free && y <= x < y + WORD
  }

  ghost predicate InFreeBlock(h: Heap, k: nat, q: nat, x: nat)
  {
    k < |h.buddy.areas| && q in h.buddy.areas[k] && q * PAGE_SIZE <= x < q * PAGE_SIZE + LINKS
  }

  /** Address `x` holds allocator data: a slab header with its list links, the link of a free object, or the links of a free
      block. The page metadata is outside the heap. */
  ghost predicate Bookkeeping(h: Heap, x: nat)
  {
    || (exists p: nat :: InHeader(h, p, x))
    || (exists p: nat, y: nat :: InFreeObject(h, p, y, x))
    || (exists k: nat, q: nat :: InFreeBlock(h, k, q, x))
  }

  ghost predicate InRegion(held: Held, a: nat, x: nat)
    requires Issued(held, a) && 0 < SizeOf(held, a) <= MAX_REQUEST
  {
    a <= x < a + Extent(held, a)
  }

  /** A region lies on the pages of its block, and no address of it is on a page outside that block. */
  lemma RegionOnBlock(c: Config, a: nat, x: nat)
    requires Good(c) && Issued(c.held, a) && 0 < SizeOf(c.held, a) <= MAX_REQUEST && InRegion(c.held, a, x)
    ensures var p, blocks := a / PAGE_SIZE, BlocksOf(c.h.slabs, c.held.large);
      p in blocks && p <= x / PAGE_SIZE < p + Pow2(blocks[p]) && x / PAGE_SIZE in BlockPages(p, blocks[p])
  {
    RegionPages(c, a);
    var p, blocks := a / PAGE_SIZE, BlocksOf(c.h.slabs, c.held.large);
    PageInRange(a, x, p, Pow2(blocks[p]));
    InBlockPages(x / PAGE_SIZE, p, blocks[p]);
  }

  lemma InBlockPages(q: nat, p: nat, k: nat)
    requires p <= q < p + Pow2(k)
    ensures q in BlockPages(p, k)
  {
    assert Within(q, p, Pow2(k));
  }

  lemma PageInRange(a: nat, x: nat, p: nat, n: nat)
    requires p == a / PAGE_SIZE && a <= x < (p + n) * PAGE_SIZE
    ensures p <= x / PAGE_SIZE < p + n
  {
  }

  /** An address on a slab page lies in the region of an object of that slab, if in any. */
  lemma RegionOnSlab(c: Config, a: nat, x: nat)
    requires Good(c) && Issued(c.held, a) && 0 < SizeOf(c.held, a) <= MAX_REQUEST && InRegion(c.held, a, x)
    requires x / PAGE_SIZE in c.h.slabs
    ensures a in c.held.small && a / PAGE_SIZE == x / PAGE_SIZE
  {
    var blocks := BlocksOf(c.h.slabs, c.held.large);
    RegionOnBlock(c, a, x);
    RegionPages(c, a);
    BlocksMembers(c.h.slabs, c.held.large);
    var p, q := a / PAGE_SIZE, x / PAGE_SIZE;
    Pow2Values();
    assert q in BlockPages(q, blocks[q]);
    OneBlock(blocks, p, q);
  }

  lemma OneBlock(blocks: map<nat, nat>, p: nat, q: nat)
    requires BlocksDisjoint(blocks) && p in blocks && q in blocks
    requires q in BlockPages(p, blocks[p]) && q in BlockPages(q, blocks[q])
    ensures p == q
  {
    assert q in BlockPages(p, blocks[p]) * BlockPages(q, blocks[q]);
  }

  lemma HeaderApart(c: Config, a: nat, p: nat, x: nat)
    requires Good(c) && Issued(c.held, a) && 0 < SizeOf(c.held, a) <= MAX_REQUEST && InHeader(c.h, p, x)
    ensures !InRegion(c.held, a, x)
  {
    if InRegion(c.held, a, x) {
      assert x / PAGE_SIZE == p;
      RegionOnSlab(c, a, x);
      assert ObjectOk(c.h.slabs, a, c.held.small[a]);
      SlotOf(p, ClassFor(c.held.small[a]), a);
    }
  }

  lemma FreeObjectApart(c: Config, a: nat, p: nat, y: nat, x: nat)
    requires Good(c) && Issued(c.held, a) && 0 < SizeOf(c.held, a) <= MAX_REQUEST && InFreeObject(c.h, p, y, x)
    ensures !InRegion(c.held, a, x)
  {
    if InRegion(c.held, a, x) {
      assert SlabOk(p, c.h.slabs[p], c.held.small);
      var k := c.h.slabs[p].cache;
      SlotOf(p, k, y);
      assert x / PAGE_SIZE == p;
      RegionOnSlab(c, a, x);
      assert ObjectOk(c.h.slabs, a, c.held.small[a]);
      assert a != y;
      SlotsOfPageApart(p, k, a, y);
    }
  }

  lemma SlotsOfPageApart(p: nat, k: nat, a: nat, y: nat)
    requires k < NUM_CACHES && a in Slots(p, k) && y in Slots(p, k) && a != y
    ensures a + ObjSize(k) <= y || y + ObjSize(k) <= a
  {
    var i :| 0 <= i < Total(k) && Slots(p, k)[i] == a;
    var j :| 0 <= j < Total(k) && Slots(p, k)[j] == y;
    if i < j { SlotsApart(p, k, i, j); } else { SlotsApart(p, k, j, i); }
  }

  lemma FreeBlockApart(c: Config, a: nat, k: nat, q: nat, x: nat)
    requires Good(c) && Issued(c.held, a) && 0 < SizeOf(c.held, a) <= MAX_REQUEST
    requires InFreeBlock(c.h, k, q, x)
    ensures !InRegion(c.held, a, x)
  {
    var blocks := BlocksOf(c.h.slabs, c.held.large);
    assert x / PAGE_SIZE == q && Clear(Covered(blocks), q, k);
    if InRegion(c.held, a, x) {
      RegionOnBlock(c, a, x);
    }
  }

  lemma BookkeepingApart(c: Config, a: nat, x: nat)
    requires Good(c) && Issued(c.held, a) && Bookkeeping(c.h, x)
    ensures 0 < SizeOf(c.held, a) <= MAX_REQUEST && !InRegion(c.held, a, x)
  {
    SizesAreSound(c, a);
    if p: nat :| InHeader(c.h, p, x) {
      HeaderApart(c, a, p, x);
    } else if p: nat, y: nat :| InFreeObject(c.h, p, y, x) {
      FreeObjectApart(c, a, p, y, x);
    } else {
      var k: nat, q: nat :| InFreeBlock(c.h, k, q, x);
      FreeBlockApart(c, a, k, q, x);
    }
  }

  /** Over any run, no address at which the allocators keep their data lies in memory a caller holds. */
  lemma BookkeepingIsApart(ops: seq<Op>, a: nat, x: nat)
    requires RunOk(Start(), ops) && Issued(Run(Start(), ops).held, a) && Bookkeeping(Run(Start(), ops).h, x)
    ensures 0 < SizeOf(Run(Start(), ops).held, a) <= MAX_REQUEST && !InRegion(Run(Start(), ops).held, a, x)
  {
    BookkeepingApart(Run(Start(), ops), a, x);
  }

  /** Over any run, each slab's free objects are distinct objects of its page and exactly those nobody holds, each slab has a
      held object, and it is on the partial list of its cache if and only if it has a free one, else on the full list. */
  lemma SlabsStayConsistent(ops: seq<Op>, p: nat)
    requires RunOk(Start(), ops) && p in Run(Start(), ops).h.slabs
    ensures var c := Run(Start(), ops);
      var s := c.h.slabs[p];
      && s.cache < NUM_CACHES && |c.h.partial| == NUM_CACHES == |c.h.full| && NoDup(s.free)
      && (forall x :: x in s.free <==> x in Slots(p, s.cache) && x !in c.held.small)
      && |s.free| < Total(s.cache)
      && (p in c.h.partial[s.cache] <==> s.free != []) && (p in c.h.full[s.cache] <==> s.free == [])
  {
    var c := Run(Start(), ops);
    assert SlabOk(p, c.h.slabs[p], c.held.small);
    assert ListsOk(c.h.slabs, c.h.partial, c.h.full);
  }
}
