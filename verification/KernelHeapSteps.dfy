/** Every step of kmalloc and kfree keeps the heap invariant. */
module KernelHeapSteps {
  import opened Blocks
  import opened Seqs
  import opened Buddy
  import opened BuddyCanon
  import opened KernelHeap
  import opened KernelHeapInv

  // ---- the slab layer ---------------------------------------------------------------------------------

  lemma SlotElsewhere(p: nat, c: nat, x: nat)
    requires c < NUM_CACHES && x / PAGE_SIZE != p
    ensures x !in Slots(p, c)
  {
    if x in Slots(p, c) { SlotOf(p, c, x); }
  }

  /** Changing one slab's free list together with the status of one of its objects. */
  lemma ExchangeObject(slabs: map<nat, Slab>, small: map<nat, nat>, slabs': map<nat, Slab>, small': map<nat, nat>,
                       page: nat, x: nat)
    requires ObjectsOk(slabs, small) && page in slabs && x / PAGE_SIZE == page
    requires slabs'.Keys == slabs.Keys && slabs'[page].cache == slabs[page].cache
    requires forall p :: p in slabs && p != page ==> slabs'[p] == slabs[p]
    requires forall y :: y != x ==> (y in small <==> y in small') && (y in small ==> small[y] == small'[y])
    requires x in small' ==> ObjectOk(slabs', x, small'[x])
    requires SlabOk(page, slabs'[page], small')
    ensures ObjectsOk(slabs', small')
  {
    forall a | a in small' && a != x ensures ObjectOk(slabs', a, small'[a]) {
      OtherObject(slabs, slabs', a, small[a], page);
    }
    forall p | p in slabs && p != page ensures SlabOk(p, slabs'[p], small') {
      OtherSlab(p, slabs[p], small, small', x);
    }
  }

  lemma OtherObject(slabs: map<nat, Slab>, slabs': map<nat, Slab>, a: nat, size: nat, page: nat)
    requires ObjectOk(slabs, a, size) && slabs'.Keys == slabs.Keys && page in slabs
    requires slabs'[page].cache == slabs[page].cache && forall p :: p in slabs && p != page ==> slabs'[p] == slabs[p]
    ensures ObjectOk(slabs', a, size)
  {
  }

  lemma OtherSlab(p: nat, slab: Slab, small: map<nat, nat>, small': map<nat, nat>, x: nat)
    requires SlabOk(p, slab, small) && x / PAGE_SIZE != p
    requires forall y :: y != x ==> (y in small <==> y in small')
    ensures SlabOk(p, slab, small')
  {
    SlotElsewhere(p, slab.cache, x);
  }

  lemma PopFree(free: seq<nat>)
    requires free != [] && NoDup(free)
    ensures NoDup(free[1..]) && forall y :: y in free[1..] <==> y in free && y != free[0]
  {
    assert free == [free[0]] + free[1..];
  }

  lemma PopLists(h: Heap, c: nat)
    requires ListsOk(h.slabs, h.partial, h.full) && c < NUM_CACHES && h.partial[c] != []
    ensures h.partial[c][0] in h.slabs && h.slabs[h.partial[c][0]].free != []
    ensures var r := SlabPop(h, c).0; ListsOk(r.slabs, r.partial, r.full)
  {
    var page := h.partial[c][0];
    assert page in h.partial[c];
    var r := SlabPop(h, c).0;
    if |h.slabs[page].free| == 1 {
      WithoutMembers(h.partial[c], page);
      assert page !in h.full[c];
      assert forall p :: p in r.full[c] <==> p == page || p in h.full[c];
    }
  }

  /** Handing out the first object of the first partial slab. */
  lemma PopKeeps(h: Heap, small: map<nat, nat>, c: nat, size: nat)
    requires SlabLayer(h, small) && 0 < size <= MAX_SMALL && c == ClassFor(size) && h.partial[c] != []
    ensures h.partial[c][0] in h.slabs && h.slabs[h.partial[c][0]].free != []
    ensures var (r, x) := SlabPop(h, c);
      && x !in small && SlabLayer(r, small[x := size])
      && r.slabs.Keys == h.slabs.Keys && r.buddy == h.buddy
      && |r.slabs[h.partial[c][0]].free| < Total(c)
      && (forall p :: p in h.slabs && p != h.partial[c][0] ==> r.slabs[p] == h.slabs[p])
  {
    PopLists(h, c);
    var page := h.partial[c][0];
    assert page in h.partial[c];
    assert SlabOk(page, h.slabs[page], small);
    var (r, x) := SlabPop(h, c);
    assert x in h.slabs[page].free;
    SlotOf(page, c, x);
    FreePlusHeld(page, h.slabs[page], small);
    PopFree(h.slabs[page].free);
    ExchangeObject(h.slabs, small, r.slabs, small[x := size], page, x);
  }

  lemma PushLists(h: Heap, x: nat)
    requires ListsOk(h.slabs, h.partial, h.full) && x / PAGE_SIZE in h.slabs && h.slabs[x / PAGE_SIZE].cache < NUM_CACHES
    ensures var r := SlabPush(h, x); ListsOk(r.slabs, r.partial, r.full)
  {
    var page: nat := x / PAGE_SIZE;
    var c := h.slabs[page].cache;
    var r := SlabPush(h, x);
    if h.slabs[page].free == [] {
      WithoutMembers(h.full[c], page);
      assert page !in h.partial[c];
      assert forall p :: p in r.partial[c] <==> p == page || p in h.partial[c];
    }
  }

  /** Taking an object back. */
  lemma PushKeeps(h: Heap, small: map<nat, nat>, x: nat)
    requires SlabLayer(h, small) && x in small
    ensures x / PAGE_SIZE in h.slabs && h.slabs[x / PAGE_SIZE].cache < NUM_CACHES
    ensures SlabLayer(SlabPush(h, x), small - {x})
  {
    assert ObjectOk(h.slabs, x, small[x]);
    var page: nat := x / PAGE_SIZE;
    assert SlabOk(page, h.slabs[page], small);
    PushLists(h, x);
    PushObjects(h.slabs, small, x);
  }

  lemma PushObjects(slabs: map<nat, Slab>, small: map<nat, nat>, x: nat)
    requires ObjectsOk(slabs, small) && x in small && x / PAGE_SIZE in slabs
    ensures var page := x / PAGE_SIZE; ObjectsOk(slabs[page := slabs[page].(free := [x] + slabs[page].free)], small - {x})
  {
    var page: nat := x / PAGE_SIZE;
    assert ObjectOk(slabs, x, small[x]) && SlabOk(page, slabs[page], small);
    PushSlab(page, slabs[page], small, x);
    ExchangeObject(slabs, small, slabs[page := slabs[page].(free := [x] + slabs[page].free)], small - {x}, page, x);
  }

  lemma PushSlab(page: nat, slab: Slab, small: map<nat, nat>, x: nat)
    requires SlabOk(page, slab, small) && x in small && x in Slots(page, slab.cache)
    ensures SlabOk(page, slab.(free := [x] + slab.free), small - {x})
  {
  }

  /** Adding a slab page whose objects are all free. */
  lemma CreateLayer(h: Heap, small: map<nat, nat>, r: Heap, page: nat, c: nat)
    requires SlabLayer(h, small) && c < NUM_CACHES && page !in h.slabs
    requires r.slabs == h.slabs[page := Slab(c, Slots(page, c))]
    requires r.partial == h.partial[c := [page] + h.partial[c]] && r.full == h.full
    ensures SlabLayer(r, small)
  {
    SlotsDistinct(page, c);
    CreateObjects(h.slabs, small, page, c);
    CreateLists(h, r, page, c);
  }

  lemma CreateObjects(slabs: map<nat, Slab>, small: map<nat, nat>, page: nat, c: nat)
    requires ObjectsOk(slabs, small) && c < NUM_CACHES && page !in slabs && NoDup(Slots(page, c))
    ensures ObjectsOk(slabs[page := Slab(c, Slots(page, c))], small)
  {
    var more := slabs[page := Slab(c, Slots(page, c))];
    forall a | a in small ensures ObjectOk(more, a, small[a]) && a !in Slots(page, c) {
      assert ObjectOk(slabs, a, small[a]);
      SlotElsewhere(page, c, a);
    }
    forall p | p in more ensures SlabOk(p, more[p], small) {
      if p != page { assert SlabOk(p, slabs[p], small); }
    }
  }

  lemma CreateLists(h: Heap, r: Heap, page: nat, c: nat)
    requires ListsOk(h.slabs, h.partial, h.full) && c < NUM_CACHES && page !in h.slabs
    requires r.slabs == h.slabs[page := Slab(c, Slots(page, c))] && Total(c) >= 1
    requires r.partial == h.partial[c := [page] + h.partial[c]] && r.full == h.full
    ensures ListsOk(r.slabs, r.partial, r.full)
  {
    assert page !in h.partial[c];
    assert forall p :: p in r.partial[c] <==> p == page || p in h.partial[c];
  }

  /** Dropping a slab page whose objects are all free. */
  lemma ReleaseLayer(h: Heap, small: map<nat, nat>, r: Heap, page: nat)
    requires SlabLayer(h, small) && page in h.slabs && |h.slabs[page].free| == Total(h.slabs[page].cache)
    requires h.slabs[page].cache < NUM_CACHES && r.slabs == h.slabs - {page} && r.full == h.full
    requires r.partial == h.partial[h.slabs[page].cache := Without(h.partial[h.slabs[page].cache], page)]
    ensures SlabLayer(r, small)
  {
    ReleaseObjects(h.slabs, small, page);
    ReleaseLists(h, r, page);
  }

  lemma ReleaseObjects(slabs: map<nat, Slab>, small: map<nat, nat>, page: nat)
    requires ObjectsOk(slabs, small) && page in slabs && |slabs[page].free| == Total(slabs[page].cache)
    ensures ObjectsOk(slabs - {page}, small)
    ensures slabs[page].free != []
  {
    var rest, c := slabs - {page}, slabs[page].cache;
    assert SlabOk(page, slabs[page], small);
    SlotsDistinct(page, c);
    FreePlusHeld(page, slabs[page], small);
    var held := HeldIn(page, c, small);
    forall a | a in small ensures ObjectOk(rest, a, small[a]) {
      assert ObjectOk(slabs, a, small[a]);
      assert a / PAGE_SIZE == page ==> a in held;
    }
    forall p | p in rest ensures SlabOk(p, rest[p], small) { assert SlabOk(p, slabs[p], small); }
  }

  lemma ReleaseLists(h: Heap, r: Heap, page: nat)
    requires ListsOk(h.slabs, h.partial, h.full) && page in h.slabs && h.slabs[page].free != []
    requires h.slabs[page].cache < NUM_CACHES && r.slabs == h.slabs - {page} && r.full == h.full
    requires r.partial == h.partial[h.slabs[page].cache := Without(h.partial[h.slabs[page].cache], page)]
    ensures ListsOk(r.slabs, r.partial, r.full)
  {
    WithoutMembers(h.partial[h.slabs[page].cache], page);
  }

  // ---- the buddy layer under the slab layer -----------------------------------------------------------

  /** A buddy allocation for the slab layer or for a large request. */
  lemma AllocForHeap(b: State, blocks: map<nat, nat>, order: nat)
    requires Inv(b, blocks) && InHeap(b) && order <= MAX_ORDERS && RoomFor(b, order)
    ensures var (r, page) := Alloc(b, order);
      && page !in blocks && Inv(r, blocks[page := order]) && r.meta[page] == Meta(order, false, false)
      && |b.meta| <= |r.meta|
      && (forall p :: p in blocks ==> p < |b.meta| && r.meta[p] == b.meta[p])
  {
    InvInHeap(b, blocks);
    AllocKeepsInv(b, blocks, order);
  }

  lemma FreeForHeap(b: State, blocks: map<nat, nat>, page: nat)
    requires Inv(b, blocks) && page in blocks
    ensures page < |b.meta| && b.meta[page].order == blocks[page] <= MAX_ORDERS
    ensures Inv(Free(b, page), blocks - {page})
    ensures forall p :: p in blocks && p != page ==> p < |b.meta| && Free(b, page).meta[p] == b.meta[p]
  {
    FreeKeepsInv(b, blocks, page);
    InvInHeap(Free(b, page), blocks - {page});
  }

  // How the blocks in use and the slab flags follow the slab map and the large allocations.

  lemma BlocksMembers(slabs: map<nat, Slab>, large: map<nat, nat>)
    ensures forall p :: p in BlocksOf(slabs, large) <==> p in slabs || p in large
  {
  }

  lemma BlocksAddSlab(slabs: map<nat, Slab>, large: map<nat, nat>, page: nat, slab: Slab)
    requires page !in BlocksOf(slabs, large)
    ensures BlocksOf(slabs[page := slab], large) == BlocksOf(slabs, large)[page := 0]
  {
  }

  lemma BlocksDropSlab(slabs: map<nat, Slab>, large: map<nat, nat>, page: nat)
    requires page !in large
    ensures BlocksOf(slabs - {page}, large) == BlocksOf(slabs, large) - {page}
  {
  }

  lemma BlocksAddLarge(slabs: map<nat, Slab>, large: map<nat, nat>, page: nat, size: nat)
    requires page !in BlocksOf(slabs, large) && size <= MAX_REQUEST
    ensures BlocksOf(slabs, large[page := size]) == BlocksOf(slabs, large)[page := OrderFor(size)]
  {
  }

  lemma BlocksDropLarge(slabs: map<nat, Slab>, large: map<nat, nat>, page: nat)
    requires page !in slabs
    ensures BlocksOf(slabs, large - {page}) == BlocksOf(slabs, large) - {page}
  {
  }

  /** Metadata that changed at most at `page`, as far as pages in use are concerned. */
  ghost predicate MetaKept(slabs: map<nat, Slab>, large: map<nat, nat>, meta: seq<Meta>, meta': seq<Meta>, page: nat)
  {
    forall p :: (p in slabs || p in large) && p != page ==> p < |meta| && p < |meta'| && meta'[p] == meta[p]
  }

  lemma FlagsAddSlab(slabs: map<nat, Slab>, large: map<nat, nat>, meta: seq<Meta>, meta': seq<Meta>, page: nat, slab: Slab)
    requires FlagsOk(slabs, large, meta) && MetaKept(slabs, large, meta, meta', page)
    requires page < |meta'| && meta'[page].isSlab && page !in BlocksOf(slabs, large)
    ensures FlagsOk(slabs[page := slab], large, meta')
  {
    BlocksMembers(slabs, large);
  }

  lemma FlagsDropSlab(slabs: map<nat, Slab>, large: map<nat, nat>, meta: seq<Meta>, meta': seq<Meta>, page: nat)
    requires FlagsOk(slabs, large, meta) && MetaKept(slabs, large, meta, meta', page) && page in slabs
    ensures FlagsOk(slabs - {page}, large, meta')
  {
  }

  lemma WithSlabKeeps(h: Heap, held: Held, b: State, page: nat, c: nat)
    requires FlagsOk(h.slabs, held.large, h.buddy.meta) && SlabLayer(h, held.small)
    requires c < NUM_CACHES && page < |b.meta| && page !in BlocksOf(h.slabs, held.large)
    requires Inv(b, BlocksOf(h.slabs, held.large)[page := 0])
    requires MetaKept(h.slabs, held.large, h.buddy.meta, b.meta, page)
    ensures Consistent(WithSlab(h, b, page, c), held)
  {
    var r := WithSlab(h, b, page, c);
    var slab := Slab(c, Slots(page, c));
    BlocksAddSlab(h.slabs, held.large, page, slab);
    FlagKeepsInv(b, BlocksOf(h.slabs, held.large)[page := 0], page, true);
    FlagsAddSlab(h.slabs, held.large, h.buddy.meta, r.buddy.meta, page, slab);
    assert page !in h.slabs by { BlocksMembers(h.slabs, held.large); }
    CreateLayer(h, held.small, r, page, c);
  }

  lemma CreateKeeps(h: Heap, held: Held, c: nat)
    requires Consistent(h, held) && Wf(h) && c < NUM_CACHES && RoomFor(h.buddy, 0)
    ensures Consistent(SlabCreate(h, c), held)
    ensures Alloc(h.buddy, 0).1 !in h.slabs
  {
    var (b, page) := Alloc(h.buddy, 0);
    BlocksMembers(h.slabs, held.large);
    AllocForHeap(h.buddy, BlocksOf(h.slabs, held.large), 0);
    WithSlabKeeps(h, held, b, page, c);
  }

  lemma WithoutSlabKeeps(h: Heap, held: Held, r: Heap, page: nat)
    requires FlagsOk(h.slabs, held.large, h.buddy.meta) && SlabLayer(h, held.small)
    requires page in h.slabs && |h.slabs[page].free| == Total(h.slabs[page].cache) && h.slabs[page].cache < NUM_CACHES
    requires Inv(r.buddy, BlocksOf(h.slabs, held.large) - {page})
    requires MetaKept(h.slabs, held.large, h.buddy.meta, r.buddy.meta, page)
    requires r.slabs == h.slabs - {page} && r.full == h.full
    requires r.partial == h.partial[h.slabs[page].cache := Without(h.partial[h.slabs[page].cache], page)]
    ensures Consistent(r, held)
  {
    BlocksDropSlab(h.slabs, held.large, page);
    FlagsDropSlab(h.slabs, held.large, h.buddy.meta, r.buddy.meta, page);
    ReleaseLayer(h, held.small, r, page);
  }

  lemma ReleaseKeeps(h: Heap, held: Held, page: nat)
    requires Consistent(h, held) && page in h.slabs && |h.slabs[page].free| == Total(h.slabs[page].cache)
    ensures Shape(h.buddy) && page < |h.buddy.meta| && h.buddy.meta[page].order <= MAX_ORDERS
    ensures Consistent(SlabRelease(h, page), held)
  {
    var blocks := BlocksOf(h.slabs, held.large);
    BlocksMembers(h.slabs, held.large);
    var b := SetSlabFlag(h.buddy, page, false);
    FlagKeepsInv(h.buddy, blocks, page, false);
    FreeForHeap(b, blocks, page);
    WithoutSlabKeeps(h, held, SlabRelease(h, page), page);
  }

  lemma LargeAddKeeps(h: Heap, held: Held, b: State, page: nat, size: nat)
    requires FlagsOk(h.slabs, held.large, h.buddy.meta) && SlabLayer(h, held.small)
    requires MAX_SMALL < size <= MAX_REQUEST && page < |b.meta| && page !in BlocksOf(h.slabs, held.large)
    requires Inv(b, BlocksOf(h.slabs, held.large)[page := OrderFor(size)]) && !b.meta[page].isSlab
    requires MetaKept(h.slabs, held.large, h.buddy.meta, b.meta, page)
    ensures Consistent(h.(buddy := b), held.(large := held.large[page := size]))
  {
    BlocksMembers(h.slabs, held.large);
    BlocksAddLarge(h.slabs, held.large, page, size);
    FlagsAddLarge(h.slabs, held.large, h.buddy.meta, b.meta, page, size);
  }

  lemma FlagsAddLarge(slabs: map<nat, Slab>, large: map<nat, nat>, meta: seq<Meta>, meta': seq<Meta>, page: nat, size: nat)
    requires FlagsOk(slabs, large, meta) && MetaKept(slabs, large, meta, meta', page)
    requires page < |meta'| && !meta'[page].isSlab && page !in slabs && page !in large && MAX_SMALL < size <= MAX_REQUEST
    ensures FlagsOk(slabs, large[page := size], meta')
  {
  }

  lemma LargeAllocKeeps(h: Heap, held: Held, size: nat)
    requires Consistent(h, held) && Wf(h) && MAX_SMALL < size <= MAX_REQUEST && RoomFor(h.buddy, OrderFor(size))
    ensures var (b, page) := Alloc(h.buddy, OrderFor(size));
      && page !in held.large && page !in h.slabs
      && Consistent(h.(buddy := b), held.(large := held.large[page := size]))
  {
    var (b, page) := Alloc(h.buddy, OrderFor(size));
    BlocksMembers(h.slabs, held.large);
    AllocForHeap(h.buddy, BlocksOf(h.slabs, held.large), OrderFor(size));
    LargeAddKeeps(h, held, b, page, size);
  }

  lemma LargeDropKeeps(h: Heap, held: Held, b: State, page: nat)
    requires FlagsOk(h.slabs, held.large, h.buddy.meta) && SlabLayer(h, held.small) && page in held.large
    requires Inv(b, BlocksOf(h.slabs, held.large) - {page})
    requires MetaKept(h.slabs, held.large, h.buddy.meta, b.meta, page)
    ensures Consistent(h.(buddy := b), held.(large := held.large - {page}))
  {
    BlocksDropLarge(h.slabs, held.large, page);
  }

  lemma LargeFreeKeeps(h: Heap, held: Held, page: nat)
    requires Consistent(h, held) && page in held.large
    ensures Shape(h.buddy) && page < |h.buddy.meta| && h.buddy.meta[page].order <= MAX_ORDERS
    ensures Consistent(h.(buddy := Free(h.buddy, page)), held.(large := held.large - {page}))
  {
    BlocksMembers(h.slabs, held.large);
    FreeForHeap(h.buddy, BlocksOf(h.slabs, held.large), page);
    LargeDropKeeps(h, held, Free(h.buddy, page), page);
  }
}
