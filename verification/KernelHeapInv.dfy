/** The invariant that ties the slab layer, the buddy layer and the pointers held by callers. */
module KernelHeapInv {
  import opened Blocks
  import opened Seqs
  import opened Buddy
  import opened BuddyCanon
  import opened KernelHeap

  /** What callers hold: `small` maps the address of each object to the size asked for,
      `large` maps the first page of each larger allocation to the size asked for. */
  datatype Held = Held(small: map<nat, nat>, large: map<nat, nat>)

  // ---- the slab layer ----------------------------------------------------------------------

  /** A held object belongs to a slab of the right size class. */
  ghost predicate ObjectOk(slabs: map<nat, Slab>, a: nat, size: nat)
  {
    && 0 < size <= MAX_SMALL && a / PAGE_SIZE in slabs
    && slabs[a / PAGE_SIZE].cache == ClassFor(size) && a in Slots(a / PAGE_SIZE, ClassFor(size))
  }

  /** The free objects of a slab are distinct objects of its page, and exactly those not held. */
  ghost predicate SlabOk(page: nat, slab: Slab, small: map<nat, nat>)
  {
    && slab.cache < NUM_CACHES
    && NoDup(slab.free)
    && (forall x :: x in slab.free ==> x in Slots(page, slab.cache))
    && (forall x :: x in Slots(page, slab.cache) ==> (x in slab.free <==> x !in small))
  }

  /** The partial list of a cache holds exactly its slabs with a free object, the full list the others. */
  ghost predicate ListsOk(slabs: map<nat, Slab>, partial: seq<seq<nat>>, full: seq<seq<nat>>)
  {
    && |partial| == NUM_CACHES == |full|
    && (forall c: nat :: c < NUM_CACHES ==> NoDup(partial[c]) && NoDup(full[c]))
    && (forall c: nat, p: nat :: c < NUM_CACHES ==>
          (p in partial[c] <==> p in slabs && slabs[p].cache == c && slabs[p].free != []))
    && (forall c: nat, p: nat :: c < NUM_CACHES ==>
          (p in full[c] <==> p in slabs && slabs[p].cache == c && slabs[p].free == []))
  }

  ghost predicate ObjectsOk(slabs: map<nat, Slab>, small: map<nat, nat>)
  {
    && (forall a :: a in small ==> ObjectOk(slabs, a, small[a]))
    && (forall p :: p in slabs ==> SlabOk(p, slabs[p], small))
  }

  ghost predicate SlabLayer(h: Heap, small: map<nat, nat>)
  {
    ObjectsOk(h.slabs, small) && ListsOk(h.slabs, h.partial, h.full)
  }

  // ---- the whole heap ------------------------------------------------------------------------

  /** The buddy blocks in use: every slab page, and the block of every large allocation. */
  ghost function BlocksOf(slabs: map<nat, Slab>, large: map<nat, nat>): map<nat, nat>
  {
    map p: nat | p in slabs.Keys + large.Keys ::
      if p in slabs then 0 else if large[p] <= MAX_REQUEST then OrderFor(large[p]) else 0
  }

  /** The slab flag of a page in use tells which allocator issued it. */
  ghost predicate FlagsOk(slabs: map<nat, Slab>, large: map<nat, nat>, meta: seq<Meta>)
  {
    && (forall p :: p in slabs ==> p < |meta| && meta[p].isSlab)
    && (forall p :: p in large ==> p < |meta| && !meta[p].isSlab && p !in slabs && MAX_SMALL < large[p] <= MAX_REQUEST)
  }

  /** The invariant inside an operation. */
  ghost predicate Consistent(h: Heap, held: Held)
  {
    && Inv(h.buddy, BlocksOf(h.slabs, held.large))
    && FlagsOk(h.slabs, held.large, h.buddy.meta)
    && SlabLayer(h, held.small)
  }

  /** The invariant between operations: moreover no slab page is without a held object. */
  ghost predicate HeapInv(h: Heap, held: Held)
  {
    Consistent(h, held) && forall p :: p in h.slabs ==> |h.slabs[p].free| < Total(h.slabs[p].cache)
  }

  // ---- object addresses ------------------------------------------------------------------------

  /** Objects lie inside their page, clear of the header. */
  lemma SlotBounds(page: nat, c: nat, i: nat)
    requires c < NUM_CACHES && i < Total(c)
    ensures SlotAddr(page, c, i) / PAGE_SIZE == page
    ensures page * PAGE_SIZE + SLAB_HEADER <= SlotAddr(page, c, i)
    ensures SlotAddr(page, c, i) + ObjSize(c) <= (page + 1) * PAGE_SIZE
  {
    assert c == 0 || c == 1 || c == 2 || c == 3 || c == 4 || c == 5 || c == 6 || c == 7;
  }

  lemma SlotOf(page: nat, c: nat, x: nat)
    requires c < NUM_CACHES && x in Slots(page, c)
    ensures x / PAGE_SIZE == page && x % PAGE_SIZE >= SLAB_HEADER
    ensures x + ObjSize(c) <= (page + 1) * PAGE_SIZE
  {
    var i :| 0 <= i < Total(c) && Slots(page, c)[i] == x;
    SlotBounds(page, c, i);
  }

  lemma SlotsApart(page: nat, c: nat, i: nat, j: nat)
    requires c < NUM_CACHES && i < j < Total(c)
    ensures SlotAddr(page, c, i) + ObjSize(c) <= SlotAddr(page, c, j)
  {
    assert c == 0 || c == 1 || c == 2 || c == 3 || c == 4 || c == 5 || c == 6 || c == 7;
  }

  lemma SlotsDistinct(page: nat, c: nat)
    requires c < NUM_CACHES
    ensures NoDup(Slots(page, c)) && Total(c) >= 1
  {
    forall i, j | 0 <= i < j < Total(c) ensures Slots(page, c)[i] != Slots(page, c)[j] { SlotsApart(page, c, i, j); }
    assert c == 0 || c == 1 || c == 2 || c == 3 || c == 4 || c == 5 || c == 6 || c == 7;
  }

  // ---- counting -----------------------------------------------------------------------------------

  ghost function HeldIn(page: nat, c: nat, small: map<nat, nat>): set<nat>
    requires c < NUM_CACHES
  {
    set x | x in Slots(page, c) && x in small
  }

  lemma SplitSize(all: set<nat>, free: set<nat>, held: set<nat>)
    requires forall x :: x in all <==> x in free || x in held
    requires free !! held
    ensures |all| == |free| + |held|
  {
    assert all == free + held;
  }

  /** The number of free objects plus the number of held objects of a slab is its object count. */
  lemma FreePlusHeld(page: nat, slab: Slab, small: map<nat, nat>)
    requires SlabOk(page, slab, small)
    ensures |slab.free| + |HeldIn(page, slab.cache, small)| == Total(slab.cache)
  {
    var slots := Slots(page, slab.cache);
    SlotsDistinct(page, slab.cache);
    var free := set x | x in slab.free;
    var all := set x | x in slots;
    var held := HeldIn(page, slab.cache, small);
    NoDupSize(slab.free, free);
    NoDupSize(slots, all);
    SplitSize(all, free, held);
  }

  lemma FlagKeepsInv(b: State, blocks: map<nat, nat>, page: nat, flag: bool)
    requires Inv(b, blocks) && page < |b.meta|
    ensures Inv(SetSlabFlag(b, page, flag), blocks)
  {
    var r := SetSlabFlag(b, page, flag);
    forall a | a in blocks ensures LiveBlock(r, a, blocks[a]) { assert LiveBlock(b, a, blocks[a]); }
  }

  lemma ConsistentIsWf(h: Heap, held: Held)
    requires Consistent(h, held)
    ensures Wf(h)
  {
    InvInHeap(h.buddy, BlocksOf(h.slabs, held.large));
    PartialUsable(h, held.small);
  }

  lemma PartialUsable(h: Heap, small: map<nat, nat>)
    requires SlabLayer(h, small)
    ensures forall c: nat, p: nat :: c < NUM_CACHES && p in h.partial[c] ==>
      p in h.slabs && h.slabs[p].free != [] && h.slabs[p].cache < NUM_CACHES
  {
  }
}
