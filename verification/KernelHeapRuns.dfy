/** Whole runs of kmalloc and kfree, and what they guarantee to callers. */
module KernelHeapRuns {
  import opened Blocks
  import opened Seqs
  import opened Buddy
  import opened BuddyCanon
  import BuddyRuns
  import opened KernelHeap
  import opened KernelHeapInv
  import opened KernelHeapSteps

  // ---- one call -----------------------------------------------------------------------------------

  ghost predicate Issued(held: Held, a: nat)
  {
    a in held.small || (a % PAGE_SIZE == 0 && a / PAGE_SIZE in held.large)
  }

  ghost function AfterMalloc(held: Held, size: nat, ptr: Option<nat>): Held
  {
    if ptr.None? then held
    else if size > MAX_SMALL then held.(large := held.large[ptr.value / PAGE_SIZE := size])
    else held.(small := held.small[ptr.value := size])
  }

  ghost function AfterFree(held: Held, ptr: Option<nat>): Held
  {
    if ptr.None? then held
    else if ptr.value in held.small then held.(small := held.small - {ptr.value})
    else held.(large := held.large - {ptr.value / PAGE_SIZE})
  }

  lemma SlabAllocKeeps(h: Heap, held: Held, size: nat)
    requires HeapInv(h, held) && Wf(h) && 0 < size <= MAX_SMALL
    requires h.partial[ClassFor(size)] == [] ==> RoomFor(h.buddy, 0)
    ensures var (r, x) := SlabAlloc(h, ClassFor(size));
      x !in held.small && HeapInv(r, held.(small := held.small[x := size]))
  {
    var c := ClassFor(size);
    SomePartial(h, c);
    if h.partial[c] == [] {
      CreateKeeps(h, held, c);
      PopInv(h, SlabCreate(h, c), held, c, size);
    } else {
      PopInv(h, h, held, c, size);
    }
  }

  /** Popping keeps the invariant when only the popped slab may be without held objects. */
  lemma PopInv(h: Heap, m: Heap, held: Held, c: nat, size: nat)
    requires Consistent(m, held) && 0 < size <= MAX_SMALL && c == ClassFor(size) && m.partial[c] != []
    requires m.partial[c][0] in m.slabs && m.slabs[m.partial[c][0]].free != []
    requires forall p :: p in m.slabs && p != m.partial[c][0] ==> |m.slabs[p].free| < Total(m.slabs[p].cache)
    ensures var (r, x) := SlabPop(m, c);
      x !in held.small && HeapInv(r, held.(small := held.small[x := size]))
  {
    PopKeeps(m, held.small, c, size);
    var (r, x) := SlabPop(m, c);
    SlabLayerOnly(m, r, held, held.small[x := size]);
    assert m.partial[c][0] in m.partial[c];
  }

  /** A step of the slab layer that adds and drops no slab page keeps the rest of the invariant. */
  lemma SlabLayerOnly(h: Heap, r: Heap, held: Held, small: map<nat, nat>)
    requires Inv(h.buddy, BlocksOf(h.slabs, held.large)) && FlagsOk(h.slabs, held.large, h.buddy.meta)
    requires r.slabs.Keys == h.slabs.Keys && r.buddy == h.buddy && SlabLayer(r, small)
    ensures Consistent(r, held.(small := small))
  {
    assert BlocksOf(h.slabs, held.large) == BlocksOf(r.slabs, held.large);
  }

  /** kmalloc keeps the invariant and issues a pointer nobody holds. */
  lemma KmallocKeeps(h: Heap, held: Held, size: nat)
    requires HeapInv(h, held) && Wf(h) && CanMalloc(h, size)
    ensures var (r, ptr) := Kmalloc(h, size);
      && HeapInv(r, AfterMalloc(held, size, ptr))
      && (ptr.None? <==> size == 0)
      && (ptr.Some? ==> !Issued(held, ptr.value) && Issued(AfterMalloc(held, size, ptr), ptr.value))
  {
    if size > MAX_SMALL {
      LargeAllocKeeps(h, held, size);
      var page := Alloc(h.buddy, OrderFor(size)).1;
      assert page * PAGE_SIZE / PAGE_SIZE == page;
      NotObject(h.slabs, held.small, page * PAGE_SIZE);
    } else if size > 0 {
      SlabAllocKeeps(h, held, size);
      var (r, x) := SlabAlloc(h, ClassFor(size));
      NotPage(r.slabs, held.small[x := size], x);
    }
  }

  /** No object starts on a page boundary: the slab header is there. */
  lemma NotPage(slabs: map<nat, Slab>, small: map<nat, nat>, x: nat)
    requires ObjectsOk(slabs, small) && x in small
    ensures x % PAGE_SIZE != 0 && x / PAGE_SIZE in slabs
  {
    assert ObjectOk(slabs, x, small[x]);
    SlotOf(x / PAGE_SIZE, ClassFor(small[x]), x);
  }

  lemma NotObject(slabs: map<nat, Slab>, small: map<nat, nat>, x: nat)
    requires ObjectsOk(slabs, small) && x % PAGE_SIZE == 0
    ensures x !in small
  {
    if x in small { NotPage(slabs, small, x); }
  }

  /** kfree reaches the allocator that issued the pointer. */
  lemma DispatchIsRight(h: Heap, held: Held, a: nat)
    requires Consistent(h, held) && Issued(held, a)
    ensures a / PAGE_SIZE < |h.buddy.meta|
    ensures h.buddy.meta[a / PAGE_SIZE].isSlab <==> a in held.small
    ensures a in held.small ==> a / PAGE_SIZE in h.slabs && h.slabs[a / PAGE_SIZE].cache < NUM_CACHES
  {
    if a in held.small {
      NotPage(h.slabs, held.small, a);
      assert ObjectOk(h.slabs, a, held.small[a]);
    }
  }

  lemma SlabFreeKeeps(h: Heap, held: Held, x: nat)
    requires HeapInv(h, held) && Wf(h) && x in held.small
    requires x / PAGE_SIZE in h.slabs && h.slabs[x / PAGE_SIZE].cache < NUM_CACHES
    requires x / PAGE_SIZE < |h.buddy.meta| && h.buddy.meta[x / PAGE_SIZE].order <= MAX_ORDERS
    ensures HeapInv(SlabFree(h, x), held.(small := held.small - {x}))
  {
    PushedConsistent(h, held, x);
    ReleaseIfEmpty(SlabPush(h, x), held.(small := held.small - {x}), x / PAGE_SIZE);
  }

  lemma PushedConsistent(h: Heap, held: Held, x: nat)
    requires HeapInv(h, held) && x in held.small
    ensures x / PAGE_SIZE in h.slabs && h.slabs[x / PAGE_SIZE].cache < NUM_CACHES
    ensures Consistent(SlabPush(h, x), held.(small := held.small - {x}))
    ensures OthersInUse(SlabPush(h, x), x / PAGE_SIZE)
  {
    PushKeeps(h, held.small, x);
    SlabLayerOnly(h, SlabPush(h, x), held, held.small - {x});
    PushLeavesOthers(h, held, x);
  }

  lemma PushLeavesOthers(h: Heap, held: Held, x: nat)
    requires HeapInv(h, held) && x / PAGE_SIZE in h.slabs && h.slabs[x / PAGE_SIZE].cache < NUM_CACHES
    ensures OthersInUse(SlabPush(h, x), x / PAGE_SIZE)
  {
    forall p | p in h.slabs && p != x / PAGE_SIZE
      ensures h.slabs[p].cache < NUM_CACHES && |h.slabs[p].free| < Total(h.slabs[p].cache)
    {
      assert SlabOk(p, h.slabs[p], held.small);
    }
  }

  /** The last step of slab_free: only the touched slab can have become empty. */
  lemma ReleaseIfEmpty(m: Heap, held: Held, page: nat)
    requires Consistent(m, held) && OthersInUse(m, page) && page in m.slabs
    ensures m.slabs[page].cache < NUM_CACHES && page < |m.buddy.meta| && m.buddy.meta[page].order <= MAX_ORDERS
    ensures HeapInv(if |m.slabs[page].free| == Total(m.slabs[page].cache) then SlabRelease(m, page) else m, held)
  {
    FreePlusHeld(page, m.slabs[page], held.small);
    BlocksMembers(m.slabs, held.large);
    assert LiveBlock(m.buddy, page, BlocksOf(m.slabs, held.large)[page]);
    if |m.slabs[page].free| == Total(m.slabs[page].cache) { ReleaseKeeps(m, held, page); }
  }

  ghost predicate OthersInUse(h: Heap, page: nat)
  {
    forall p :: p in h.slabs && p != page ==>
      h.slabs[p].cache < NUM_CACHES && |h.slabs[p].free| < Total(h.slabs[p].cache)
  }

  /** Every issued pointer can be freed, and freeing keeps the invariant. */
  lemma KfreeKeeps(h: Heap, held: Held, ptr: Option<nat>)
    requires HeapInv(h, held) && Wf(h) && (ptr.Some? ==> Issued(held, ptr.value))
    ensures ptr.Some? ==> CanFree(h, ptr.value)
    ensures HeapInv(Kfree(h, ptr), AfterFree(held, ptr))
  {
    if ptr.Some? {
      var a := ptr.value;
      DispatchIsRight(h, held, a);
      var page: nat := a / PAGE_SIZE;
      OrderRecorded(h, held, a);
      if a in held.small { SlabFreeKeeps(h, held, a); } else { LargeFreeKeeps(h, held, page); }
    }
  }

  lemma OrderRecorded(h: Heap, held: Held, a: nat)
    requires Consistent(h, held) && Issued(held, a)
    ensures a / PAGE_SIZE < |h.buddy.meta| && h.buddy.meta[a / PAGE_SIZE].order <= MAX_ORDERS
  {
    DispatchIsRight(h, held, a);
    var blocks := BlocksOf(h.slabs, held.large);
    BlocksMembers(h.slabs, held.large);
    assert LiveBlock(h.buddy, a / PAGE_SIZE, blocks[a / PAGE_SIZE]);
  }

  // ---- runs -------------------------------------------------------------------------------------------

  datatype Op = Malloc(size: nat) | Release(ptr: Option<nat>)

  datatype Config = Config(h: Heap, held: Held)

  ghost predicate Good(c: Config)
  {
    HeapInv(c.h, c.held) && Wf(c.h)
  }

  /** Requests are at most 16 MB and do not force a second growth; only issued pointers are freed. */
  ghost predicate Enabled(c: Config, op: Op)
    requires Good(c)
  {
    match op
    case Malloc(size) => CanMalloc(c.h, size)
    case Release(ptr) => ptr.Some? ==> Issued(c.held, ptr.value)
  }

  ghost function Step(c: Config, op: Op): (r: Config)
    requires Good(c) && Enabled(c, op)
    ensures Good(r)
  {
    match op
    case Malloc(size) =>
      KmallocKeeps(c.h, c.held, size);
      var (h, ptr) := Kmalloc(c.h, size);
      ConsistentIsWf(h, AfterMalloc(c.held, size, ptr));
      Config(h, AfterMalloc(c.held, size, ptr))
    case Release(ptr) =>
      KfreeKeeps(c.h, c.held, ptr);
      ConsistentIsWf(Kfree(c.h, ptr), AfterFree(c.held, ptr));
      Config(Kfree(c.h, ptr), AfterFree(c.held, ptr))
  }

  ghost predicate RunOk(c: Config, ops: seq<Op>)
    requires Good(c)
    decreases |ops|
  {
    ops == [] || (Enabled(c, ops[0]) && RunOk(Step(c, ops[0]), ops[1..]))
  }

  ghost function Run(c: Config, ops: seq<Op>): (r: Config)
    requires Good(c) && RunOk(c, ops)
    ensures Good(r)
    decreases |ops|
  {
    if ops == [] then c else Run(Step(c, ops[0]), ops[1..])
  }

  /** `init_kheap`: the initial buddy state, no slabs. */
  ghost function Start(): (c: Config)
    ensures Good(c)
  {
    BuddyRuns.StartTiled();
    var empty := seq(NUM_CACHES, _ => []);
    var h := Heap(Init(), map[], empty, empty);
    assert BlocksOf(h.slabs, map[]) == map[];
    InvInHeap(h.buddy, map[]);
    Config(h, Held(map[], map[]))
  }

  // ---- what callers get -----------------------------------------------------------------------------------

  ghost function SizeOf(held: Held, a: nat): nat
    requires Issued(held, a)
  {
    if a in held.small then held.small[a] else held.large[a / PAGE_SIZE]
  }

  /** The number of bytes reserved behind an issued pointer. */
  ghost function Extent(held: Held, a: nat): nat
    requires Issued(held, a) && 0 < SizeOf(held, a) <= MAX_REQUEST
  {
    var size := SizeOf(held, a);
    if size <= MAX_SMALL then ObjSize(ClassFor(size)) else Pow2(OrderFor(size)) * PAGE_SIZE
  }

  /** Over any run, the reserved regions are at least as long as asked for, less than twice as long
      when more than 8 bytes were asked for, 16 bytes long up to 16, and pairwise disjoint. */
  lemma RegionsAreSound(ops: seq<Op>, a: nat, b: nat)
    requires RunOk(Start(), ops)
    requires var held := Run(Start(), ops).held; Issued(held, a) && Issued(held, b) && a != b
    ensures var held := Run(Start(), ops).held;
      && 0 < SizeOf(held, a) <= MAX_REQUEST && 0 < SizeOf(held, b) <= MAX_REQUEST
      && SizeOf(held, a) <= Extent(held, a)
      && (SizeOf(held, a) > 8 ==> Extent(held, a) < 2 * SizeOf(held, a))
      && (SizeOf(held, a) <= 16 ==> Extent(held, a) == 16)
      && (a + Extent(held, a) <= b || b + Extent(held, b) <= a)
  {
    var c := Run(Start(), ops);
    SizesAreSound(c, a);
    SizesAreSound(c, b);
    if a < b { RegionsDisjoint(c, a, b); } else { RegionsDisjoint(c, b, a); }
  }

  lemma SizesAreSound(c: Config, a: nat)
    requires Good(c) && Issued(c.held, a)
    ensures 0 < SizeOf(c.held, a) <= MAX_REQUEST && SizeOf(c.held, a) <= Extent(c.held, a)
    ensures SizeOf(c.held, a) > 8 ==> Extent(c.held, a) < 2 * SizeOf(c.held, a)
    ensures SizeOf(c.held, a) <= 16 ==> Extent(c.held, a) == 16
    ensures a in c.held.small <==> SizeOf(c.held, a) <= MAX_SMALL
  {
    if a in c.held.small {
      assert ObjectOk(c.h.slabs, a, c.held.small[a]);
      ClassIsTight(SizeOf(c.held, a));
    } else {
      OrderIsTight(SizeOf(c.held, a));
    }
  }

  lemma ClassIsTight(size: nat)
    requires 8 < size <= MAX_SMALL || size <= 8
    ensures size > 8 ==> ObjSize(ClassFor(size)) < 2 * size
  {
    var c := ClassFor(size);
    if c > 0 { assert ObjSize(c) == 2 * ObjSize(c - 1); }
  }

  lemma OrderIsTight(size: nat)
    requires MAX_SMALL < size <= MAX_REQUEST
    ensures Pow2(OrderFor(size)) * PAGE_SIZE < 2 * size
  {
    Pow2Values();
    var r := OrderFor(size);
    if r > 0 { assert Pow2(r) == 2 * Pow2(r - 1); }
  }

  /** The pages a region lies on: all of a large block, or the one page of a slab. */
  lemma RegionPages(c: Config, a: nat)
    requires Good(c) && Issued(c.held, a) && 0 < SizeOf(c.held, a) <= MAX_REQUEST
    ensures var p, blocks := a / PAGE_SIZE, BlocksOf(c.h.slabs, c.held.large);
      && p in blocks && (a in c.held.small <==> p in c.h.slabs)
      && a + Extent(c.held, a) <= (p + Pow2(blocks[p])) * PAGE_SIZE
  {
    DispatchIsRight(c.h, c.held, a);
    BlocksMembers(c.h.slabs, c.held.large);
    Pow2Values();
    if a in c.held.small {
      assert ObjectOk(c.h.slabs, a, c.held.small[a]);
      SlotOf(a / PAGE_SIZE, ClassFor(c.held.small[a]), a);
    }
  }

  lemma RegionsDisjoint(c: Config, a: nat, b: nat)
    requires Good(c) && Issued(c.held, a) && Issued(c.held, b) && a < b
    requires 0 < SizeOf(c.held, a) <= MAX_REQUEST
    ensures a + Extent(c.held, a) <= b
  {
    var p: nat, q: nat := a / PAGE_SIZE, b / PAGE_SIZE;
    var blocks := BlocksOf(c.h.slabs, c.held.large);
    SizesAreSound(c, b);
    RegionPages(c, a);
    RegionPages(c, b);
    if p != q {
      BlocksApart(blocks, p, q);
      assert (p + Pow2(blocks[p])) * PAGE_SIZE <= q * PAGE_SIZE;
    } else {
      SameSlab(c, a, b);
    }
  }

  lemma BlocksApart(blocks: map<nat, nat>, p: nat, q: nat)
    requires BlocksDisjoint(blocks) && p in blocks && q in blocks && p < q
    ensures p + Pow2(blocks[p]) <= q
  {
    assert q in BlockPages(q, blocks[q]);
    assert BlockPages(p, blocks[p]) !! BlockPages(q, blocks[q]);
    assert q !in BlockPages(p, blocks[p]);
  }

  /** Two pointers into one page are objects of one slab. */
  lemma SameSlab(c: Config, a: nat, b: nat)
    requires Good(c) && Issued(c.held, a) && Issued(c.held, b) && a < b && a / PAGE_SIZE == b / PAGE_SIZE
    requires 0 < SizeOf(c.held, a) <= MAX_REQUEST
    ensures a + Extent(c.held, a) <= b
  {
    DispatchIsRight(c.h, c.held, a);
    DispatchIsRight(c.h, c.held, b);
    ObjectsApart(c.h.slabs, a, c.held.small[a], b, c.held.small[b]);
  }

  lemma ObjectsApart(slabs: map<nat, Slab>, a: nat, size: nat, b: nat, other: nat)
    requires ObjectOk(slabs, a, size) && ObjectOk(slabs, b, other) && a < b && a / PAGE_SIZE == b / PAGE_SIZE
    ensures a + ObjSize(ClassFor(size)) <= b
  {
    var page, k := a / PAGE_SIZE, ClassFor(size);
    var i :| 0 <= i < Total(k) && Slots(page, k)[i] == a;
    var j :| 0 <= j < Total(k) && Slots(page, k)[j] == b;
    if i < j { SlotsApart(page, k, i, j); } else if j < i { SlotsApart(page, k, j, i); }
  }

  /** Over any run, kfree hands each issued pointer to the allocator that issued it. */
  lemma FreeReachesIssuer(ops: seq<Op>, a: nat)
    requires RunOk(Start(), ops) && Issued(Run(Start(), ops).held, a)
    ensures var c := Run(Start(), ops);
      && a / PAGE_SIZE < |c.h.buddy.meta| && 0 < SizeOf(c.held, a)
      && (c.h.buddy.meta[a / PAGE_SIZE].isSlab <==> SizeOf(c.held, a) <= MAX_SMALL)
      && (c.h.buddy.meta[a / PAGE_SIZE].isSlab ==>
            a / PAGE_SIZE in c.h.slabs && a in Slots(a / PAGE_SIZE, ClassFor(SizeOf(c.held, a))))
  {
    var c := Run(Start(), ops);
    DispatchIsRight(c.h, c.held, a);
    SizesAreSound(c, a);
  }

  /** Once everything is freed no slab page is held and the free lists are those of an empty heap;
      without growth they are exactly the initial ones. */
  lemma FreeingAllRestores(ops: seq<Op>)
    requires RunOk(Start(), ops) && Run(Start(), ops).held == Held(map[], map[])
    ensures var h := Run(Start(), ops).h;
      && h.slabs == map[]
      && (forall c: nat :: c < NUM_CACHES ==> h.partial[c] == [] && h.full[c] == [])
      && (forall k: nat :: k < MAX_ORDERS ==> h.buddy.areas[k] == [])
      && (forall a: nat :: a in h.buddy.areas[MAX_ORDERS] <==> a < |h.buddy.meta| && a % START_PAGES == 0)
      && (|h.buddy.meta| == START_PAGES ==> h.buddy.areas == Init().areas)
  {
    var c := Run(Start(), ops);
    NoSlabsLeft(c);
    assert BlocksOf(c.h.slabs, c.held.large) == map[];
    BuddyRuns.RestoredWhenEmpty(BuddyRuns.Config(c.h.buddy, map[]));
  }

  lemma NoSlabsLeft(c: Config)
    requires Good(c) && c.held.small == map[]
    ensures c.h.slabs == map[]
    ensures forall i: nat :: i < NUM_CACHES ==> c.h.partial[i] == [] && c.h.full[i] == []
  {
    forall p ensures p !in c.h.slabs {
      if p in c.h.slabs {
        assert SlabOk(p, c.h.slabs[p], map[]);
        FreePlusHeld(p, c.h.slabs[p], map[]);
      }
    }
    assert c.h.slabs == map[];
    NoSlabsNoLists(c.h.slabs, c.h.partial, c.h.full);
  }

  lemma NoSlabsNoLists(slabs: map<nat, Slab>, partial: seq<seq<nat>>, full: seq<seq<nat>>)
    requires ListsOk(slabs, partial, full) && slabs == map[]
    ensures forall i: nat :: i < NUM_CACHES ==> partial[i] == [] && full[i] == []
  {
    forall i: nat | i < NUM_CACHES ensures partial[i] == [] && full[i] == [] {
      forall p: nat ensures p !in partial[i] && p !in full[i] {
        assert p !in slabs;
      }
      NoDupSize(partial[i], {});
      NoDupSize(full[i], {});
    }
  }
}
