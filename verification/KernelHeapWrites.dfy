/** Which addresses of the heap kmalloc and kfree write while they work, and that none of them is in memory that stays held.
    The page metadata is outside the heap. */
module KernelHeapWrites {
  import opened Blocks
  import opened Seqs
  import opened Buddy
  import opened BuddyCanon
  import opened KernelHeap
  import opened KernelHeapInv
  import opened KernelHeapSteps
  import opened KernelHeapRuns
  import opened KernelHeapBookkeeping

  // ---- what list operations write -------------------------------------------------------------------------------

  /** The members next to `p` in a linked list. */
  function Neighbours(list: seq<nat>, p: nat): (s: set<nat>)
    ensures forall q :: q in s ==> q in list
  {
    if |list| < 2 then {}
    else (if list[0] == p then {list[1]} else {}) + (if list[1] == p then {list[0]} else {}) + Neighbours(list[1..], p)
  }

  function First(list: seq<nat>): (s: set<nat>)
    ensures forall q :: q in s ==> q in list
  {
    if list == [] then {} else {list[0]}
  }

  // ---- the buddy allocator -----------------------------------------------------------------------------------------

  ghost predicate Listed(b: State, q: nat)
  {
    exists k: nat :: k < |b.areas| && q in b.areas[k]
  }

  /** The blocks whose link words `buddy_list_add` writes: the block and the old head. */
  ghost function AddWrites(b: State, a: nat, k: nat): (s: set<nat>)
    requires k < |b.areas|
    ensures forall q :: q in s ==> q == a || Listed(b, q)
  {
    {a} + First(b.areas[k])
  }

  /** The blocks whose link words `buddy_list_remove` writes. */
  ghost function RemoveWrites(b: State, a: nat, k: nat): (s: set<nat>)
    requires k < |b.areas|
    ensures forall q :: q in s ==> Listed(b, q)
  {
    Neighbours(b.areas[k], a)
  }

  /** All blocks written by the halving loop. */
  ghost function SplitWrites(b: State, a: nat, i: nat, order: nat): set<nat>
    requires Shape(b) && a < |b.meta| && order <= i <= MAX_ORDERS
    decreases i
  {
    if i == order then {}
    else
      FlipInHeap(a, i - 1, |b.meta|);
      var f := FlipBit(a, i - 1);
      AddWrites(b, f, i - 1) + SplitWrites(ListAdd(b, f, i - 1), a, i - 1, order)
  }

  ghost function TakeWrites(b: State, i: nat, order: nat): set<nat>
    requires Shape(b) && order <= i <= MAX_ORDERS && b.areas[i] != [] && b.areas[i][0] < |b.meta|
  {
    var a := b.areas[i][0];
    RemoveWrites(b, a, i) + SplitWrites(ListRemove(b, a, i), a, i, order)
  }

  /** All blocks written by `buddy_alloc`. */
  ghost function AllocWrites(b: State, order: nat): set<nat>
    requires Shape(b) && InHeap(b) && order <= MAX_ORDERS && RoomFor(b, order)
  {
    var i := FirstFit(b.areas, order);
    if i <= MAX_ORDERS then assert b.areas[i][0] in b.areas[i]; TakeWrites(b, i, order)
    else AddWrites(b, b.heapEnd, MAX_ORDERS) + TakeWrites(Grow(b), MAX_ORDERS, order)
  }

  /** All blocks written by the merging loop and the final listing of `buddy_free`. */
  ghost function CoalesceWrites(b: State, a: nat, i: nat): set<nat>
    requires Shape(b) && a < |b.meta| && i <= MAX_ORDERS
    decreases MAX_ORDERS - i
  {
    if i == MAX_ORDERS then AddWrites(b, a, i)
    else
      FlipInHeap(a, i, |b.meta|);
      var f := FlipBit(a, i);
      if b.meta[f].isFree && b.meta[f].order == i then
        RemoveWrites(b, f, i) + CoalesceWrites(ListRemove(b, f, i), if f < a then f else a, i + 1)
      else AddWrites(b, a, i)
  }

  lemma AddListed(b: State, a: nat, k: nat)
    requires Shape(b) && a < |b.meta| && k <= MAX_ORDERS
    ensures forall q: nat :: Listed(ListAdd(b, a, k), q) <==> q == a || Listed(b, q)
  {
    var r := ListAdd(b, a, k);
    assert r.areas[k][0] == a;
    forall q: nat | Listed(b, q) ensures Listed(r, q) {
      var j: nat :| j < |b.areas| && q in b.areas[j];
      assert q in r.areas[j];
    }
  }

  lemma {:induction false} WithoutIsPart(s: seq<nat>, x: nat)
    ensures forall y :: y in Without(s, x) ==> y in s
  {
    if s != [] { WithoutIsPart(s[1..], x); }
  }

  lemma RemoveListed(b: State, a: nat, k: nat)
    requires Shape(b) && a < |b.meta| && k <= MAX_ORDERS
    ensures forall q: nat :: Listed(ListRemove(b, a, k), q) ==> Listed(b, q)
  {
    WithoutIsPart(b.areas[k], a);
    var r := ListRemove(b, a, k);
    forall q: nat | Listed(r, q) ensures Listed(b, q) {
      var j: nat :| j < |r.areas| && q in r.areas[j];
      assert q in b.areas[j];
    }
  }

  lemma {:induction false} SplitListed(b: State, a: nat, i: nat, order: nat)
    requires Shape(b) && a < |b.meta| && order <= i <= MAX_ORDERS
    ensures forall q: nat :: Listed(b, q) ==> Listed(Split(b, a, i, order), q)
    ensures forall q: nat :: q in SplitWrites(b, a, i, order) ==> Listed(Split(b, a, i, order), q)
    decreases i
  {
    if i > order {
      FlipInHeap(a, i - 1, |b.meta|);
      var f := FlipBit(a, i - 1);
      AddListed(b, f, i - 1);
      SplitListed(ListAdd(b, f, i - 1), a, i - 1, order);
    }
  }

  lemma TakeListed(b: State, i: nat, order: nat)
    requires Shape(b) && order <= i <= MAX_ORDERS && b.areas[i] != [] && b.areas[i][0] < |b.meta|
    ensures forall q: nat :: q in TakeWrites(b, i, order) ==> Listed(b, q) || Listed(Take(b, i, order).0, q)
  {
    var a := b.areas[i][0];
    SplitListed(ListRemove(b, a, i), a, i, order);
    SameAreas(Split(ListRemove(b, a, i), a, i, order), Take(b, i, order).0);
  }

  lemma SameAreas(b: State, r: State)
    requires b.areas == r.areas
    ensures forall q: nat :: Listed(b, q) <==> Listed(r, q)
  {
    forall q: nat ensures Listed(b, q) <==> Listed(r, q) {}
  }

  /** Every block that `buddy_alloc` writes to is free before or after, or is the one it returns. */
  lemma AllocListed(b: State, order: nat)
    requires Shape(b) && InHeap(b) && order <= MAX_ORDERS && RoomFor(b, order)
    ensures var (r, page) := Alloc(b, order);
      forall q: nat :: q in AllocWrites(b, order) ==> Listed(b, q) || Listed(r, q) || q == page
  {
    var i := FirstFit(b.areas, order);
    if i <= MAX_ORDERS {
      assert b.areas[i][0] in b.areas[i];
      TakeListed(b, i, order);
    } else {
      TakeListed(Grow(b), MAX_ORDERS, order);
      GrowListed(b);
    }
  }

  lemma GrowListed(b: State)
    requires Shape(b) && CanGrow(b)
    ensures forall q: nat :: Listed(Grow(b), q) ==> q == b.heapEnd || Listed(b, q)
  {
    var r := Grow(b);
    forall q: nat | Listed(r, q) && q != b.heapEnd ensures Listed(b, q) {
      var j: nat :| j < |r.areas| && q in r.areas[j];
      assert q in b.areas[j];
    }
  }

  /** Every block that `buddy_free` writes to is free before or after. */
  lemma {:induction false} CoalesceListed(b: State, a: nat, i: nat)
    requires Shape(b) && a < |b.meta| && i <= MAX_ORDERS
    ensures forall q: nat :: q in CoalesceWrites(b, a, i) ==> Listed(b, q) || Listed(Coalesce(b, a, i), q)
    decreases MAX_ORDERS - i
  {
    if i == MAX_ORDERS {
      AddListed(b, a, i);
    } else {
      FlipInHeap(a, i, |b.meta|);
      var f := FlipBit(a, i);
      if b.meta[f].isFree && b.meta[f].order == i {
        RemoveListed(b, f, i);
        CoalesceListed(ListRemove(b, f, i), if f < a then f else a, i + 1);
      } else {
        AddListed(b, a, i);
      }
    }
  }

  // ---- whole calls ----------------------------------------------------------------------------------------------------

  /** A byte of the link words of one of the blocks. */
  ghost predicate LinkAt(blocks: set<nat>, x: nat)
  {
    exists q: nat :: q in blocks && q * PAGE_SIZE <= x < q * PAGE_SIZE + LINKS
  }

  /** A byte of the header of one of the slab pages. */
  ghost predicate HeaderAt(pages: set<nat>, x: nat)
  {
    exists p: nat :: p in pages && p * PAGE_SIZE <= x < p * PAGE_SIZE + SLAB_HEADER
  }

  /** A byte of the word that links a free object. */
  ghost predicate WordAt(objects: seq<nat>, x: nat)
  {
    exists y: nat :: y in objects && y <= x < y + WORD
  }

  /** What taking an object from the first partial slab writes: its header, and when it is full now, the headers beside it in
      the partial list and at the head of the full list. */
  ghost predicate PopWrites(m: Heap, c: nat, x: nat)
    requires |m.partial| == NUM_CACHES == |m.full| && c < NUM_CACHES && m.partial[c] != []
    requires m.partial[c][0] in m.slabs
  {
    var page := m.partial[c][0];
    HeaderAt({page} + if |m.slabs[page].free| == 1 then Neighbours(m.partial[c], page) + First(m.full[c]) else {}, x)
  }

  ghost predicate SlabAllocWrites(h: Heap, c: nat, x: nat)
    requires Wf(h) && c < NUM_CACHES && (h.partial[c] == [] ==> RoomFor(h.buddy, 0))
  {
    SomePartial(h, c);
    if h.partial[c] != [] then PopWrites(h, c, x)
    else
      var page := Alloc(h.buddy, 0).1;
      LinkAt(AllocWrites(h.buddy, 0), x) || HeaderAt({page}, x) || WordAt(Slots(page, c), x) || PopWrites(SlabCreate(h, c), c, x)
  }

  /** The bytes of the heap that `kmalloc` writes. */
  ghost predicate MallocWrites(h: Heap, size: nat, x: nat)
    requires Wf(h) && CanMalloc(h, size)
  {
    if size == 0 then false
    else if size > MAX_SMALL then LinkAt(AllocWrites(h.buddy, OrderFor(size)), x)
    else SlabAllocWrites(h, ClassFor(size), x)
  }

  /** What putting an object back writes: its word, its slab's header, and when the slab was full, the headers beside it in the
      full list and at the head of the partial list. */
  ghost predicate PushWrites(h: Heap, a: nat, x: nat)
    requires |h.partial| == NUM_CACHES == |h.full|
    requires a / PAGE_SIZE in h.slabs && h.slabs[a / PAGE_SIZE].cache < NUM_CACHES
  {
    var page: nat := a / PAGE_SIZE;
    var c := h.slabs[page].cache;
    || WordAt([a], x)
    || HeaderAt({page} + if h.slabs[page].free == [] then Neighbours(h.full[c], page) + First(h.partial[c]) else {}, x)
  }

  /** What giving an empty slab page back writes. */
  ghost predicate ReleaseWrites(m: Heap, page: nat, x: nat)
    requires Shape(m.buddy) && |m.partial| == NUM_CACHES && page in m.slabs && m.slabs[page].cache < NUM_CACHES
    requires page < |m.buddy.meta| && m.buddy.meta[page].order <= MAX_ORDERS
  {
    || HeaderAt({page} + Neighbours(m.partial[m.slabs[page].cache], page), x)
    || LinkAt(CoalesceWrites(SetSlabFlag(m.buddy, page, false), page, m.buddy.meta[page].order), x)
  }

  /** The bytes of the heap that `kfree` writes. */
  ghost predicate FreeWrites(h: Heap, ptr: Option<nat>, x: nat)
    requires Wf(h) && (ptr.Some? ==> CanFree(h, ptr.value))
  {
    if ptr.None? then false
    else
      var page: nat := ptr.value / PAGE_SIZE;
      if h.buddy.meta[page].isSlab then
        var m := SlabPush(h, ptr.value);
        || PushWrites(h, ptr.value, x)
        || (|m.slabs[page].free| == Total(m.slabs[page].cache) && ReleaseWrites(m, page, x))
      else LinkAt(CoalesceWrites(h.buddy, page, h.buddy.meta[page].order), x)
  }

  ghost predicate Writes(c: Config, op: Op, x: nat)
    requires Good(c) && Enabled(c, op)
  {
    match op
    case Malloc(size) => MallocWrites(c.h, size, x)
    case Release(ptr) =>
      KfreeKeeps(c.h, c.held, ptr);
      FreeWrites(c.h, ptr, x)
  }

  // ---- where the writes are ---------------------------------------------------------------------------------------------

  lemma ListedIsBookkeeping(h: Heap, q: nat, x: nat)
    requires Listed(h.buddy, q) && q * PAGE_SIZE <= x < q * PAGE_SIZE + LINKS
    ensures Bookkeeping(h, x)
  {
    var k: nat :| k < |h.buddy.areas| && q in h.buddy.areas[k];
    assert InFreeBlock(h, k, q, x);
  }

  lemma HeadersAreBookkeeping(h: Heap, pages: set<nat>, x: nat)
    requires HeaderAt(pages, x) && forall p :: p in pages ==> p in h.slabs
    ensures Bookkeeping(h, x)
  {
    var p: nat :| p in pages && p * PAGE_SIZE <= x < p * PAGE_SIZE + SLAB_HEADER;
    assert InHeader(h, p, x);
  }

  lemma PopInSlabs(m: Heap, small: map<nat, nat>, c: nat, x: nat)
    requires SlabLayer(m, small) && c < NUM_CACHES && m.partial[c] != [] && m.partial[c][0] in m.slabs
    requires m.slabs[m.partial[c][0]].free != [] && PopWrites(m, c, x)
    ensures Bookkeeping(SlabPop(m, c).0, x)
  {
    var page := m.partial[c][0];
    var pages := {page} + if |m.slabs[page].free| == 1 then Neighbours(m.partial[c], page) + First(m.full[c]) else {};
    assert SlabPop(m, c).0.slabs.Keys == m.slabs.Keys;
    HeadersAreBookkeeping(SlabPop(m, c).0, pages, x);
  }

  /** A large request writes links of blocks that are free before or after, and of the block it returns. */
  lemma LargeWrites(c: Config, size: nat, x: nat)
    requires Good(c) && Enabled(c, Malloc(size)) && size > MAX_SMALL && MallocWrites(c.h, size, x)
    ensures var (h, ptr) := Kmalloc(c.h, size);
      Bookkeeping(c.h, x) || Bookkeeping(h, x) || (ptr.Some? && ptr.value <= x < ptr.value + LINKS)
  {
    AllocListed(c.h.buddy, OrderFor(size));
    var q: nat :| q in AllocWrites(c.h.buddy, OrderFor(size)) && q * PAGE_SIZE <= x < q * PAGE_SIZE + LINKS;
    var h := Kmalloc(c.h, size).0;
    if Listed(c.h.buddy, q) { ListedIsBookkeeping(c.h, q, x); }
    else if Listed(h.buddy, q) { ListedIsBookkeeping(h, q, x); }
  }

  lemma SmallWrites(c: Config, size: nat, x: nat)
    requires Good(c) && Enabled(c, Malloc(size)) && 0 < size <= MAX_SMALL && MallocWrites(c.h, size, x)
    ensures var (h, ptr) := Kmalloc(c.h, size);
      Bookkeeping(c.h, x) || Bookkeeping(h, x) || (ptr.Some? && ptr.value <= x < ptr.value + WORD)
  {
    var k := ClassFor(size);
    SomePartial(c.h, k);
    if c.h.partial[k] != [] {
      PopInSlabs(c.h, c.held.small, k, x);
    } else {
      CreateKeeps(c.h, c.held, k);
      var m := SlabCreate(c.h, k);
      if PopWrites(m, k, x) { PopInSlabs(m, c.held.small, k, x); } else { CreateWrites(c.h, m, k, x); }
    }
  }

  /** What creating a slab writes is, after its first object has been taken, free or the object. */
  lemma CreateWrites(h: Heap, m: Heap, c: nat, x: nat)
    requires Wf(h) && c < NUM_CACHES && RoomFor(h.buddy, 0) && m == SlabCreate(h, c)
    requires |m.partial| == NUM_CACHES == |m.full| && m.partial[c] != []
    requires m.partial[c][0] in m.slabs && m.slabs[m.partial[c][0]].free != [] && h.partial[c] == []
    requires var page := Alloc(h.buddy, 0).1; LinkAt(AllocWrites(h.buddy, 0), x) || HeaderAt({page}, x) || WordAt(Slots(page, c), x)
    ensures var (r, a) := SlabPop(m, c); Bookkeeping(h, x) || Bookkeeping(r, x) || a <= x < a + WORD
  {
    var (b, page) := Alloc(h.buddy, 0);
    var (r, a) := SlabPop(m, c);
    assert page in r.slabs && r.buddy.areas == b.areas;
    if HeaderAt({page}, x) {
      HeadersAreBookkeeping(r, {page}, x);
    } else if WordAt(Slots(page, c), x) {
      var y: nat :| y in Slots(page, c) && y <= x < y + WORD;
      assert m.slabs[page].free == Slots(page, c) && (y == a || y in r.slabs[page].free);
      assert y != a ==> InFreeObject(r, page, y, x);
    } else {
      NewPageWrites(h, b, page, r, x);
    }
  }

  lemma NewPageWrites(h: Heap, b: State, page: nat, r: Heap, x: nat)
    requires Wf(h) && RoomFor(h.buddy, 0) && (b, page) == Alloc(h.buddy, 0) && LinkAt(AllocWrites(h.buddy, 0), x)
    requires page in r.slabs && r.buddy.areas == b.areas
    ensures Bookkeeping(h, x) || Bookkeeping(r, x)
  {
    AllocListed(h.buddy, 0);
    SameAreas(b, r.buddy);
    var q: nat :| q in AllocWrites(h.buddy, 0) && q * PAGE_SIZE <= x < q * PAGE_SIZE + LINKS;
    if Listed(h.buddy, q) { ListedIsBookkeeping(h, q, x); }
    else if Listed(b, q) { ListedIsBookkeeping(r, q, x); }
    else { assert InHeader(r, page, x); }
  }

  lemma CoalesceIsBookkeeping(h: Heap, b: State, a: nat, i: nat, r: Heap, x: nat)
    requires Shape(b) && a < |b.meta| && i <= MAX_ORDERS && b.areas == h.buddy.areas && r.buddy == Coalesce(b, a, i)
    requires LinkAt(CoalesceWrites(b, a, i), x)
    ensures Bookkeeping(h, x) || Bookkeeping(r, x)
  {
    CoalesceListed(b, a, i);
    SameAreas(b, h.buddy);
    var q: nat :| q in CoalesceWrites(b, a, i) && q * PAGE_SIZE <= x < q * PAGE_SIZE + LINKS;
    if Listed(h.buddy, q) { ListedIsBookkeeping(h, q, x); } else { ListedIsBookkeeping(r, q, x); }
  }

  /** kfree writes bookkeeping of the heap before or after, and the first word of the object given back. */
  lemma KfreeWrites(c: Config, a: nat, x: nat)
    requires Good(c) && Enabled(c, Release(Some(a))) && Writes(c, Release(Some(a)), x)
    ensures CanFree(c.h, a)
    ensures Bookkeeping(c.h, x) || Bookkeeping(Kfree(c.h, Some(a)), x) || (a in c.held.small && a <= x < a + WORD)
  {
    KfreeKeeps(c.h, c.held, Some(a));
    DispatchIsRight(c.h, c.held, a);
    var page: nat := a / PAGE_SIZE;
    if c.h.buddy.meta[page].isSlab {
      if PushWrites(c.h, a, x) { PushInSlabs(c.h, c.held.small, a, x); } else { ReleaseInSlabs(c, a, SlabPush(c.h, a), page, x); }
    } else {
      CoalesceIsBookkeeping(c.h, c.h.buddy, page, c.h.buddy.meta[page].order, Kfree(c.h, Some(a)), x);
    }
  }

  lemma PushInSlabs(h: Heap, small: map<nat, nat>, a: nat, x: nat)
    requires SlabLayer(h, small) && a / PAGE_SIZE in h.slabs && h.slabs[a / PAGE_SIZE].cache < NUM_CACHES && PushWrites(h, a, x)
    ensures Bookkeeping(h, x) || a <= x < a + WORD
  {
    var page: nat := a / PAGE_SIZE;
    var c := h.slabs[page].cache;
    var pages := {page} + if h.slabs[page].free == [] then Neighbours(h.full[c], page) + First(h.partial[c]) else {};
    if HeaderAt(pages, x) { HeadersAreBookkeeping(h, pages, x); }
  }

  lemma ReleaseInSlabs(c: Config, a: nat, m: Heap, page: nat, x: nat)
    requires Good(c) && a in c.held.small && page == a / PAGE_SIZE && page in c.h.slabs && c.h.slabs[page].cache < NUM_CACHES
    requires m == SlabPush(c.h, a) && page < |m.buddy.meta| && m.buddy.meta[page].order <= MAX_ORDERS && ReleaseWrites(m, page, x)
    ensures Bookkeeping(c.h, x) || Bookkeeping(SlabRelease(m, page), x)
  {
    PushKeeps(c.h, c.held.small, a);
    ReleaseIsBookkeeping(c.h, m, page, SlabRelease(m, page), x);
  }

  lemma ReleaseIsBookkeeping(h: Heap, m: Heap, page: nat, r: Heap, x: nat)
    requires (forall p :: p in m.slabs ==> p in h.slabs) && m.buddy == h.buddy && Shape(m.buddy) && page in m.slabs
    requires ListsOk(m.slabs, m.partial, m.full) && m.slabs[page].cache < NUM_CACHES
    requires page < |m.buddy.meta| && m.buddy.meta[page].order <= MAX_ORDERS
    requires r == SlabRelease(m, page) && ReleaseWrites(m, page, x)
    ensures Bookkeeping(h, x) || Bookkeeping(r, x)
  {
    var pages := {page} + Neighbours(m.partial[m.slabs[page].cache], page);
    if HeaderAt(pages, x) {
      HeadersAreBookkeeping(h, pages, x);
    } else {
      var b := SetSlabFlag(m.buddy, page, false);
      CoalesceIsBookkeeping(h, b, page, b.meta[page].order, r, x);
    }
  }

  // ---- and where they are not -----------------------------------------------------------------------------------------------

  /** Another region of the same state does not reach into the first bytes of a region. */
  lemma OtherRegion(c: Config, a: nat, b: nat, x: nat, n: nat)
    requires Good(c) && Issued(c.held, a) && Issued(c.held, b) && a != b && 0 < SizeOf(c.held, a) <= MAX_REQUEST
    requires 0 < SizeOf(c.held, b) <= MAX_REQUEST && n <= Extent(c.held, b) && b <= x < b + n
    ensures !InRegion(c.held, a, x)
  {
    if a < b { RegionsDisjoint(c, a, b); } else { RegionsDisjoint(c, b, a); }
  }

  lemma FirstBytes(c: Config, b: nat)
    requires Good(c) && Issued(c.held, b)
    ensures 0 < SizeOf(c.held, b) <= MAX_REQUEST && LINKS <= Extent(c.held, b)
  {
    SizesAreSound(c, b);
  }

  /** The region behind a pointer that stays issued is the same before and after. */
  lemma SameAfterMalloc(held: Held, size: nat, ptr: Option<nat>, a: nat)
    requires Issued(held, a) && (ptr.Some? ==> !Issued(held, ptr.value) && (size > MAX_SMALL ==> ptr.value % PAGE_SIZE == 0))
    requires Issued(AfterMalloc(held, size, ptr), a) && (ptr.Some? && size <= MAX_SMALL ==> ptr.value % PAGE_SIZE != 0)
    ensures SizeOf(AfterMalloc(held, size, ptr), a) == SizeOf(held, a) && ptr != Some(a)
  {
    if ptr.Some? && size > MAX_SMALL && a !in held.small { OnePage(ptr.value, a); }
  }

  lemma OnePage(p: nat, a: nat)
    requires p % PAGE_SIZE == 0 && a % PAGE_SIZE == 0
    ensures p / PAGE_SIZE == a / PAGE_SIZE <==> p == a
  {
  }

  lemma SameAfterFree(held: Held, ptr: nat, a: nat)
    requires Issued(held, a) && Issued(AfterFree(held, Some(ptr)), a) && (a in held.small ==> a % PAGE_SIZE != 0)
    ensures SizeOf(AfterFree(held, Some(ptr)), a) == SizeOf(held, a)
  {
  }

  /** The pointer that kmalloc returns: on a page boundary exactly when it is for a large request. */
  lemma NewPointer(c: Config, size: nat)
    requires Good(c) && Enabled(c, Malloc(size)) && size > 0
    ensures var ptr := Kmalloc(c.h, size).1;
      && ptr.Some? && !Issued(c.held, ptr.value) && Issued(Step(c, Malloc(size)).held, ptr.value)
      && (size > MAX_SMALL <==> ptr.value % PAGE_SIZE == 0)
  {
    KmallocKeeps(c.h, c.held, size);
    var r, ptr := Step(c, Malloc(size)), Kmalloc(c.h, size).1;
    if size <= MAX_SMALL { NotPage(r.h.slabs, r.held.small, ptr.value); }
  }

  lemma MallocApart(c: Config, size: nat, a: nat, x: nat)
    requires Good(c) && Enabled(c, Malloc(size)) && Issued(c.held, a) && Issued(Step(c, Malloc(size)).held, a)
    requires MallocWrites(c.h, size, x)
    ensures 0 < SizeOf(c.held, a) <= MAX_REQUEST && !InRegion(c.held, a, x)
  {
    var r, ptr := Step(c, Malloc(size)), Kmalloc(c.h, size).1;
    NewPointer(c, size);
    SameAfterMalloc(c.held, size, ptr, a);
    SizesAreSound(c, a);
    if size > MAX_SMALL { LargeWrites(c, size, x); } else { SmallWrites(c, size, x); }
    if Bookkeeping(c.h, x) {
      BookkeepingApart(c, a, x);
    } else if Bookkeeping(r.h, x) {
      BookkeepingApart(r, a, x);
    } else {
      FirstBytes(r, ptr.value);
      OtherRegion(r, a, ptr.value, x, LINKS);
    }
  }

  lemma FreeApart(c: Config, ptr: nat, a: nat, x: nat)
    requires Good(c) && Enabled(c, Release(Some(ptr))) && Issued(c.held, a) && Issued(Step(c, Release(Some(ptr))).held, a)
    requires Writes(c, Release(Some(ptr)), x)
    ensures 0 < SizeOf(c.held, a) <= MAX_REQUEST && !InRegion(c.held, a, x)
  {
    var r := Step(c, Release(Some(ptr)));
    if a in c.held.small { NotPage(c.h.slabs, c.held.small, a); }
    SameAfterFree(c.held, ptr, a);
    SizesAreSound(c, a);
    KfreeWrites(c, ptr, x);
    if Bookkeeping(c.h, x) {
      BookkeepingApart(c, a, x);
    } else if Bookkeeping(r.h, x) {
      BookkeepingApart(r, a, x);
    } else {
      FirstBytes(c, ptr);
      NotPage(c.h.slabs, c.held.small, ptr);
      OtherRegion(c, a, ptr, x, LINKS);
    }
  }

  /** In any state of any run, no byte that kmalloc or kfree writes anywhere during the next call lies in a region that is held
      before and after it. */
  lemma WritesStayOut(ops: seq<Op>, op: Op, a: nat, x: nat)
    requires RunOk(Start(), ops) && Enabled(Run(Start(), ops), op) && Issued(Run(Start(), ops).held, a)
    requires Issued(Step(Run(Start(), ops), op).held, a) && Writes(Run(Start(), ops), op, x)
    ensures 0 < SizeOf(Run(Start(), ops).held, a) <= MAX_REQUEST && !InRegion(Run(Start(), ops).held, a, x)
  {
    var c := Run(Start(), ops);
    match op {
      case Malloc(size) => MallocApart(c, size, a, x);
      case Release(ptr) => FreeApart(c, ptr.value, a, x);
    }
  }
}
