/** mm/slab.c and mm/kmalloc.c: slab headers, object free lists threaded through the objects
    themselves, cache lists, and the dispatch between slab and buddy allocator. */
module SlabAllocator {
  import opened Blocks
  import opened Seqs
  import opened Links
  import opened Buddy
  import opened BuddyCanon
  import opened BuddyAllocator
  import opened KernelHeap
  import opened KernelHeapInv
  import opened KernelHeapSteps
  import opened KernelHeapRuns

  /** `slab_t` without its list links; `freeList` is the address of the first free object. */
  datatype Header = Header(freeList: Option<nat>, freeCount: nat, totalCount: nat, cache: nat)

  /** Following the words stored in free objects visits exactly `free`. */
  ghost predicate FreeChain(head: Option<nat>, words: map<nat, Option<nat>>, free: seq<nat>)
  {
    && head == At(free, 0)
    && forall i :: 0 <= i < |free| ==> free[i] in words && words[free[i]] == At(free, i + 1)
  }

  ghost predicate HeaderOk(header: Header, words: map<nat, Option<nat>>, slab: Slab)
  {
    && slab.cache < NUM_CACHES
    && header.cache == slab.cache && header.freeCount == |slab.free| && header.totalCount == Total(slab.cache)
    && FreeChain(header.freeList, words, slab.free)
  }

  ghost predicate HeadersOk(headers: map<nat, Header>, words: map<nat, Option<nat>>, slabs: map<nat, Slab>)
  {
    forall p :: p in slabs ==> p in headers && HeaderOk(headers[p], words, slabs[p])
  }

  /** The free objects of a slab lie on its page. */
  ghost predicate AtHome(slabs: map<nat, Slab>)
  {
    forall p, y :: p in slabs && y in slabs[p].free ==> y / PAGE_SIZE == p
  }

  lemma ObjectsAtHome(slabs: map<nat, Slab>, small: map<nat, nat>)
    requires ObjectsOk(slabs, small)
    ensures AtHome(slabs)
  {
    forall p, y | p in slabs && y in slabs[p].free ensures y / PAGE_SIZE == p {
      assert SlabOk(p, slabs[p], small);
      SlotOf(p, slabs[p].cache, y);
    }
  }

  /** Words written inside `page` do not disturb the slabs on other pages. */
  lemma OtherHeaders(headers: map<nat, Header>, headers': map<nat, Header>, words: map<nat, Option<nat>>,
                     words': map<nat, Option<nat>>, slabs: map<nat, Slab>, page: nat)
    requires HeadersOk(headers, words, slabs) && AtHome(slabs)
    requires forall p :: p in slabs && p != page ==> p in headers' && headers'[p] == headers[p]
    requires SameElsewhere(words, words', page)
    ensures forall p :: p in slabs && p != page ==> p in headers' && HeaderOk(headers'[p], words', slabs[p])
  {
    forall p | p in slabs && p != page ensures HeaderOk(headers'[p], words', slabs[p]) {
      var slab := slabs[p];
      assert HeaderOk(headers[p], words, slab);
      forall i | 0 <= i < |slab.free| ensures slab.free[i] in words' && words'[slab.free[i]] == At(slab.free, i + 1) {
        assert slab.free[i] in slab.free;
      }
    }
  }

  /** The first n objects of the page are linked to the ones after them. */
  ghost predicate Threaded(words: map<nat, Option<nat>>, page: nat, c: nat, n: nat)
    requires c < NUM_CACHES
  {
    forall i: nat :: i < n ==> SlotAddr(page, c, i) in words && words[SlotAddr(page, c, i)] == At(Slots(page, c), i + 1)
  }

  /** Words outside the page are as they were. */
  ghost predicate SameElsewhere(before: map<nat, Option<nat>>, words: map<nat, Option<nat>>, page: nat)
  {
    forall x :: x in before && x / PAGE_SIZE != page ==> x in words && words[x] == before[x]
  }

  lemma FirstSlot(page: nat, c: nat)
    requires c < NUM_CACHES
    ensures (page * PAGE_SIZE + SLAB_HEADER + 7) / 8 * 8 == SlotAddr(page, c, 0)
  {
  }

  lemma ThreadOne(before: map<nat, Option<nat>>, words: map<nat, Option<nat>>, page: nat, c: nat, n: nat)
    requires c < NUM_CACHES && n < Total(c) && Threaded(words, page, c, n) && SameElsewhere(before, words, page)
    ensures Threaded(words[SlotAddr(page, c, n) := At(Slots(page, c), n + 1)], page, c, n + 1)
    ensures SameElsewhere(before, words[SlotAddr(page, c, n) := At(Slots(page, c), n + 1)], page)
  {
    SlotBounds(page, c, n);
    forall i: nat | i < n ensures SlotAddr(page, c, i) != SlotAddr(page, c, n) { SlotsApart(page, c, i, n); }
  }

  lemma ThreadedChain(words: map<nat, Option<nat>>, page: nat, c: nat)
    requires c < NUM_CACHES && Threaded(words, page, c, Total(c))
    ensures FreeChain(At(Slots(page, c), 0), words, Slots(page, c))
  {
    SlotsDistinct(page, c);
  }

  lemma SlotFits(page: nat, c: nat, n: nat)
    requires c < NUM_CACHES
    ensures SlotAddr(page, c, n) + ObjSize(c) <= page * PAGE_SIZE + PAGE_SIZE <==> n < Total(c)
    ensures SlotAddr(page, c, n + 1) == SlotAddr(page, c, n) + ObjSize(c)
  {
    assert c == 0 || c == 1 || c == 2 || c == 3 || c == 4 || c == 5 || c == 6 || c == 7;
  }

  class SlabHeap {
    const buddy: Allocator
    var headers: map<nat, Header>
    var links: map<nat, Link>
    var words: map<nat, Option<nat>>
    /** Entry `c` is `slabs_partial` of cache `c`, entry `8 + c` its `slabs_full`. */
    var heads: seq<Option<nat>>
    ghost var slabs: map<nat, Slab>
    ghost var lists: seq<seq<nat>>

    ghost function Model(): Heap
      reads this, buddy
      requires |lists| == 2 * NUM_CACHES
    {
      Heap(buddy.Model(), slabs, lists[..NUM_CACHES], lists[NUM_CACHES..])
    }

    ghost predicate ListsValid()
      reads this
    {
      |lists| == 2 * NUM_CACHES && Represents(heads, links, lists) && Apart(lists)
    }

    ghost predicate Valid()
      reads this, buddy
    {
      buddy.Valid() && ListsValid() && HeadersOk(headers, words, slabs)
    }

    /** `init_kheap` */
    constructor ()
      ensures Valid() && Model() == KernelHeapRuns.Start().h
      ensures fresh(buddy)
    {
      buddy := new Allocator();
      headers, links, words, slabs := map[], map[], map[], map[];
      heads := seq(2 * NUM_CACHES, _ => None);
      lists := seq(2 * NUM_CACHES, _ => []);
    }

    /** `slab_list_add` */
    method ListAdd(k: nat, page: nat)
      requires ListsValid() && k < 2 * NUM_CACHES && Unlisted(lists, page)
      modifies this`links, this`heads, this`lists
      ensures ListsValid() && lists == old(lists)[k := [page] + old(lists[k])]
    {
      AddToList(heads, links, lists, page, k);
      links := links[page := Link(None, heads[k])];
      if heads[k].Some? {
        var h := heads[k].value;
        links := links[h := links[h].(prev := Some(page))];
      }
      heads := heads[k := Some(page)];
      lists := lists[k := [page] + lists[k]];
    }

    /** `slab_list_remove`, which clears `prev` of the removed node and leaves its `next` */
    method ListRemove(k: nat, page: nat)
      requires ListsValid() && k < 2 * NUM_CACHES && page in lists[k]
      modifies this`links, this`heads, this`lists
      ensures ListsValid() && lists == old(lists)[k := Without(old(lists[k]), page)] && Unlisted(lists, page)
    {
      RemoveFromList(heads, links, lists, page, k);
      ghost var cut := CutLinks(links, page);
      var node := links[page];
      if node.next.Some? {
        links := links[node.next.value := links[node.next.value].(prev := node.prev)];
      }
      if node.prev.Some? {
        links := links[node.prev.value := links[node.prev.value].(next := node.next)];
      } else {
        heads := heads[k := node.next];
      }
      lists := lists[k := Without(lists[k], page)];
      assert links == cut;
      links := links[page := links[page].(prev := None)];
      UnlistedWrite(heads, cut, links, lists, page);
    }

    /** The loop of `slab_create`: link every object of the page to the next one. */
    method ThreadObjects(page: nat, c: nat)
      requires c < NUM_CACHES
      modifies this`words, this`headers
      ensures forall p :: p in old(headers) && p != page ==> p in headers && headers[p] == old(headers)[p]
      ensures SameElsewhere(old(words), words, page)
      ensures page in headers && HeaderOk(headers[page], words, Slab(c, Slots(page, c)))
    {
      var objSize := ObjSize(c);
      var firstObj := (page * PAGE_SIZE + SLAB_HEADER + 7) / 8 * 8;
      var pageEnd := page * PAGE_SIZE + PAGE_SIZE;
      FirstSlot(page, c);
      var freeCount := 0;
      var curr := firstObj;
      SlotFits(page, c, 0);
      while curr + objSize <= pageEnd
        invariant headers == old(headers) && freeCount <= Total(c) && curr == SlotAddr(page, c, freeCount)
        invariant SameElsewhere(old(words), words, page)
        invariant Threaded(words, page, c, freeCount)
        decreases pageEnd - curr
      {
        SlotFits(page, c, freeCount);
        SlotFits(page, c, freeCount + 1);
        ThreadOne(old(words), words, page, c, freeCount);
        var next := curr + objSize;
        if next + objSize <= pageEnd {
          words := words[curr := Some(next)];
        } else {
          words := words[curr := None];
        }
        curr := next;
        freeCount := freeCount + 1;
      }
      SlotFits(page, c, freeCount);
      ThreadedChain(words, page, c);
      headers := headers[page := Header(Some(firstObj), freeCount, freeCount, c)];
    }

    /** `slab_create`; `blocks` are the buddy blocks in use and `small` the objects held by callers. */
    method SlabCreate(c: nat, ghost blocks: map<nat, nat>, ghost small: map<nat, nat>) returns (page: nat)
      requires buddy.Valid() && HeadersOk(headers, words, slabs)
      requires c < NUM_CACHES && ObjectsOk(slabs, small) && slabs.Keys <= blocks.Keys
      requires Inv(buddy.Model(), blocks) && InHeap(buddy.Model()) && RoomFor(buddy.Model(), 0)
      modifies this`words, this`headers, this`slabs, buddy
      ensures buddy.Valid() && HeadersOk(headers, words, slabs)
      ensures page !in blocks && page == Alloc(old(buddy.Model()), 0).1
      ensures buddy.Model() == SetSlabFlag(Alloc(old(buddy.Model()), 0).0, page, true)
      ensures slabs == old(slabs)[page := Slab(c, Slots(page, c))]
    {
      page := buddy.Alloc(0, blocks);
      buddy.SetSlab(page, true);
      ObjectsAtHome(slabs, small);
      FormatPage(page, c);
    }

    method FormatPage(page: nat, c: nat)
      requires HeadersOk(headers, words, slabs) && AtHome(slabs) && c < NUM_CACHES && page !in slabs
      modifies this`words, this`headers, this`slabs
      ensures HeadersOk(headers, words, slabs) && slabs == old(slabs)[page := Slab(c, Slots(page, c))]
    {
      ThreadObjects(page, c);
      OtherHeaders(old(headers), headers, old(words), words, slabs, page);
      slabs := slabs[page := Slab(c, Slots(page, c))];
    }

    /** Take the first object off the free list of a slab. */
    method PopObject(page: nat) returns (obj: nat)
      requires HeadersOk(headers, words, slabs) && AtHome(slabs) && page in slabs && slabs[page].free != []
      modifies this`headers, this`slabs
      ensures obj == old(slabs)[page].free[0]
      ensures slabs == old(slabs)[page := old(slabs)[page].(free := old(slabs)[page].free[1..])]
      ensures HeadersOk(headers, words, slabs) && page in headers && headers[page].freeCount == |slabs[page].free|
    {
      ghost var slab := slabs[page];
      assert HeaderOk(headers[page], words, slab);
      obj := headers[page].freeList.value;
      assert slab.free[0] == obj;
      headers := headers[page := headers[page].(freeList := words[obj])];
      headers := headers[page := headers[page].(freeCount := headers[page].freeCount - 1)];
      slabs := slabs[page := slab.(free := slab.free[1..])];
      OtherHeaders(old(headers), headers, words, words, old(slabs), page);
      ChainTail(headers[page], words, slab);
    }

    /** The second half of `slab_alloc`: take the first object of the first partial slab. */
    method Pop(c: nat) returns (obj: nat)
      requires ListsValid() && HeadersOk(headers, words, slabs) && AtHome(slabs) && c < NUM_CACHES
      requires lists[c] != [] && lists[c][0] in slabs && slabs[lists[c][0]].free != []
      modifies this`headers, this`slabs, this`links, this`heads, this`lists
      ensures ListsValid() && HeadersOk(headers, words, slabs)
      ensures Taken(old(slabs), old(lists), slabs, lists, c, obj)
    {
      var page := heads[c].value;
      assert page == lists[c][0] && page in lists[c];
      obj := PopObject(page);
      if headers[page].freeCount == 0 {
        ListRemove(c, page);
        ListAdd(NUM_CACHES + c, page);
      }
    }

    /** The first half of `slab_alloc` when the cache has no partial slab. */
    method NewSlab(c: nat, ghost held: Held)
      requires Valid() && c < NUM_CACHES && Consistent(Model(), held) && Wf(Model()) && RoomFor(buddy.Model(), 0)
      modifies this, buddy
      ensures Valid() && Model() == KernelHeap.SlabCreate(old(Model()), c)
    {
      ghost var was := Model();
      BlocksMembers(slabs, held.large);
      var page := SlabCreate(c, BlocksOf(slabs, held.large), held.small);
      NotYetListed(was, lists, page);
      ListAdd(c, page);
    }

    /** `slab_alloc` */
    method SlabAlloc(c: nat, ghost held: Held) returns (obj: nat)
      requires Valid() && c < NUM_CACHES && Consistent(Model(), held) && Wf(Model())
      requires lists[c] == [] ==> RoomFor(buddy.Model(), 0)
      modifies this, buddy
      ensures Valid() && (Model(), obj) == KernelHeap.SlabAlloc(old(Model()), c)
    {
      SomePartial(Model(), c);
      if heads[c].None? {
        CreateKeeps(Model(), held, c);
        NewSlab(c, held);
      }
      obj := PopFirst(c, held.small);
    }

    method PopFirst(c: nat, ghost small: map<nat, nat>) returns (obj: nat)
      requires Valid() && c < NUM_CACHES && ObjectsOk(slabs, small)
      requires lists[c] != [] && lists[c][0] in slabs && slabs[lists[c][0]].free != []
      modifies this`headers, this`slabs, this`links, this`heads, this`lists
      ensures Valid() && (Model(), obj) == SlabPop(old(Model()), c)
    {
      ghost var ready := Model();
      ObjectsAtHome(slabs, small);
      obj := Pop(c);
      TakenIsPop(ready, Model(), lists, c, obj);
    }

    /** Put an object back on the free list of its slab. */
    method PushObject(x: nat, page: nat)
      requires HeadersOk(headers, words, slabs) && AtHome(slabs)
      requires page == x / PAGE_SIZE && page in slabs && page in headers && x !in slabs[page].free
      modifies this`words, this`headers, this`slabs
      ensures slabs == old(slabs)[page := old(slabs)[page].(free := [x] + old(slabs)[page].free)]
      ensures HeadersOk(headers, words, slabs)
      ensures page in headers && headers[page].freeCount == |slabs[page].free|
      ensures headers[page].totalCount == Total(slabs[page].cache)
    {
      ghost var slab := slabs[page];
      words := words[x := headers[page].freeList];
      headers := headers[page := headers[page].(freeList := Some(x), freeCount := headers[page].freeCount + 1)];
      slabs := slabs[page := slab.(free := [x] + slab.free)];
      PushHeaders(old(headers), headers, old(words), words, old(slabs), page, x);
    }

    /** `slab_free` up to the test whether the slab is empty */
    method Push(x: nat, ghost small: map<nat, nat>) returns (page: nat, c: nat)
      requires Valid() && SlabLayer(Model(), small) && x in small
      modifies this
      ensures page == x / PAGE_SIZE && page in old(slabs) && c == old(slabs)[page].cache < NUM_CACHES
      ensures Valid() && Model() == SlabPush(old(Model()), x)
      ensures page in slabs && page in headers
      ensures headers[page].freeCount == |slabs[page].free| && headers[page].totalCount == Total(c)
    {
      assert ObjectOk(slabs, x, small[x]);
      page := x / PAGE_SIZE;
      assert HeaderOk(headers[page], words, slabs[page]);
      c := headers[page].cache;
      ObjectsAtHome(slabs, small);
      HeldIsNotFree(slabs, small, x);
      ghost var was := Model();
      if headers[page].freeCount == 0 {
        FullIsListed(was, lists, page);
        ListRemove(NUM_CACHES + c, page);
        ListAdd(c, page);
      }
      PushObject(x, page);
    }

    /** `slab_free` */
    method SlabFree(x: nat, ghost held: Held)
      requires Valid() && HeapInv(Model(), held) && Wf(Model()) && x in held.small && CanFree(Model(), x)
      requires x / PAGE_SIZE in slabs && slabs[x / PAGE_SIZE].cache < NUM_CACHES
      modifies this, buddy
      ensures Valid() && Model() == KernelHeap.SlabFree(old(Model()), x)
    {
      PushedConsistent(Model(), held, x);
      var page, c := Push(x, held.small);
      if headers[page].freeCount == headers[page].totalCount {
        BlocksMembers(slabs, held.large);
        PartialIsListed(Model(), lists, page);
        Retire(page, c, BlocksOf(slabs, held.large));
      }
    }

    /** The end of `slab_free`: an empty slab goes back to the buddy allocator. */
    method Retire(page: nat, c: nat, ghost blocks: map<nat, nat>)
      requires Valid() && page in slabs && slabs[page].cache == c < NUM_CACHES && page in lists[c]
      requires Inv(buddy.Model(), blocks) && page in blocks
      requires page < |buddy.metadata| && buddy.metadata[page].order <= MAX_ORDERS
      modifies this, buddy
      ensures Valid() && Model() == SlabRelease(old(Model()), page)
    {
      ListRemove(c, page);
      ReturnPage(page, blocks);
      slabs := slabs - {page};
    }

    method ReturnPage(page: nat, ghost blocks: map<nat, nat>)
      requires buddy.Valid() && Inv(buddy.Model(), blocks) && page in blocks
      requires page < |buddy.metadata| && buddy.metadata[page].order <= MAX_ORDERS
      modifies buddy
      ensures buddy.Valid() && buddy.Model() == Free(SetSlabFlag(old(buddy.Model()), page, false), page)
    {
      FlagKeepsInv(buddy.Model(), blocks, page, false);
      buddy.SetSlab(page, false);
      buddy.Free(page, blocks);
    }

    /** `kmalloc`; `held` is what callers hold before the call. */
    method Kmalloc(size: nat, ghost held: Held) returns (ptr: Option<nat>)
      requires Valid() && HeapInv(Model(), held) && Wf(Model()) && CanMalloc(Model(), size)
      modifies this, buddy
      ensures Valid() && (Model(), ptr) == KernelHeap.Kmalloc(old(Model()), size)
      ensures HeapInv(Model(), AfterMalloc(held, size, ptr))
    {
      KmallocKeeps(Model(), held, size);
      if size == 0 {
        return None;
      }
      if size > MAX_SMALL {
        var order := ChooseOrder(size);
        var page := buddy.Alloc(order, BlocksOf(slabs, held.large));
        return Some(page * PAGE_SIZE);
      }
      var i := 0;
      while i < NUM_CACHES
        invariant 0 <= i <= NUM_CACHES && ClassFor(size) >= i
        invariant Valid() && Model() == old(Model())
      {
        if size <= ObjSize(i) {
          ClassIs(i, size);
          var obj := SlabAlloc(i, held);
          return Some(obj);
        }
        i := i + 1;
      }
      assert false;
    }

    /** The doubling loop of `kmalloc`. */
    method ChooseOrder(size: nat) returns (order: nat)
      requires size <= MAX_REQUEST
      ensures order == OrderFor(size)
    {
      order := 0;
      var s := PAGE_SIZE;
      while s < size
        invariant order <= MAX_ORDERS && s == Pow2(order) * PAGE_SIZE && OrderFrom(order, size) == OrderFor(size)
        decreases MAX_ORDERS - order
      {
        Pow2Values();
        s := s * 2;
        order := order + 1;
      }
    }

    /** `kfree` of the null pointer or of a pointer that callers hold. */
    method Kfree(ptr: Option<nat>, ghost held: Held)
      requires Valid() && HeapInv(Model(), held) && Wf(Model())
      requires ptr.Some? ==> Issued(held, ptr.value) && CanFree(Model(), ptr.value)
      modifies this, buddy
      ensures Valid() && Model() == KernelHeap.Kfree(old(Model()), ptr)
      ensures HeapInv(Model(), AfterFree(held, ptr))
    {
      KfreeKeeps(Model(), held, ptr);
      if ptr.None? {
        return;
      }
      DispatchIsRight(Model(), held, ptr.value);
      var index := ptr.value / PAGE_SIZE;
      if buddy.metadata[index].isSlab {
        SlabFree(ptr.value, held);
      } else {
        BlocksMembers(slabs, held.large);
        buddy.Free(index, BlocksOf(slabs, held.large));
      }
    }
  }

  lemma ClassIs(i: nat, size: nat)
    requires i < NUM_CACHES && size <= ObjSize(i) && size <= MAX_SMALL && i <= ClassFor(size)
    ensures i == ClassFor(size)
  {
  }

  lemma FullIsListed(h: Heap, lists: seq<seq<nat>>, page: nat)
    requires ListsOk(h.slabs, h.partial, h.full) && page in h.slabs && h.slabs[page].free == []
    requires h.slabs[page].cache < NUM_CACHES && |lists| == 2 * NUM_CACHES && h.full == lists[NUM_CACHES..]
    ensures page in lists[NUM_CACHES + h.slabs[page].cache]
  {
    assert page in h.full[h.slabs[page].cache];
  }

  lemma PartialIsListed(h: Heap, lists: seq<seq<nat>>, page: nat)
    requires ListsOk(h.slabs, h.partial, h.full) && page in h.slabs && h.slabs[page].free != []
    requires h.slabs[page].cache < NUM_CACHES && |lists| == 2 * NUM_CACHES && h.partial == lists[..NUM_CACHES]
    ensures page in lists[h.slabs[page].cache]
  {
    assert page in h.partial[h.slabs[page].cache];
  }

  lemma PushHeaders(headers: map<nat, Header>, headers': map<nat, Header>, words: map<nat, Option<nat>>,
                    words': map<nat, Option<nat>>, slabs: map<nat, Slab>, page: nat, x: nat)
    requires HeadersOk(headers, words, slabs) && AtHome(slabs) && page == x / PAGE_SIZE && page in slabs
    requires page in headers && x !in slabs[page].free && words' == words[x := headers[page].freeList]
    requires headers' == headers[page := headers[page].(freeList := Some(x), freeCount := headers[page].freeCount + 1)]
    ensures HeadersOk(headers', words', slabs[page := slabs[page].(free := [x] + slabs[page].free)])
    ensures headers'[page].freeCount == |slabs[page].free| + 1 && headers'[page].totalCount == Total(slabs[page].cache)
  {
    OtherHeaders(headers, headers', words, words', slabs, page);
    ChainPush(headers[page], headers'[page], words, words', slabs[page], x);
    var slabs' := slabs[page := slabs[page].(free := [x] + slabs[page].free)];
    forall p | p in slabs' ensures p in headers' && HeaderOk(headers'[p], words', slabs'[p]) {
      assert p != page ==> slabs'[p] == slabs[p];
    }
  }

  lemma HeldIsNotFree(slabs: map<nat, Slab>, small: map<nat, nat>, x: nat)
    requires ObjectsOk(slabs, small) && x in small && x / PAGE_SIZE in slabs
    ensures x !in slabs[x / PAGE_SIZE].free
  {
    assert ObjectOk(slabs, x, small[x]) && SlabOk(x / PAGE_SIZE, slabs[x / PAGE_SIZE], small);
  }

  lemma ChainPush(header: Header, header': Header, words: map<nat, Option<nat>>, words': map<nat, Option<nat>>,
                  slab: Slab, x: nat)
    requires HeaderOk(header, words, slab) && x !in slab.free && words' == words[x := header.freeList]
    requires header' == header.(freeList := Some(x), freeCount := header.freeCount + 1)
    ensures HeaderOk(header', words', slab.(free := [x] + slab.free))
  {
    var free := [x] + slab.free;
    forall i | 0 <= i < |free| ensures free[i] in words' && words'[free[i]] == At(free, i + 1) {
      if i > 0 { assert slab.free[i - 1] in slab.free; }
    }
  }

  lemma TakenIsPop(h: Heap, r: Heap, lists': seq<seq<nat>>, c: nat, obj: nat)
    requires |h.partial| == NUM_CACHES == |h.full| && |lists'| == 2 * NUM_CACHES && c < NUM_CACHES
    requires h.partial[c] != [] && h.partial[c][0] in h.slabs && h.slabs[h.partial[c][0]].free != []
    requires r == Heap(h.buddy, r.slabs, lists'[..NUM_CACHES], lists'[NUM_CACHES..])
    requires Taken(h.slabs, h.partial + h.full, r.slabs, lists', c, obj)
    ensures (r, obj) == SlabPop(h, c)
  {
  }

  lemma ChainTail(header: Header, words: map<nat, Option<nat>>, slab: Slab)
    requires slab.free != [] && slab.cache < NUM_CACHES && header.cache == slab.cache
    requires header.freeCount == |slab.free| - 1 && header.totalCount == Total(slab.cache)
    requires slab.free[0] in words && header.freeList == words[slab.free[0]]
    requires FreeChain(Some(slab.free[0]), words, slab.free)
    ensures HeaderOk(header, words, slab.(free := slab.free[1..]))
  {
  }

  /** The first object of the first partial slab of cache `c` has been taken. */
  ghost predicate Taken(slabs: map<nat, Slab>, lists: seq<seq<nat>>, slabs': map<nat, Slab>, lists': seq<seq<nat>>,
                        c: nat, obj: nat)
    requires |lists| == 2 * NUM_CACHES && c < NUM_CACHES
    requires lists[c] != [] && lists[c][0] in slabs && slabs[lists[c][0]].free != []
  {
    var page := lists[c][0];
    var slab := slabs[page];
    && obj == slab.free[0] && slabs' == slabs[page := slab.(free := slab.free[1..])]
    && lists' == if |slab.free| == 1
                 then lists[c := Without(lists[c], page)][NUM_CACHES + c := [page] + lists[NUM_CACHES + c]]
                 else lists
  }

  lemma NotYetListed(h: Heap, lists: seq<seq<nat>>, page: nat)
    requires ListsOk(h.slabs, h.partial, h.full) && page !in h.slabs
    requires |lists| == 2 * NUM_CACHES && h.partial == lists[..NUM_CACHES] && h.full == lists[NUM_CACHES..]
    ensures Unlisted(lists, page)
  {
    forall k: nat | k < |lists| ensures page !in lists[k] {
      if k < NUM_CACHES { assert lists[k] == h.partial[k]; } else { assert lists[k] == h.full[k - NUM_CACHES]; }
    }
  }
  /** A write to an unlisted node disturbs no list. */
  lemma UnlistedWrite(heads: seq<Option<nat>>, links: map<nat, Link>, links': map<nat, Link>, lists: seq<seq<nat>>, x: nat)
    requires Represents(heads, links, lists) && Unlisted(lists, x)
    requires forall y :: y in links && y != x ==> y in links' && links'[y] == links[y]
    ensures Represents(heads, links', lists)
  {
    forall k: nat | k < |lists| ensures IsList(heads[k], links', lists[k]) {
      forall y | y in lists[k] ensures y in links && y in links' && links'[y] == links[y] {
        var i :| 0 <= i < |lists[k]| && lists[k][i] == y;
      }
      ListFrame(heads[k], links, links', lists[k]);
    }
  }
}
