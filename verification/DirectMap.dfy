/** `vmm_init_direct_mapping`: a new top table that keeps the kernel's slot 511 and maps all of physical memory
    at DIRECT_OFFSET with 2 MB pages. */
module DirectMap {
  import opened Seqs
  import opened Frames
  import opened PageTables
  import opened PageTableTheory
  import opened Vmm

  const KERNEL_SLOT: nat := 511
  /** The direct range stays below slot 511. */
  const MAX_DIRECT: nat := 255 * 0x80_0000_0000

  /** The page that starts the direct mapping of the `k`-th 2 MB of physical memory. */
  ghost function DirectPage(k: nat): Page
  {
    PageOf(k * PAGE_SIZE_2MB + DIRECT_OFFSET)
  }

  ghost function DirectEntry(k: nat): Entry
  {
    Entry(512 * k, {PRESENT, WRITABLE, PS})
  }

  lemma DirectIndices(a: nat)
    requires a < MAX_DIRECT
    ensures var v := PageOf(a + DIRECT_OFFSET);
      && v.i4 == a / 0x80_0000_0000 + 256 && v.i4 < KERNEL_SLOT
      && v.i3 == a / 0x4000_0000 % 512 && v.i2 == a / 0x20_0000 % 512
  {
    TopIndex(a);
    MidIndex(a);
    LowIndex(a);
  }

  lemma TopIndex(a: nat)
    requires a < MAX_DIRECT
    ensures (a + DIRECT_OFFSET) / 0x80_0000_0000 % 512 == a / 0x80_0000_0000 + 256
  {
    var q := a / 0x80_0000_0000;
    assert (a + DIRECT_OFFSET) / 0x80_0000_0000 == q + 0x1FF_FF00;
  }

  lemma MidIndex(a: nat)
    ensures (a + DIRECT_OFFSET) / 0x4000_0000 % 512 == a / 0x4000_0000 % 512
  {
    var q := a / 0x4000_0000;
    assert (a + DIRECT_OFFSET) / 0x4000_0000 == q + 0x3_FFFE_0000;
  }

  lemma LowIndex(a: nat)
    ensures (a + DIRECT_OFFSET) / 0x20_0000 % 512 == a / 0x20_0000 % 512
  {
    var q := a / 0x20_0000;
    assert (a + DIRECT_OFFSET) / 0x20_0000 == q + 0x7FF_FC00_0000;
  }

  /** Addresses in the same 2 MB, and only those, share a page-table place. */
  lemma DirectPlaces(a: nat, k: nat)
    requires a < MAX_DIRECT && k * PAGE_SIZE_2MB < MAX_DIRECT
    ensures P1(PageOf(a + DIRECT_OFFSET)) == P1(DirectPage(k)) <==> a / PAGE_SIZE_2MB == k
    ensures DirectPage(k).i4 != KERNEL_SLOT && PageOf(a + DIRECT_OFFSET).i4 != KERNEL_SLOT
  {
    DirectIndices(a);
    DirectIndices(k * PAGE_SIZE_2MB);
    Regions(a / PAGE_SIZE_2MB, a);
    Regions(k, k * PAGE_SIZE_2MB);
    assert k * PAGE_SIZE_2MB / PAGE_SIZE_2MB == k;
  }

  /** A 2 MB number is determined by the three indices. */
  lemma Regions(k: nat, a: nat)
    requires k == a / 0x20_0000
    ensures k == a / 0x20_0000 % 512 + 512 * (a / 0x4000_0000 % 512) + 262144 * (a / 0x80_0000_0000)
  {
    assert a / 0x4000_0000 == k / 512;
    assert a / 0x80_0000_0000 == k / 512 / 512;
  }

  /** The page of a physical address's direct alias is in the leaf for its region. */
  ghost predicate DirectOk(sp: Space, at: map<Place, nat>, a: nat)
  {
    Lookup(sp, at, PageOf(a + DIRECT_OFFSET)) == Some((DirectEntry(a / PAGE_SIZE_2MB), 1))
  }

  /** The page is neither below slot 511 nor in the direct mapping of the first `n` regions. */
  ghost predicate Elsewhere(v: Page, n: nat)
  {
    v.i4 != KERNEL_SLOT && forall k: nat :: k < n ==> P1(v) != P1(DirectPage(k))
  }

  /** The first `n` regions are mapped; what is below slot 511 is as it was; nothing else is mapped. */
  ghost predicate MappedUpTo(sp: Space, at: map<Place, nat>, n: nat, before: Space, atBefore: map<Place, nat>)
  {
    && (forall a: nat :: a < n * PAGE_SIZE_2MB && a < MAX_DIRECT ==> DirectOk(sp, at, a))
    && (forall v :: InRange(v) && v.i4 == KERNEL_SLOT ==> Lookup(sp, at, v) == Lookup(before, atBefore, v))
    && (forall v :: InRange(v) && Elsewhere(v, n) ==> Lookup(sp, at, v) == None)
  }

  lemma OneMore(sp: Space, at: map<Place, nat>, r: Space, at': map<Place, nat>, k: nat, before: Space, atBefore: map<Place, nat>)
    requires MappedUpTo(sp, at, k, before, atBefore) && k * PAGE_SIZE_2MB < MAX_DIRECT
    requires forall u | InRange(u) ::
      Lookup(r, at', u) == if P1(u) == P1(DirectPage(k)) then Some((DirectEntry(k), 1)) else Lookup(sp, at, u)
    ensures MappedUpTo(r, at', k + 1, before, atBefore)
  {
    forall a: nat | a < (k + 1) * PAGE_SIZE_2MB && a < MAX_DIRECT
      ensures DirectOk(r, at', a)
    {
      DirectPlaces(a, k);
      assert a < k * PAGE_SIZE_2MB ==> DirectOk(sp, at, a);
    }
    forall v | InRange(v) && v.i4 == KERNEL_SLOT ensures Lookup(r, at', v) == Lookup(before, atBefore, v) {
      DirectPlaces(0, k);
    }
    forall v | InRange(v) && Elsewhere(v, k + 1) ensures Lookup(r, at', v) == None {
      assert P1(v) != P1(DirectPage(k)) && Elsewhere(v, k);
    }
  }

  /** How many 2 MB pages cover `maxAddr` bytes. */
  function RegionCount(maxAddr: nat): nat
  {
    (maxAddr + PAGE_SIZE_2MB - 1) / PAGE_SIZE_2MB
  }

  /** Tables that region `k` is the first to need: a page directory for every 512 regions and a table above for every 512
      directories. */
  function NewTables(k: nat): nat
  {
    (if k % 512 == 0 then 1 else 0) + (if k % 262144 == 0 then 1 else 0)
  }

  /** Tables that map the first `n` regions. */
  function TablesFor(n: nat): nat
  {
    if n == 0 then 0 else TablesFor(n - 1) + NewTables(n - 1)
  }

  lemma {:induction false} TablesForIs(n: nat)
    ensures TablesFor(n) == (n + 511) / 512 + (n + 262143) / 262144
  {
    if n > 0 {
      TablesForIs(n - 1);
      RoundUpStep(n - 1, 512);
      RoundUpStep(n - 1, 262144);
    }
  }

  lemma RoundUpStep(k: nat, n: nat)
    requires n == 512 || n == 262144
    ensures (k + 1 + (n - 1)) / n == (k + (n - 1)) / n + if k % n == 0 then 1 else 0
  {
  }

  /** The tables on the way to the first `n` regions. */
  ghost predicate Reached(at: map<Place, nat>, n: nat)
  {
    forall j: nat :: j < n ==> TablesAt(at, j)
  }

  ghost predicate TablesAt(at: map<Place, nat>, j: nat)
  {
    P3(DirectPage(j)) in at && P2(DirectPage(j)) in at
  }

  /** A region shares its directory with the one before it unless it starts one, and likewise the table above. */
  lemma SharedTables(k: nat)
    requires k > 0 && k * PAGE_SIZE_2MB < MAX_DIRECT
    ensures k % 262144 != 0 ==> P3(DirectPage(k)) == P3(DirectPage(k - 1))
    ensures k % 512 != 0 ==> P2(DirectPage(k)) == P2(DirectPage(k - 1))
  {
    DirectIndices(k * PAGE_SIZE_2MB);
    DirectIndices((k - 1) * PAGE_SIZE_2MB);
    Quotients(k);
    Quotients(k - 1);
    if k % 512 != 0 { SameQuotient(k, 512); }
    if k % 262144 != 0 { SameQuotient(k, 262144); }
  }

  lemma Quotients(k: nat)
    ensures k * PAGE_SIZE_2MB / 0x4000_0000 == k / 512 && k * PAGE_SIZE_2MB / 0x80_0000_0000 == k / 262144
  {
  }

  lemma SameQuotient(k: nat, n: nat)
    requires k > 0 && (n == 512 || n == 262144) && k % n != 0
    ensures k / n == (k - 1) / n
  {
  }

  /** What region `k` still needs. */
  lemma NeedsAt(at: map<Place, nat>, k: nat)
    requires k * PAGE_SIZE_2MB < MAX_DIRECT && Reached(at, k)
    ensures Missing(at, P3(DirectPage(k))) + Missing(at, P2(DirectPage(k))) <= NewTables(k)
  {
    if k > 0 {
      SharedTables(k);
      assert TablesAt(at, k - 1);
    }
  }

  lemma Budget(at: map<Place, nat>, k: nat, n: nat)
    requires k < n && k * PAGE_SIZE_2MB < MAX_DIRECT && Reached(at, k)
    ensures Missing(at, P3(DirectPage(k))) + Missing(at, P2(DirectPage(k))) + TablesFor(k) <= TablesFor(k + 1) <= TablesFor(n)
  {
    NeedsAt(at, k);
    TablesGrow(k + 1, n);
  }

  /** The new top table, with the kernel's slot copied. */
  method NewTop(vm: AddressSpaces, oldRoot: nat, ghost at: map<Place, nat>) returns (root: nat, ghost at': map<Place, nat>)
    requires vm.Sound(oldRoot, at) && vm.Room() != {}
    modifies vm, vm.frames.bitmap
    ensures vm.Sound(root, at') && |vm.Room()| + 1 >= |old(vm.Room())| && vm.Room() <= old(vm.Room())
    ensures forall v | InRange(v) && v.i4 != KERNEL_SLOT :: Lookup(Space(root, vm.mem), at', v) == None
    ensures forall v | InRange(v) && v.i4 == KERNEL_SLOT ::
      Lookup(Space(root, vm.mem), at', v) == Lookup(Space(oldRoot, old(vm.mem)), at, v)
  {
    ghost var sp := Space(oldRoot, vm.mem);
    root := vm.NewTable();
    assert Spare(at, root);
    var kernel := Get(vm.mem, oldRoot, KERNEL_SLOT);
    assert kernel == Get(sp.mem, oldRoot, KERNEL_SLOT);
    vm.mem := vm.mem[root := vm.mem[root][KERNEL_SLOT := kernel]];
    at' := CopyPlaces(at, KERNEL_SLOT, root);
    assert vm.mem == sp.mem[root := Cleared()[KERNEL_SLOT := kernel]];
    CopySlot(sp, at, KERNEL_SLOT, root);
    CopyMarked(at, root, old(vm.frames.bitmap[..]), vm.frames.bitmap[..], vm.frames.totalPages);
  }

  lemma CopyMarked(at: map<Place, nat>, root: nat, bits: seq<bool>, bits': seq<bool>, total: nat)
    requires total <= |bits| && TablesMarked(at, bits, total) && root < total && bits' == bits[root := true]
    ensures TablesMarked(CopyPlaces(at, KERNEL_SLOT, root), bits', total)
  {
  }

  /** `vmm_init_direct_mapping` */
  method InitDirectMapping(vm: AddressSpaces, oldRoot: nat, maxAddr: nat, ghost at: map<Place, nat>)
    returns (root: nat, ghost at': map<Place, nat>)
    requires vm.Sound(oldRoot, at) && maxAddr <= MAX_DIRECT && |vm.Room()| >= 1 + TablesFor(RegionCount(maxAddr))
    modifies vm, vm.frames.bitmap
    ensures vm.Sound(root, at')
    ensures forall a: nat | a < maxAddr :: Reaches(Space(root, vm.mem), a)
    ensures forall v | InRange(v) && v.i4 == KERNEL_SLOT :: Walk(Space(root, vm.mem), v) == Walk(Space(oldRoot, old(vm.mem)), v)
    ensures forall v | InRange(v) && Elsewhere(v, RegionCount(maxAddr)) :: Walk(Space(root, vm.mem), v) == None
    ensures |vm.Room()| + 1 + TablesFor(RegionCount(maxAddr)) >= |old(vm.Room())| && vm.Room() <= old(vm.Room())
  {
    ghost var before := Space(oldRoot, vm.mem);
    root, at' := NewTop(vm, oldRoot, at);
    RegionsCover(maxAddr);
    at' := MapAll(vm, root, maxAddr, RegionCount(maxAddr), at', before, at, vm.Room());
    WalksReach(Space(root, vm.mem), at', RegionCount(maxAddr), maxAddr, before, at);
  }

  lemma RegionsCover(maxAddr: nat)
    ensures Fills(RegionCount(maxAddr), maxAddr)
  {
  }

  /** `n` is the least number of regions that cover `maxAddr` bytes. */
  ghost predicate Fills(n: nat, maxAddr: nat)
  {
    maxAddr <= n * PAGE_SIZE_2MB && (n > 0 ==> (n - 1) * PAGE_SIZE_2MB < maxAddr)
  }

  lemma InsideIff(k: nat, n: nat, maxAddr: nat)
    requires Fills(n, maxAddr)
    ensures k * PAGE_SIZE_2MB < maxAddr <==> k < n
  {
  }

  /** The loop of `vmm_init_direct_mapping`, over `n` regions. */
  method MapAll(vm: AddressSpaces, root: nat, maxAddr: nat, ghost n: nat, ghost start: map<Place, nat>, ghost before: Space,
                ghost atBefore: map<Place, nat>, ghost room: set<nat>) returns (ghost at: map<Place, nat>)
    requires maxAddr <= MAX_DIRECT && Fills(n, maxAddr) && Progress(vm, root, start, 0, n, before, atBefore, room)
    modifies vm, vm.frames.bitmap
    ensures Progress(vm, root, at, n, n, before, atBefore, room)
  {
    at := start;
    var paddr: nat := 0;
    ghost var k: nat := 0;
    InsideIff(0, n, maxAddr);
    while paddr < maxAddr
      invariant Stage(paddr, k, n, maxAddr) && Progress(vm, root, at, k, n, before, atBefore, room)
      decreases maxAddr - paddr
    {
      ghost var j := k;
      k := k + 1;
      at, paddr := MapNext(vm, root, maxAddr, paddr, j, n, at, before, atBefore, room);
    }
  }

  /** The loop counter after `k` turns of `n`. */
  ghost predicate Stage(paddr: nat, k: nat, n: nat, maxAddr: nat)
  {
    paddr == k * PAGE_SIZE_2MB && k <= n && (paddr >= maxAddr ==> k == n)
  }

  /** The loop invariant: the first `k` regions are mapped, and there is room for the tables of the rest. */
  ghost predicate Progress(vm: AddressSpaces, root: nat, at: map<Place, nat>, k: nat, n: nat, before: Space,
                           atBefore: map<Place, nat>, room: set<nat>)
    reads vm, vm.frames, vm.frames.bitmap
  {
    && vm.Sound(root, at) && Reached(at, k) && vm.Room() <= room && |vm.Room()| + TablesFor(k) >= |room| >= TablesFor(n)
    && MappedUpTo(Space(root, vm.mem), at, k, before, atBefore)
  }

  /** One turn of the loop: region `k` of `n`. */
  method MapNext(vm: AddressSpaces, root: nat, maxAddr: nat, paddr: nat, ghost k: nat, ghost n: nat, ghost at: map<Place, nat>,
                 ghost before: Space, ghost atBefore: map<Place, nat>, ghost room: set<nat>)
    returns (ghost at': map<Place, nat>, paddr': nat)
    requires Stage(paddr, k, n, maxAddr) && paddr < maxAddr <= MAX_DIRECT && Fills(n, maxAddr)
    requires Progress(vm, root, at, k, n, before, atBefore, room)
    modifies vm, vm.frames.bitmap
    ensures Stage(paddr', k + 1, n, maxAddr) && paddr < paddr' && Progress(vm, root, at', k + 1, n, before, atBefore, room)
  {
    InsideIff(k, n, maxAddr);
    Budget(at, k, n);
    at' := MapRegion(vm, root, paddr, k, at, before, atBefore);
    paddr' := paddr + PAGE_SIZE_2MB;
    InsideIff(k + 1, n, maxAddr);
  }

  /** Maps one region. */
  method MapRegion(vm: AddressSpaces, root: nat, paddr: nat, ghost k: nat, ghost at: map<Place, nat>, ghost before: Space,
                   ghost atBefore: map<Place, nat>) returns (ghost at': map<Place, nat>)
    requires vm.Sound(root, at) && paddr == k * PAGE_SIZE_2MB < MAX_DIRECT && Reached(at, k)
    requires |vm.Room()| >= Missing(at, P3(DirectPage(k))) + Missing(at, P2(DirectPage(k)))
    requires MappedUpTo(Space(root, vm.mem), at, k, before, atBefore)
    modifies vm, vm.frames.bitmap
    ensures vm.Sound(root, at') && Reached(at', k + 1)
    ensures |vm.Room()| == |old(vm.Room())| - Missing(at, P3(DirectPage(k))) - Missing(at, P2(DirectPage(k)))
    ensures vm.Room() <= old(vm.Room())
    ensures MappedUpTo(Space(root, vm.mem), at', k + 1, before, atBefore)
  {
    ghost var sp := Space(root, vm.mem);
    at' := PutRegion(vm, root, PageOf(paddr + DIRECT_OFFSET), Entry(paddr / PAGE_SIZE, {PRESENT, WRITABLE, PS}), at);
    assert paddr / PAGE_SIZE == 512 * k;
    OneMore(sp, at, Space(root, vm.mem), at', k, before, atBefore);
    StillReached(at, at', k);
  }

  lemma StillReached(at: map<Place, nat>, at': map<Place, nat>, k: nat)
    requires Reached(at, k) && at'.Keys == at.Keys + {P3(DirectPage(k)), P2(DirectPage(k))} - {P1(DirectPage(k))}
    ensures Reached(at', k + 1)
  {
    forall j: nat | j < k + 1 ensures TablesAt(at', j) {
      assert j < k ==> TablesAt(at, j);
      PageDepths(DirectPage(j));
      PageDepths(DirectPage(k));
    }
  }

  lemma {:induction false} TablesGrow(a: nat, b: nat)
    requires a <= b
    ensures TablesFor(a) <= TablesFor(b)
  {
    if a < b {
      TablesGrow(a, b - 1);
    }
  }

  method PutRegion(vm: AddressSpaces, root: nat, v: Page, e: Entry, ghost at: map<Place, nat>)
    returns (ghost at': map<Place, nat>)
    requires vm.Sound(root, at) && |vm.Room()| >= Missing(at, P3(v)) + Missing(at, P2(v))
    requires InRange(v) && Present(e) && PS in e.bits && USER !in e.bits
    modifies vm, vm.frames.bitmap
    ensures vm.Sound(root, at') && |vm.Room()| == |old(vm.Room())| - Missing(at, P3(v)) - Missing(at, P2(v))
    ensures vm.Room() <= old(vm.Room())
    ensures at'.Keys == at.Keys + {P3(v), P2(v)} - {P1(v)}
    ensures forall u | InRange(u) ::
      Lookup(Space(root, vm.mem), at', u)
      == if P1(u) == P1(v) then Some((e, 1)) else Lookup(Space(root, old(vm.mem)), at, u)
  {
    var pd, mid := vm.ToDirectory(root, v, false, at);
    at' := vm.SetHuge(root, pd, v, e, mid);
  }

  /** The walk of a physical address's direct alias ends in a writable kernel-only 2 MB page that holds it. */
  ghost predicate Reaches(sp: Space, a: nat)
  {
    && Walk(sp, PageOf(a + DIRECT_OFFSET)) == Some(Leaf(DirectEntry(a / PAGE_SIZE_2MB), 1, false, true))
    && DirectEntry(a / PAGE_SIZE_2MB).frame * PAGE_SIZE + (a + DIRECT_OFFSET) % PAGE_SIZE_2MB == a
  }

  lemma SameOffset(a: nat)
    ensures DirectEntry(a / PAGE_SIZE_2MB).frame * PAGE_SIZE + (a + DIRECT_OFFSET) % PAGE_SIZE_2MB == a
  {
    assert (a + DIRECT_OFFSET) % PAGE_SIZE_2MB == a % PAGE_SIZE_2MB;
  }

  lemma WalksReach(sp: Space, at: map<Place, nat>, k: nat, maxAddr: nat, before: Space, atBefore: map<Place, nat>)
    requires TreeOk(sp, at) && TreeOk(before, atBefore) && MappedUpTo(sp, at, k, before, atBefore)
    requires maxAddr <= k * PAGE_SIZE_2MB && maxAddr <= MAX_DIRECT
    ensures forall a: nat | a < maxAddr :: Reaches(sp, a)
    ensures forall v | InRange(v) && v.i4 == KERNEL_SLOT :: Walk(sp, v) == Walk(before, v)
    ensures forall v | InRange(v) && Elsewhere(v, k) :: Walk(sp, v) == None
  {
    forall v | InRange(v) && Elsewhere(v, k) ensures Walk(sp, v) == None { WalkIsLookup(sp, at, v); }
    forall a: nat | a < maxAddr ensures Reaches(sp, a) {
      assert DirectOk(sp, at, a);
      WalkIsLookup(sp, at, PageOf(a + DIRECT_OFFSET));
      SameOffset(a);
    }
    forall v | InRange(v) && v.i4 == KERNEL_SLOT ensures Walk(sp, v) == Walk(before, v) {
      WalkIsLookup(sp, at, v);
      WalkIsLookup(before, atBefore, v);
    }
  }
}
