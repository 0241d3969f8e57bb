/** mm/vmm.c in place: page tables in memory, new tables from the frame allocator. */
module Vmm {
  import opened Seqs
  import opened Frames
  import opened PageTables
  import opened PageTableTheory

  const PAGE_SIZE_2MB: nat := 0x20_0000
  const DIRECT_OFFSET: nat := 0xFFFF_8000_0000_0000

  /** The table indices of a virtual address. */
  function PageOf(vaddr: nat): (v: Page)
    ensures InRange(v)
  {
    Page(vaddr / 0x80_0000_0000 % ENTRIES, vaddr / 0x4000_0000 % ENTRIES,
         vaddr / 0x20_0000 % ENTRIES, vaddr / 0x1000 % ENTRIES)
  }

  /** Two addresses have the same indices exactly when they agree in bits 12 to 47. */
  lemma SamePageIff(a: nat, b: nat)
    ensures PageOf(a) == PageOf(b) <==> a / 0x1000 % 0x10_0000_0000 == b / 0x1000 % 0x10_0000_0000
  {
    PageNumber(a);
    PageNumber(b);
    SameDigits(PageOf(a), PageOf(b));
  }

  lemma Shifted(a: nat)
    ensures a / 0x20_0000 == a / 0x1000 / 512
    ensures a / 0x4000_0000 == a / 0x1000 / 512 / 512
    ensures a / 0x80_0000_0000 == a / 0x1000 / 512 / 512 / 512
  {
  }

  lemma Digits(p: nat)
    ensures p % 0x10_0000_0000
         == p % 512 + 512 * (p / 512 % 512 + 512 * (p / 512 / 512 % 512 + 512 * (p / 512 / 512 / 512 % 512)))
  {
  }

  /** The four indices are the digits of the page number. */
  function Number(v: Page): nat
  {
    v.i1 + 512 * (v.i2 + 512 * (v.i3 + 512 * v.i4))
  }

  lemma PageNumber(a: nat)
    ensures a / 0x1000 % 0x10_0000_0000 == Number(PageOf(a))
  {
    Shifted(a);
    Digits(a / 0x1000);
  }

  lemma SameDigits(v: Page, w: Page)
    requires InRange(v) && InRange(w)
    ensures Number(v) == Number(w) <==> v == w
  {
    if Number(v) == Number(w) {
      LowDigit(v.i1, v.i2 + 512 * (v.i3 + 512 * v.i4), w.i1, w.i2 + 512 * (w.i3 + 512 * w.i4));
      LowDigit(v.i2, v.i3 + 512 * v.i4, w.i2, w.i3 + 512 * w.i4);
      LowDigit(v.i3, v.i4, w.i3, w.i4);
    }
  }

  lemma LowDigit(x: nat, q: nat, y: nat, r: nat)
    requires x < 512 && y < 512 && x + 512 * q == y + 512 * r
    ensures x == y && q == r
  {
  }

  ghost function ClearFrames(bits: seq<bool>, total: nat): set<nat>
    requires total <= |bits|
  {
    set f: nat | f < total && !bits[f]
  }

  /** Tables are in frames marked in the allocator. */
  ghost predicate TablesMarked(at: map<Place, nat>, bits: seq<bool>, total: nat)
    requires total <= |bits|
  {
    forall p :: p in at ==> at[p] < total && bits[at[p]]
  }

  /** Frames needed for the table at a place. */
  ghost function Missing(at: map<Place, nat>, p: Place): nat
  {
    if p in at then 0 else 1
  }

  /** An entry that may lead on has its table exactly when it is present. */
  lemma MissingIsAbsent(sp: Space, at: map<Place, nat>, p: Place, i: nat)
    requires TreeOk(sp, at) && p in at && i < ENTRIES && Depth(p) < 3
    requires Present(EntryAt(sp, at, p, i)) ==> LeadsOn(Depth(p), EntryAt(sp, at, p, i))
    ensures Child(p, i) in at <==> Present(EntryAt(sp, at, p, i))
  {
  }

  lemma MissingBelow(at: map<Place, nat>, at': map<Place, nat>, v: Page)
    requires P3(v) in at' && at' == at[P3(v) := at'[P3(v)]]
    ensures Depth(Top) == 0 && Depth(P3(v)) == 1 && Missing(at', P2(v)) == Missing(at, P2(v))
  {
    PageDepths(v);
  }

  lemma SamePageTable(at: map<Place, nat>, at': map<Place, nat>, v: Page)
    requires at'.Keys == at.Keys + {P3(v), P2(v)}
    ensures Missing(at', P1(v)) == Missing(at, P1(v))
  {
    PageDepths(v);
  }

  class AddressSpaces {
    const frames: FrameMap
    var mem: map<nat, seq<Entry>>

    constructor (frames: FrameMap)
      ensures this.frames == frames && mem == map[]
    {
      this.frames := frames;
      mem := map[];
    }

    ghost function Room(): set<nat>
      reads this, frames, frames.bitmap
      requires frames.Valid()
    {
      ClearFrames(frames.bitmap[..], frames.totalPages)
    }

    /** A frame from `pmm_alloc_page`, cleared. */
    method NewTable() returns (f: nat)
      requires frames.Valid() && Room() != {}
      modifies this, frames.bitmap
      ensures frames.Valid() && f in old(Room()) && mem == old(mem)[f := Cleared()]
      ensures frames.bitmap[..] == old(frames.bitmap[..])[f := true]
      ensures Room() == old(Room()) - {f}
    {
      ghost var x :| x in Room();
      assert !frames.bitmap[..][x];
      var addr := frames.AllocPage();
      f := addr / PAGE_SIZE;
      mem := mem[f := Cleared()];
      assert frames.bitmap[..] == old(frames.bitmap[..])[f := true];
    }

    /** One level of `vmm_map_page`; `spare` is the new table's frame, or `unused` when no table was missing. */
    method Descend(ghost root: nat, t: nat, i: nat, user: bool, ghost unused: nat) returns (next: nat, ghost spare: nat)
      requires frames.Valid() && t in mem && i < |mem[t]| && t !in Room() && (!Present(mem[t][i]) ==> Room() != {})
      requires unused >= frames.bitmap.Length
      modifies this, frames.bitmap
      ensures frames.Valid()
      ensures (Space(root, mem), next) == PageTables.Descend(Space(root, old(mem)), t, i, user, spare)
      ensures Took(old(frames.bitmap[..]), frames.bitmap[..], frames.totalPages, spare, unused)
      ensures spare == unused <==> Present(old(mem[t][i]))
      ensures Room() == old(Room()) - {spare}
    {
      spare := unused;
      if !Present(mem[t][i]) {
        var f := NewTable();
        spare := f;
        var bits := if user then {PRESENT, WRITABLE, USER} else {PRESENT, WRITABLE};
        mem := mem[t := mem[t][i := Entry(f, bits)]];
      } else if user {
        mem := mem[t := mem[t][i := mem[t][i].(bits := mem[t][i].bits + {USER})]];
      }
      next := mem[t][i].frame;
    }

    /** A descent from the table at place `p` of a well-formed tree. */
    method Follow(root: nat, t: nat, i: nat, user: bool, ghost p: Place, ghost at: map<Place, nat>)
      returns (next: nat, ghost at': map<Place, nat>)
      requires Sound(root, at) && p in at && at[p] == t && i < ENTRIES && Depth(p) < 3
      requires |Room()| >= Missing(at, Child(p, i))
      requires Present(Get(mem, t, i)) ==> LeadsOn(Depth(p), Get(mem, t, i))
      requires user ==> UserAbove(Space(root, mem), at, p)
      modifies this, frames.bitmap
      ensures Sound(root, at') && at' == at[Child(p, i) := next] && at'[p] == t
      ensures SameTranslations(Space(root, old(mem)), at, Space(root, mem), at')
      ensures user ==> UserAbove(Space(root, mem), at', Child(p, i))
      ensures |Room()| == |old(Room())| - Missing(at, Child(p, i)) && Room() <= old(Room())
    {
      ghost var spare;
      ghost var unused := frames.bitmap.Length;
      MissingIsAbsent(Space(root, mem), at, p, i);
      next, spare := Descend(root, t, i, user, unused);
      assert Spare(at, spare);
      assert spare == unused ==> Child(p, i) in at;
      DescendKeeps(Space(root, old(mem)), at, p, i, user, spare);
      at' := at[Child(p, i) := next];
      MarkedAfter(at, at', old(frames.bitmap[..]), frames.bitmap[..], frames.totalPages, spare, unused);
    }

    /** The tables form a tree under `root`, in frames marked in the allocator. */
    ghost predicate Sound(root: nat, at: map<Place, nat>)
      reads this, frames, frames.bitmap
    {
      frames.Valid() && TreeOk(Space(root, mem), at) && TablesMarked(at, frames.bitmap[..], frames.totalPages)
    }

    /** The tables a map has to create. */
    ghost function ToCreate(at: map<Place, nat>, v: Page, ps: nat): nat
    {
      Missing(at, P3(v)) + Missing(at, P2(v)) + if ps == PAGE_SIZE then Missing(at, P1(v)) else 0
    }

    /** `vmm_map_page`. A 4 KB page gets the frame and flags given, whose rights then hold; a 2 MB region gets one
        leaf; any other page size maps nothing. No other page's translation or rights change, and exactly the frames for
        missing tables are taken. */
    method MapPage(root: nat, paddr: nat, vaddr: nat, ps: nat, flags: set<nat>, ghost at: map<Place, nat>)
      returns (ghost at': map<Place, nat>)
      requires Sound(root, at) && |Room()| >= ToCreate(at, PageOf(vaddr), ps) && paddr % PAGE_SIZE == 0
      requires ps == PAGE_SIZE ==> Accepted(SmallEntry(paddr / PAGE_SIZE, flags), 0) && NoHuge(Space(root, mem), at, PageOf(vaddr))
      requires ps == PAGE_SIZE_2MB ==> Accepted(HugeEntry(paddr / PAGE_SIZE, flags), 1)
      modifies this, frames.bitmap
      ensures Sound(root, at')
      ensures |Room()| == |old(Room())| - ToCreate(at, PageOf(vaddr), ps) && Room() <= old(Room())
      ensures forall u | InRange(u) ::
        Walk(Space(root, mem), u) == Mapped(Space(root, old(mem)), PageOf(vaddr), paddr / PAGE_SIZE, ps, flags, u)
    {
      var v := PageOf(vaddr);
      ghost var sp := Space(root, mem);
      var pd, at2 := ToDirectory(root, v, USER in flags, at);
      ghost var sp2 := Space(root, mem);
      if ps == PAGE_SIZE { NoHugeKept(sp, at, sp2, at2, v); }
      SamePageTable(at, at2, v);
      at' := SetLeaf(root, pd, v, paddr / PAGE_SIZE, ps, flags, at2);
      WalksFollow(sp, at, sp2, at2, Space(root, mem), at', v, paddr / PAGE_SIZE, ps, flags);
    }

    /** The last level of `vmm_map_page`. */
    method SetLeaf(root: nat, pd: nat, v: Page, frame: nat, ps: nat, flags: set<nat>, ghost at: map<Place, nat>)
      returns (ghost at': map<Place, nat>)
      requires Sound(root, at) && InRange(v) && P2(v) in at && at[P2(v)] == pd
      requires ps == PAGE_SIZE ==> NoHuge(Space(root, mem), at, v) && |Room()| >= Missing(at, P1(v))
      requires USER in flags ==> UserAbove(Space(root, mem), at, P2(v))
      modifies this, frames.bitmap
      ensures Sound(root, at') && Room() <= old(Room())
      ensures |Room()| == |old(Room())| - if ps == PAGE_SIZE then Missing(at, P1(v)) else 0
      ensures forall u | InRange(u) ::
        Lookup(Space(root, mem), at', u) == MappedEntry(Space(root, old(mem)), at, v, frame, ps, flags, u)
    {
      at' := at;
      if ps == PAGE_SIZE {
        at' := SetSmall(root, pd, v, SmallEntry(frame, flags), at);
      } else if ps == PAGE_SIZE_2MB {
        at' := SetHuge(root, pd, v, HugeEntry(frame, flags), at);
      } else {
        // wrong page size
      }
    }

    /** The first two levels of `vmm_map_page`, which lead to the page directory. */
    method ToDirectory(root: nat, v: Page, user: bool, ghost at: map<Place, nat>)
      returns (pd: nat, ghost at': map<Place, nat>)
      requires Sound(root, at) && InRange(v) && |Room()| >= Missing(at, P3(v)) + Missing(at, P2(v))
      modifies this, frames.bitmap
      ensures Sound(root, at') && |Room()| == |old(Room())| - Missing(at, P3(v)) - Missing(at, P2(v)) && Room() <= old(Room())
      ensures at'.Keys == at.Keys + {P3(v), P2(v)}
      ensures SameTranslations(Space(root, old(mem)), at, Space(root, mem), at')
      ensures P2(v) in at' && at'[P2(v)] == pd && (user ==> UserAbove(Space(root, mem), at', P2(v)))
    {
      var pdpt, at3 := Enter(root, root, v.i4, user, Top, at);
      MissingBelow(at, at3, v);
      pd, at' := Enter(root, pdpt, v.i3, user, P3(v), at3);
    }

    /** A descent above the page directories, where every present entry leads on. */
    method Enter(root: nat, t: nat, i: nat, user: bool, ghost p: Place, ghost at: map<Place, nat>)
      returns (next: nat, ghost at': map<Place, nat>)
      requires Sound(root, at) && p in at && at[p] == t && i < ENTRIES && Depth(p) < 2 && |Room()| >= Missing(at, Child(p, i))
      requires user ==> UserAbove(Space(root, mem), at, p)
      modifies this, frames.bitmap
      ensures Sound(root, at') && at' == at[Child(p, i) := next]
      ensures SameTranslations(Space(root, old(mem)), at, Space(root, mem), at')
      ensures user ==> UserAbove(Space(root, mem), at', Child(p, i))
      ensures |Room()| == |old(Room())| - Missing(at, Child(p, i)) && Room() <= old(Room())
    {
      assert EntryOk(Space(root, mem), at, p, i);
      next, at' := Follow(root, t, i, user, p, at);
    }

    method SetSmall(root: nat, pd: nat, v: Page, e: Entry, ghost at: map<Place, nat>) returns (ghost at': map<Place, nat>)
      requires Sound(root, at) && |Room()| >= Missing(at, P1(v)) && InRange(v) && Present(e) && P2(v) in at && at[P2(v)] == pd
      requires NoHuge(Space(root, mem), at, v) && (USER in e.bits ==> UserAbove(Space(root, mem), at, P2(v)))
      modifies this, frames.bitmap
      ensures Sound(root, at') && |Room()| == |old(Room())| - Missing(at, P1(v)) && Room() <= old(Room())
      ensures forall u | InRange(u) ::
        Lookup(Space(root, mem), at', u) == if u == v then Some((e, 0)) else Lookup(Space(root, old(mem)), at, u)
    {
      PageDepths(v);
      assert EntryOk(Space(root, mem), at, P2(v), v.i2);
      ghost var sp := Space(root, mem);
      var pt;
      pt, at' := Follow(root, pd, v.i2, USER in e.bits, P2(v), at);
      ghost var sp1 := Space(root, mem);
      LeafWrite(sp1, at', P1(v), v.i1, e);
      mem := mem[pt := mem[pt][v.i1 := e]];
      forall u | InRange(u)
        ensures Lookup(Space(root, mem), at', u) == if u == v then Some((e, 0)) else Lookup(sp, at, u)
      {
        PageDepths(u);
        assert IsLeafSlot(at', u, P1(v), v.i1) <==> u == v;
      }
    }

    method SetHuge(root: nat, pd: nat, v: Page, e: Entry, ghost at: map<Place, nat>) returns (ghost at': map<Place, nat>)
      requires Sound(root, at) && InRange(v) && Present(e) && PS in e.bits && P2(v) in at && at[P2(v)] == pd
      requires USER in e.bits ==> UserAbove(Space(root, mem), at, P2(v))
      modifies this
      ensures Sound(root, at') && at'.Keys == at.Keys - {P1(v)}
      ensures forall u | InRange(u) ::
        Lookup(Space(root, mem), at', u) == if P1(u) == P1(v) then Some((e, 1)) else Lookup(Space(root, old(mem)), at, u)
    {
      PageDepths(v);
      if P1(v) in at {
        at' := at - {P1(v)};
        LeafOver(Space(root, mem), at, P2(v), v.i2, e);
      } else {
        at' := at;
        LeafWrite(Space(root, mem), at, P2(v), v.i2, e);
      }
      mem := mem[pd := mem[pd][v.i2 := e]];
      forall u | InRange(u) && P1(v) !in at ensures IsLeafSlot(at, u, P2(v), v.i2) <==> P1(u) == P1(v) { PageDepths(u); }
    }

    /** `vmm_unmap_page`: returns the address of the frame that was mapped, or 0. */
    method UnmapPage(root: nat, vaddr: nat, ghost at: map<Place, nat>) returns (paddr: nat)
      requires Sound(root, at)
      modifies this
      ensures Sound(root, at)
      ensures paddr == (match Walk(Space(root, old(mem)), PageOf(vaddr)) case None => 0 case Some(l) => l.entry.frame * PAGE_SIZE)
      ensures forall u | InRange(u) ::
        Walk(Space(root, mem), u)
        == if u == PageOf(vaddr) || (P1(u) == P1(PageOf(vaddr)) && P1(u) !in at) then None else Walk(Space(root, old(mem)), u)
    {
      var v := PageOf(vaddr);
      ghost var sp := Space(root, mem);
      UnmapKeeps(sp, at, v);
      WalkIsLookup(sp, at, v);
      var slot := FindEntry(root, v, at);
      paddr := 0;
      if slot.Some? {
        var t, i := slot.value.table, slot.value.index;
        var entry := Get(mem, t, i);
        paddr := entry.frame * PAGE_SIZE;
        mem := Put(mem, t, i, ZERO);
      }
      assert Space(root, mem) == Unmap(sp, v).0;
      forall u | InRange(u) ensures Walk(Space(root, mem), u) ==
        if u == v || (P1(u) == P1(v) && P1(u) !in at) then None else Walk(sp, u)
      {
        WalkIsLookup(sp, at, u);
        WalkIsLookup(Space(root, mem), at, u);
      }
    }

    /** `vmm_get_entry`: in a well-formed tree, the slot at which the walk of the page ends. */
    method FindEntry(root: nat, v: Page, ghost at: map<Place, nat>) returns (slot: Option<Slot>)
      ensures slot == GetEntry(Space(root, mem), v)
      ensures TreeOk(Space(root, mem), at) && InRange(v) ==> EndsWalk(Space(root, mem), at, v, slot)
    {
      if TreeOk(Space(root, mem), at) && InRange(v) { GetEntryEndsWalk(Space(root, mem), at, v); }
      var e4 := Get(mem, root, v.i4);
      if !Present(e4) { return None; }
      if PS in e4.bits { return Some(Slot(root, v.i4, 3)); }
      var e3 := Get(mem, e4.frame, v.i3);
      if !Present(e3) { return None; }
      if PS in e3.bits { return Some(Slot(e4.frame, v.i3, 2)); }
      var e2 := Get(mem, e3.frame, v.i2);
      if !Present(e2) { return None; }
      if PS in e2.bits { return Some(Slot(e3.frame, v.i2, 2)); }
      return Some(Slot(e2.frame, v.i1, 0));
    }
  }

  lemma NoHugeKept(sp: Space, at: map<Place, nat>, r: Space, at': map<Place, nat>, v: Page)
    requires TreeOk(sp, at) && TreeOk(r, at') && InRange(v) && NoHuge(sp, at, v) && Lookup(r, at', v) == Lookup(sp, at, v)
    ensures NoHuge(r, at', v)
  {
    PageDepths(v);
  }

  /** The walk of page `u` after page `v` has been mapped with page size `ps`. */
  ghost function Mapped(sp: Space, v: Page, frame: nat, ps: nat, flags: set<nat>, u: Page): Option<Leaf>
  {
    if ps == PAGE_SIZE && u == v then
      Some(Leaf(SmallEntry(frame, flags), 0, USER in flags, WRITABLE in flags))
    else if ps == PAGE_SIZE_2MB && P1(u) == P1(v) then
      Some(Leaf(HugeEntry(frame, flags), 1, USER in flags, WRITABLE in flags))
    else Walk(sp, u)
  }

  ghost function MappedEntry(sp: Space, at: map<Place, nat>, v: Page, frame: nat, ps: nat, flags: set<nat>, u: Page)
    : Option<(Entry, nat)>
  {
    if ps == PAGE_SIZE && u == v then Some((SmallEntry(frame, flags), 0))
    else if ps == PAGE_SIZE_2MB && P1(u) == P1(v) then Some((HugeEntry(frame, flags), 1))
    else Lookup(sp, at, u)
  }

  lemma WalksFollow(sp: Space, at: map<Place, nat>, mid: Space, atMid: map<Place, nat>, r: Space, at': map<Place, nat>, v: Page,
                    frame: nat, ps: nat, flags: set<nat>)
    requires TreeOk(sp, at) && TreeOk(r, at') && SameTranslations(sp, at, mid, atMid)
    requires forall u | InRange(u) :: Lookup(r, at', u) == MappedEntry(mid, atMid, v, frame, ps, flags, u)
    ensures forall u | InRange(u) :: Walk(r, u) == Mapped(sp, v, frame, ps, flags, u)
  {
    forall u | InRange(u) ensures Walk(r, u) == Mapped(sp, v, frame, ps, flags, u) {
      assert Lookup(mid, atMid, u) == Lookup(sp, at, u);
      WalkIsLookup(sp, at, u);
      WalkIsLookup(r, at', u);
    }
  }

  lemma MarkedAfter(at: map<Place, nat>, at': map<Place, nat>, bits: seq<bool>, bits': seq<bool>, total: nat,
                    spare: nat, unused: nat)
    requires total <= |bits| && unused >= |bits| && TablesMarked(at, bits, total) && Took(bits, bits', total, spare, unused)
    requires Extends(at, at', spare) && (spare == unused ==> at'.Keys == at.Keys)
    ensures |bits'| == |bits| && TablesMarked(at', bits', total)
  {
  }

  /** What the allocator's bitmap did: `spare` was marked, unless no frame was needed. */
  ghost predicate Took(bits: seq<bool>, bits': seq<bool>, total: nat, spare: nat, unused: nat)
    requires total <= |bits|
  {
    if spare == unused then bits' == bits
    else spare < total && !bits[spare] && bits' == bits[spare := true]
  }
}
