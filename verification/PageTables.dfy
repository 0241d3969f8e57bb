/** The four-level page tables of mm/vmm.c (4-level paging of the Intel SDM, volume 3A).

    A table entry is a word of 64 bits, kept as its frame number, which are the bits from 12 up, and the set of its one-bits
    below bit 12, so that there `|` is union and an `&` test is membership. */
module PageTables {
  import opened Seqs

  const ENTRIES: nat := 512
  const PRESENT: nat := 0
  const WRITABLE: nat := 1
  const USER: nat := 2
  /** Bit 7: a 2 MB leaf in a page directory, part of the memory type in a page table. */
  const PS: nat := 7
  /** PTE_WC_HUGE: bit 12, which in an entry is the lowest bit of the frame number. */
  const WC_HUGE: nat := 12

  datatype Entry = Entry(frame: nat, bits: set<nat>)

  const ZERO := Entry(0, {})

  /** Physical memory as far as it holds tables, and the frame of the top table. */
  datatype Space = Space(root: nat, mem: map<nat, seq<Entry>>)

  /** The four table indices of a virtual page. */
  datatype Page = Page(i4: nat, i3: nat, i2: nat, i1: nat)

  predicate Present(e: Entry)
  {
    PRESENT in e.bits
  }

  function Get(mem: map<nat, seq<Entry>>, t: nat, i: nat): Entry
  {
    if t in mem && i < |mem[t]| then mem[t][i] else ZERO
  }

  function Put(mem: map<nat, seq<Entry>>, t: nat, i: nat, e: Entry): map<nat, seq<Entry>>
  {
    if t in mem && i < |mem[t]| then mem[t := mem[t][i := e]] else mem
  }

  /** A frame cleared for use as a table. */
  function Cleared(): seq<Entry>
  {
    seq(ENTRIES, _ => ZERO)
  }

  // ---- the hardware's walk -------------------------------------------------------------------------

  /** The entry that maps a page, the level it was found at (0: 4 KB, 1: 2 MB, 2: 1 GB), and the rights the
      processor grants: user and write access need the bit at every level. */
  datatype Leaf = Leaf(entry: Entry, level: nat, user: bool, write: bool)

  function Walk(sp: Space, v: Page): Option<Leaf>
  {
    var e4 := Get(sp.mem, sp.root, v.i4);
    if !Present(e4) then None else
    var e3 := Get(sp.mem, e4.frame, v.i3);
    if !Present(e3) then None else
    var u3, w3 := USER in e4.bits && USER in e3.bits, WRITABLE in e4.bits && WRITABLE in e3.bits;
    if PS in e3.bits then Some(Leaf(e3, 2, u3, w3)) else
    var e2 := Get(sp.mem, e3.frame, v.i2);
    if !Present(e2) then None else
    var u2, w2 := u3 && USER in e2.bits, w3 && WRITABLE in e2.bits;
    if PS in e2.bits then Some(Leaf(e2, 1, u2, w2)) else
    var e1 := Get(sp.mem, e2.frame, v.i1);
    if !Present(e1) then None else
    Some(Leaf(e1, 0, u2 && USER in e1.bits, w2 && WRITABLE in e1.bits))
  }

  // ---- operations -------------------------------------------------------------------------------------

  /** One descent of `vmm_map_page`: follow entry `i` of table `t`, creating the next table in frame `spare`
      if there is none, and giving a user mapping the right to pass. */
  function Descend(sp: Space, t: nat, i: nat, user: bool, spare: nat): (Space, nat)
  {
    var e := Get(sp.mem, t, i);
    if !Present(e) then
      var bits := if user then {PRESENT, WRITABLE, USER} else {PRESENT, WRITABLE};
      (sp.(mem := Put(sp.mem[spare := Cleared()], t, i, Entry(spare, bits))), spare)
    else if user then (sp.(mem := Put(sp.mem, t, i, e.(bits := e.bits + {USER}))), e.frame)
    else (sp, e.frame)
  }

  const WORD_BITS: nat := 64
  const FRAME_SHIFT: nat := 12

  /** Bit `i` of a number. */
  predicate Bit(n: nat, i: nat)
  {
    if i == 0 then n % 2 == 1 else Bit(n / 2, i - 1)
  }

  /** `n | flags` on the bits from `k` up, where bit 0 of `n` is bit `k` of the word. */
  function OrFlags(n: nat, flags: set<nat>, k: nat): nat
    decreases WORD_BITS - k, n
  {
    if k >= WORD_BITS then n
    else (if n % 2 == 1 || k in flags then 1 else 0) + 2 * OrFlags(n / 2, flags, k + 1)
  }

  /** The entry `paddr | flags` for the address of a frame. */
  function Joined(frame: nat, flags: set<nat>): Entry
  {
    Entry(OrFlags(frame, flags, FRAME_SHIFT), set b | b in flags && b < FRAME_SHIFT)
  }

  /** The entry written for a 4 KB page. */
  function SmallEntry(frame: nat, flags: set<nat>): (e: Entry)
    ensures Present(e) && (USER in e.bits <==> USER in flags) && (WRITABLE in e.bits <==> WRITABLE in flags)
  {
    Joined(frame, flags + {PRESENT})
  }

  /** The entry written for a 2 MB page. */
  function HugeEntry(frame: nat, flags: set<nat>): (e: Entry)
    ensures Present(e) && PS in e.bits && (USER in e.bits <==> USER in flags) && (WRITABLE in e.bits <==> WRITABLE in flags)
  {
    Joined(frame, flags + {PRESENT, PS})
  }

  /** `vmm_map_page` for a 4 KB page; `spare` are the frames `pmm_alloc_page` yields at the three levels
      where a table is missing. */
  function MapSmall(sp: Space, v: Page, frame: nat, flags: set<nat>, spare: (nat, nat, nat)): Space
  {
    var user := USER in flags;
    var (s3, t3) := Descend(sp, sp.root, v.i4, user, spare.0);
    var (s2, t2) := Descend(s3, t3, v.i3, user, spare.1);
    var (s1, t1) := Descend(s2, t2, v.i2, user, spare.2);
    s1.(mem := Put(s1.mem, t1, v.i1, SmallEntry(frame, flags)))
  }

  /** `vmm_map_page` for a 2 MB page */
  function MapHuge(sp: Space, v: Page, frame: nat, flags: set<nat>, spare: (nat, nat)): Space
  {
    var user := USER in flags;
    var (s3, t3) := Descend(sp, sp.root, v.i4, user, spare.0);
    var (s2, t2) := Descend(s3, t3, v.i3, user, spare.1);
    s2.(mem := Put(s2.mem, t2, v.i2, HugeEntry(frame, flags)))
  }

  datatype Slot = Slot(table: nat, index: nat, level: nat)

  /** `vmm_get_entry`: where the entry for a page is; the levels are those the code reports. */
  function GetEntry(sp: Space, v: Page): Option<Slot>
  {
    var e4 := Get(sp.mem, sp.root, v.i4);
    if !Present(e4) then None
    else if PS in e4.bits then Some(Slot(sp.root, v.i4, 3)) else
    var e3 := Get(sp.mem, e4.frame, v.i3);
    if !Present(e3) then None
    else if PS in e3.bits then Some(Slot(e4.frame, v.i3, 2)) else
    var e2 := Get(sp.mem, e3.frame, v.i2);
    if !Present(e2) then None
    else if PS in e2.bits then Some(Slot(e3.frame, v.i2, 2))
    else Some(Slot(e2.frame, v.i1, 0))
  }

  /** `vmm_unmap_page`: the space afterwards and the frame returned (0 when there was no entry). */
  function Unmap(sp: Space, v: Page): (Space, nat)
  {
    match GetEntry(sp, v)
    case None => (sp, 0)
    case Some(s) => (sp.(mem := Put(sp.mem, s.table, s.index, ZERO)), Get(sp.mem, s.table, s.index).frame)
  }

  // ---- flags and frame numbers ---------------------------------------------------------------------------

  /** `OrFlags` is the bitwise or. */
  lemma {:induction false} OrIsBitwise(n: nat, flags: set<nat>, k: nat, i: nat)
    ensures Bit(OrFlags(n, flags, k), i) <==> Bit(n, i) || (k + i < WORD_BITS && k + i in flags)
    decreases i
  {
    if k < WORD_BITS {
      LowBit(if n % 2 == 1 || k in flags then 1 else 0, OrFlags(n / 2, flags, k + 1));
      if i > 0 { OrIsBitwise(n / 2, flags, k + 1, i - 1); }
    }
  }

  lemma LowBit(b: nat, m: nat)
    requires b <= 1
    ensures (b + 2 * m) % 2 == b && (b + 2 * m) / 2 == m
  {
  }

  /** The flags leave the frame number alone: each of them from bit 12 up is a one-bit of it already. */
  ghost predicate Inside(frame: nat, flags: set<nat>)
  {
    forall b :: b in flags && FRAME_SHIFT <= b < WORD_BITS ==> Bit(frame, b - FRAME_SHIFT)
  }

  lemma {:induction false} OrKeepsIff(n: nat, flags: set<nat>, k: nat)
    ensures OrFlags(n, flags, k) == n <==> forall b :: b in flags && k <= b < WORD_BITS ==> Bit(n, b - k)
    decreases WORD_BITS - k
  {
    if k < WORD_BITS {
      OrKeepsIff(n / 2, flags, k + 1);
      assert OrFlags(n, flags, k) == n <==> (k in flags ==> n % 2 == 1) && OrFlags(n / 2, flags, k + 1) == n / 2;
      if forall b :: b in flags && k <= b < WORD_BITS ==> Bit(n, b - k) {
        forall b | b in flags && k + 1 <= b < WORD_BITS ensures Bit(n / 2, b - (k + 1)) { assert Bit(n, b - k); }
        assert k in flags ==> Bit(n, k - k);
      } else {
        var b :| b in flags && k <= b < WORD_BITS && !Bit(n, b - k);
        assert b > k ==> !Bit(n / 2, b - (k + 1));
      }
    }
  }

  /** An entry holds the frame it was made for if and only if the flags leave the frame number alone. */
  lemma FrameKeptIff(frame: nat, flags: set<nat>)
    ensures SmallEntry(frame, flags).frame == frame <==> Inside(frame, flags)
    ensures HugeEntry(frame, flags).frame == frame <==> Inside(frame, flags)
  {
    OrKeepsIff(frame, flags + {PRESENT}, FRAME_SHIFT);
    OrKeepsIff(frame, flags + {PRESENT, PS}, FRAME_SHIFT);
  }

  /** A leaf without reserved bits: physical addresses have 52 bits, and in a 2 MB leaf those below 2 MB are reserved but for
      the lowest, which selects the memory type. The processor faults on others. */
  predicate Accepted(e: Entry, level: nat)
  {
    e.frame < 0x100_0000_0000 && (level == 1 ==> e.frame % ENTRIES <= 1)
  }

  // ---- the unshared tree ----------------------------------------------------------------------------------

  /** The place of a table: the top table, or entry `index` of the table at `parent`. */
  datatype Place = Top | Child(parent: Place, index: nat)

  function Depth(p: Place): nat
  {
    match p
    case Top => 0
    case Child(q, _) => 1 + Depth(q)
  }

  /** An entry of a table at depth `d` that leads to another table. */
  predicate LeadsOn(d: nat, e: Entry)
  {
    d < 3 && Present(e) && !(d == 2 && PS in e.bits)
  }

  /** `at` gives the frame of the table at each place. */
  ghost predicate PlacesOk(sp: Space, at: map<Place, nat>)
  {
    && Top in at && at[Top] == sp.root
    && (forall p :: p in at ==> Depth(p) <= 3 && at[p] in sp.mem && |sp.mem[at[p]]| == ENTRIES)
    && (forall p :: p in at && p.Child? ==> p.parent in at && p.index < ENTRIES)
  }

  /** No frame is used for two tables. */
  ghost predicate Unshared(at: map<Place, nat>)
  {
    forall p, q :: p in at && q in at && at[p] == at[q] ==> p == q
  }

  ghost function EntryAt(sp: Space, at: map<Place, nat>, p: Place, i: nat): Entry
    requires p in at
  {
    Get(sp.mem, at[p], i)
  }

  /** The tables are exactly those the entries lead to. */
  ghost predicate Linked(sp: Space, at: map<Place, nat>)
  {
    forall p, i: nat :: p in at && i < ENTRIES ==>
      var e := EntryAt(sp, at, p, i);
      && (Child(p, i) in at <==> LeadsOn(Depth(p), e))
      && (Child(p, i) in at ==> at[Child(p, i)] == e.frame)
  }

  /** Absent entries are zero; entries above the page tables are writable; only a page directory has leaves
      there; and a user entry is below user entries only. */
  ghost predicate EntryOk(sp: Space, at: map<Place, nat>, p: Place, i: nat)
    requires p in at && (p.Child? ==> p.parent in at)
  {
    var e := EntryAt(sp, at, p, i);
    && (!Present(e) ==> e == ZERO)
    && (LeadsOn(Depth(p), e) ==> WRITABLE in e.bits && PS !in e.bits)
    && (USER in e.bits && p.Child? ==> USER in EntryAt(sp, at, p.parent, p.index).bits)
  }

  ghost predicate TreeOk(sp: Space, at: map<Place, nat>)
  {
    && PlacesOk(sp, at) && Unshared(at) && Linked(sp, at)
    && (forall p, i: nat :: p in at && i < ENTRIES ==> EntryOk(sp, at, p, i))
  }

  ghost function P3(v: Page): Place { Child(Top, v.i4) }
  ghost function P2(v: Page): Place { Child(P3(v), v.i3) }
  ghost function P1(v: Page): Place { Child(P2(v), v.i2) }

  ghost predicate InRange(v: Page)
  {
    v.i4 < ENTRIES && v.i3 < ENTRIES && v.i2 < ENTRIES && v.i1 < ENTRIES
  }

  /** The entry and level that map a page, read off the tree. */
  ghost function Lookup(sp: Space, at: map<Place, nat>, v: Page): Option<(Entry, nat)>
  {
    if P1(v) in at then
      var e := EntryAt(sp, at, P1(v), v.i1);
      if Present(e) then Some((e, 0)) else None
    else if P2(v) in at then
      var e := EntryAt(sp, at, P2(v), v.i2);
      if Present(e) then Some((e, 1)) else None
    else None
  }

  /** In a well-formed tree the hardware's walk finds what the tree says, and its effective rights are
      those of the leaf alone. */
  lemma WalkIsLookup(sp: Space, at: map<Place, nat>, v: Page)
    requires TreeOk(sp, at) && InRange(v)
    ensures match Lookup(sp, at, v)
      case None => Walk(sp, v) == None
      case Some((e, level)) => Walk(sp, v) == Some(Leaf(e, level, USER in e.bits, WRITABLE in e.bits))
  {
    assert Depth(P3(v)) == 1 && Depth(P2(v)) == 2 && Depth(P1(v)) == 3;
    assert EntryOk(sp, at, Top, v.i4);
    if P3(v) in at {
      assert EntryOk(sp, at, P3(v), v.i3);
      if P2(v) in at {
        assert EntryOk(sp, at, P2(v), v.i2);
        if P1(v) in at { assert EntryOk(sp, at, P1(v), v.i1); }
      }
    }
  }
}
