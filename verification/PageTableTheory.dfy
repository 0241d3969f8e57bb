/** What mapping and unmapping a page does to every translation. */
module PageTableTheory {
  import opened Seqs
  import opened PageTables

  /** A frame that holds no table. */
  ghost predicate Spare(at: map<Place, nat>, f: nat)
  {
    forall p :: p in at ==> at[p] != f
  }

  /** The slot a table's place is entered from lets users pass. */
  ghost predicate UserAbove(sp: Space, at: map<Place, nat>, p: Place)
    requires p in at
  {
    p.Child? ==> p.parent in at && USER in EntryAt(sp, at, p.parent, p.index).bits
  }

  ghost predicate SameTranslations(sp: Space, at: map<Place, nat>, r: Space, at': map<Place, nat>)
  {
    forall v :: InRange(v) ==> Lookup(r, at', v) == Lookup(sp, at, v)
  }

  // ---- writing one slot --------------------------------------------------------------------------------

  /** A write to one slot of the tree is seen at that slot only. */
  lemma OneSlot(sp: Space, at: map<Place, nat>, p: Place, i: nat, e: Entry)
    requires PlacesOk(sp, at) && Unshared(at) && p in at && i < ENTRIES
    ensures var r := sp.(mem := Put(sp.mem, at[p], i, e));
      && PlacesOk(r, at)
      && (forall q, j: nat :: q in at && j < ENTRIES ==>
            EntryAt(r, at, q, j) == if q == p && j == i then e else EntryAt(sp, at, q, j))
  {
  }

  /** Letting users pass an entry that leads on changes no translation. */
  lemma GrantKeeps(sp: Space, at: map<Place, nat>, p: Place, i: nat)
    requires TreeOk(sp, at) && p in at && i < ENTRIES && Child(p, i) in at && UserAbove(sp, at, p)
    ensures var e := EntryAt(sp, at, p, i);
      var r := sp.(mem := Put(sp.mem, at[p], i, e.(bits := e.bits + {USER})));
      TreeOk(r, at) && SameTranslations(sp, at, r, at)
  {
    var e := EntryAt(sp, at, p, i);
    var e' := e.(bits := e.bits + {USER});
    var r := sp.(mem := Put(sp.mem, at[p], i, e'));
    OneSlot(sp, at, p, i, e');
    assert Linked(r, at);
    forall q, j: nat | q in at && j < ENTRIES ensures EntryOk(r, at, q, j) { assert EntryOk(sp, at, q, j); }
    forall v | InRange(v) ensures Lookup(r, at, v) == Lookup(sp, at, v) { LeafElsewhere(sp, at, v, p, i); }
  }

  /** The slot that maps a page does not lead on. */
  lemma LeafElsewhere(sp: Space, at: map<Place, nat>, v: Page, p: Place, i: nat)
    requires TreeOk(sp, at) && InRange(v) && p in at && Child(p, i) in at
    ensures P1(v) in at ==> !(P1(v) == p && v.i1 == i)
    ensures P1(v) !in at ==> !(P2(v) == p && v.i2 == i)
  {
    PageDepths(v);
  }

  lemma PageDepths(v: Page)
    ensures Depth(P3(v)) == 1 && Depth(P2(v)) == 2 && Depth(P1(v)) == 3
  {
    assert Depth(P3(v)) == 1 && Depth(P2(v)) == 2;
  }

  /** Hanging a cleared table into an empty slot changes no translation. */
  lemma HangKeeps(sp: Space, at: map<Place, nat>, p: Place, i: nat, user: bool, spare: nat)
    requires TreeOk(sp, at) && p in at && i < ENTRIES && Depth(p) < 3 && Spare(at, spare)
    requires !Present(EntryAt(sp, at, p, i)) && (user ==> UserAbove(sp, at, p))
    ensures var (r, t) := Descend(sp, at[p], i, user, spare);
      var at' := at[Child(p, i) := t];
      && t == spare && TreeOk(r, at') && SameTranslations(sp, at, r, at')
      && (user ==> USER in EntryAt(r, at', p, i).bits)
  {
    assert Child(p, i) !in at;
    HangEntries(sp, at, p, i, user, spare);
    var (r, t) := Descend(sp, at[p], i, user, spare);
    HangAll(sp, at, r, at[Child(p, i) := t], p, i, user, spare);
  }

  lemma HangAll(sp: Space, at: map<Place, nat>, r: Space, at': map<Place, nat>, p: Place, i: nat, user: bool, spare: nat)
    requires TreeOk(sp, at) && p in at && i < ENTRIES && Depth(p) < 3 && Child(p, i) !in at
    requires !Present(EntryAt(sp, at, p, i)) && (user ==> UserAbove(sp, at, p))
    requires at' == at[Child(p, i) := spare] && at'.Keys == at.Keys + {Child(p, i)} && Hung(sp, at, r, at', p, i)
    requires EntryAt(r, at', p, i) == Entry(spare, if user then {PRESENT, WRITABLE, USER} else {PRESENT, WRITABLE})
    requires PlacesOk(r, at') && Unshared(at')
    ensures TreeOk(r, at') && SameTranslations(sp, at, r, at')
  {
    HangLinked(sp, at, r, at', p, i, spare);
    HangEntriesOk(sp, at, r, at', p, i, user);
    HangTranslations(sp, at, r, at', p, i);
  }

  /** Reading entries after a cleared table has been hung in. */
  ghost predicate Hung(sp: Space, at: map<Place, nat>, r: Space, at': map<Place, nat>, p: Place, i: nat)
    requires p in at && at'.Keys == at.Keys + {Child(p, i)}
  {
    && (forall j: nat :: j < ENTRIES ==> EntryAt(r, at', Child(p, i), j) == ZERO)
    && (forall q, j: nat :: q in at && j < ENTRIES && !(q == p && j == i) ==> EntryAt(r, at', q, j) == EntryAt(sp, at, q, j))
  }

  lemma HangEntries(sp: Space, at: map<Place, nat>, p: Place, i: nat, user: bool, spare: nat)
    requires PlacesOk(sp, at) && Unshared(at) && p in at && i < ENTRIES && Depth(p) < 3 && Spare(at, spare)
    requires Child(p, i) !in at && !Present(EntryAt(sp, at, p, i))
    ensures var (r, t) := Descend(sp, at[p], i, user, spare);
      var at' := at[Child(p, i) := t];
      && t == spare && PlacesOk(r, at') && Unshared(at') && at'.Keys == at.Keys + {Child(p, i)}
      && Hung(sp, at, r, at', p, i)
      && EntryAt(r, at', p, i) == Entry(spare, if user then {PRESENT, WRITABLE, USER} else {PRESENT, WRITABLE})
  {
    var at' := at[Child(p, i) := spare];
    var mid := sp.(mem := sp.mem[spare := Cleared()]);
    assert PlacesOk(mid, at') && Unshared(at');
    OneSlot(mid, at', p, i, Entry(spare, if user then {PRESENT, WRITABLE, USER} else {PRESENT, WRITABLE}));
    forall q, j: nat | q in at && j < ENTRIES ensures EntryAt(mid, at', q, j) == EntryAt(sp, at, q, j) {}
  }

  lemma HangEntriesOk(sp: Space, at: map<Place, nat>, r: Space, at': map<Place, nat>, p: Place, i: nat, user: bool)
    requires TreeOk(sp, at) && p in at && i < ENTRIES && Depth(p) < 3 && Child(p, i) !in at
    requires at'.Keys == at.Keys + {Child(p, i)} && Hung(sp, at, r, at', p, i)
    requires EntryAt(r, at', p, i).bits == if user then {PRESENT, WRITABLE, USER} else {PRESENT, WRITABLE}
    requires user ==> UserAbove(sp, at, p)
    ensures forall q, j: nat :: q in at' && j < ENTRIES ==> (q.Child? ==> q.parent in at') && EntryOk(r, at', q, j)
  {
    forall q, j: nat | q in at' && j < ENTRIES ensures (q.Child? ==> q.parent in at') && EntryOk(r, at', q, j) {
      if q in at {
        assert EntryOk(sp, at, q, j);
        assert q.Child? ==> !(q.parent == p && q.index == i);
      }
    }
  }

  lemma HangTranslations(sp: Space, at: map<Place, nat>, r: Space, at': map<Place, nat>, p: Place, i: nat)
    requires TreeOk(sp, at) && p in at && i < ENTRIES && Child(p, i) !in at && !Present(EntryAt(sp, at, p, i))
    requires Depth(p) < 3 && at'.Keys == at.Keys + {Child(p, i)} && Hung(sp, at, r, at', p, i)
    ensures SameTranslations(sp, at, r, at')
  {
    forall v | InRange(v) ensures Lookup(r, at', v) == Lookup(sp, at, v) {
      HangOne(sp, at, r, at', p, i, v);
    }
  }

  lemma HangOne(sp: Space, at: map<Place, nat>, r: Space, at': map<Place, nat>, p: Place, i: nat, v: Page)
    requires PlacesOk(sp, at) && p in at && i < ENTRIES && Child(p, i) !in at && !Present(EntryAt(sp, at, p, i))
    requires Depth(p) < 3 && at'.Keys == at.Keys + {Child(p, i)} && Hung(sp, at, r, at', p, i) && InRange(v)
    ensures Lookup(r, at', v) == Lookup(sp, at, v)
  {
    PageDepths(v);
    if P1(v) == Child(p, i) {
      assert P2(v) == p && v.i2 == i;
    } else if P2(v) == Child(p, i) {
      assert P1(v) !in at;
    }
  }

  lemma HangLinked(sp: Space, at: map<Place, nat>, r: Space, at': map<Place, nat>, p: Place, i: nat, spare: nat)
    requires Linked(sp, at) && p in at && i < ENTRIES && Depth(p) < 3 && Child(p, i) !in at
    requires forall q :: q in at && q.Child? ==> q.parent in at
    requires at' == at[Child(p, i) := spare] && at'.Keys == at.Keys + {Child(p, i)} && Hung(sp, at, r, at', p, i)
    requires EntryAt(r, at', p, i).frame == spare && LeadsOn(Depth(p), EntryAt(r, at', p, i))
    ensures Linked(r, at')
  {
  }

  // ---- one descent, and the final write --------------------------------------------------------------------

  /** Tables keep their frames, and the only frame that may have become a table is `spare`. */
  ghost predicate Extends(at: map<Place, nat>, at': map<Place, nat>, spare: nat)
  {
    && (forall q :: q in at ==> q in at' && at'[q] == at[q])
    && (forall q :: q in at' ==> q in at || at'[q] == spare)
  }

  lemma DescendKeeps(sp: Space, at: map<Place, nat>, p: Place, i: nat, user: bool, spare: nat)
    requires TreeOk(sp, at) && p in at && i < ENTRIES && Depth(p) < 3 && (Child(p, i) !in at ==> Spare(at, spare))
    requires Present(EntryAt(sp, at, p, i)) ==> LeadsOn(Depth(p), EntryAt(sp, at, p, i))
    requires user ==> UserAbove(sp, at, p)
    ensures var (r, t) := Descend(sp, at[p], i, user, spare);
      var at' := at[Child(p, i) := t];
      && TreeOk(r, at') && r.root == sp.root && SameTranslations(sp, at, r, at') && Extends(at, at', spare)
      && (user ==> UserAbove(r, at', Child(p, i)))
  {
    var (r, t) := Descend(sp, at[p], i, user, spare);
    var e := EntryAt(sp, at, p, i);
    if Present(e) {
      assert at[Child(p, i) := t] == at;
      if user {
        GrantKeeps(sp, at, p, i);
        OneSlot(sp, at, p, i, e.(bits := e.bits + {USER}));
      }
    } else {
      HangKeeps(sp, at, p, i, user, spare);
    }
  }

  /** The slot that would map page `v`. */
  ghost predicate IsLeafSlot(at: map<Place, nat>, v: Page, p: Place, i: nat)
  {
    if P1(v) in at then p == P1(v) && i == v.i1 else p == P2(v) && i == v.i2
  }

  /** What page `v` translates to once the leaf slot `(p, i)` holds `e`. */
  ghost function Rewritten(sp: Space, at: map<Place, nat>, p: Place, i: nat, e: Entry, v: Page): Option<(Entry, nat)>
    requires 2 <= Depth(p) <= 3
  {
    if !IsLeafSlot(at, v, p, i) then Lookup(sp, at, v)
    else if Present(e) then Some((e, 3 - Depth(p))) else None
  }

  /** Writing a leaf, or clearing it, changes the translation of the pages it maps and of no others. */
  lemma LeafWrite(sp: Space, at: map<Place, nat>, p: Place, i: nat, e: Entry)
    requires TreeOk(sp, at) && p in at && i < ENTRIES && 2 <= Depth(p) && Child(p, i) !in at
    requires !LeadsOn(Depth(p), e) && (!Present(e) ==> e == ZERO) && (USER in e.bits ==> UserAbove(sp, at, p))
    ensures var r := sp.(mem := Put(sp.mem, at[p], i, e));
      TreeOk(r, at) && forall v :: InRange(v) ==> Lookup(r, at, v) == Rewritten(sp, at, p, i, e, v)
  {
    var r := sp.(mem := Put(sp.mem, at[p], i, e));
    OneSlot(sp, at, p, i, e);
    LeafTree(sp, at, r, p, i, e);
    forall v | InRange(v) ensures Lookup(r, at, v) == Rewritten(sp, at, p, i, e, v) {
      LeafOne(sp, at, r, p, i, e, v);
    }
  }

  lemma LeafOne(sp: Space, at: map<Place, nat>, r: Space, p: Place, i: nat, e: Entry, v: Page)
    requires p in at && i < ENTRIES && 2 <= Depth(p) <= 3 && Child(p, i) !in at && InRange(v)
    requires forall q, j: nat :: q in at && j < ENTRIES ==>
      EntryAt(r, at, q, j) == if q == p && j == i then e else EntryAt(sp, at, q, j)
    ensures Lookup(r, at, v) == Rewritten(sp, at, p, i, e, v)
  {
    PageDepths(v);
  }

  lemma LeafTree(sp: Space, at: map<Place, nat>, r: Space, p: Place, i: nat, e: Entry)
    requires TreeOk(sp, at) && p in at && i < ENTRIES && 2 <= Depth(p) && Child(p, i) !in at
    requires !LeadsOn(Depth(p), e) && (!Present(e) ==> e == ZERO) && (USER in e.bits ==> UserAbove(sp, at, p))
    requires PlacesOk(r, at)
    requires forall q, j: nat :: q in at && j < ENTRIES ==>
      EntryAt(r, at, q, j) == if q == p && j == i then e else EntryAt(sp, at, q, j)
    ensures TreeOk(r, at)
  {
    assert Linked(r, at);
    forall q, j: nat | q in at && j < ENTRIES ensures EntryOk(r, at, q, j) {
      assert EntryOk(sp, at, q, j);
      assert q.Child? ==> !(q.parent == p && q.index == i);
    }
  }

  // ---- mapping and unmapping ----------------------------------------------------------------------------------

  /** Frames for the tables that are missing on the way to the page directory of page `v`. */
  ghost predicate Spares2(at: map<Place, nat>, v: Page, s0: nat, s1: nat)
  {
    && (P3(v) !in at ==> Spare(at, s0))
    && (P2(v) !in at ==> Spare(at, s1) && (P3(v) !in at ==> s1 != s0))
  }

  /** Frames for the tables that are missing on the way to page `v`. */
  ghost predicate Spares3(at: map<Place, nat>, v: Page, s: (nat, nat, nat))
  {
    && Spares2(at, v, s.0, s.1)
    && (P1(v) !in at ==> Spare(at, s.2) && (P3(v) !in at ==> s.2 != s.0) && (P2(v) !in at ==> s.2 != s.1))
  }

  /** Tables keep their frames, and each new one on the way to page `v` is in the frame meant for it. */
  ghost predicate Grown(at: map<Place, nat>, at': map<Place, nat>, v: Page, s: (nat, nat, nat))
  {
    forall q :: q in at' ==>
      if q in at then at'[q] == at[q]
      else (q == P3(v) && at'[q] == s.0) || (q == P2(v) && at'[q] == s.1) || (q == P1(v) && at'[q] == s.2)
  }

  /** No 2 MB leaf covers the page. */
  ghost predicate NoHuge(sp: Space, at: map<Place, nat>, v: Page)
  {
    P2(v) in at && Present(EntryAt(sp, at, P2(v), v.i2)) ==> PS !in EntryAt(sp, at, P2(v), v.i2).bits
  }

  /** The places of the tables on the way to page `v`, each in the frame the descent went to. */
  lemma DescendTwo(sp: Space, at: map<Place, nat>, v: Page, user: bool, s0: nat, s1: nat)
    returns (r: Space, at': map<Place, nat>)
    requires TreeOk(sp, at) && InRange(v) && Spares2(at, v, s0, s1)
    ensures TreeOk(r, at') && SameTranslations(sp, at, r, at') && r.root == sp.root && P2(v) in at'
    ensures var (a, t) := Descend(sp, sp.root, v.i4, user, s0); (r, at'[P2(v)]) == Descend(a, t, v.i3, user, s1)
    ensures user ==> UserAbove(r, at', P2(v))
    ensures forall q :: q in at ==> q in at' && at'[q] == at[q]
    ensures forall q :: q in at' ==> q in at || (q == P3(v) && at'[q] == s0) || (q == P2(v) && at'[q] == s1)
    ensures P1(v) in at' <==> P1(v) in at
  {
    PageDepths(v);
    assert EntryOk(sp, at, Top, v.i4);
    DescendKeeps(sp, at, Top, v.i4, user, s0);
    var (a, t) := Descend(sp, sp.root, v.i4, user, s0);
    var mid := at[P3(v) := t];
    assert EntryOk(a, mid, P3(v), v.i3);
    DescendKeeps(a, mid, P3(v), v.i3, user, s1);
    var (b, t2) := Descend(a, t, v.i3, user, s1);
    r, at' := b, mid[P2(v) := t2];
  }

  /** `vmm_map_page` for 4 KB: the page gets exactly the given frame and flags, with the rights the flags say,
      and no other page's translation or rights change. */
  lemma MapSmallKeeps(sp: Space, at: map<Place, nat>, v: Page, frame: nat, flags: set<nat>, spare: (nat, nat, nat))
    returns (at': map<Place, nat>)
    requires TreeOk(sp, at) && InRange(v) && Spares3(at, v, spare) && NoHuge(sp, at, v)
    ensures var r := MapSmall(sp, v, frame, flags, spare);
      && TreeOk(r, at')
      && Lookup(r, at', v) == Some((SmallEntry(frame, flags), 0))
      && (forall u :: InRange(u) && u != v ==> Lookup(r, at', u) == Lookup(sp, at, u))
    ensures at.Keys <= at'.Keys && Grown(at, at', v, spare)
  {
    var user := USER in flags;
    PageDepths(v);
    var b, mid := DescendTwo(sp, at, v, user, spare.0, spare.1);
    assert Lookup(b, mid, v) == Lookup(sp, at, v);
    at' := LastTable(b, mid, v, user, spare.2, SmallEntry(frame, flags));
  }

  /** The last level: the page table, created if it is missing, and the entry in it. */
  lemma LastTable(b: Space, at: map<Place, nat>, v: Page, user: bool, spare: nat, e: Entry) returns (at': map<Place, nat>)
    requires TreeOk(b, at) && InRange(v) && P2(v) in at && (P1(v) !in at ==> Spare(at, spare)) && NoHuge(b, at, v)
    requires Present(e) && (USER in e.bits ==> user) && (user ==> UserAbove(b, at, P2(v)))
    ensures var (c, t) := Descend(b, at[P2(v)], v.i2, user, spare);
      var r := c.(mem := Put(c.mem, t, v.i1, e));
      && TreeOk(r, at') && Lookup(r, at', v) == Some((e, 0))
      && (forall u :: InRange(u) && u != v ==> Lookup(r, at', u) == Lookup(b, at, u))
      && at' == at[P1(v) := t] && (P1(v) in at ==> at' == at) && (P1(v) !in at ==> t == spare)
  {
    PageDepths(v);
    assert EntryOk(b, at, P2(v), v.i2);
    DescendKeeps(b, at, P2(v), v.i2, user, spare);
    var (c, t) := Descend(b, at[P2(v)], v.i2, user, spare);
    at' := at[P1(v) := t];
    LeafWrite(c, at', P1(v), v.i1, e);
    forall u | InRange(u) && u != v ensures !IsLeafSlot(at', u, P1(v), v.i1) { PageDepths(u); }
  }

  /** A 2 MB leaf written over an entry that led to a page table drops that table. */
  lemma LeafOver(sp: Space, at: map<Place, nat>, p: Place, i: nat, e: Entry)
    requires TreeOk(sp, at) && p in at && i < ENTRIES && Depth(p) == 2 && Child(p, i) in at
    requires Present(e) && PS in e.bits && (USER in e.bits ==> UserAbove(sp, at, p))
    ensures var r, at' := sp.(mem := Put(sp.mem, at[p], i, e)), at - {Child(p, i)};
      && TreeOk(r, at')
      && (forall v | InRange(v) :: Lookup(r, at', v) == if P1(v) == Child(p, i) then Some((e, 1)) else Lookup(sp, at, v))
  {
    var r, at' := sp.(mem := Put(sp.mem, at[p], i, e)), at - {Child(p, i)};
    OneSlot(sp, at, p, i, e);
    LeafOverTree(sp, at, r, at', p, i, e);
    forall v | InRange(v) ensures Lookup(r, at', v) == if P1(v) == Child(p, i) then Some((e, 1)) else Lookup(sp, at, v) {
      LeafOverOne(sp, at, r, at', p, i, e, v);
    }
  }

  lemma LeafOverOne(sp: Space, at: map<Place, nat>, r: Space, at': map<Place, nat>, p: Place, i: nat, e: Entry, v: Page)
    requires PlacesOk(sp, at) && p in at && i < ENTRIES && Depth(p) == 2 && Child(p, i) in at && InRange(v)
    requires at' == at - {Child(p, i)} && Present(e)
    requires forall q, j: nat :: q in at && j < ENTRIES ==>
      EntryAt(r, at, q, j) == if q == p && j == i then e else EntryAt(sp, at, q, j)
    ensures Lookup(r, at', v) == if P1(v) == Child(p, i) then Some((e, 1)) else Lookup(sp, at, v)
  {
    PageDepths(v);
    assert P1(v) == Child(P2(v), v.i2);
    assert P2(v) != Child(p, i) by { assert Depth(Child(p, i)) == 3; }
    assert forall q, j: nat :: q in at' && j < ENTRIES ==> EntryAt(r, at', q, j) == EntryAt(r, at, q, j);
  }

  lemma LeafOverTree(sp: Space, at: map<Place, nat>, r: Space, at': map<Place, nat>, p: Place, i: nat, e: Entry)
    requires TreeOk(sp, at) && p in at && i < ENTRIES && Depth(p) == 2 && Child(p, i) in at && PlacesOk(r, at)
    requires at' == at - {Child(p, i)} && Present(e) && PS in e.bits && (USER in e.bits ==> UserAbove(sp, at, p))
    requires forall q, j: nat :: q in at && j < ENTRIES ==>
      EntryAt(r, at, q, j) == if q == p && j == i then e else EntryAt(sp, at, q, j)
    ensures TreeOk(r, at')
  {
    forall q | q in at && q.Child? ensures q.parent != Child(p, i) { assert Depth(q) == 1 + Depth(q.parent); }
    assert p != Child(p, i);
    assert PlacesOk(r, at') && Unshared(at');
    assert Linked(r, at') by {
      forall q, j: nat | q in at' && j < ENTRIES ensures
        var d := EntryAt(r, at', q, j);
        (Child(q, j) in at' <==> LeadsOn(Depth(q), d)) && (Child(q, j) in at' ==> at'[Child(q, j)] == d.frame)
      {
        assert EntryAt(r, at', q, j) == EntryAt(r, at, q, j);
      }
    }
    forall q, j: nat | q in at' && j < ENTRIES ensures EntryOk(r, at', q, j) {
      assert EntryOk(sp, at, q, j);
      assert q.Child? ==> !(q.parent == p && q.index == i);
    }
  }

  /** `vmm_map_page` for 2 MB: all 512 pages of the region get the leaf, and no other page changes. A page table
      that served the region before is dropped from the tree. */
  lemma MapHugeKeeps(sp: Space, at: map<Place, nat>, v: Page, frame: nat, flags: set<nat>, spare: (nat, nat))
    returns (at': map<Place, nat>)
    requires TreeOk(sp, at) && InRange(v) && Spares2(at, v, spare.0, spare.1)
    ensures var r := MapHuge(sp, v, frame, flags, spare);
      && TreeOk(r, at')
      && (forall u | InRange(u) ::
            Lookup(r, at', u) == if P1(u) == P1(v) then Some((HugeEntry(frame, flags), 1)) else Lookup(sp, at, u))
    ensures Grown(at, at', v, (spare.0, spare.1, 0)) && P1(v) !in at'
  {
    PageDepths(v);
    var b, mid := DescendTwo(sp, at, v, USER in flags, spare.0, spare.1);
    if P1(v) in mid {
      at' := mid - {P1(v)};
      LeafOver(b, mid, P2(v), v.i2, HugeEntry(frame, flags));
    } else {
      at' := mid;
      LeafWrite(b, mid, P2(v), v.i2, HugeEntry(frame, flags));
      forall u | InRange(u) ensures IsLeafSlot(mid, u, P2(v), v.i2) <==> P1(u) == P1(v) { PageDepths(u); }
    }
  }

  /** A write to a frame that holds no table is not seen by any walk. */
  lemma OutsideWrite(sp: Space, at: map<Place, nat>, f: nat, i: nat, e: Entry)
    requires TreeOk(sp, at) && Spare(at, f)
    ensures var r := sp.(mem := Put(sp.mem, f, i, e)); TreeOk(r, at) && SameTranslations(sp, at, r, at)
  {
    var r := sp.(mem := Put(sp.mem, f, i, e));
    assert forall q, j: nat :: q in at && j < ENTRIES ==> EntryAt(r, at, q, j) == EntryAt(sp, at, q, j);
    assert Linked(r, at);
    forall q, j: nat | q in at && j < ENTRIES ensures EntryOk(r, at, q, j) { assert EntryOk(sp, at, q, j); }
    forall v | InRange(v) ensures Lookup(r, at, v) == Lookup(sp, at, v) {}
  }

  /** Mapping a 4 KB page works exactly when no 2 MB leaf covers it. Under such a leaf the code takes the leaf's
      memory for a page table: the walk still ends at the leaf. */
  lemma MapSmallIff(sp: Space, at: map<Place, nat>, v: Page, frame: nat, flags: set<nat>, spare: (nat, nat, nat))
    requires TreeOk(sp, at) && InRange(v) && (NoHuge(sp, at, v) ==> Spares3(at, v, spare))
    requires !NoHuge(sp, at, v) ==> Spare(at, EntryAt(sp, at, P2(v), v.i2).frame)
    ensures Walk(MapSmall(sp, v, frame, flags, spare), v)
         == Some(Leaf(SmallEntry(frame, flags), 0, USER in flags, WRITABLE in flags))
       <==> NoHuge(sp, at, v)
  {
    var r := MapSmall(sp, v, frame, flags, spare);
    if NoHuge(sp, at, v) {
      var at' := MapSmallKeeps(sp, at, v, frame, flags, spare);
      WalkIsLookup(r, at', v);
    } else {
      var at' := MapUnderHuge(sp, at, v, frame, flags, spare);
      WalkIsLookup(r, at', v);
    }
  }

  lemma MapUnderHuge(sp: Space, at: map<Place, nat>, v: Page, frame: nat, flags: set<nat>, spare: (nat, nat, nat))
    returns (at': map<Place, nat>)
    requires TreeOk(sp, at) && InRange(v) && !NoHuge(sp, at, v) && Spare(at, EntryAt(sp, at, P2(v), v.i2).frame)
    ensures TreeOk(MapSmall(sp, v, frame, flags, spare), at')
    ensures Lookup(MapSmall(sp, v, frame, flags, spare), at', v).Some?
    ensures Lookup(MapSmall(sp, v, frame, flags, spare), at', v).value.1 == 1
  {
    PageDepths(v);
    var b, mid := DescendTwo(sp, at, v, USER in flags, spare.0, spare.1);
    at' := mid;
    assert Lookup(b, mid, v) == Lookup(sp, at, v);
    var e := EntryAt(b, mid, P2(v), v.i2);
    assert EntryOk(b, mid, P2(v), v.i2);
    var (c, t) := Descend(b, mid[P2(v)], v.i2, USER in flags, spare.2);
    assert t == e.frame;
    if USER in flags { LeafWrite(b, mid, P2(v), v.i2, e.(bits := e.bits + {USER})); }
    OutsideWrite(c, mid, e.frame, v.i1, SmallEntry(frame, flags));
  }

  /** A slot is where the walk of a page ends: no slot exactly when there is neither a page table for the page nor a 2 MB
      leaf over it, level 2 exactly for a 2 MB leaf, level 0 for an entry of a page table, which maps the page exactly when
      it is present. */
  ghost predicate EndsWalk(sp: Space, at: map<Place, nat>, v: Page, slot: Option<Slot>)
  {
    match slot
    case None => Walk(sp, v) == None && P1(v) !in at
    case Some(s) =>
      var e := Get(sp.mem, s.table, s.index);
      if P1(v) in at then
        && s == Slot(at[P1(v)], v.i1, 0)
        && (Present(e) ==> Walk(sp, v).Some? && Walk(sp, v).value.entry == e && Walk(sp, v).value.level == 0)
        && (!Present(e) ==> Walk(sp, v) == None)
      else
        P2(v) in at && s == Slot(at[P2(v)], v.i2, 2) && Walk(sp, v).Some? && Walk(sp, v).value.entry == e && Walk(sp, v).value.level == 1
  }

  lemma GetEntryEndsWalk(sp: Space, at: map<Place, nat>, v: Page)
    requires TreeOk(sp, at) && InRange(v)
    ensures EndsWalk(sp, at, v, GetEntry(sp, v))
  {
    PageDepths(v);
    WalkIsLookup(sp, at, v);
    assert EntryOk(sp, at, Top, v.i4);
    if P3(v) in at {
      assert EntryOk(sp, at, P3(v), v.i3);
      if P2(v) in at {
        assert EntryOk(sp, at, P2(v), v.i2);
        if P1(v) in at { assert EntryOk(sp, at, P1(v), v.i1); }
      }
    }
  }

  /** `vmm_unmap_page`: returns the frame the page's entry holds (0 when nothing is mapped), and removes that
      entry's translation and no other. */
  lemma UnmapKeeps(sp: Space, at: map<Place, nat>, v: Page)
    requires TreeOk(sp, at) && InRange(v)
    ensures var (r, frame) := Unmap(sp, v);
      && TreeOk(r, at)
      && frame == (match Lookup(sp, at, v) case None => 0 case Some((e, _)) => e.frame)
      && (forall u | InRange(u) ::
            Lookup(r, at, u) == if u == v || (P1(v) !in at && P1(u) == P1(v)) then None else Lookup(sp, at, u))
  {
    PageDepths(v);
    var (r, frame) := Unmap(sp, v);
    assert EntryOk(sp, at, Top, v.i4);
    if P3(v) in at { assert EntryOk(sp, at, P3(v), v.i3); }
    if P2(v) in at { assert EntryOk(sp, at, P2(v), v.i2); }
    if P1(v) in at {
      assert EntryOk(sp, at, P1(v), v.i1);
      LeafWrite(sp, at, P1(v), v.i1, ZERO);
      forall u | InRange(u) ensures IsLeafSlot(at, u, P1(v), v.i1) <==> u == v { PageDepths(u); }
    } else if P2(v) in at && Present(EntryAt(sp, at, P2(v), v.i2)) {
      LeafWrite(sp, at, P2(v), v.i2, ZERO);
      forall u | InRange(u) ensures IsLeafSlot(at, u, P2(v), v.i2) <==> P1(u) == P1(v) { PageDepths(u); }
    } else {
      assert r == sp;
      forall u | InRange(u) && (u == v || (P1(v) !in at && P1(u) == P1(v))) ensures Lookup(sp, at, u) == None {}
    }
  }

  /** Unmapping what was just mapped returns the mapped frame, of either size, if and only if the flags leave the frame
      number alone. */
  lemma MapThenUnmap(sp: Space, at: map<Place, nat>, v: Page, frame: nat, flags: set<nat>, spare: (nat, nat, nat))
    requires TreeOk(sp, at) && InRange(v) && Spares3(at, v, spare)
    ensures NoHuge(sp, at, v) ==> (Unmap(MapSmall(sp, v, frame, flags, spare), v).1 == frame <==> Inside(frame, flags))
    ensures Unmap(MapHuge(sp, v, frame, flags, (spare.0, spare.1)), v).1 == frame <==> Inside(frame, flags)
  {
    FrameKeptIff(frame, flags);
    if NoHuge(sp, at, v) {
      var at' := MapSmallKeeps(sp, at, v, frame, flags, spare);
      UnmapKeeps(MapSmall(sp, v, frame, flags, spare), at', v);
    }
    var at2 := MapHugeKeeps(sp, at, v, frame, flags, (spare.0, spare.1));
    UnmapKeeps(MapHuge(sp, v, frame, flags, (spare.0, spare.1)), at2, v);
  }

  /** So a write-combining 2 MB region, whose flag is bit 12, is the one kind of mapping in the kernel whose frame does not
      come back. */
  lemma WriteCombiningLost(frame: nat, flags: set<nat>)
    requires frame % ENTRIES == 0 && forall b :: b in flags ==> b <= WC_HUGE
    ensures Inside(frame, flags) <==> WC_HUGE !in flags
    ensures WC_HUGE in flags ==> HugeEntry(frame, flags).frame == frame + 1
  {
    assert !Bit(frame, 0);
    OrAbove(frame / 2, flags + {PRESENT, PS}, WC_HUGE + 1);
  }

  lemma OrAbove(n: nat, flags: set<nat>, k: nat)
    requires forall b :: b in flags ==> b < k
    ensures OrFlags(n, flags, k) == n
  {
    OrKeepsIff(n, flags, k);
  }

  // ---- a new top table that shares one slot ------------------------------------------------------------------

  /** The place lies below slot `i` of the top table. */
  predicate Under(p: Place, i: nat)
  {
    match p
    case Top => false
    case Child(q, j) => if q == Top then j == i else Under(q, i)
  }

  /** The places below slot `i`, with a new top table in frame `root`. */
  ghost function CopyPlaces(at: map<Place, nat>, i: nat, root: nat): map<Place, nat>
  {
    map p | p in at && (p == Top || Under(p, i)) :: if p == Top then root else at[p]
  }

  /** A top table that is empty but for a copy of slot `i` is a tree again: the part below that slot. */
  lemma CopySlot(sp: Space, at: map<Place, nat>, i: nat, root: nat)
    requires TreeOk(sp, at) && Spare(at, root) && i < ENTRIES
    ensures var r := Space(root, sp.mem[root := Cleared()[i := Get(sp.mem, sp.root, i)]]);
      var at' := CopyPlaces(at, i, root);
      && TreeOk(r, at')
      && (forall v | InRange(v) :: Lookup(r, at', v) == if v.i4 == i then Lookup(sp, at, v) else None)
  {
    var r := Space(root, sp.mem[root := Cleared()[i := Get(sp.mem, sp.root, i)]]);
    var at' := CopyPlaces(at, i, root);
    CopyEntries(sp, at, i, root, r, at');
    assert PlacesOk(r, at') && Unshared(at');
    assert Linked(r, at');
    forall q, j: nat | q in at' && j < ENTRIES ensures EntryOk(r, at', q, j) { assert EntryOk(sp, at, q, j); }
    forall v | InRange(v) ensures Lookup(r, at', v) == if v.i4 == i then Lookup(sp, at, v) else None {
      CopyOne(sp, at, r, at', i, root, v);
    }
  }

  lemma CopyOne(sp: Space, at: map<Place, nat>, r: Space, at': map<Place, nat>, i: nat, root: nat, v: Page)
    requires InRange(v) && at' == CopyPlaces(at, i, root)
    requires forall q, j: nat :: q in at' && j < ENTRIES ==>
      EntryAt(r, at', q, j) == if q == Top && j != i then ZERO else EntryAt(sp, at, q, j)
    ensures Lookup(r, at', v) == if v.i4 == i then Lookup(sp, at, v) else None
  {
    assert Under(P3(v), i) == Under(P2(v), i) == Under(P1(v), i) == (v.i4 == i);
  }

  lemma CopyEntries(sp: Space, at: map<Place, nat>, i: nat, root: nat, r: Space, at': map<Place, nat>)
    requires PlacesOk(sp, at) && Spare(at, root) && i < ENTRIES
    requires r == Space(root, sp.mem[root := Cleared()[i := Get(sp.mem, sp.root, i)]])
    requires at' == CopyPlaces(at, i, root)
    ensures forall q, j: nat :: q in at' && j < ENTRIES ==>
      EntryAt(r, at', q, j) == if q == Top && j != i then ZERO else EntryAt(sp, at, q, j)
  {
  }
}
