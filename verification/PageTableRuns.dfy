/** Whole runs of mapping and unmapping, with table frames and callers' frames from one allocator. */
module PageTableRuns {
  import opened Seqs
  import opened PageTables
  import opened PageTableTheory

  /** `Obtain` and `GiveBack` are calls of the frame allocator by users of the address space. The map steps carry
      the frames the allocator yields for tables that are missing. */
  datatype Op =
    | Obtain(frame: nat)
    | GiveBack(frame: nat)
    | Small(v: Page, frame: nat, flags: set<nat>, spare: (nat, nat, nat))
    | Huge(v: Page, frame: nat, flags: set<nat>, pair: (nat, nat))
    | Remove(v: Page)

  /** `managed` are the allocator's frames, `inUse` those it has marked, `owned` those handed to callers; `small` and `huge` say what
      the callers have mapped: pages, and 2 MB regions named by the place their page table would have. */
  datatype Config = Config(
    sp: Space,
    at: map<Place, nat>,
    managed: set<nat>,
    inUse: set<nat>,
    owned: set<nat>,
    small: map<Page, Entry>,
    huge: map<Place, Entry>)

  ghost function Expected(small: map<Page, Entry>, huge: map<Place, Entry>, v: Page): Option<(Entry, nat)>
  {
    if v in small then Some((small[v], 0))
    else if P1(v) in huge then Some((huge[P1(v)], 1))
    else None
  }

  /** Every page translates as the callers' maps and unmaps say. */
  ghost predicate ViewOk(sp: Space, at: map<Place, nat>, small: map<Page, Entry>, huge: map<Place, Entry>)
  {
    forall v :: InRange(v) ==> Lookup(sp, at, v) == Expected(small, huge, v)
  }

  /** Table frames are marked in the allocator and are never a caller's. */
  ghost predicate FramesOk(at: map<Place, nat>, inUse: set<nat>, owned: set<nat>, managed: set<nat>)
  {
    owned <= inUse <= managed && forall p :: p in at ==> at[p] in inUse && at[p] !in owned
  }

  /** A frame that is the caller's, or not the allocator's at all, as a device's is. */
  ghost predicate Allowed(f: nat, owned: set<nat>, managed: set<nat>)
  {
    f in owned || f !in managed
  }

  ghost predicate MapsOk(small: map<Page, Entry>, huge: map<Place, Entry>, owned: set<nat>, managed: set<nat>)
  {
    forall v :: v in small ==> InRange(v) && Allowed(small[v].frame, owned, managed) && P1(v) !in huge
  }

  /** Frame `g` lies in the 2 MB region that a leaf maps. */
  predicate Covers(e: Entry, g: nat) { g / ENTRIES == e.frame / ENTRIES }

  /** A 2 MB region of such frames. */
  ghost predicate Permitted(e: Entry, owned: set<nat>, managed: set<nat>)
  {
    forall g: nat :: Covers(e, g) ==> Allowed(g, owned, managed)
  }

  ghost predicate HugeOk(huge: map<Place, Entry>, owned: set<nat>, managed: set<nat>)
  {
    forall p :: p in huge ==> Permitted(huge[p], owned, managed)
  }

  ghost predicate Good(c: Config)
  {
    && TreeOk(c.sp, c.at) && ViewOk(c.sp, c.at, c.small, c.huge)
    && FramesOk(c.at, c.inUse, c.owned, c.managed) && MapsOk(c.small, c.huge, c.owned, c.managed) && HugeOk(c.huge, c.owned, c.managed)
  }

  ghost predicate Free(c: Config, f: nat) { f in c.managed && f !in c.inUse }

  /** The frames offered for the tables that are missing on the way to a page directory are free and distinct. */
  ghost predicate Offered2(c: Config, v: Page, s0: nat, s1: nat)
  {
    && (P3(v) !in c.at ==> Free(c, s0))
    && (P2(v) !in c.at ==> Free(c, s1) && (P3(v) !in c.at ==> s1 != s0))
  }

  ghost predicate Offered3(c: Config, v: Page, s: (nat, nat, nat))
  {
    && Offered2(c, v, s.0, s.1)
    && (P1(v) !in c.at ==> Free(c, s.2) && (P3(v) !in c.at ==> s.2 != s.0) && (P2(v) !in c.at ==> s.2 != s.1))
  }

  ghost predicate Enabled(c: Config, op: Op)
    requires Good(c)
  {
    match op
    case Obtain(f) => Free(c, f)
    case GiveBack(f) =>
      && f in c.owned && (forall v :: v in c.small ==> c.small[v].frame != f)
      && (forall p :: p in c.huge ==> !Covers(c.huge[p], f))
    case Small(v, f, flags, s) =>
      && InRange(v) && P1(v) !in c.huge && Offered3(c, v, s)
      && Accepted(SmallEntry(f, flags), 0) && Allowed(SmallEntry(f, flags).frame, c.owned, c.managed)
    case Huge(v, f, flags, s) =>
      && InRange(v) && Offered2(c, v, s.0, s.1)
      && Accepted(HugeEntry(f, flags), 1) && Permitted(HugeEntry(f, flags), c.owned, c.managed)
    case Remove(v) => InRange(v)
  }

  /** The allocator's marks after a step: exactly the spare frames that became tables are taken. */
  ghost function Marked(c: Config, at: map<Place, nat>): set<nat>
  {
    c.inUse + at.Values
  }

  ghost function AfterSmall(c: Config, v: Page, f: nat, flags: set<nat>, s: (nat, nat, nat), at: map<Place, nat>): Config
  {
    c.(sp := MapSmall(c.sp, v, f, flags, s), at := at, inUse := Marked(c, at), small := c.small[v := SmallEntry(f, flags)])
  }

  ghost function AfterHuge(c: Config, v: Page, f: nat, flags: set<nat>, s: (nat, nat), at: map<Place, nat>): Config
  {
    c.(sp := MapHuge(c.sp, v, f, flags, s), at := at, inUse := Marked(c, at),
       small := map u | u in c.small && P1(u) != P1(v) :: c.small[u], huge := c.huge[P1(v) := HugeEntry(f, flags)])
  }

  ghost function AfterRemove(c: Config, v: Page): Config
  {
    c.(sp := Unmap(c.sp, v).0, small := c.small - {v}, huge := if v in c.small then c.huge else c.huge - {P1(v)})
  }

  /** `r` is a possible outcome of `op`. Only the bookkeeping of table places is not determined by the code. */
  ghost predicate Steps(c: Config, op: Op, r: Config)
  {
    match op
    case Obtain(f) => r == c.(inUse := c.inUse + {f}, owned := c.owned + {f})
    case GiveBack(f) => r == c.(inUse := c.inUse - {f}, owned := c.owned - {f})
    case Small(v, f, flags, s) => r == AfterSmall(c, v, f, flags, s, r.at)
    case Huge(v, f, flags, s) => r == AfterHuge(c, v, f, flags, s, r.at)
    case Remove(v) => r == AfterRemove(c, v)
  }

  lemma NewTables(c: Config, at: map<Place, nat>)
    requires FramesOk(c.at, c.inUse, c.owned, c.managed)
    requires forall q :: q in at ==> (q in c.at && at[q] == c.at[q]) || Free(c, at[q])
    ensures FramesOk(at, Marked(c, at), c.owned, c.managed)
  {
    forall p | p in at ensures at[p] in Marked(c, at) && at[p] !in c.owned { assert at[p] in at.Values; }
  }

  lemma SmallView(sp: Space, at: map<Place, nat>, r: Space, at': map<Place, nat>, small: map<Page, Entry>,
                  huge: map<Place, Entry>, v: Page, e: Entry)
    requires ViewOk(sp, at, small, huge) && Lookup(r, at', v) == Some((e, 0))
    requires forall u :: InRange(u) && u != v ==> Lookup(r, at', u) == Lookup(sp, at, u)
    ensures ViewOk(r, at', small[v := e], huge)
  {
  }

  /** A page that is not inside a mapped 2 MB region has no 2 MB leaf above it. */
  lemma NoHugeHere(c: Config, v: Page)
    requires TreeOk(c.sp, c.at) && InRange(v) && P1(v) !in c.huge
    requires Lookup(c.sp, c.at, v) == Expected(c.small, c.huge, v)
    ensures NoHuge(c.sp, c.at, v)
  {
    PageDepths(v);
  }

  lemma SmallKeepsGood(c: Config, v: Page, f: nat, flags: set<nat>, s: (nat, nat, nat)) returns (at: map<Place, nat>)
    requires Good(c) && Enabled(c, Small(v, f, flags, s))
    ensures Good(AfterSmall(c, v, f, flags, s, at))
  {
    NoHugeHere(c, v);
    at := MapSmallKeeps(c.sp, c.at, v, f, flags, s);
    SmallGood(c, MapSmall(c.sp, v, f, flags, s), at, v, SmallEntry(f, flags));
  }

  lemma SmallGood(c: Config, r: Space, at: map<Place, nat>, v: Page, e: Entry)
    requires ViewOk(c.sp, c.at, c.small, c.huge) && FramesOk(c.at, c.inUse, c.owned, c.managed)
    requires MapsOk(c.small, c.huge, c.owned, c.managed) && HugeOk(c.huge, c.owned, c.managed)
    requires TreeOk(r, at) && Lookup(r, at, v) == Some((e, 0)) && InRange(v) && P1(v) !in c.huge
    requires Allowed(e.frame, c.owned, c.managed)
    requires forall u :: InRange(u) && u != v ==> Lookup(r, at, u) == Lookup(c.sp, c.at, u)
    requires forall q :: q in at ==> (q in c.at && at[q] == c.at[q]) || Free(c, at[q])
    ensures Good(c.(sp := r, at := at, inUse := Marked(c, at), small := c.small[v := e]))
  {
    SmallView(c.sp, c.at, r, at, c.small, c.huge, v, e);
    NewTables(c, at);
    SmallMaps(c.small, c.huge, c.owned, c.managed, v, e);
  }

  lemma SmallMaps(small: map<Page, Entry>, huge: map<Place, Entry>, owned: set<nat>, managed: set<nat>, v: Page, e: Entry)
    requires MapsOk(small, huge, owned, managed) && InRange(v) && Allowed(e.frame, owned, managed) && P1(v) !in huge
    ensures MapsOk(small[v := e], huge, owned, managed)
  {
  }

  lemma HugeView(sp: Space, at: map<Place, nat>, r: Space, at': map<Place, nat>, small: map<Page, Entry>,
                 huge: map<Place, Entry>, v: Page, e: Entry)
    requires ViewOk(sp, at, small, huge)
    requires forall u | InRange(u) :: Lookup(r, at', u) == if P1(u) == P1(v) then Some((e, 1)) else Lookup(sp, at, u)
    ensures ViewOk(r, at', map u | u in small && P1(u) != P1(v) :: small[u], huge[P1(v) := e])
  {
  }

  lemma HugeKeepsGood(c: Config, v: Page, f: nat, flags: set<nat>, s: (nat, nat)) returns (at: map<Place, nat>)
    requires Good(c) && Enabled(c, Huge(v, f, flags, s))
    ensures Good(AfterHuge(c, v, f, flags, s, at))
  {
    at := MapHugeKeeps(c.sp, c.at, v, f, flags, s);
    HugeView(c.sp, c.at, MapHuge(c.sp, v, f, flags, s), at, c.small, c.huge, v, HugeEntry(f, flags));
    NewTables(c, at);
  }

  lemma RemoveView(sp: Space, at: map<Place, nat>, r: Space, small: map<Page, Entry>, huge: map<Place, Entry>, v: Page)
    requires ViewOk(sp, at, small, huge) && InRange(v) && PlacesOk(sp, at)
    requires forall u :: u in small ==> P1(u) !in huge
    requires forall u | InRange(u) ::
      Lookup(r, at, u) == if u == v || (P1(v) !in at && P1(u) == P1(v)) then None else Lookup(sp, at, u)
    ensures ViewOk(r, at, small - {v}, if v in small then huge else huge - {P1(v)})
  {
    forall u | InRange(u)
      ensures Lookup(r, at, u) == Expected(small - {v}, if v in small then huge else huge - {P1(v)}, u)
    {
      assert Lookup(sp, at, u) == Expected(small, huge, u) && Lookup(sp, at, v) == Expected(small, huge, v);
    }
  }

  /** Unmapping returns the mapped frame and keeps the invariant. */
  lemma RemoveKeepsGood(c: Config, v: Page)
    requires Good(c) && InRange(v)
    ensures Good(AfterRemove(c, v))
    ensures Unmap(c.sp, v).1 == (match Expected(c.small, c.huge, v) case None => 0 case Some((e, _)) => e.frame)
  {
    UnmapKeeps(c.sp, c.at, v);
    assert Lookup(c.sp, c.at, v) == Expected(c.small, c.huge, v);
    RemoveView(c.sp, c.at, Unmap(c.sp, v).0, c.small, c.huge, v);
  }

  lemma StepExists(c: Config, op: Op) returns (r: Config)
    requires Good(c) && Enabled(c, op)
    ensures Good(r) && Steps(c, op, r)
  {
    match op
    case Obtain(f) => r := c.(inUse := c.inUse + {f}, owned := c.owned + {f});
    case GiveBack(f) => r := c.(inUse := c.inUse - {f}, owned := c.owned - {f});
    case Small(v, f, flags, s) =>
      var at := SmallKeepsGood(c, v, f, flags, s);
      r := AfterSmall(c, v, f, flags, s, at);
    case Huge(v, f, flags, s) =>
      var at := HugeKeepsGood(c, v, f, flags, s);
      r := AfterHuge(c, v, f, flags, s, at);
    case Remove(v) =>
      RemoveKeepsGood(c, v);
      r := AfterRemove(c, v);
  }

  /** A choice of table places after a step; address space, marks and callers' maps are those of the code. */
  ghost function Step(c: Config, op: Op): (r: Config)
    requires Good(c) && Enabled(c, op)
    ensures Good(r) && Steps(c, op, r)
  {
    assert exists r :: Good(r) && Steps(c, op, r) by { var r := StepExists(c, op); }
    var r :| Good(r) && Steps(c, op, r);
    r
  }

  ghost predicate RunOk(c: Config, ops: seq<Op>)
    requires Good(c)
    decreases |ops|
  {
    ops == [] || (Enabled(c, ops[0]) && RunOk(Step(c, ops[0]), ops[1..]))
  }

  ghost function Run(c: Config, ops: seq<Op>): (r: Config)
    requires Good(c) && RunOk(c, ops)
    ensures Good(r)
    decreases |ops|
  {
    if ops == [] then c else Run(Step(c, ops[0]), ops[1..])
  }

  /** An address space with an empty top table. */
  ghost function Empty(root: nat, managed: set<nat>): (c: Config)
    requires root in managed
    ensures Good(c)
  {
    var c := Config(Space(root, map[root := Cleared()]), map[Top := root], managed, {root}, {}, map[], map[]);
    assert TreeOk(c.sp, c.at);
    c
  }

  /** Over every run, the hardware's walk of any page yields exactly what was last mapped there and nothing
      where nothing is mapped; the rights it grants are the flags given to that very map call. */
  lemma WalkSeesMaps(root: nat, managed: set<nat>, ops: seq<Op>, v: Page)
    requires root in managed && RunOk(Empty(root, managed), ops) && InRange(v)
    ensures var c := Run(Empty(root, managed), ops);
      match Expected(c.small, c.huge, v)
      case None => Walk(c.sp, v) == None
      case Some((e, level)) => Walk(c.sp, v) == Some(Leaf(e, level, USER in e.bits, WRITABLE in e.bits))
  {
    var c := Run(Empty(root, managed), ops);
    WalkIsLookup(c.sp, c.at, v);
    assert Lookup(c.sp, c.at, v) == Expected(c.small, c.huge, v);
  }

  /** Over every run the tables form an unshared tree, and no mapping reaches a table's frame: no 4 KB page is mapped to it
      and no 2 MB region contains it. */
  lemma TablesStayApart(root: nat, managed: set<nat>, ops: seq<Op>, p: Place, q: Place)
    requires root in managed && RunOk(Empty(root, managed), ops)
    requires var c := Run(Empty(root, managed), ops); p in c.at && q in c.at
    ensures var c := Run(Empty(root, managed), ops);
      && (c.at[p] == c.at[q] ==> p == q)
      && (forall v :: v in c.small ==> c.small[v].frame != c.at[p])
      && (forall r :: r in c.huge ==> !Covers(c.huge[r], c.at[p]))
  {
    var c := Run(Empty(root, managed), ops);
    forall r | r in c.huge ensures !Covers(c.huge[r], c.at[p]) { assert Permitted(c.huge[r], c.owned, c.managed); }
  }
}
