/** Whole runs of the buddy allocator. */
module BuddyRuns {
  import opened Blocks
  import opened Seqs
  import opened Buddy
  import opened BuddyCanon

  datatype Op = AllocOp(order: nat) | FreeOp(page: nat)

  /** A configuration: the allocator and the blocks its callers hold (first page to order). */
  datatype Config = Config(b: State, blocks: map<nat, nat>)

  ghost predicate Good(c: Config)
  {
    Inv(c.b, c.blocks)
  }

  /** Callers free only what they hold, ask for at most order 12, and do not force a second growth. */
  ghost predicate Enabled(c: Config, op: Op)
    requires Good(c)
  {
    match op
    case AllocOp(order) => order <= MAX_ORDERS && (NeedsGrowth(c.b, order) ==> CanGrow(c.b))
    case FreeOp(page) => page in c.blocks
  }

  ghost function Step(c: Config, op: Op): (r: Config)
    requires Good(c) && Enabled(c, op)
    ensures Good(r)
  {
    match op
    case AllocOp(order) =>
      InvInHeap(c.b, c.blocks);
      AllocKeepsInv(c.b, c.blocks, order);
      var (b, a) := Alloc(c.b, order);
      Config(b, c.blocks[a := order])
    case FreeOp(page) =>
      FreeKeepsInv(c.b, c.blocks, page);
      Config(Free(c.b, page), c.blocks - {page})
  }

  ghost predicate RunOk(c: Config, ops: seq<Op>)
    requires Good(c)
    decreases |ops|
  {
    ops == [] || (Enabled(c, ops[0]) && RunOk(Step(c, ops[0]), ops[1..]))
  }

  ghost function Run(c: Config, ops: seq<Op>): (r: Config)
    requires Good(c) && RunOk(c, ops)
    ensures Good(r)
    decreases |ops|
  {
    if ops == [] then c else Run(Step(c, ops[0]), ops[1..])
  }

  lemma StartTiled()
    ensures Good(Config(Init(), map[]))
  {
    var b := Init();
    assert Covered(map[]) == {};
    forall k: nat, a: nat | k <= MAX_ORDERS
      ensures a in b.areas[k] <==> FreeBlock({}, |b.meta|, a, k)
    {
      if a < START_PAGES { EmptyRegion({}, 0, a, k); }
    }
  }

  ghost function Start(): (c: Config)
    ensures Good(c)
  {
    StartTiled();
    Config(Init(), map[])
  }

  /** Canonical form. After any run, block `(a, k)` is on the free list of order `k` exactly when it
      is aligned, holds no live page, and is of the largest order or has a live page in its parent. */
  lemma RunCanonical(ops: seq<Op>, a: nat, k: nat)
    requires RunOk(Start(), ops) && k <= MAX_ORDERS
    ensures var c := Run(Start(), ops);
      var live := Covered(c.blocks);
      a in c.b.areas[k] <==>
        (a < |c.b.meta| && Aligned(a, k)
         && (forall p :: p in live ==> BlockOf(p, k) != BlockOf(a, k))
         && (k == MAX_ORDERS || exists p :: p in live && BlockOf(p, k + 1) == BlockOf(a, k + 1)))
  {
    var c := Run(Start(), ops);
    var live := Covered(c.blocks);
    assert Canonical(c.b, live);
    assert Clear(live, a, k + 1) <==> !(exists p :: p in live && BlockOf(p, k + 1) == BlockOf(a, k + 1));
  }

  /** Runs that end with the same live pages end with the same free blocks, whatever their order. */
  lemma FreeSetDependsOnLiveOnly(ops: seq<Op>, other: seq<Op>)
    requires RunOk(Start(), ops) && RunOk(Start(), other)
    requires Covered(Run(Start(), ops).blocks) == Covered(Run(Start(), other).blocks)
    requires |Run(Start(), ops).b.meta| == |Run(Start(), other).b.meta|
    ensures forall k: nat :: k <= MAX_ORDERS ==>
      multiset(Run(Start(), ops).b.areas[k]) == multiset(Run(Start(), other).b.areas[k])
  {
    var c, d := Run(Start(), ops).b, Run(Start(), other).b;
    forall k: nat | k <= MAX_ORDERS ensures multiset(c.areas[k]) == multiset(d.areas[k]) {
      assert forall a: nat :: a in c.areas[k] <==> a in d.areas[k];
      SameMembersSameBag(c.areas[k], d.areas[k]);
    }
  }

  lemma SameMembersSameBag(s: seq<nat>, t: seq<nat>)
    requires NoDup(s) && NoDup(t) && forall a: nat :: a in s <==> a in t
    ensures multiset(s) == multiset(t)
  {
    forall a: nat ensures multiset(s)[a] == multiset(t)[a] {
      NoDupCount(s, a);
      NoDupCount(t, a);
    }
  }

  lemma {:induction false} NoDupCount(s: seq<nat>, a: nat)
    requires NoDup(s)
    ensures multiset(s)[a] == if a in s then 1 else 0
  {
    if s != [] {
      assert s == [s[0]] + s[1..];
      NoDupCount(s[1..], a);
    }
  }

  /** A run that frees everything is back to one free block of order 12 per region; without growth
      the free lists are those of `init_buddy`. */
  lemma FreeingAllRestores(ops: seq<Op>)
    requires RunOk(Start(), ops) && Run(Start(), ops).blocks == map[]
    ensures var b := Run(Start(), ops).b;
      && (forall k: nat :: k < MAX_ORDERS ==> b.areas[k] == [])
      && (forall a: nat :: a in b.areas[MAX_ORDERS] <==> a < |b.meta| && a % START_PAGES == 0)
      && (|b.meta| == START_PAGES ==> b.areas == Init().areas)
  {
    RestoredWhenEmpty(Run(Start(), ops));
  }

  lemma RestoredWhenEmpty(c: Config)
    requires Good(c) && c.blocks == map[]
    ensures forall k: nat :: k < MAX_ORDERS ==> c.b.areas[k] == []
    ensures forall a: nat :: a in c.b.areas[MAX_ORDERS] <==> a < |c.b.meta| && a % START_PAGES == 0
    ensures |c.b.meta| == START_PAGES ==> c.b.areas == Init().areas
  {
    var b := c.b;
    assert Covered(c.blocks) == {};
    forall k: nat | k < MAX_ORDERS ensures b.areas[k] == [] {
      NoDupSize(b.areas[k], {});
    }
    forall a: nat ensures a in b.areas[MAX_ORDERS] <==> a < |b.meta| && a % START_PAGES == 0 {
      RegionStart(a - a % START_PAGES);
      assert Clear({}, a, MAX_ORDERS);
    }
    if |b.meta| == START_PAGES {
      var top := b.areas[MAX_ORDERS];
      NoDupSize(top, {0});
      assert top[0] in top;
      assert top == [0];
      var start := Init();
      assert |b.areas| == |start.areas|;
      forall k: nat | k <= MAX_ORDERS ensures b.areas[k] == start.areas[k] {}
    }
  }

  // ---- completeness of the search -----------------------------------------------------------

  /** An aligned run without live pages lies inside a free block of at least its order. */
  lemma {:induction false} ClearInsideFree(live: set<nat>, pages: nat, a: nat, k: nat) returns (x: nat, j: nat)
    requires k <= MAX_ORDERS && a < pages && Aligned(a, k) && Clear(live, a, k) && pages % START_PAGES == 0
    ensures k <= j && FreeBlock(live, pages, x, j) && BlockOf(x, j) == BlockOf(a, j)
    decreases MAX_ORDERS - k
  {
    if k == MAX_ORDERS || !Clear(live, a, k + 1) {
      x, j := a, k;
    } else {
      var f := FlipBit(a, k);
      BuddyFacts(a, k);
      FlipInHeap(a, k, pages);
      var lower := if f < a then f else a;
      x, j := ClearInsideFree(live, pages, lower, k + 1);
      SameBlockUp(lower, a, k + 1, j);
    }
  }

  /** The search is complete and sound: `buddy_alloc` is served without growing the heap exactly
      when some aligned run of `2^order` managed pages holds no live page. */
  lemma NoGrowthIffClearRun(c: Config, order: nat)
    requires Good(c) && order <= MAX_ORDERS
    ensures !NeedsGrowth(c.b, order) <==>
      exists a: nat :: a < |c.b.meta| && Aligned(a, order) && Clear(Covered(c.blocks), a, order)
  {
    var live, pages := Covered(c.blocks), |c.b.meta|;
    var i := FirstFit(c.b.areas, order);
    if a: nat :| a < pages && Aligned(a, order) && Clear(live, a, order) {
      var x, j := ClearInsideFree(live, pages, a, order);
      assert x in c.b.areas[j];
    }
    if i <= MAX_ORDERS {
      var x := c.b.areas[i][0];
      assert x in c.b.areas[i];
      AlignedDown(x, i, order);
      forall p | p in live ensures BlockOf(p, order) != BlockOf(x, order) {
        if BlockOf(p, order) == BlockOf(x, order) { SameBlockUp(p, x, order, i); }
      }
      assert Clear(live, x, order);
    }
  }

  /** Some aligned run of `2^order` managed pages holds no live page. */
  ghost predicate ClearRun(c: Config, order: nat)
  {
    exists a: nat :: a < |c.b.meta| && Aligned(a, order) && Clear(Covered(c.blocks), a, order)
  }

  /** An allocation grows the heap, by one region, if and only if there is no such run. */
  lemma AllocGrowsIff(c: Config, order: nat)
    requires Good(c) && Enabled(c, AllocOp(order))
    ensures var b := Step(c, AllocOp(order)).b;
      && (b.heapEnd == c.b.heapEnd && |b.meta| == |c.b.meta| <==> ClearRun(c, order))
      && (!ClearRun(c, order) ==> b.heapEnd == c.b.heapEnd + 1 && |b.meta| == |c.b.meta| + START_PAGES)
  {
    NoGrowthIffClearRun(c, order);
    InvInHeap(c.b, c.blocks);
  }

  /** The free blocks and the live pages tile the heap: each managed page is live or lies in
      exactly one free block, never both. */
  lemma HeapIsTiled(c: Config, p: nat)
    requires Good(c) && p < |c.b.meta|
    ensures p in Covered(c.blocks) <==>
      !(exists a: nat, k: nat :: k <= MAX_ORDERS && a in c.b.areas[k] && BlockOf(p, k) == BlockOf(a, k))
    ensures forall a: nat, k: nat, x: nat, j: nat |
      k <= MAX_ORDERS && j <= MAX_ORDERS && a in c.b.areas[k] && x in c.b.areas[j]
      && BlockOf(p, k) == BlockOf(a, k) && BlockOf(p, j) == BlockOf(x, j) :: a == x && k == j
  {
    var live, pages := Covered(c.blocks), |c.b.meta|;
    if p !in live {
      var x, j := ClearInsideFree(live, pages, p, 0);
      assert x in c.b.areas[j];
    }
    forall a: nat, k: nat, x: nat, j: nat |
      k <= MAX_ORDERS && j <= MAX_ORDERS && a in c.b.areas[k] && x in c.b.areas[j]
      && BlockOf(p, k) == BlockOf(a, k) && BlockOf(p, j) == BlockOf(x, j)
      ensures a == x && k == j
    {
      if !(a == x && k == j) { FreeBlocksDisjoint(live, pages, a, k, x, j, p); }
    }
  }

  // ---- the second growth -----------------------------------------------------------------------

  /** A second growth lists pages that are already managed: they are live or free already. */
  lemma SecondGrowthOverlaps(c: Config)
    requires Good(c) && !CanGrow(c.b)
    ensures Grow(c.b).areas[MAX_ORDERS][0] == c.b.heapEnd < |c.b.meta|
    ensures forall p: nat :: c.b.heapEnd <= p < |c.b.meta| ==>
      p in Covered(c.blocks)
      || exists a: nat, k: nat :: k <= MAX_ORDERS && a in c.b.areas[k] && BlockOf(p, k) == BlockOf(a, k)
    ensures !exists after: set<nat> :: Tiled(Grow(c.b), after)
  {
    forall p: nat | c.b.heapEnd <= p < |c.b.meta|
      ensures p in Covered(c.blocks)
        || exists a: nat, k: nat :: k <= MAX_ORDERS && a in c.b.areas[k] && BlockOf(p, k) == BlockOf(a, k)
    {
      HeapIsTiled(c, p);
    }
    SecondGrowthBreaks(c);
  }

  lemma SecondGrowthBreaks(c: Config)
    requires Good(c) && !CanGrow(c.b)
    ensures c.b.heapEnd < |c.b.meta| && !exists after: set<nat> :: Tiled(Grow(c.b), after)
  {
    InvInHeap(c.b, c.blocks);
    GrowTiledIff(c.b, Covered(c.blocks));
  }

  /** Taking a whole region: from its list while one block is there, else by growing the heap. */
  lemma TopAlloc(b: State)
    requires Shape(b) && InHeap(b) && |b.areas[MAX_ORDERS]| <= 1 && (b.areas[MAX_ORDERS] == [] ==> CanGrow(b))
    ensures NeedsGrowth(b, MAX_ORDERS) <==> b.areas[MAX_ORDERS] == []
    ensures var r := Alloc(b, MAX_ORDERS).0;
      && r.areas[MAX_ORDERS] == []
      && (if b.areas[MAX_ORDERS] == [] then r.heapEnd == b.heapEnd + 1 && |r.meta| == b.heapEnd + START_PAGES
          else r.heapEnd == b.heapEnd && |r.meta| == |b.meta|)
  {
    if b.areas[MAX_ORDERS] == [] {
      assert Grow(b).areas[MAX_ORDERS] == [b.heapEnd];
      TopTake(Grow(b), b.heapEnd);
    } else {
      assert b.areas[MAX_ORDERS][0] in b.areas[MAX_ORDERS];
      TopTake(b, b.areas[MAX_ORDERS][0]);
    }
  }

  lemma TopTake(b: State, a: nat)
    requires Shape(b) && b.areas[MAX_ORDERS] == [a] && a < |b.meta|
    ensures Take(b, MAX_ORDERS, MAX_ORDERS).0.areas[MAX_ORDERS] == []
  {
    assert Without([a], a) == [];
  }

  /** Two requests for a whole region lead to a state in which a third one grows the heap a second time. */
  lemma SecondGrowthIsReachable()
    ensures RunOk(Start(), [AllocOp(MAX_ORDERS), AllocOp(MAX_ORDERS)])
    ensures var b := Run(Start(), [AllocOp(MAX_ORDERS), AllocOp(MAX_ORDERS)]).b;
      Shape(b) && NeedsGrowth(b, MAX_ORDERS) && !CanGrow(b)
  {
    var c0 := Start();
    InvInHeap(c0.b, c0.blocks);
    TopAlloc(c0.b);
    var c1 := Step(c0, AllocOp(MAX_ORDERS));
    InvInHeap(c1.b, c1.blocks);
    TopAlloc(c1.b);
    RunTwo(c0, AllocOp(MAX_ORDERS), AllocOp(MAX_ORDERS));
    TopIsTaken(c1);
  }

  lemma RunOne(c: Config, s: Op)
    requires Good(c) && Enabled(c, s)
    ensures RunOk(c, [s]) && Run(c, [s]) == Step(c, s)
  {
    assert [s][1..] == [] && RunOk(Step(c, s), []);
  }

  lemma RunTwo(c: Config, s: Op, t: Op)
    requires Good(c) && Enabled(c, s) && Enabled(Step(c, s), t)
    ensures RunOk(c, [s, t]) && Run(c, [s, t]) == Step(Step(c, s), t)
  {
    var m := Step(c, s);
    RunOne(m, t);
    assert [s, t][1..] == [t];
  }

  /** After the growth no whole region is left and the recorded end is not the end of the managed pages. */
  lemma TopIsTaken(c: Config)
    requires Good(c) && c.b.areas[MAX_ORDERS] == [] && CanGrow(c.b)
    ensures var b := Step(c, AllocOp(MAX_ORDERS)).b; Shape(b) && NeedsGrowth(b, MAX_ORDERS) && !CanGrow(b)
  {
    InvInHeap(c.b, c.blocks);
    TopAlloc(c.b);
  }
}
