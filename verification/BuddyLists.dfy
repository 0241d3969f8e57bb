/** Which block an allocation takes, and what the free lists become, in their order. */
module BuddyLists {
  import opened Blocks
  import opened Seqs
  import opened Buddy
  import opened BuddyCanon
  import opened BuddyRuns

  /** The lists after block `a`, the head of list `k`, has been taken and halved down to `order`. */
  ghost predicate HeadTaken(b: State, r: State, a: nat, k: nat, order: nat)
    requires Shape(b) && Shape(r)
  {
    && order <= k <= MAX_ORDERS && b.areas[k] == [a] + r.areas[k]
    && (forall j: nat :: order <= j < k ==> b.areas[j] == [] && r.areas[j] == [FlipBit(a, j)])
    && (forall j: nat :: j <= MAX_ORDERS && (j < order || k < j) ==> r.areas[j] == b.areas[j])
  }

  lemma {:induction false} SplitLists(b: State, a: nat, i: nat, order: nat)
    requires Shape(b) && a < |b.meta| && order <= i <= MAX_ORDERS
    ensures var r := Split(b, a, i, order);
      && (forall j: nat :: order <= j < i ==> r.areas[j] == [FlipBit(a, j)] + b.areas[j])
      && (forall j: nat :: j <= MAX_ORDERS && (j < order || i <= j) ==> r.areas[j] == b.areas[j])
    decreases i
  {
    if i > order {
      FlipInHeap(a, i - 1, |b.meta|);
      SplitLists(ListAdd(b, FlipBit(a, i - 1), i - 1), a, i - 1, order);
    }
  }

  lemma TakeLists(b: State, k: nat, order: nat)
    requires Shape(b) && order <= k <= MAX_ORDERS && b.areas[k] != [] && b.areas[k][0] < |b.meta|
    requires forall j: nat :: order <= j < k ==> b.areas[j] == []
    ensures HeadTaken(b, Take(b, k, order).0, b.areas[k][0], k, order)
  {
    var a := b.areas[k][0];
    SplitLists(ListRemove(b, a, k), a, k, order);
    assert Without(b.areas[k], a) == b.areas[k][1..];
    assert b.areas[k] == [a] + b.areas[k][1..];
  }

  /** With such a run, an allocation takes the head of the first nonempty list from its order up; the upper halves that are
      split off are then alone on the lists below, and no other list changes. */
  lemma AllocTakesLeast(c: Config, order: nat) returns (k: nat)
    requires Good(c) && Enabled(c, AllocOp(order)) && ClearRun(c, order) && InHeap(c.b)
    ensures HeadTaken(c.b, Alloc(c.b, order).0, Alloc(c.b, order).1, k, order)
  {
    NoGrowthIffClearRun(c, order);
    k := FirstFit(c.b.areas, order);
    assert c.b.areas[k][0] in c.b.areas[k];
    TakeLists(c.b, k, order);
  }

  /** Without one, it takes the first page of the new region. */
  lemma AllocTakesNew(c: Config, order: nat)
    requires Good(c) && Enabled(c, AllocOp(order)) && !ClearRun(c, order) && InHeap(c.b)
    ensures var (r, a) := Alloc(c.b, order);
      && a == |c.b.meta| && (forall j: nat :: order <= j < MAX_ORDERS ==> r.areas[j] == [FlipBit(a, j)])
      && r.areas[MAX_ORDERS] == [] && (forall j: nat :: j < order ==> r.areas[j] == c.b.areas[j])
  {
    NoGrowthIffClearRun(c, order);
    TakeLists(Grow(c.b), MAX_ORDERS, order);
  }

  // ---- freeing ---------------------------------------------------------------------------------------

  /** The lists after a block with first page `a` has been merged from order `i` up to order `k`. */
  ghost predicate Merged(b: State, r: State, a: nat, i: nat, k: nat, x: nat)
    requires Shape(b) && Shape(r)
  {
    && i <= k <= MAX_ORDERS && Aligned(x, k) && BlockOf(x, k) == BlockOf(a, k) && r.areas[k] == [x] + b.areas[k]
    && (forall j: nat :: i <= j < k ==> BuddyGone(b.areas[j], r.areas[j], a, j))
    && (forall j: nat :: j <= MAX_ORDERS && (j < i || k < j) ==> r.areas[j] == b.areas[j])
  }

  /** `f` starts the other half of the block of order `j + 1` that holds page `a`. */
  ghost predicate IsBuddy(a: nat, f: nat, j: nat)
  {
    Aligned(f, j) && BlockOf(f, j) != BlockOf(a, j) && BlockOf(f, j + 1) == BlockOf(a, j + 1)
  }

  ghost predicate BuddyGone(was: seq<nat>, now: seq<nat>, a: nat, j: nat)
  {
    exists f: nat :: IsBuddy(a, f, j) && f in was && now == Without(was, f)
  }

  lemma {:induction false} CoalesceLists(b: State, live: set<nat>, a: nat, i: nat) returns (k: nat, x: nat)
    requires Shape(b) && a < |b.meta| && i <= MAX_ORDERS && Aligned(a, i) && Clear(live, a, i)
    requires Tiled(b, live + BlockPages(a, i))
    ensures Merged(b, Coalesce(b, a, i), a, i, k, x)
    decreases MAX_ORDERS - i
  {
    k, x := i, a;
    if i < MAX_ORDERS {
      FlipInHeap(a, i, |b.meta|);
      var f := FlipBit(a, i);
      if b.meta[f].isFree && b.meta[f].order == i {
        MergeStep(b, live, a, i);
        BuddyFacts(a, i);
        var lower := if f < a then f else a;
        k, x := CoalesceLists(ListRemove(b, f, i), live, lower, i + 1);
        SameBlockUp(lower, a, i + 1, k);
        MergedDown(b, f, a, i, lower, Coalesce(b, a, i), k, x);
      }
    }
  }

  lemma MergedDown(b: State, f: nat, a: nat, i: nat, lower: nat, r: State, k: nat, x: nat)
    requires Shape(b) && Shape(r) && f < |b.meta| && i < MAX_ORDERS && f in b.areas[i] && IsBuddy(a, f, i)
    requires BlockOf(lower, i + 1) == BlockOf(a, i + 1) && Merged(ListRemove(b, f, i), r, lower, i + 1, k, x)
    ensures Merged(b, r, a, i, k, x)
  {
    SameBlockUp(lower, a, i + 1, k);
    var m := ListRemove(b, f, i);
    forall j: nat | i <= j < k ensures BuddyGone(b.areas[j], r.areas[j], a, j) {
      if j == i {
        assert IsBuddy(a, f, j) && r.areas[j] == Without(b.areas[j], f);
      } else {
        assert BuddyGone(m.areas[j], r.areas[j], lower, j);
        var g: nat :| IsBuddy(lower, g, j) && g in m.areas[j] && r.areas[j] == Without(m.areas[j], g);
        SameBlockUp(lower, a, i + 1, j);
        SameBlockUp(lower, a, i + 1, j + 1);
        assert IsBuddy(a, g, j) && g in b.areas[j];
      }
    }
  }

  /** A free puts the block that results from the merges in front of its list, takes each buddy it merged with off its list,
      and changes no other list. */
  lemma FreeLists(c: Config, a: nat) returns (k: nat, x: nat)
    requires Good(c) && a in c.blocks && a < |c.b.meta| && c.b.meta[a].order <= MAX_ORDERS
    ensures Merged(c.b, Free(c.b, a), a, c.blocks[a], k, x)
  {
    FreeKeepsInv(c.b, c.blocks, a);
    CoveredRemove(c.blocks, a);
    HeldIsClear(c, a);
    k, x := CoalesceLists(c.b, Covered(c.blocks - {a}), a, c.blocks[a]);
  }

  lemma HeldIsClear(c: Config, a: nat)
    requires Good(c) && a in c.blocks && Covered(c.blocks - {a}) !! BlockPages(a, c.blocks[a])
    ensures Aligned(a, c.blocks[a]) && Clear(Covered(c.blocks - {a}), a, c.blocks[a])
  {
    assert LiveBlock(c.b, a, c.blocks[a]);
    BlockPagesAre(a, c.blocks[a]);
  }

  /** Last freed, first taken: a block that merged with nothing is what the next request of its order gets. */
  lemma FreedIsNext(c: Config, a: nat)
    requires Good(c) && a in c.blocks && c.blocks[a] <= MAX_ORDERS
    requires forall f: nat :: f in c.b.areas[c.blocks[a]] ==> !IsBuddy(a, f, c.blocks[a])
    ensures var d := Step(c, FreeOp(a)); InHeap(d.b) && Enabled(d, AllocOp(c.blocks[a])) && Alloc(d.b, c.blocks[a]).1 == a
  {
    FreeKeepsInv(c.b, c.blocks, a);
    var d, order := Step(c, FreeOp(a)), c.blocks[a];
    InvInHeap(d.b, d.blocks);
    var k, x := FreeLists(c, a);
    HeldIsAligned(c, a);
    assert k == order;
    SameStart(x, a, order);
    assert d.b.areas[order][0] == a;
  }

  lemma HeldIsAligned(c: Config, a: nat)
    requires Good(c) && a in c.blocks
    ensures Aligned(a, c.blocks[a])
  {
    assert LiveBlock(c.b, a, c.blocks[a]);
  }

  lemma {:induction false} SameStart(x: nat, a: nat, k: nat)
    requires Aligned(x, k) && Aligned(a, k) && BlockOf(x, k) == BlockOf(a, k)
    ensures x == a
  {
    if k > 0 { SameStart(x / 2, a / 2, k - 1); }
  }
}
