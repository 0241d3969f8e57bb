/** Canonical form of the buddy allocator.

    The central idea: a block that has been taken off its list but not yet handed out (while it
    is being split, or while it is being merged) is treated as live. Each list operation then
    moves the free lists from the canonical form of one live set to that of another. */
module BuddyCanon {
  import opened Blocks
  import opened Seqs
  import opened Buddy

  // ---- the canonical free set ---------------------------------------------------------

  /** No live page lies in the order-`k` block around page `a`. */
  ghost predicate Clear(live: set<nat>, a: nat, k: nat)
  {
    forall p :: p in live ==> BlockOf(p, k) != BlockOf(a, k)
  }

  /** Block `(a, k)` belongs to the canonical free set: it is clear, and it is as large as
      possible, because its parent is not clear (or it has the largest order). */
  ghost predicate FreeBlock(live: set<nat>, pages: nat, a: nat, k: nat)
  {
    && k <= MAX_ORDERS && a < pages && Aligned(a, k)
    && Clear(live, a, k)
    && (k == MAX_ORDERS || !Clear(live, a, k + 1))
  }

  ghost predicate Canonical(b: State, live: set<nat>)
    requires Shape(b)
  {
    forall k: nat, a: nat :: k <= MAX_ORDERS ==> (a in b.areas[k] <==> FreeBlock(live, |b.meta|, a, k))
  }

  ghost predicate ListsDistinct(b: State)
    requires Shape(b)
  {
    forall k: nat :: k <= MAX_ORDERS ==> NoDup(b.areas[k])
  }

  /** The metadata of a page says "free, order k" exactly when the page heads a block on list `k`. */
  ghost predicate MetaMatches(b: State)
    requires Shape(b)
  {
    && (forall k: nat, a: nat :: k <= MAX_ORDERS && a in b.areas[k] ==>
          a < |b.meta| && b.meta[a].isFree && b.meta[a].order == k)
    && (forall a: nat :: a < |b.meta| && b.meta[a].isFree ==>
          b.meta[a].order <= MAX_ORDERS && a in b.areas[b.meta[a].order])
  }

  ghost predicate Tiled(b: State, live: set<nat>)
  {
    Shape(b) && Canonical(b, live) && ListsDistinct(b) && MetaMatches(b)
  }

  // ---- taking a block out of the canonical free set, and its inverse --------------------

  /** Making one free block live removes exactly that block from the canonical free set. */
  lemma TakeFree(live: set<nat>, pages: nat, a: nat, k: nat)
    requires FreeBlock(live, pages, a, k)
    ensures forall x: nat, j: nat ::
      FreeBlock(live + BlockPages(a, k), pages, x, j) <==> FreeBlock(live, pages, x, j) && !(x == a && j == k)
  {
    var more := live + BlockPages(a, k);
    BlockPagesAre(a, k);
    forall x: nat, j: nat
      ensures FreeBlock(more, pages, x, j) <==> FreeBlock(live, pages, x, j) && !(x == a && j == k)
    {
      if FreeBlock(live, pages, x, j) && !(x == a && j == k) { StaysFree(live, pages, a, k, x, j); }
      if FreeBlock(more, pages, x, j) { WasFree(live, pages, a, k, x, j); }
    }
  }

  /** Two different canonical free blocks share no page. */
  lemma FreeBlocksDisjoint(live: set<nat>, pages: nat, a: nat, k: nat, x: nat, j: nat, p: nat)
    requires FreeBlock(live, pages, a, k) && FreeBlock(live, pages, x, j) && !(x == a && j == k)
    ensures !(BlockOf(p, k) == BlockOf(a, k) && BlockOf(p, j) == BlockOf(x, j))
  {
    if BlockOf(p, k) == BlockOf(a, k) && BlockOf(p, j) == BlockOf(x, j) {
      if j == k {
        AlignedUnique(a, x, k);
      } else if j < k {
        NestedNotFree(live, pages, a, k, x, j, p);
      } else {
        NestedNotFree(live, pages, x, j, a, k, p);
      }
      assert false;
    }
  }

  /** A block strictly inside a clear block is not canonical: its parent is clear too. */
  lemma NestedNotFree(live: set<nat>, pages: nat, a: nat, k: nat, x: nat, j: nat, p: nat)
    requires FreeBlock(live, pages, a, k) && j < k
    requires BlockOf(p, k) == BlockOf(a, k) && BlockOf(p, j) == BlockOf(x, j)
    ensures !FreeBlock(live, pages, x, j)
  {
    forall q | q in live ensures BlockOf(q, j + 1) != BlockOf(x, j + 1) {
      OutsideStaysOutside(q, p, a, k, x, j);
    }
  }

  lemma OutsideStaysOutside(q: nat, p: nat, a: nat, k: nat, x: nat, j: nat)
    requires j < k && BlockOf(p, k) == BlockOf(a, k) && BlockOf(p, j) == BlockOf(x, j)
    requires BlockOf(q, k) != BlockOf(a, k)
    ensures BlockOf(q, j + 1) != BlockOf(x, j + 1)
  {
    SameBlockUp(p, x, j, k);
    if BlockOf(q, j + 1) == BlockOf(x, j + 1) { SameBlockUp(q, x, j + 1, k); }
  }

  lemma StaysFree(live: set<nat>, pages: nat, a: nat, k: nat, x: nat, j: nat)
    requires FreeBlock(live, pages, a, k) && FreeBlock(live, pages, x, j) && !(x == a && j == k)
    ensures FreeBlock(live + BlockPages(a, k), pages, x, j)
  {
    var more := live + BlockPages(a, k);
    BlockPagesAre(a, k);
    forall p | p in more ensures BlockOf(p, j) != BlockOf(x, j) {
      FreeBlocksDisjoint(live, pages, a, k, x, j, p);
    }
    if j < MAX_ORDERS {
      var q :| q in live && BlockOf(q, j + 1) == BlockOf(x, j + 1);
      assert q in more;
    }
  }

  lemma WasFree(live: set<nat>, pages: nat, a: nat, k: nat, x: nat, j: nat)
    requires FreeBlock(live, pages, a, k) && FreeBlock(live + BlockPages(a, k), pages, x, j)
    ensures FreeBlock(live, pages, x, j) && !(x == a && j == k)
  {
    var more := live + BlockPages(a, k);
    BlockPagesAre(a, k);
    assert a in more;
    assert Clear(live, x, j) by { forall p | p in live ensures BlockOf(p, j) != BlockOf(x, j) { assert p in more; } }
    if j < MAX_ORDERS && Clear(live, x, j + 1) {
      // The only live pages in the parent of x are those of the new block, which lies inside it.
      var q :| q in more && BlockOf(q, j + 1) == BlockOf(x, j + 1);
      assert BlockOf(q, k) == BlockOf(a, k);
      if j + 1 <= k {
        SameBlockUp(q, x, j + 1, k);
      } else {
        var l :| l in live && BlockOf(l, k + 1) == BlockOf(a, k + 1);
        SameBlockUp(a, q, k, j + 1);
        SameBlockUp(l, a, k + 1, j + 1);
      }
      assert false;
    }
  }

  // ---- the list operations move between canonical forms ----------------------------------

  lemma RemoveKeepsTiled(b: State, live: set<nat>, a: nat, k: nat)
    requires Tiled(b, live) && k <= MAX_ORDERS && a in b.areas[k]
    ensures Tiled(ListRemove(b, a, k), live + BlockPages(a, k))
  {
    TakeFree(live, |b.meta|, a, k);
    WithoutMembers(b.areas[k], a);
  }

  lemma AddKeepsTiled(b: State, live: set<nat>, a: nat, k: nat)
    requires Shape(b) && FreeBlock(live, |b.meta|, a, k) && Tiled(b, live + BlockPages(a, k))
    ensures Tiled(ListAdd(b, a, k), live)
  {
    TakeFree(live, |b.meta|, a, k);
    BlockPagesAre(a, k);
    var more := live + BlockPages(a, k);
    assert a in more;
    assert forall j: nat :: j <= MAX_ORDERS ==> a !in b.areas[j];
    var r := ListAdd(b, a, k);
    assert forall x :: x in r.areas[k] <==> x == a || x in b.areas[k];
  }

  /** Splitting a held block of order `i` down to `order` leaves only the lower part live. */
  lemma {:induction false} SplitKeepsTiled(b: State, live: set<nat>, a: nat, i: nat, order: nat)
    requires order <= i <= MAX_ORDERS && Aligned(a, i) && Clear(live, a, i)
    requires Tiled(b, live + BlockPages(a, i)) && a < |b.meta|
    ensures Tiled(Split(b, a, i, order), live + BlockPages(a, order)) && Aligned(a, order)
    ensures forall p :: p in live && p < |b.meta| ==> Split(b, a, i, order).meta[p] == b.meta[p]
    decreases i
  {
    if i > order {
      SplitStep(b, live, a, i);
      SplitKeepsTiled(ListAdd(b, FlipBit(a, i - 1), i - 1), live, a, i - 1, order);
    }
  }

  /** One turn of the splitting loop: the upper half is listed, the lower half stays held. */
  lemma SplitStep(b: State, live: set<nat>, a: nat, i: nat)
    requires 0 < i <= MAX_ORDERS && Aligned(a, i) && Clear(live, a, i)
    requires Tiled(b, live + BlockPages(a, i)) && a < |b.meta|
    ensures var f := FlipBit(a, i - 1);
            && f < |b.meta| && !b.meta[f].isFree && f !in live
            && Tiled(ListAdd(b, f, i - 1), live + BlockPages(a, i - 1))
            && Aligned(a, i - 1) && Clear(live, a, i - 1)
  {
    var f := FlipBit(a, i - 1);
    var lower := live + BlockPages(a, i - 1);
    FlipInHeap(a, i - 1, |b.meta|);
    UpperHalfIsFree(live, |b.meta|, a, i - 1);
    BlockPagesSplit(a, i - 1);
    assert lower + BlockPages(f, i - 1) == live + BlockPages(a, i);
    BlockPagesAre(f, i - 1);
    LivePageNotListed(b, live + BlockPages(a, i), f);
    AddKeepsTiled(b, lower, f, i - 1);
    ClearDown(live, a, i);
  }

  lemma LivePageNotListed(b: State, live: set<nat>, p: nat)
    requires Tiled(b, live) && p in live && p < |b.meta|
    ensures !b.meta[p].isFree
    ensures forall k: nat :: k <= MAX_ORDERS ==> p !in b.areas[k]
  {
    assert forall k: nat :: !Clear(live, p, k);
  }

  lemma ClearDown(live: set<nat>, a: nat, k: nat)
    requires k > 0 && Clear(live, a, k)
    ensures Clear(live, a, k - 1)
  {
    forall p | p in live ensures BlockOf(p, k - 1) != BlockOf(a, k - 1) {
      if BlockOf(p, k - 1) == BlockOf(a, k - 1) { SameBlockUp(p, a, k - 1, k); }
    }
  }

  lemma UpperHalfIsFree(live: set<nat>, pages: nat, a: nat, k: nat)
    requires k < MAX_ORDERS && Aligned(a, k + 1) && Clear(live, a, k + 1) && FlipBit(a, k) < pages
    ensures FreeBlock(live + BlockPages(a, k), pages, FlipBit(a, k), k)
    ensures FlipBit(a, k) !in live
  {
    var f := FlipBit(a, k);
    var lower := live + BlockPages(a, k);
    AlignedDown(a, k + 1, k);
    BuddyFacts(a, k);
    BlockPagesAre(a, k);
    forall p | p in lower ensures BlockOf(p, k) != BlockOf(f, k) {
      if BlockOf(p, k) == BlockOf(f, k) { SameBlockUp(p, f, k, k + 1); }
    }
    assert a in lower && BlockOf(a, k + 1) == BlockOf(f, k + 1);
    assert !Clear(lower, f, k + 1);
  }

  /** Freeing: with the freed block counted as live the lists are canonical before the loop, and
      they are canonical without it after the loop. */
  lemma {:induction false} CoalesceKeepsTiled(b: State, live: set<nat>, a: nat, i: nat)
    requires i <= MAX_ORDERS && Aligned(a, i) && Clear(live, a, i)
    requires Tiled(b, live + BlockPages(a, i)) && a < |b.meta|
    ensures Tiled(Coalesce(b, a, i), live)
    ensures forall p :: p in live && p < |b.meta| ==> Coalesce(b, a, i).meta[p] == b.meta[p]
    decreases MAX_ORDERS - i
  {
    if i == MAX_ORDERS {
      BlockPagesAre(a, i);
      AddKeepsTiled(b, live, a, i);
    } else {
      var f := FlipBit(a, i);
      FlipInHeap(a, i, |b.meta|);
      if b.meta[f].isFree && b.meta[f].order == i {
        MergeStep(b, live, a, i);
        var rest, lower := ListRemove(b, f, i), if f < a then f else a;
        CoalesceKeepsTiled(rest, live, lower, i + 1);
        assert Coalesce(b, a, i) == Coalesce(rest, lower, i + 1);
      } else {
        StopMerging(b, live, a, i);
      }
    }
  }

  /** The merging loop stops at a buddy that is not free as a whole. */
  lemma StopMerging(b: State, live: set<nat>, a: nat, i: nat)
    requires i < MAX_ORDERS && Aligned(a, i) && Clear(live, a, i) && FlipBit(a, i) < |b.meta| && a < |b.meta|
    requires Tiled(b, live + BlockPages(a, i)) && !(b.meta[FlipBit(a, i)].isFree && b.meta[FlipBit(a, i)].order == i)
    ensures Tiled(ListAdd(b, a, i), live)
    ensures forall p :: p in live && p < |b.meta| ==> ListAdd(b, a, i).meta[p] == b.meta[p]
  {
    BlockPagesAre(a, i);
    assert FlipBit(a, i) !in b.areas[i];
    BuddyInUse(live, |b.meta|, a, i);
    AddKeepsTiled(b, live, a, i);
  }

  /** One turn of the merging loop: the held block doubles. */
  lemma MergeStep(b: State, live: set<nat>, a: nat, i: nat)
    requires i < MAX_ORDERS && Aligned(a, i) && Clear(live, a, i) && FlipBit(a, i) < |b.meta|
    requires Tiled(b, live + BlockPages(a, i)) && a < |b.meta| && FlipBit(a, i) in b.areas[i]
    ensures var f := FlipBit(a, i);
            var lower := if f < a then f else a;
            && Tiled(ListRemove(b, f, i), live + BlockPages(lower, i + 1))
            && Aligned(lower, i + 1) && Clear(live, lower, i + 1) && f !in live
  {
    var f := FlipBit(a, i);
    var held := live + BlockPages(a, i);
    BuddyFacts(a, i);
    RemoveKeepsTiled(b, held, f, i);
    MergedHalves(a, i);
    assert held + BlockPages(f, i) == live + BlockPages(if f < a then f else a, i + 1);
    assert Clear(held, f, i);
    MergedIsClear(live, a, i);
  }

  lemma MergedHalves(a: nat, k: nat)
    requires Aligned(a, k)
    ensures var f := FlipBit(a, k); BlockPages(if f < a then f else a, k + 1) == BlockPages(a, k) + BlockPages(f, k)
  {
    var f := FlipBit(a, k);
    BuddyFacts(a, k);
    BlockPagesSplit(if f < a then f else a, k);
  }

  /** If both halves are clear of live pages, so is the parent. */
  lemma MergedIsClear(live: set<nat>, a: nat, k: nat)
    requires Aligned(a, k) && Clear(live, a, k) && Clear(live, FlipBit(a, k), k)
    ensures var f := FlipBit(a, k); Clear(live, if f < a then f else a, k + 1)
  {
    var f := FlipBit(a, k);
    BuddyFacts(a, k);
    forall p | p in live ensures BlockOf(p, k + 1) != BlockOf(a, k + 1) {
      if BlockOf(p, k + 1) == BlockOf(a, k + 1) { ParentHalves(a, k, p); }
    }
  }

  /** A buddy that is not on the free list holds a live page, so the merged run stops here. */
  lemma BuddyInUse(live: set<nat>, pages: nat, a: nat, k: nat)
    requires k < MAX_ORDERS && Aligned(a, k) && Clear(live, a, k) && a < pages && FlipBit(a, k) < pages
    requires !FreeBlock(live + BlockPages(a, k), pages, FlipBit(a, k), k)
    ensures FreeBlock(live, pages, a, k)
  {
    var f := FlipBit(a, k);
    var held := live + BlockPages(a, k);
    BuddyFacts(a, k);
    BlockPagesAre(a, k);
    assert a in held && BlockOf(a, k + 1) == BlockOf(f, k + 1);
    assert !Clear(held, f, k + 1);
    var p :| p in held && BlockOf(p, k) == BlockOf(f, k);
    assert p in live;
    SameBlockUp(p, f, k, k + 1);
  }

  // ---- growth ---------------------------------------------------------------------------

  lemma NewPages(pages: nat, p: nat, a: nat, k: nat)
    requires pages % START_PAGES == 0 && p < pages <= a && k <= MAX_ORDERS
    ensures BlockOf(p, k) != BlockOf(a, k)
  {
    Pow2Values();
    BelowBlocks(p, MAX_ORDERS, pages / START_PAGES);
    BelowBlocks(a, MAX_ORDERS, pages / START_PAGES);
    if BlockOf(p, k) == BlockOf(a, k) { SameBlockUp(p, a, k, MAX_ORDERS); }
  }

  lemma RegionStart(pages: nat)
    requires pages % START_PAGES == 0
    ensures Aligned(pages, MAX_ORDERS)
    ensures forall a: nat :: pages <= a < pages + START_PAGES && Aligned(a, MAX_ORDERS) ==> a == pages
  {
    Pow2Values();
    var n := pages / START_PAGES;
    AlignedMultiple(n, MAX_ORDERS);
    forall a: nat | pages <= a < pages + START_PAGES && Aligned(a, MAX_ORDERS) ensures a == pages {
      BelowBlocks(a, MAX_ORDERS, n);
      BelowBlocks(a, MAX_ORDERS, n + 1);
      BelowBlocks(pages, MAX_ORDERS, n);
      BelowBlocks(pages, MAX_ORDERS, n + 1);
      AlignedUnique(a, pages, MAX_ORDERS);
    }
  }

  /** In a region without live pages only the whole region is free. */
  lemma EmptyRegion(live: set<nat>, pages: nat, a: nat, k: nat)
    requires pages % START_PAGES == 0 && forall p :: p in live ==> p < pages
    requires pages <= a < pages + START_PAGES
    ensures FreeBlock(live, pages + START_PAGES, a, k) <==> a == pages && k == MAX_ORDERS
  {
    RegionStart(pages);
    if k <= MAX_ORDERS {
      forall p | p in live ensures BlockOf(p, k) != BlockOf(a, k) { NewPages(pages, p, a, k); }
      if k < MAX_ORDERS {
        forall p | p in live ensures BlockOf(p, k + 1) != BlockOf(a, k + 1) { NewPages(pages, p, a, k + 1); }
      }
    }
  }

  /** The first growth is sound. */
  lemma GrowKeepsTiled(b: State, live: set<nat>)
    requires Tiled(b, live) && CanGrow(b) && forall p :: p in live ==> p < |b.meta|
    ensures Tiled(Grow(b), live)
    ensures forall p :: p in live ==> Grow(b).meta[p] == b.meta[p]
  {
    var pages := |b.meta|;
    var g := Grow(b);
    assert |g.meta| == pages + START_PAGES;
    assert forall x :: x in g.areas[MAX_ORDERS] <==> x == pages || x in b.areas[MAX_ORDERS];
    forall k: nat, a: nat | k <= MAX_ORDERS
      ensures a in g.areas[k] <==> FreeBlock(live, |g.meta|, a, k)
    {
      if pages <= a < pages + START_PAGES { EmptyRegion(live, pages, a, k); }
      assert a < pages ==> (FreeBlock(live, pages, a, k) <==> FreeBlock(live, |g.meta|, a, k));
    }
    assert pages !in b.areas[MAX_ORDERS];
  }

  /** Growth keeps the free lists canonical exactly when the recorded heap end is aligned; the end
      moves by one page per growth, so this is so for the first growth and for no second one. */
  lemma GrowTiledIff(b: State, live: set<nat>)
    requires Tiled(b, live) && b.heapEnd <= |b.meta| < b.heapEnd + START_PAGES
    requires forall p :: p in live ==> p < |b.meta|
    ensures (exists after: set<nat> :: Tiled(Grow(b), after)) <==> CanGrow(b)
  {
    if CanGrow(b) {
      GrowKeepsTiled(b, live);
    }
    if after: set<nat> :| Tiled(Grow(b), after) {
      var g := Grow(b);
      assert b.heapEnd in g.areas[MAX_ORDERS];
      assert Aligned(b.heapEnd, MAX_ORDERS);
      assert |g.meta| == b.heapEnd + START_PAGES;
    }
  }

  // ---- live blocks ------------------------------------------------------------------------

  /** The pages of all live blocks; `blocks` maps the first page of each to its order. */
  ghost function Covered(blocks: map<nat, nat>): set<nat>
  {
    set a, p | a in blocks && p in BlockPages(a, blocks[a]) :: p
  }

  ghost predicate LiveBlock(b: State, a: nat, k: nat)
  {
    k <= MAX_ORDERS && a < |b.meta| && Aligned(a, k) && b.meta[a].order == k
    && forall p :: p in BlockPages(a, k) ==> p < |b.meta|
  }

  ghost predicate BlocksDisjoint(blocks: map<nat, nat>)
  {
    forall a, c :: a in blocks && c in blocks && a != c ==> BlockPages(a, blocks[a]) !! BlockPages(c, blocks[c])
  }

  /** The invariant of every run: canonical free lists, and the metadata of each live block
      records its order. */
  ghost predicate Inv(b: State, blocks: map<nat, nat>)
  {
    && Tiled(b, Covered(blocks)) && BlocksDisjoint(blocks)
    && (forall a :: a in blocks ==> LiveBlock(b, a, blocks[a]))
    && (CanGrow(b) || |b.meta| == b.heapEnd + START_PAGES - 1)
  }

  lemma InvInHeap(b: State, blocks: map<nat, nat>)
    requires Inv(b, blocks)
    ensures InHeap(b)
    ensures forall p :: p in Covered(blocks) ==> p < |b.meta|
    ensures forall a :: a in blocks ==> a in Covered(blocks)
  {
    forall a | a in blocks ensures a in Covered(blocks) { BlockPagesAre(a, blocks[a]); }
  }

  lemma AlignedBlockInHeap(a: nat, k: nat, pages: nat)
    requires Aligned(a, k) && k <= MAX_ORDERS && a < pages && pages % START_PAGES == 0
    ensures forall p :: p in BlockPages(a, k) ==> p < pages
  {
    BlockPagesAre(a, k);
    Pow2Values();
    forall p | p in BlockPages(a, k) ensures p < pages {
      SameBlockUp(p, a, k, MAX_ORDERS);
      BelowBlocks(p, MAX_ORDERS, pages / START_PAGES);
      BelowBlocks(a, MAX_ORDERS, pages / START_PAGES);
    }
  }

  lemma CoveredAdd(blocks: map<nat, nat>, a: nat, k: nat)
    requires a !in blocks
    ensures Covered(blocks[a := k]) == Covered(blocks) + BlockPages(a, k)
  {
    var more := blocks[a := k];
    forall p | p in Covered(blocks) ensures p in Covered(more) {
      var c :| c in blocks && p in BlockPages(c, blocks[c]);
      assert c in more && more[c] == blocks[c];
    }
    forall p | p in BlockPages(a, k) ensures p in Covered(more) {
      assert a in more && more[a] == k;
    }
  }

  lemma CoveredRemove(blocks: map<nat, nat>, a: nat)
    requires a in blocks && BlocksDisjoint(blocks)
    ensures Covered(blocks) == Covered(blocks - {a}) + BlockPages(a, blocks[a])
    ensures Covered(blocks - {a}) !! BlockPages(a, blocks[a])
  {
    var rest := blocks - {a};
    CoveredAdd(rest, a, blocks[a]);
    assert rest[a := blocks[a]] == blocks;
  }

  /** What one allocation does to the invariant, to the live blocks and to everyone else's metadata. */
  lemma AllocKeepsInv(b: State, blocks: map<nat, nat>, order: nat)
    requires Inv(b, blocks) && order <= MAX_ORDERS && InHeap(b)
    requires NeedsGrowth(b, order) ==> CanGrow(b)
    ensures var (r, a) := Alloc(b, order);
      && a !in blocks && BlockPages(a, order) !! Covered(blocks)
      && Inv(r, blocks[a := order]) && r.meta[a] == Meta(order, false, false)
      && (forall p :: p in Covered(blocks) ==> p < |r.meta| && r.meta[p] == b.meta[p])
  {
    var live := Covered(blocks);
    InvInHeap(b, blocks);
    var i := FirstFit(b.areas, order);
    var g := if i <= MAX_ORDERS then b else Grow(b);
    var j := if i <= MAX_ORDERS then i else MAX_ORDERS;
    if i > MAX_ORDERS { GrowKeepsTiled(b, live); }
    assert g.areas[j][0] in g.areas[j];
    TakeKeepsTiled(g, live, j, order);
    var (r, a) := Take(g, j, order);
    InvExtend(b, r, blocks, a, order);
  }

  lemma GrowKeepsInv(b: State, blocks: map<nat, nat>)
    requires Inv(b, blocks) && CanGrow(b)
    ensures Inv(Grow(b), blocks) && InHeap(Grow(b))
  {
    InvInHeap(b, blocks);
    GrowKeepsTiled(b, Covered(blocks));
    forall a | a in blocks ensures LiveBlock(Grow(b), a, blocks[a]) { assert LiveBlock(b, a, blocks[a]); }
    InvInHeap(Grow(b), blocks);
  }

  lemma TakeKeepsTiled(b: State, live: set<nat>, i: nat, order: nat)
    requires Tiled(b, live) && order <= i <= MAX_ORDERS && b.areas[i] != [] && b.areas[i][0] < |b.meta|
    ensures var (r, a) := Take(b, i, order);
      && Aligned(a, order) && BlockPages(a, order) !! live
      && Tiled(r, live + BlockPages(a, order)) && r.meta[a] == Meta(order, false, false)
      && (forall p :: p in live && p < |b.meta| ==> r.meta[p] == b.meta[p])
  {
    var a := b.areas[i][0];
    assert a in b.areas[i];
    BlockPagesAre(a, i);
    var removed := ListRemove(b, a, i);
    RemoveKeepsTiled(b, live, a, i);
    SplitKeepsTiled(removed, live, a, i, order);
    var s := Split(removed, a, i, order);
    BlockPagesAre(a, order);
    var held := live + BlockPages(a, order);
    assert a in held && a !in live;
    assert forall k: nat :: k <= MAX_ORDERS ==> a !in s.areas[k];
    forall p | p in BlockPages(a, order) ensures p !in live {
      SameBlockUp(p, a, order, i);
    }
  }

  lemma InvExtend(b: State, r: State, blocks: map<nat, nat>, a: nat, order: nat)
    requires Inv(b, blocks) && Tiled(r, Covered(blocks) + BlockPages(a, order))
    requires CanGrow(r) || |r.meta| == r.heapEnd + START_PAGES - 1
    requires forall p :: p in Covered(blocks) ==> p < |r.meta| && r.meta[p] == b.meta[p]
    requires order <= MAX_ORDERS && a < |r.meta| && r.meta[a].order == order
    requires Aligned(a, order) && BlockPages(a, order) !! Covered(blocks) && |b.meta| <= |r.meta|
    ensures a !in blocks && Inv(r, blocks[a := order])
  {
    InvInHeap(b, blocks);
    BlockPagesAre(a, order);
    CoveredAdd(blocks, a, order);
    DisjointAdd(blocks, a, order);
    LiveAdd(b, r, blocks, a, order);
  }

  lemma LiveAdd(b: State, r: State, blocks: map<nat, nat>, a: nat, order: nat)
    requires (forall c :: c in blocks ==> LiveBlock(b, c, blocks[c]) && c in Covered(blocks)) && |b.meta| <= |r.meta|
    requires forall p :: p in Covered(blocks) ==> p < |b.meta| && r.meta[p] == b.meta[p]
    requires order <= MAX_ORDERS && Aligned(a, order) && a < |r.meta| && r.meta[a].order == order
    requires |r.meta| % START_PAGES == 0
    ensures LiveBlock(r, a, order) && forall c :: c in blocks ==> LiveBlock(r, c, blocks[c])
  {
    AlignedBlockInHeap(a, order, |r.meta|);
    forall c | c in blocks ensures LiveBlock(r, c, blocks[c]) { StaysLive(b, r, c, blocks[c]); }
  }

  lemma StaysLive(b: State, r: State, c: nat, k: nat)
    requires LiveBlock(b, c, k) && |b.meta| <= |r.meta| && r.meta[c] == b.meta[c]
    ensures LiveBlock(r, c, k)
  {
  }

  lemma DisjointAdd(blocks: map<nat, nat>, a: nat, order: nat)
    requires BlocksDisjoint(blocks) && BlockPages(a, order) !! Covered(blocks)
    ensures BlocksDisjoint(blocks[a := order])
  {
    var more := blocks[a := order];
    forall c, d | c in more && d in more && c != d ensures BlockPages(c, more[c]) !! BlockPages(d, more[d]) {
      assert c != a ==> BlockPages(c, more[c]) <= Covered(blocks);
      assert d != a ==> BlockPages(d, more[d]) <= Covered(blocks);
    }
  }

  /** What one free does: the block leaves the live set, nobody else's metadata changes. */
  lemma FreeKeepsInv(b: State, blocks: map<nat, nat>, a: nat)
    requires Inv(b, blocks) && a in blocks
    ensures a < |b.meta| && b.meta[a].order == blocks[a] <= MAX_ORDERS
    ensures Inv(Free(b, a), blocks - {a})
    ensures forall p :: p in Covered(blocks - {a}) ==> p < |b.meta| && Free(b, a).meta[p] == b.meta[p]
  {
    var rest := blocks - {a};
    var live := Covered(rest);
    CoveredRemove(blocks, a);
    InvInHeap(b, blocks);
    BlockPagesAre(a, blocks[a]);
    CoalesceKeepsTiled(b, live, a, blocks[a]);
    InvShrink(b, Free(b, a), blocks, a);
  }

  lemma InvShrink(b: State, r: State, blocks: map<nat, nat>, a: nat)
    requires Inv(b, blocks) && a in blocks && Tiled(r, Covered(blocks - {a}))
    requires |r.meta| == |b.meta| && r.heapEnd == b.heapEnd
    requires forall p :: p in Covered(blocks - {a}) && p < |b.meta| ==> r.meta[p] == b.meta[p]
    ensures Inv(r, blocks - {a})
  {
    var rest := blocks - {a};
    forall c | c in rest ensures LiveBlock(r, c, rest[c]) {
      BlockPagesAre(c, rest[c]);
      assert LiveBlock(b, c, blocks[c]);
    }
  }
}
