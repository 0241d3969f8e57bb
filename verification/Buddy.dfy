/** The buddy allocator as a state machine over free lists and page metadata. BuddyCanon and BuddyRuns prove that which
    blocks are free is determined by which pages are live.

    Pages are numbered from the start of the heap (Blocks.AddressXor relates page numbers
    to the addresses the kernel computes with). */
module Buddy {
  import opened Blocks
  import opened Seqs

  const START_PAGES: nat := 4096

  datatype Meta = Meta(order: nat, isFree: bool, isSlab: bool)

  /** `areas[k]` is the free list of order `k`, head first; `heapEnd` is `current_heap_end` in pages. */
  datatype State = State(areas: seq<seq<nat>>, meta: seq<Meta>, heapEnd: nat)

  // ---- operations -------------------------------------------------------------------

  predicate Shape(b: State)
  {
    |b.areas| == MAX_ORDERS + 1 && |b.meta| % START_PAGES == 0
  }

  function ListAdd(b: State, a: nat, k: nat): (r: State)
    requires Shape(b) && a < |b.meta| && k <= MAX_ORDERS
    ensures Shape(r) && |r.meta| == |b.meta| && r.heapEnd == b.heapEnd
  {
    b.(areas := b.areas[k := [a] + b.areas[k]], meta := b.meta[a := Meta(k, true, false)])
  }

  function ListRemove(b: State, a: nat, k: nat): (r: State)
    requires Shape(b) && a < |b.meta| && k <= MAX_ORDERS
    ensures Shape(r) && |r.meta| == |b.meta| && r.heapEnd == b.heapEnd
  {
    b.(areas := b.areas[k := Without(b.areas[k], a)], meta := b.meta[a := b.meta[a].(isFree := false)])
  }

  /** `init_buddy`: one free block of order 12. */
  function Init(): (b: State)
    ensures Shape(b)
  {
    var zero := State(seq(MAX_ORDERS + 1, _ => []), seq(START_PAGES, _ => Meta(0, false, false)), START_PAGES);
    ListAdd(zero, 0, MAX_ORDERS)
  }

  /** The smallest order from `i` up with a nonempty list, or 13 when there is none. */
  function FirstFit(areas: seq<seq<nat>>, i: nat): (j: nat)
    requires |areas| == MAX_ORDERS + 1 && i <= MAX_ORDERS + 1
    ensures i <= j <= MAX_ORDERS + 1
    ensures j <= MAX_ORDERS ==> areas[j] != []
    ensures forall k :: i <= k < j ==> areas[k] == []
    decreases MAX_ORDERS + 1 - i
  {
    if i > MAX_ORDERS || areas[i] != [] then i else FirstFit(areas, i + 1)
  }

  /** Halve the removed block of order `i` down to `order`, listing each upper half. */
  function Split(b: State, a: nat, i: nat, order: nat): (r: State)
    requires Shape(b) && a < |b.meta| && order <= i <= MAX_ORDERS
    ensures Shape(r) && |r.meta| == |b.meta| && r.heapEnd == b.heapEnd
    decreases i
  {
    if i == order then b
    else
      FlipInHeap(a, i - 1, |b.meta|);
      Split(ListAdd(b, FlipBit(a, i - 1), i - 1), a, i - 1, order)
  }

  /** Remove the head of list `i`, split it and mark the rest allocated. */
  function Take(b: State, i: nat, order: nat): (r: (State, nat))
    requires Shape(b) && order <= i <= MAX_ORDERS && b.areas[i] != [] && b.areas[i][0] < |b.meta|
    ensures Shape(r.0) && |r.0.meta| == |b.meta| && r.0.heapEnd == b.heapEnd
    ensures r.1 == b.areas[i][0]
  {
    var a := b.areas[i][0];
    var s := Split(ListRemove(b, a, i), a, i, order);
    (s.(meta := s.meta[a := Meta(order, false, false)]), a)
  }

  /** The growth path: a new order-12 block at `heapEnd`. The end then moves by START_PAGES
      bytes, which is one page. */
  function Grow(b: State): (r: State)
    requires |b.areas| == MAX_ORDERS + 1 && b.heapEnd <= |b.meta|
  {
    var meta := b.meta[..b.heapEnd] + seq(START_PAGES, _ => Meta(MAX_ORDERS, false, false));
    b.(areas := b.areas[MAX_ORDERS := [b.heapEnd] + b.areas[MAX_ORDERS]],
       meta := meta[b.heapEnd := Meta(MAX_ORDERS, true, false)],
       heapEnd := b.heapEnd + 1)
  }

  predicate NeedsGrowth(b: State, order: nat)
    requires Shape(b) && order <= MAX_ORDERS
  {
    FirstFit(b.areas, order) > MAX_ORDERS
  }

  ghost predicate InHeap(b: State)
  {
    forall k, a :: 0 <= k < |b.areas| && a in b.areas[k] ==> a < |b.meta|
  }

  /** A growth is sound only while the recorded heap end is the end of the managed pages. */
  predicate CanGrow(b: State)
  {
    b.heapEnd == |b.meta|
  }

  function Alloc(b: State, order: nat): (r: (State, nat))
    requires Shape(b) && InHeap(b) && order <= MAX_ORDERS
    requires NeedsGrowth(b, order) ==> CanGrow(b)
    ensures Shape(r.0) && r.1 < |r.0.meta|
  {
    var i := FirstFit(b.areas, order);
    if i <= MAX_ORDERS then assert b.areas[i][0] in b.areas[i]; Take(b, i, order) else Take(Grow(b), MAX_ORDERS, order)
  }

  /** Merge upwards while the buddy is free at the same order, then list the result. */
  function Coalesce(b: State, a: nat, i: nat): (r: State)
    requires Shape(b) && a < |b.meta| && i <= MAX_ORDERS
    ensures Shape(r) && |r.meta| == |b.meta| && r.heapEnd == b.heapEnd
    decreases MAX_ORDERS - i
  {
    if i == MAX_ORDERS then ListAdd(b, a, i)
    else
      FlipInHeap(a, i, |b.meta|);
      var f := FlipBit(a, i);
      if b.meta[f].isFree && b.meta[f].order == i then
        Coalesce(ListRemove(b, f, i), if f < a then f else a, i + 1)
      else ListAdd(b, a, i)
  }

  function Free(b: State, a: nat): (r: State)
    requires Shape(b) && a < |b.meta| && b.meta[a].order <= MAX_ORDERS
    ensures Shape(r) && |r.meta| == |b.meta| && r.heapEnd == b.heapEnd
  {
    Coalesce(b, a, b.meta[a].order)
  }

  lemma {:induction false} FlipHigh(a: nat, k: nat, j: nat)
    requires k < j
    ensures BlockOf(FlipBit(a, k), j) == BlockOf(a, j)
    decreases k
  {
    if k > 0 { FlipHigh(a / 2, k - 1, j - 1); }
  }

  lemma {:induction false} BelowBlocks(p: nat, k: nat, n: nat)
    ensures p < Pow2(k) * n <==> BlockOf(p, k) < n
    decreases k
  {
    if k > 0 {
      BelowBlocks(p / 2, k - 1, n);
      assert Pow2(k) * n == 2 * (Pow2(k - 1) * n);
    }
  }

  lemma FlipInHeap(a: nat, k: nat, pages: nat)
    requires a < pages && k < MAX_ORDERS && pages % START_PAGES == 0
    ensures FlipBit(a, k) < pages
  {
    FlipHigh(a, k, MAX_ORDERS);
    Pow2Values();
    BelowBlocks(a, MAX_ORDERS, pages / START_PAGES);
    BelowBlocks(FlipBit(a, k), MAX_ORDERS, pages / START_PAGES);
  }
}
