/** The buddy allocator of mm/buddy.c: free-list heads, `prev`/`next` words stored in the free
    blocks and a metadata table, all updated in place. */
module BuddyAllocator {
  import opened Blocks
  import opened Seqs
  import opened Links
  import opened Buddy
  import opened BuddyCanon

  /** A listed page is marked free at its list's order. */
  ghost predicate Marked(areas: seq<seq<nat>>, meta: seq<Meta>)
  {
    && |areas| == MAX_ORDERS + 1
    && forall k: nat, a: nat :: k <= MAX_ORDERS && a in areas[k] ==> Marks(meta, a, k)
  }

  ghost predicate Marks(meta: seq<Meta>, a: nat, k: nat)
  {
    a < |meta| && meta[a].isFree && meta[a].order == k
  }

  lemma MarkedApart(areas: seq<seq<nat>>, meta: seq<Meta>)
    requires Marked(areas, meta)
    ensures Apart(areas)
    ensures forall a: nat :: a < |meta| && !meta[a].isFree ==> Unlisted(areas, a)
  {
    forall j: nat, k: nat, x: nat | j < |areas| && k < |areas| && x in areas[j] && x in areas[k] ensures j == k {
      assert Marks(meta, x, j) && Marks(meta, x, k);
    }
    forall a: nat, k: nat | a < |meta| && !meta[a].isFree && k < |areas| ensures a !in areas[k] {
      assert a in areas[k] ==> Marks(meta, a, k);
    }
  }

  lemma AddMarked(areas: seq<seq<nat>>, meta: seq<Meta>, a: nat, k: nat)
    requires Marked(areas, meta) && k <= MAX_ORDERS && a < |meta| && Unlisted(areas, a)
    ensures Marked(areas[k := [a] + areas[k]], meta[a := Meta(k, true, false)])
  {
    var meta' := meta[a := Meta(k, true, false)];
    forall j: nat, x: nat | j <= MAX_ORDERS && x in areas[k := [a] + areas[k]][j] ensures Marks(meta', x, j) {
      if x != a { assert x in areas[j]; assert Marks(meta, x, j); }
    }
  }

  lemma RemoveMarked(areas: seq<seq<nat>>, meta: seq<Meta>, a: nat, k: nat)
    requires Marked(areas, meta) && k <= MAX_ORDERS && a in areas[k] && NoDup(areas[k])
    ensures Marks(meta, a, k)
    ensures Marked(areas[k := Without(areas[k], a)], meta[a := meta[a].(isFree := false)])
  {
    assert Marks(meta, a, k);
    WithoutMembers(areas[k], a);
    var meta' := meta[a := meta[a].(isFree := false)];
    forall j: nat, x: nat | j <= MAX_ORDERS && x in areas[k := Without(areas[k], a)][j] ensures Marks(meta', x, j) {
      assert x in areas[j];
      assert Marks(meta, x, j);
    }
  }

  lemma MarkedElsewhere(areas: seq<seq<nat>>, meta: seq<Meta>, meta': seq<Meta>)
    requires |areas| == MAX_ORDERS + 1 && Marked(areas, meta)
    requires |meta| <= |meta'| && forall k: nat, x: nat :: k <= MAX_ORDERS && x in areas[k] && x < |meta| ==> meta'[x] == meta[x]
    ensures Marked(areas, meta')
  {
    forall k: nat, x: nat | k <= MAX_ORDERS && x in areas[k] ensures Marks(meta', x, k) { assert Marks(meta, x, k); }
  }

  class Allocator {
    var freeAreas: seq<Option<nat>>
    var links: map<nat, Link>
    var metadata: seq<Meta>
    var currentHeapEnd: nat
    ghost var areas: seq<seq<nat>>

    ghost function Model(): State
      reads this
    {
      State(areas, metadata, currentHeapEnd)
    }

    ghost predicate Valid()
      reads this
    {
      Represents(freeAreas, links, areas) && Marked(areas, metadata)
    }

    /** `init_buddy` */
    constructor ()
      ensures Valid() && Model() == Init()
    {
      freeAreas := seq(MAX_ORDERS + 1, _ => None);
      metadata := seq(START_PAGES, _ => Meta(0, false, false));
      currentHeapEnd := START_PAGES;
      links := map[];
      areas := seq(MAX_ORDERS + 1, _ => []);
      new;
      ListAdd(0, MAX_ORDERS);
    }

    method ListAdd(a: nat, k: nat)
      requires Valid() && k <= MAX_ORDERS && a < |metadata| && !metadata[a].isFree
      modifies this
      ensures Valid()
      ensures areas == old(areas)[k := [a] + old(areas)[k]]
      ensures metadata == old(metadata)[a := Meta(k, true, false)]
      ensures currentHeapEnd == old(currentHeapEnd)
    {
      MarkedApart(areas, metadata);
      AddToList(freeAreas, links, areas, a, k);
      AddMarked(areas, metadata, a, k);
      links := links[a := Link(None, freeAreas[k])];
      if freeAreas[k].Some? {
        var h := freeAreas[k].value;
        links := links[h := links[h].(prev := Some(a))];
      }
      freeAreas := freeAreas[k := Some(a)];
      metadata := metadata[a := metadata[a].(isFree := true)];
      metadata := metadata[a := metadata[a].(isSlab := false)];
      metadata := metadata[a := metadata[a].(order := k)];
      areas := areas[k := [a] + areas[k]];
    }

    method ListRemove(a: nat, k: nat)
      requires Valid() && k <= MAX_ORDERS && a in areas[k] && a < |metadata|
      modifies this
      ensures Valid()
      ensures areas == old(areas)[k := Without(old(areas)[k], a)]
      ensures metadata == old(metadata)[a := old(metadata)[a].(isFree := false)]
      ensures currentHeapEnd == old(currentHeapEnd)
    {
      MarkedApart(areas, metadata);
      RemoveMarked(areas, metadata, a, k);
      RemoveFromList(freeAreas, links, areas, a, k);
      var block := links[a];
      if block.prev.Some? {
        links := links[block.prev.value := links[block.prev.value].(next := block.next)];
      } else {
        freeAreas := freeAreas[k := block.next];
      }
      if block.next.Some? {
        links := links[block.next.value := links[block.next.value].(prev := block.prev)];
      }
      metadata := metadata[a := metadata[a].(isFree := false)];
      areas := areas[k := Without(areas[k], a)];
      assert Represents(freeAreas, links, areas);
    }

    /** `buddy_alloc` once a nonempty list has been found: unlink its head, halve it, mark the rest. */
    method TakeBlock(found: nat, order: nat, ghost live: set<nat>) returns (a: nat)
      requires Valid() && Tiled(Model(), live) && order <= found <= MAX_ORDERS && areas[found] != []
      requires areas[found][0] < |metadata|
      modifies this
      ensures Valid() && (Model(), a) == Take(old(Model()), found, order)
    {
      a := freeAreas[found].value;
      assert a in areas[found];
      ghost var start := Model();
      ListRemove(a, found);
      RemoveKeepsTiled(start, live, a, found);
      SplitDown(a, found, order, live);
      BlockPagesAre(a, order);
      LivePageNotListed(Model(), live + BlockPages(a, order), a);
      MarkAllocated(a, order);
    }

    /** The halving loop of `buddy_alloc`. */
    method SplitDown(a: nat, found: nat, order: nat, ghost live: set<nat>)
      requires Valid() && order <= found <= MAX_ORDERS && a < |metadata| && Aligned(a, found) && Clear(live, a, found)
      requires Tiled(Model(), live + BlockPages(a, found))
      modifies this
      ensures Valid() && Model() == Split(old(Model()), a, found, order)
      ensures Aligned(a, order) && Tiled(Model(), live + BlockPages(a, order))
    {
      var i := found;
      while i > order
        invariant order <= i <= found && a < |metadata| && Aligned(a, i) && Clear(live, a, i)
        invariant Valid() && Tiled(Model(), live + BlockPages(a, i))
        invariant Split(Model(), a, i, order) == Split(old(Model()), a, found, order)
      {
        SplitStep(Model(), live, a, i);
        i := i - 1;
        var buddy := FlipBit(a, i);
        ListAdd(buddy, i);
      }
    }

    method SetSlab(a: nat, flag: bool)
      requires Valid() && a < |metadata|
      modifies this`metadata
      ensures Valid() && metadata == old(metadata)[a := old(metadata)[a].(isSlab := flag)]
    {
      ghost var was := metadata;
      metadata := metadata[a := metadata[a].(isSlab := flag)];
      forall k: nat, x: nat | k <= MAX_ORDERS && x in areas[k] ensures Marks(metadata, x, k) {
        assert Marks(was, x, k);
      }
    }

    method MarkAllocated(a: nat, order: nat)
      requires Valid() && a < |metadata| && !metadata[a].isFree
      modifies this`metadata
      ensures Valid() && metadata == old(metadata)[a := Meta(order, false, false)]
    {
      forall k: nat | k <= MAX_ORDERS ensures a !in areas[k] { assert a in areas[k] ==> Marks(metadata, a, k); }
      metadata := metadata[a := metadata[a].(order := order)];
      metadata := metadata[a := metadata[a].(isFree := false)];
      metadata := metadata[a := metadata[a].(isSlab := false)];
      MarkedElsewhere(areas, old(metadata), metadata);
    }

    /** `buddy_alloc`; `blocks` are the blocks held by callers. */
    method Alloc(order: nat, ghost blocks: map<nat, nat>) returns (a: nat)
      requires Valid() && order <= MAX_ORDERS && Inv(Model(), blocks) && InHeap(Model())
      requires NeedsGrowth(Model(), order) ==> CanGrow(Model())
      modifies this
      ensures Valid() && (Model(), a) == Buddy.Alloc(old(Model()), order)
      ensures a !in blocks && Inv(Model(), blocks[a := order])
      decreases if NeedsGrowth(Model(), order) then 1 else 0
    {
      AllocKeepsInv(Model(), blocks, order);
      ghost var live := Covered(blocks);
      var i := order;
      while i <= MAX_ORDERS
        invariant order <= i <= MAX_ORDERS + 1 && FirstFit(areas, i) == FirstFit(areas, order)
        invariant areas == old(areas) && freeAreas == old(freeAreas) && links == old(links)
        invariant metadata == old(metadata) && currentHeapEnd == old(currentHeapEnd)
      {
        if freeAreas[i].Some? {
          assert areas[i][0] in areas[i];
          a := TakeBlock(i, order, live);
          return;
        }
        i := i + 1;
      }
      Extend(blocks);
      a := Alloc(order, blocks);
    }

    /** The growth path of `buddy_alloc`, up to the retry; frame allocation and mapping are not modelled. */
    method Extend(ghost blocks: map<nat, nat>)
      requires Valid() && Inv(Model(), blocks) && CanGrow(Model())
      modifies this
      ensures Valid() && Model() == Grow(old(Model())) && Inv(Model(), blocks) && InHeap(Model())
    {
      GrowKeepsInv(Model(), blocks);
      for i := 0 to START_PAGES
        invariant Valid() && areas == old(areas) && currentHeapEnd == old(currentHeapEnd) == |old(metadata)|
        invariant metadata == old(metadata) + seq(i, _ => Meta(MAX_ORDERS, false, false))
      {
        metadata := metadata + [Meta(MAX_ORDERS, false, false)];
      }
      assert old(metadata)[..currentHeapEnd] == old(metadata);
      ListAdd(currentHeapEnd, MAX_ORDERS);
      currentHeapEnd := currentHeapEnd + 1;
    }

    /** One merge of the loop of `buddy_free`. */
    method Merge(addr: nat, buddy: nat, i: nat, ghost live: set<nat>) returns (lower: nat)
      requires Valid() && i < MAX_ORDERS && addr < |metadata| && Aligned(addr, i) && Clear(live, addr, i)
      requires Tiled(Model(), live + BlockPages(addr, i)) && buddy == FlipBit(addr, i) < |metadata|
      requires metadata[buddy].isFree && metadata[buddy].order == i
      modifies this
      ensures Valid() && |metadata| == old(|metadata|) && lower < |metadata| && Aligned(lower, i + 1) && Clear(live, lower, i + 1)
      ensures Tiled(Model(), live + BlockPages(lower, i + 1))
      ensures Coalesce(Model(), lower, i + 1) == old(Coalesce(Model(), addr, i))
    {
      MergeStep(Model(), live, addr, i);
      ListRemove(buddy, i);
      lower := if buddy < addr then buddy else addr;
    }

    /** The loop of `buddy_free`: it stops at a block of the largest order or at a buddy that is not free as a whole. */
    method MergeUp(a: nat, order: nat, ghost live: set<nat>) returns (addr: nat, i: nat)
      requires Valid() && order <= MAX_ORDERS && a < |metadata| && Aligned(a, order) && Clear(live, a, order)
      requires Tiled(Model(), live + BlockPages(a, order))
      modifies this
      ensures Valid() && i <= MAX_ORDERS && addr < |metadata| && Aligned(addr, i) && Clear(live, addr, i)
      ensures Tiled(Model(), live + BlockPages(addr, i))
      ensures Buddy.ListAdd(Model(), addr, i) == old(Coalesce(Model(), a, order))
    {
      addr, i := a, order;
      while i < MAX_ORDERS
        invariant i <= MAX_ORDERS && addr < |metadata| && Aligned(addr, i) && Clear(live, addr, i)
        invariant Valid() && Tiled(Model(), live + BlockPages(addr, i))
        invariant Coalesce(Model(), addr, i) == old(Coalesce(Model(), a, order))
        decreases MAX_ORDERS - i
      {
        FlipInHeap(addr, i, |metadata|);
        var buddy := FlipBit(addr, i);
        if metadata[buddy].isFree && metadata[buddy].order == i {
          addr := Merge(addr, buddy, i, live);
        } else {
          break;
        }
        i := i + 1;
      }
    }

    /** `buddy_free` of a block some caller holds. */
    method Free(a: nat, ghost blocks: map<nat, nat>)
      requires Valid() && Inv(Model(), blocks) && a in blocks && a < |metadata| && metadata[a].order <= MAX_ORDERS
      modifies this
      ensures Valid() && Model() == Buddy.Free(old(Model()), a)
      ensures Inv(Model(), blocks - {a})
    {
      FreeKeepsInv(Model(), blocks, a);
      ghost var live := Covered(blocks - {a});
      HeldTiled(Model(), blocks, a);
      var addr, i := MergeUp(a, metadata[a].order, live);
      BlockPagesAre(addr, i);
      LivePageNotListed(Model(), live + BlockPages(addr, i), addr);
      ListAdd(addr, i);
    }
  }

  /** A held block about to be freed, as the merging loop finds it. */
  lemma HeldTiled(b: State, blocks: map<nat, nat>, a: nat)
    requires Inv(b, blocks) && a in blocks
    ensures var live := Covered(blocks - {a});
      && blocks[a] <= MAX_ORDERS && a < |b.meta| && b.meta[a].order == blocks[a] && Aligned(a, blocks[a])
      && Clear(live, a, blocks[a]) && Tiled(b, live + BlockPages(a, blocks[a]))
  {
    CoveredRemove(blocks, a);
    BlockPagesAre(a, blocks[a]);
    assert LiveBlock(b, a, blocks[a]);
  }
}
