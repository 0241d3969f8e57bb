/** The area lists as code: `vm_add_to_list`, `vm_remove_from_list` and their `mmap` twins on linked nodes. */
module AreaList {
  import opened Areas

  class Area {
    var base: nat
    var size: nat
    var next: Area?
    var prev: Area?

    constructor (size: nat)
      ensures this.size == size && next == null && prev == null
    {
      this.base, this.size, next, prev := 0, size, null, null;
    }
  }

  /** From `head`, `next` visits exactly `areas`, `prev` points back, and no node occurs twice. */
  ghost predicate Linked(head: Area?, areas: seq<Area>)
    reads areas`next, areas`prev
  {
    && head == (if areas == [] then null else areas[0]) && Distinct(areas)
    && (forall i :: 0 <= i < |areas| - 1 ==> areas[i].next == areas[i + 1])
    && (forall i :: 1 <= i < |areas| ==> areas[i].prev == areas[i - 1])
    && (areas != [] ==> areas[|areas| - 1].next == null && areas[0].prev == null)
  }

  /** The address ranges of the nodes, in list order. */
  ghost predicate Shows(areas: seq<Area>, spans: seq<Span>)
    reads areas`base, areas`size
  {
    |spans| == |areas| && forall i: nat :: i < |areas| ==> spans[i] == Span(areas[i].base, areas[i].size)
  }

  ghost predicate Distinct(areas: seq<Area>)
  {
    forall i: nat, j: nat :: i < j < |areas| ==> areas[i] != areas[j]
  }

  /** The list with `i` put before position `k`. */
  ghost function Put(areas: seq<Area>, k: nat, i: Area): (r: seq<Area>)
    requires k <= |areas|
    ensures |r| == |areas| + 1 && r[k] == i
    ensures forall j :: 0 <= j < k ==> r[j] == areas[j]
    ensures forall j :: k < j < |r| ==> r[j] == areas[j - 1]
  {
    areas[..k] + [i] + areas[k..]
  }

  /** The list without position `k`. */
  ghost function Cut(areas: seq<Area>, k: nat): (r: seq<Area>)
    requires k < |areas|
    ensures |r| == |areas| - 1
    ensures forall j :: 0 <= j < k ==> r[j] == areas[j]
    ensures forall j :: k <= j < |r| ==> r[j] == areas[j + 1]
  {
    areas[..k] + areas[k + 1..]
  }

  lemma PutDistinct(areas: seq<Area>, k: nat, i: Area)
    requires Distinct(areas) && k <= |areas| && i !in areas
    ensures Distinct(Put(areas, k, i))
  {
  }

  lemma CutDistinct(areas: seq<Area>, k: nat)
    requires Distinct(areas) && k < |areas|
    ensures Distinct(Cut(areas, k)) && areas[k] !in Cut(areas, k)
  {
  }

  lemma FirstIsSlot(down: bool, list: seq<Span>, n: nat, k: nat)
    requires 0 < k <= |list| && (k < |list| ==> Fits(down, list[k - 1], n, list[k]))
    requires forall j: nat :: 1 <= j < k ==> !Fits(down, list[j - 1], n, list[j])
    ensures Slot(down, list, n, 1) == k
  {
    var s := Slot(down, list, n, 1);
    assert s <= k && k <= s;
  }

  /** Where a new area goes when there is room: to the start address, or right behind its predecessor at the first gap. */
  ghost predicate FirstFit(down: bool, start: nat, list: seq<Span>, n: nat, k: nat, a: Span)
  {
    if list == [] then k == 0 && a.base == start
    else 0 < start < TOP && Ok(down, start, list) && Words(list) && n < TOP && Room(down, start, list, n) ==>
      FirstGap(down, list, n, k) && Adjoins(down, list[k - 1], a)
  }

  lemma SlotIsFirstFit(down: bool, start: nat, list: seq<Span>, n: nat, k: nat)
    requires list != [] && k == Slot(down, list, n, 1)
    ensures FirstFit(down, start, list, n, k, Span(End(down, list[k - 1]), n))
  {
    if 0 < start < TOP && Ok(down, start, list) && Words(list) && n < TOP && Room(down, start, list, n) {
      var j := AddIsFirstFit(down, start, list, n);
      assert Add(down, start, list, n)[k] == Span(End(down, list[k - 1]), n);
    }
  }

  lemma ShowsHook(areas: seq<Area>, i: Area, k: nat, spans: seq<Span>)
    requires k <= |areas| && Shows(areas, spans)
    ensures Shows(Put(areas, k, i), spans[..k] + [Span(i.base, i.size)] + spans[k..])
  {
  }

  lemma ShowsUnhook(areas: seq<Area>, k: nat, spans: seq<Span>)
    requires k < |areas| && Shows(areas, spans)
    ensures Shows(Cut(areas, k), Areas.Remove(spans, k))
  {
  }

  class Heads {
    const down: bool
    const start: nat
    var head: Area?
    ghost var areas: seq<Area>
    /** The address ranges of the list, in order. */
    ghost var spans: seq<Span>

    ghost predicate Valid()
      reads this, areas
    {
      Linked(head, areas) && Shows(areas, spans)
    }

    constructor (down: bool, start: nat)
      ensures this.down == down && this.start == start && Valid() && areas == [] && spans == []
    {
      this.down, this.start, head, areas, spans := down, start, null, [], [];
    }

    /** The pointer writes that put `i` between two neighbours, or at the end. */
    method Hook(i: Area, ghost k: nat, current: Area, next: Area?)
      requires Linked(head, areas) && i !in areas && 0 < k <= |areas| && current == areas[k - 1] && next == current.next
      modifies this`areas, i`next, i`prev, areas`next, areas`prev
      ensures Linked(head, areas) && areas == Put(old(areas), k, i)
    {
      PutDistinct(areas, k, i);
      assert next == if k < |areas| then areas[k] else null;
      i.next := next;
      i.prev := current;
      current.next := i;
      if next != null {
        next.prev := i;
      }
      areas := Put(areas, k, i);
    }

    /** The search: the last node before the gap, and the node after it. */
    method Search(n: nat) returns (current: Area, next: Area?, ghost k: nat)
      requires Valid() && head != null
      ensures 0 < k <= |areas| && current == areas[k - 1] && next == current.next && k == Slot(down, spans, n, 1)
    {
      current, next, k := head, head.next, 1;
      while next != null && !Fits(down, Span(current.base, current.size), n, Span(next.base, next.size))
        invariant 0 < k <= |areas| && current == areas[k - 1] && next == current.next
        invariant forall j: nat :: 1 <= j < k ==> !Fits(down, spans[j - 1], n, spans[j])
        decreases |areas| - k
      {
        current, next := next, next.next;
        k := k + 1;
      }
      FirstIsSlot(down, spans, n, k);
    }

    /** Puts `i` into the first gap that passes the test, or at the end, and gives it its address. */
    method Add(i: Area) returns (ghost k: nat)
      requires Valid() && i !in areas
      modifies this`head, this`areas, this`spans, i`base, i`next, i`prev, areas`next, areas`prev
      ensures Valid() && k <= |old(areas)| && areas == Put(old(areas), k, i)
      ensures spans == Areas.Add(down, start, old(spans), i.size)
      ensures FirstFit(down, start, old(spans), i.size, k, Span(i.base, i.size))
    {
      if head == null {
        k := 0;
        PlaceFirst(i);
      } else {
        var current, next;
        current, next, k := Search(i.size);
        assert spans != [] && |spans| == |areas|;
        SlotIsFirstFit(down, start, spans, i.size, k);
        Place(i, k, current, next);
      }
    }

    /** The first area goes to the start address. */
    method PlaceFirst(i: Area)
      requires Valid() && head == null
      modifies this`head, this`areas, this`spans, i`base, i`next, i`prev
      ensures Valid() && old(areas) == [] && areas == [i] && old(spans) == [] && spans == [Span(start, i.size)]
    {
      i.base, i.prev, i.next := start, null, null;
      head, areas, spans := i, [i], [Span(start, i.size)];
    }

    /** Gives `i` the address after its new neighbour and hooks it in. */
    method Place(i: Area, ghost k: nat, current: Area, next: Area?)
      requires Valid() && i !in areas && 0 < k <= |areas| && current == areas[k - 1] && next == current.next
      modifies this`areas, this`spans, i`base, i`next, i`prev, areas`next, areas`prev
      ensures Valid() && areas == Put(old(areas), k, i)
      ensures spans == old(spans[..k]) + [Span(End(down, old(spans)[k - 1]), i.size)] + old(spans[k..])
    {
      i.base := End(down, Span(current.base, current.size));
      assert Shows(areas, spans);
      ShowsHook(areas, i, k, spans);
      spans := spans[..k] + [Span(i.base, i.size)] + spans[k..];
      ghost var all := Put(areas, k, i);
      assert Shows(all, spans);
      Hook(i, k, current, next);
    }

    /** The pointer writes that take `i` from between its neighbours. */
    method Unhook(i: Area, ghost k: nat)
      requires Linked(head, areas) && k < |areas| && i == areas[k]
      modifies this`head, this`areas, areas`next, areas`prev
      ensures Linked(head, areas) && areas == Cut(old(areas), k) && i.next == null && i.prev == null
    {
      CutDistinct(areas, k);
      if head == i { head := i.next; }
      Bypass(i, areas, k);
      Loosen(i, head, Cut(areas, k));
      areas := Cut(areas, k);
    }

    /** Takes `i` out of the list. */
    method Remove(i: Area) returns (ghost k: nat)
      requires Valid() && i in areas
      modifies this`head, this`areas, this`spans, areas`next, areas`prev
      ensures Valid() && k < |old(areas)| && i == old(areas)[k] && areas == Cut(old(areas), k)
      ensures spans == Areas.Remove(old(spans), k) && i.next == null && i.prev == null
    {
      k :| k < |areas| && areas[k] == i;
      ShowsUnhook(areas, k, spans);
      spans := Areas.Remove(spans, k);
      Unhook(i, k);
    }
  }

  /** Link the neighbours of `i` to each other. */
  method Bypass(i: Area, ghost areas: seq<Area>, ghost k: nat)
    requires k < |areas| && i == areas[k] && Linked(areas[0], areas)
    modifies areas`next, areas`prev
    ensures Linked(if |areas| == 1 then null else if k == 0 then areas[1] else areas[0], Cut(areas, k))
  {
    CutDistinct(areas, k);
    assert i.prev == if k == 0 then null else areas[k - 1];
    assert i.next == if k == |areas| - 1 then null else areas[k + 1];
    if i.next != null { i.next.prev := i.prev; }
    if i.prev != null { i.prev.next := i.next; }
  }

  method Loosen(i: Area, ghost head: Area?, ghost rest: seq<Area>)
    requires Linked(head, rest) && i !in rest
    modifies i`next, i`prev
    ensures Linked(head, rest) && i.next == null && i.prev == null
  {
    i.next := null;
    i.prev := null;
  }
}
