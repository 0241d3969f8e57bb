/** Virtual-area lists of mm/vmalloc.c and mm/mmap.c: first fit between neighbours, in unsigned 64-bit arithmetic.
    `vmalloc` areas grow upwards from their base, `mmap` areas downwards, so one description serves both. */
module Areas {

  const TOP: nat := 0x1_0000_0000_0000_0000
  const VMALLOC_START: nat := 0xFFFF_C000_0000_0000
  const MMAP_START: nat := 0x7000_0000_0000

  function Wrap(x: int): (r: nat)
    ensures r < TOP && (0 <= x < TOP ==> r == x)
  {
    x % TOP
  }

  datatype Span = Span(base: nat, size: nat)

  /** Where the neighbour of an area may begin. */
  function End(down: bool, a: Span): nat
  {
    if down then Wrap(a.base - a.size) else Wrap(a.base + a.size)
  }

  /** The code's test for a gap of `n` bytes between two neighbours. */
  predicate Fits(down: bool, a: Span, n: nat, b: Span)
  {
    if down then Wrap(a.base - a.size - n) >= b.base else Wrap(a.base + a.size + n) <= b.base
  }

  /** The first position after the head whose gap passes the test, or the end of the list. */
  function Slot(down: bool, list: seq<Span>, n: nat, from: nat): (k: nat)
    requires 0 < from <= |list|
    ensures from <= k <= |list| && (k < |list| ==> Fits(down, list[k - 1], n, list[k]))
    ensures forall j: nat :: from <= j < k ==> !Fits(down, list[j - 1], n, list[j])
    decreases |list| - from
  {
    if from == |list| || Fits(down, list[from - 1], n, list[from]) then from else Slot(down, list, n, from + 1)
  }

  /** `vm_add_to_list` and `mmap_add_to_list`. */
  function Add(down: bool, start: nat, list: seq<Span>, n: nat): seq<Span>
  {
    if list == [] then [Span(start, n)]
    else
      var k := Slot(down, list, n, 1);
      list[..k] + [Span(End(down, list[k - 1]), n)] + list[k..]
  }

  function Remove(list: seq<Span>, k: nat): seq<Span>
    requires k < |list|
  {
    list[..k] + list[k + 1..]
  }

  // ---- sorted and disjoint ----------------------------------------------------------------------------------

  /** First and one-past-last address. */
  function Low(down: bool, a: Span): int { if down then a.base - a.size else a.base }
  function High(down: bool, a: Span): int { if down then a.base else a.base + a.size }

  /** An area lies inside the address space, on its side of the start address. */
  ghost predicate Inside(down: bool, start: nat, a: Span)
  {
    if down then 0 <= Low(down, a) && a.base <= start else start <= a.base && High(down, a) <= TOP
  }

  /** In list order, `a` ends before `b` begins. */
  ghost predicate Before(down: bool, a: Span, b: Span)
  {
    if down then High(down, b) <= Low(down, a) else High(down, a) <= Low(down, b)
  }

  ghost predicate Ok(down: bool, start: nat, list: seq<Span>)
  {
    && (forall k: nat :: k < |list| ==> Inside(down, start, list[k]))
    && (forall j: nat, k: nat :: j < k < |list| ==> Before(down, list[j], list[k]))
  }

  /** Base addresses are 64-bit words. */
  ghost predicate Words(list: seq<Span>)
  {
    forall k: nat :: k < |list| ==> list[k].base < TOP
  }

  /** Somewhere there is room: in a gap, or beyond the last area. */
  ghost predicate Room(down: bool, start: nat, list: seq<Span>, n: nat)
  {
    if list == [] then (if down then n <= start else start + n <= TOP)
    else
      || (exists k: nat :: 0 < k < |list| && Gap(down, list, k) >= n)
      || (EndFits(down, list[|list| - 1], n) && (ToTheTop(down, list[|list| - 1], n) ==> !EmptyEnd(down, list)))
  }

  /** The new area would end at the very top of the address space. */
  ghost predicate ToTheTop(down: bool, a: Span, n: nat) { !down && High(down, a) + n == TOP }

  /** The last area is empty and adjoins the one before it. Their gap test passes when the sum wraps to zero. */
  ghost predicate EmptyEnd(down: bool, list: seq<Span>)
  {
    |list| > 1 && High(down, list[|list| - 2]) == High(down, list[|list| - 1])
  }

  /** There is room beyond an area; an end at the very top of the address space would wrap to zero. */
  ghost predicate EndFits(down: bool, a: Span, n: nat)
  {
    if down then n <= Low(down, a) else High(down, a) < TOP && High(down, a) + n <= TOP
  }

  /** Free bytes before the k-th area. */
  function Gap(down: bool, list: seq<Span>, k: nat): int
    requires 0 < k < |list|
  {
    if down then Low(down, list[k - 1]) - High(down, list[k]) else Low(down, list[k]) - High(down, list[k - 1])
  }

  /** The wrapping test is the real one as long as the address arithmetic does not wrap, and passes when it does. */
  lemma FitsMeans(down: bool, start: nat, list: seq<Span>, n: nat, k: nat)
    requires start < TOP && Ok(down, start, list) && Words(list) && n < TOP && 0 < k < |list|
    ensures Fits(down, list[k - 1], n, list[k]) <==>
      Gap(down, list, k) >= n || (if down then Low(down, list[k - 1]) < n else High(down, list[k - 1]) + n >= TOP)
    ensures Gap(down, list, k) >= n ==> if down then Low(down, list[k - 1]) >= n else High(down, list[k - 1]) + n < TOP
  {
    var a, b := list[k - 1], list[k];
    assert Inside(down, start, a) && Inside(down, start, b) && Before(down, a, b);
    if down {
      assert a.base - a.size < n ==> Wrap(a.base - a.size - n) == a.base - a.size - n + TOP;
    } else {
      assert a.base + a.size + n >= TOP ==> Wrap(a.base + a.size + n) == a.base + a.size + n - TOP;
    }
  }

  /** Inserting between neighbours. */
  lemma InsertOk(down: bool, start: nat, list: seq<Span>, k: nat, a: Span)
    requires Ok(down, start, list) && 0 < k <= |list| && Inside(down, start, a)
    requires Before(down, list[k - 1], a) && (k < |list| ==> Before(down, a, list[k]))
    ensures Ok(down, start, list[..k] + [a] + list[k..])
  {
    var r := list[..k] + [a] + list[k..];
    forall i: nat, j: nat | i < j < |r| ensures Before(down, r[i], r[j]) {
      if j < k {
        assert Before(down, list[i], list[j]);
      } else if j == k {
        assert Inside(down, start, list[k - 1]) && (i < k - 1 ==> Before(down, list[i], list[k - 1]));
      } else if i == k {
        assert Inside(down, start, list[k]) && (k < j - 1 ==> Before(down, list[k], list[j - 1]));
      } else {
        assert Before(down, list[if i < k then i else i - 1], list[j - 1]);
      }
    }
    forall i: nat | i < |r| ensures Inside(down, start, r[i]) {
      assert r[i] == if i < k then list[i] else if i == k then a else list[i - 1];
    }
  }

  lemma RemoveOk(down: bool, start: nat, list: seq<Span>, k: nat)
    requires Ok(down, start, list) && k < |list|
    ensures Ok(down, start, Remove(list, k))
  {
    var r := Remove(list, k);
    assert forall i: nat :: i < |r| ==> r[i] == list[if i < k then i else i + 1];
  }

  /** Areas further on in the list lie further from the start. */
  lemma Further(down: bool, start: nat, list: seq<Span>, j: nat, k: nat)
    requires Ok(down, start, list) && Words(list) && j <= k < |list|
    ensures if down then Low(down, list[k]) <= Low(down, list[j]) else High(down, list[j]) <= High(down, list[k])
  {
    assert Inside(down, start, list[k]) && (j < k ==> Before(down, list[j], list[k]));
  }

  /** With room, the gap that passes the test first is a real one. */
  lemma FirstGapIsReal(down: bool, start: nat, list: seq<Span>, n: nat, k: nat)
    requires 0 < start < TOP && Ok(down, start, list) && Words(list) && n < TOP && Room(down, start, list, n)
    requires 0 < k < |list| && Fits(down, list[k - 1], n, list[k])
    requires forall j: nat :: 1 <= j < k ==> !Fits(down, list[j - 1], n, list[j])
    ensures Gap(down, list, k) >= n
  {
    FitsMeans(down, start, list, n, k);
    Further(down, start, list, k - 1, |list| - 2);
    Further(down, start, list, |list| - 2, |list| - 1);
    if Gap(down, list, k) < n {
      forall j: nat | 0 < j < |list| ensures Gap(down, list, j) < n {
        FitsMeans(down, start, list, n, j);
        if k < j { Further(down, start, list, k - 1, j - 1); }
      }
    }
  }

  /** With room but no gap, the end of the list has it. */
  lemma EndHasRoom(down: bool, start: nat, list: seq<Span>, n: nat)
    requires 0 < start < TOP && Ok(down, start, list) && Words(list) && list != [] && n < TOP && Room(down, start, list, n)
    requires forall j: nat :: 1 <= j < |list| ==> !Fits(down, list[j - 1], n, list[j])
    ensures EndFits(down, list[|list| - 1], n)
  {
    forall j: nat | 0 < j < |list| ensures Gap(down, list, j) < n { FitsMeans(down, start, list, n, j); }
  }

  lemma AddWithRoom(down: bool, start: nat, list: seq<Span>, n: nat)
    requires 0 < start < TOP && Ok(down, start, list) && Words(list) && list != [] && n < TOP && Room(down, start, list, n)
    ensures Ok(down, start, Add(down, start, list, n))
  {
    var k := Slot(down, list, n, 1);
    if k < |list| {
      FirstGapIsReal(down, start, list, n, k);
      GapTakes(down, start, list, n, k);
    } else {
      EndHasRoom(down, start, list, n);
      EndTakes(down, start, list[k - 1], n);
    }
    InsertOk(down, start, list, k, Span(End(down, list[k - 1]), n));
  }

  lemma GapTakes(down: bool, start: nat, list: seq<Span>, n: nat, k: nat)
    requires 0 < start < TOP && Ok(down, start, list) && Words(list) && 0 < k < |list| && Gap(down, list, k) >= n
    ensures var a := Span(End(down, list[k - 1]), n);
      Inside(down, start, a) && Before(down, list[k - 1], a) && Before(down, a, list[k])
  {
    assert Inside(down, start, list[k - 1]) && Inside(down, start, list[k]) && list[k].base < TOP;
  }

  lemma EndTakes(down: bool, start: nat, last: Span, n: nat)
    requires 0 < start < TOP && Inside(down, start, last) && EndFits(down, last, n)
    ensures var a := Span(End(down, last), n); Inside(down, start, a) && Before(down, last, a)
  {
  }

  /** Without room, the test passes only where the arithmetic wrapped, and the area runs into its neighbour. */
  lemma WrappedGap(down: bool, start: nat, list: seq<Span>, n: nat, k: nat)
    requires 0 < start < TOP && Ok(down, start, list) && Words(list) && n < TOP && 0 < k < |list|
    requires Fits(down, list[k - 1], n, list[k]) && Gap(down, list, k) < n
    ensures var a := Span(End(down, list[k - 1]), n); !Inside(down, start, a) || !Before(down, a, list[k])
  {
    FitsMeans(down, start, list, n, k);
    assert Inside(down, start, list[k - 1]) && Inside(down, start, list[k]) && Before(down, list[k - 1], list[k]);
  }

  lemma AddWithoutRoom(down: bool, start: nat, list: seq<Span>, n: nat)
    requires 0 < start < TOP && Ok(down, start, list) && Words(list) && list != [] && n < TOP && !Room(down, start, list, n)
    ensures !Ok(down, start, Add(down, start, list, n))
  {
    var k := Slot(down, list, n, 1);
    var r := Add(down, start, list, n);
    assert r[k] == Span(End(down, list[k - 1]), n);
    if k < |list| {
      WrappedGap(down, start, list, n, k);
      assert r[k + 1] == list[k];
      assert !Inside(down, start, r[k]) || !Before(down, r[k], r[k + 1]);
    } else {
      assert Inside(down, start, list[k - 1]);
      NoTestPassed(down, start, list, n);
      NoRoomAtEnd(down, start, list[k - 1], n);
      assert !Inside(down, start, r[k]);
    }
  }

  /** Where no test passed, the end is the only place, and an empty last area is not in the way. */
  lemma NoTestPassed(down: bool, start: nat, list: seq<Span>, n: nat)
    requires start < TOP && Ok(down, start, list) && Words(list) && list != [] && n < TOP && !Room(down, start, list, n)
    requires forall j: nat :: 1 <= j < |list| ==> !Fits(down, list[j - 1], n, list[j])
    ensures !EndFits(down, list[|list| - 1], n)
  {
    if |list| > 1 { FitsMeans(down, start, list, n, |list| - 1); }
  }

  lemma NoRoomAtEnd(down: bool, start: nat, a: Span, n: nat)
    requires 0 < start < TOP && Inside(down, start, a) && n < TOP && !EndFits(down, a, n)
    ensures !Inside(down, start, Span(End(down, a), n))
  {
  }

  /** Adding an area keeps the list sorted, disjoint and inside the address space if and only if there is room. */
  lemma AddIff(down: bool, start: nat, list: seq<Span>, n: nat)
    requires 0 < start < TOP && Ok(down, start, list) && Words(list) && n < TOP
    ensures Ok(down, start, Add(down, start, list, n)) <==> Room(down, start, list, n)
  {
    if list == [] {
      assert Add(down, start, list, n)[0] == Span(start, n);
    } else if Room(down, start, list, n) {
      AddWithRoom(down, start, list, n);
    } else {
      AddWithoutRoom(down, start, list, n);
    }
  }

  /** Position `k` is the first gap of `n` bytes, or the end of the list when there is none. */
  ghost predicate FirstGap(down: bool, list: seq<Span>, n: nat, k: nat)
  {
    && 0 < k <= |list| && (k < |list| ==> Gap(down, list, k) >= n)
    && (forall j: nat :: 0 < j < k ==> Gap(down, list, j) < n)
  }

  /** The area begins exactly where its predecessor ends. */
  ghost predicate Adjoins(down: bool, a: Span, b: Span)
  {
    if down then High(down, b) == Low(down, a) else Low(down, b) == High(down, a)
  }

  /** First fit: with room, the new area goes into the first gap that holds it, or to the end when none does, right behind
      its predecessor; the others stay as they were. */
  lemma AddIsFirstFit(down: bool, start: nat, list: seq<Span>, n: nat) returns (k: nat)
    requires 0 < start < TOP && Ok(down, start, list) && Words(list) && list != [] && n < TOP && Room(down, start, list, n)
    ensures FirstGap(down, list, n, k) && k == Slot(down, list, n, 1)
    ensures var r := Add(down, start, list, n);
      && |r| == |list| + 1 && r[..k] == list[..k] && r[k + 1..] == list[k..]
      && r[k].size == n && Adjoins(down, list[k - 1], r[k])
  {
    k := Slot(down, list, n, 1);
    NoEarlierGap(down, start, list, n, k);
    if k < |list| {
      FirstGapIsReal(down, start, list, n, k);
      GapEdge(down, start, list, n, k);
    } else {
      EndHasRoom(down, start, list, n);
      EndEdge(down, start, list[k - 1], n);
    }
    Parts(list, k, Span(End(down, list[k - 1]), n));
  }

  lemma Parts(list: seq<Span>, k: nat, a: Span)
    requires k <= |list|
    ensures var r := list[..k] + [a] + list[k..]; |r| == |list| + 1 && r[..k] == list[..k] && r[k] == a && r[k + 1..] == list[k..]
  {
  }

  lemma GapEdge(down: bool, start: nat, list: seq<Span>, n: nat, k: nat)
    requires start < TOP && Ok(down, start, list) && Words(list) && 0 < k < |list|
    ensures Adjoins(down, list[k - 1], Span(End(down, list[k - 1]), n))
  {
    assert Inside(down, start, list[k - 1]) && Inside(down, start, list[k]) && Before(down, list[k - 1], list[k]);
  }

  lemma EndEdge(down: bool, start: nat, last: Span, n: nat)
    requires start < TOP && Inside(down, start, last) && EndFits(down, last, n)
    ensures Adjoins(down, last, Span(End(down, last), n))
  {
  }

  lemma NoEarlierGap(down: bool, start: nat, list: seq<Span>, n: nat, k: nat)
    requires start < TOP && Ok(down, start, list) && Words(list) && n < TOP && 0 < k <= |list|
    requires forall j: nat :: 1 <= j < k ==> !Fits(down, list[j - 1], n, list[j])
    ensures forall j: nat :: 0 < j < k ==> Gap(down, list, j) < n
  {
    forall j: nat | 0 < j < k ensures Gap(down, list, j) < n { FitsMeans(down, start, list, n, j); }
  }

  /** There is one such position. */
  lemma OneFirstGap(down: bool, list: seq<Span>, n: nat, j: nat, k: nat)
    requires FirstGap(down, list, n, j) && FirstGap(down, list, n, k)
    ensures j == k
  {
  }

  /** What sorted and disjoint means for addresses: no address is in two areas. */
  lemma NoSharedAddress(down: bool, start: nat, list: seq<Span>, j: nat, k: nat, x: int)
    requires Ok(down, start, list) && j < |list| && k < |list|
    requires Low(down, list[j]) <= x < High(down, list[j]) && Low(down, list[k]) <= x < High(down, list[k])
    ensures j == k
  {
    assert j < k ==> Before(down, list[j], list[k]);
    assert k < j ==> Before(down, list[k], list[j]);
  }

  // ---- giving up an area by its address ----------------------------------------------------------------------------

  /** `vfree` and `munmap` give up the first area that starts at the address, if there is one. */
  function Find(down: bool, list: seq<Span>, x: int): (k: nat)
    ensures k <= |list| && (k < |list| ==> Low(down, list[k]) == x)
    ensures forall j: nat :: j < k ==> Low(down, list[j]) != x
  {
    if list == [] || Low(down, list[0]) == x then 0 else 1 + Find(down, list[1..], x)
  }

  /** Of two areas that start at the same address one is empty: the first of `vmalloc`'s, the second of `mmap`'s. */
  lemma SameStart(down: bool, start: nat, list: seq<Span>, j: nat, k: nat)
    requires Ok(down, start, list) && j < k < |list| && Low(down, list[j]) == Low(down, list[k])
    ensures (if down then list[k].size else list[j].size) == 0
  {
    assert Before(down, list[j], list[k]);
  }

  /** Giving up an area by its address gives up that area if and only if the one before it does not start there too. */
  lemma FindsItIff(down: bool, start: nat, list: seq<Span>, k: nat)
    requires Ok(down, start, list) && 0 < k < |list|
    ensures Find(down, list, Low(down, list[k])) == k <==> Low(down, list[k - 1]) != Low(down, list[k])
  {
    var f := Find(down, list, Low(down, list[k]));
    if f < k - 1 {
      assert Before(down, list[f], list[k - 1]) && Before(down, list[k - 1], list[k]);
      SameStart(down, start, list, f, k);
    }
  }

  /** What an empty area does: the next area of `vmalloc` gets its address, and giving it up gives up the empty one; an empty
      area of `mmap` gets the address of the one before it, which is given up in its place. */
  lemma EmptyShadows(start: nat, n: nat)
    requires 0 < n <= start < TOP
    ensures var list := Add(false, start, Add(false, start, [], 0), n);
      list == [Span(start, 0), Span(start, n)] && Find(false, list, start) == 0
    ensures var list := Add(true, start, Add(true, start, [], n), 0);
      list == [Span(start, n), Span(start - n, 0)] && Find(true, list, start - n) == 0
  {
    assert Add(false, start, [], 0) == [Span(start, 0)] && Add(true, start, [], n) == [Span(start, n)];
  }

  // ---- runs ---------------------------------------------------------------------------------------------------

  /** A new area of a size, or the k-th area given up. */
  datatype Request = Mapped(size: nat) | Unmapped(k: nat)

  function Granted(down: bool, start: nat, list: seq<Span>, r: Request): seq<Span>
  {
    match r
    case Mapped(size) => Add(down, start, list, size)
    case Unmapped(k) => if k < |list| then Remove(list, k) else list
  }

  /** The list after a run of requests. */
  ghost function Alone(down: bool, start: nat, list: seq<Span>, requests: seq<Request>): seq<Span>
    decreases |requests|
  {
    if requests == [] then list else Alone(down, start, Granted(down, start, list, requests[0]), requests[1..])
  }

  /** Every new area of the run had room. */
  ghost predicate Roomy(down: bool, start: nat, list: seq<Span>, requests: seq<Request>)
    decreases |requests|
  {
    requests != [] ==>
      && (requests[0].Mapped? ==> requests[0].size < TOP && Room(down, start, list, requests[0].size))
      && Roomy(down, start, Granted(down, start, list, requests[0]), requests[1..])
  }

  lemma GrantedOk(down: bool, start: nat, list: seq<Span>, r: Request)
    requires 0 < start < TOP && Ok(down, start, list) && Words(list)
    requires r.Mapped? ==> r.size < TOP && Room(down, start, list, r.size)
    ensures Ok(down, start, Granted(down, start, list, r)) && Words(Granted(down, start, list, r))
  {
    match r {
      case Mapped(size) =>
        AddIff(down, start, list, size);
        AddWords(down, start, list, size);
      case Unmapped(k) =>
        if k < |list| { RemoveOk(down, start, list, k); }
    }
  }

  lemma AddWords(down: bool, start: nat, list: seq<Span>, n: nat)
    requires Words(list) && start < TOP
    ensures Words(Add(down, start, list, n))
  {
    if list != [] {
      var k, r := Slot(down, list, n, 1), Add(down, start, list, n);
      assert forall j: nat :: j < |r| ==> r[j] == if j < k then list[j] else if j == k then r[k] else list[j - 1];
    }
  }

  /** Any run of additions and removals keeps the list sorted, disjoint and inside the address space. */
  lemma {:induction false} AloneOk(down: bool, start: nat, list: seq<Span>, requests: seq<Request>)
    requires 0 < start < TOP && Ok(down, start, list) && Words(list) && Roomy(down, start, list, requests)
    ensures Ok(down, start, Alone(down, start, list, requests)) && Words(Alone(down, start, list, requests))
    decreases |requests|
  {
    if requests != [] {
      GrantedOk(down, start, list, requests[0]);
      AloneOk(down, start, Granted(down, start, list, requests[0]), requests[1..]);
    }
  }

  /** The size `vmalloc` and `mmap` ask for: rounded up to whole pages, in 64-bit arithmetic. */
  function Rounded(size: nat): nat
  {
    Wrap(size + 4095) / 4096 * 4096
  }

  /** Rounding yields whole pages that hold the size, except that it yields zero within 4095 bytes of 2^64. */
  lemma RoundedIsEnoughIff(size: nat)
    requires 0 < size < TOP
    ensures size <= Rounded(size) < size + 4096 <==> size <= TOP - 4096
    ensures Rounded(size) == 0 <==> size > TOP - 4096
  {
  }

  /** From boot, the areas of `vmalloc` stay sorted, disjoint and above their start address. */
  lemma VmallocStaysApart(requests: seq<Request>)
    requires Roomy(false, VMALLOC_START, [], requests)
    ensures Ok(false, VMALLOC_START, Alone(false, VMALLOC_START, [], requests))
  {
    AloneOk(false, VMALLOC_START, [], requests);
  }
}
