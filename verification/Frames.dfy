/** The physical frame bitmap of mm/pmm.c. A set bit marks a frame in use. */
module Frames {

  const PAGE_SIZE: nat := 4096

  /** The bitmap covers `total` frames; bit 0 and the bit just past the last frame are always set. */
  ghost predicate Wf(bits: seq<bool>, total: nat)
  {
    0 < total < |bits| && bits[0] && bits[total]
  }

  ghost predicate ClearRun(bits: seq<bool>, start: nat, n: nat)
  {
    start + n <= |bits| && forall j :: start <= j < start + n ==> !bits[j]
  }

  /** `start` is the lowest start of `n` clear frames. */
  ghost predicate LowestRun(bits: seq<bool>, total: nat, start: nat, n: nat)
    requires total < |bits|
  {
    && start + n <= total && ClearRun(bits, start, n)
    && forall s: nat :: s < start ==> !ClearRun(bits, s, n)
  }

  ghost function SetRun(bits: seq<bool>, start: nat, n: nat): (r: seq<bool>)
    requires start + n <= |bits|
    ensures |r| == |bits|
    ensures forall j :: 0 <= j < |bits| ==> r[j] == (bits[j] || start <= j < start + n)
  {
    seq(|bits|, j requires 0 <= j < |bits| => bits[j] || start <= j < start + n)
  }

  // ---- C integers --------------------------------------------------------------------------------------

  /** A 32-bit `int` result, widened to `uint64_t`. */
  function WidenInt(x: int): (r: nat)
    ensures 0 <= x < 0x8000_0000 ==> r == x
  {
    var low := x % 0x1_0000_0000;
    if low < 0x8000_0000 then low else low + 0x1_0000_0000_0000_0000 - 0x1_0000_0000
  }

  /** The address `pmm_alloc_pages` returns for frame `i`: the product is computed in `int`. */
  function RunAddress(i: nat): nat
  {
    WidenInt(i * PAGE_SIZE)
  }

  /** The returned address is that of the frame exactly for frames below 2 GB. */
  lemma RunAddressIff(i: nat)
    requires i < 0x8000_0000
    ensures RunAddress(i) == i * PAGE_SIZE <==> i < 0x8_0000
  {
  }

  class FrameMap {
    var bitmap: array<bool>
    const totalPages: nat

    constructor (bits: seq<bool>, total: nat)
      requires Wf(bits, total)
      ensures Valid() && bitmap[..] == bits && totalPages == total && fresh(bitmap)
    {
      bitmap := new bool[|bits|](i requires 0 <= i < |bits| => bits[i]);
      totalPages := total;
      new;
      assert bitmap[..] == bits;
    }

    ghost predicate Valid()
      reads this, bitmap
    {
      Wf(bitmap[..], totalPages)
    }

    /** `pmm_alloc_page`: the lowest clear frame, or 0. */
    method AllocPage() returns (addr: nat)
      requires Valid()
      modifies bitmap
      ensures Valid()
      ensures addr == 0 ==> bitmap[..] == old(bitmap[..]) && forall j :: 0 <= j < totalPages ==> old(bitmap[j])
      ensures addr != 0 ==>
        && addr % PAGE_SIZE == 0 && LowestRun(old(bitmap[..]), totalPages, addr / PAGE_SIZE, 1)
        && bitmap[..] == SetRun(old(bitmap[..]), addr / PAGE_SIZE, 1)
    {
      var i := 0;
      while i < totalPages
        invariant 0 <= i <= totalPages
        invariant forall j :: 0 <= j < i ==> bitmap[j]
        invariant bitmap[..] == old(bitmap[..])
      {
        if !bitmap[i] {
          forall s: nat | s < i ensures !ClearRun(bitmap[..], s, 1) { assert bitmap[..][s]; }
          bitmap[i] := true;
          return i * PAGE_SIZE;
        }
        i := i + 1;
      }
      return 0;
    }

    /** `pmm_alloc_pages`: `count` is a C `int`, compared with the frame count as unsigned. The scan
        skips past the set bit that ended a run. */
    method AllocPages(count: int) returns (addr: nat, ghost start: nat)
      requires Valid()
      modifies bitmap
      ensures Valid()
      ensures (0 < count && exists s: nat :: s + count <= totalPages && ClearRun(old(bitmap[..]), s, count)) ==>
        && LowestRun(old(bitmap[..]), totalPages, start, count) && addr == RunAddress(start)
        && bitmap[..] == SetRun(old(bitmap[..]), start, count)
      ensures !(0 < count && exists s: nat :: s + count <= totalPages && ClearRun(old(bitmap[..]), s, count)) ==>
        addr == 0 && bitmap[..] == old(bitmap[..])
    {
      start := 0;
      if count == 0 {
        return 0, 0;
      }
      if count < 0 || count > totalPages {
        return 0, 0;
      }
      var i := 0;
      while i <= totalPages
        invariant 0 <= i <= totalPages + 1
        invariant bitmap[..] == old(bitmap[..])
        invariant forall s: nat :: s < i ==> !ClearRun(bitmap[..], s, count)
      {
        if !bitmap[i] {
          var found, j := true, 1;
          while j < count
            invariant 1 <= j <= count && i + j <= totalPages && found
            invariant forall k :: i <= k < i + j ==> !bitmap[k]
            decreases count - j
          {
            if bitmap[i + j] {
              found := false;
              Skip(bitmap[..], i, j, count);
              i := i + j;
              break;
            }
            j := j + 1;
          }
          if found {
            start := i;
            assert ClearRun(bitmap[..], i, count);
            assert LowestRun(bitmap[..], totalPages, i, count);
            Mark(i, count);
            return RunAddress(i), i;
          }
        }
        i := i + 1;
      }
      return 0, 0;
    }

    method Mark(start: nat, n: nat)
      requires start + n <= bitmap.Length
      modifies bitmap
      ensures bitmap[..] == SetRun(old(bitmap[..]), start, n)
    {
      var j := 0;
      while j < n
        invariant 0 <= j <= n && bitmap[..] == SetRun(old(bitmap[..]), start, j)
      {
        bitmap[start + j] := true;
        j := j + 1;
      }
    }

    /** `pmm_free_page`; an address inside frame 0 would clear the bit that guards address 0. */
    method FreePage(addr: nat)
      requires Valid()
      modifies bitmap
      ensures Valid() <==> !(0 < addr < PAGE_SIZE)
      ensures bitmap[..] == if addr == 0 || addr / PAGE_SIZE >= totalPages then old(bitmap[..])
                            else old(bitmap[..])[addr / PAGE_SIZE := false]
    {
      if addr == 0 {
        return;
      }
      var bit := addr / PAGE_SIZE;
      if bit >= totalPages {
        return;
      } else if !bitmap[bit] {
        assert bitmap[..] == bitmap[..][bit := false];
        return;
      } else {
        bitmap[bit] := false;
      }
    }
  }

  /** No run of `n` starts between `i` and a set bit less than `n` further on. */
  lemma Skip(bits: seq<bool>, i: nat, j: nat, n: nat)
    requires i + j < |bits| && bits[i + j] && j < n
    requires forall s: nat :: s < i ==> !ClearRun(bits, s, n)
    ensures forall s: nat :: s <= i + j ==> !ClearRun(bits, s, n)
  {
    forall s: nat | i <= s <= i + j ensures !ClearRun(bits, s, n) {
      assert s <= i + j < s + n;
    }
  }
}
