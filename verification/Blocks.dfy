/** Arithmetic of power-of-two page blocks.

    A block of order `k` is a run of `2^k` pages whose first page is a multiple of `2^k`.
    Everything is defined by halving page numbers, so that containment, buddies and
    parents are facts about binary digits rather than about products of powers of two. */
module Blocks {

  const MAX_ORDERS: nat := 12

  function Pow2(k: nat): (r: nat)
    ensures r > 0
  {
    if k == 0 then 1 else 2 * Pow2(k - 1)
  }

  /** The number of the order-`k` block that page `p` lies in. */
  function BlockOf(p: nat, k: nat): nat
  {
    if k == 0 then p else BlockOf(p / 2, k - 1)
  }

  /** Page `a` can start a block of order `k`. */
  predicate Aligned(a: nat, k: nat)
  {
    k == 0 || (a % 2 == 0 && Aligned(a / 2, k - 1))
  }

  /** `a ^ (1 << k)`: the kernel finds a block's buddy by this exclusive-or. */
  function FlipBit(a: nat, k: nat): nat
  {
    if k == 0 then (if a % 2 == 0 then a + 1 else a - 1)
    else 2 * FlipBit(a / 2, k - 1) + a % 2
  }

  /** Bitwise exclusive-or of unsigned numbers of any width. */
  function Xor(a: nat, b: nat): nat
  {
    if a == 0 then b else if b == 0 then a
    else 2 * Xor(a / 2, b / 2) + (if a % 2 == b % 2 then 0 else 1)
  }

  lemma {:induction false} XorOneBit(a: nat, k: nat)
    ensures Xor(a, Pow2(k)) == FlipBit(a, k)
    decreases k
  {
    if k == 0 {
      assert Xor(a, 1) == FlipBit(a, 0) by {
        if a > 0 { assert Xor(a / 2, 0) == a / 2; }
      }
    } else {
      assert Pow2(k) / 2 == Pow2(k - 1) && Pow2(k) % 2 == 0;
      if a == 0 { FlipZero(k); } else { XorOneBit(a / 2, k - 1); }
    }
  }

  lemma {:induction false} FlipZero(k: nat)
    ensures FlipBit(0, k) == Pow2(k)
  {
    if k > 0 { FlipZero(k - 1); }
  }

  const HEAP_START: nat := 0xFFFF_E000_0000_0000
  const PAGE_SIZE: nat := 4096

  lemma TwiceProduct(p: nat, x: nat)
    ensures (2 * p) * x == 2 * (p * x)
  {
  }

  lemma {:induction false} FlipDoubled(a: nat, k: nat, n: nat)
    ensures FlipBit(Pow2(n) * a, n + k) == Pow2(n) * FlipBit(a, k)
    decreases n
  {
    if n > 0 {
      var p := Pow2(n - 1);
      calc {
        FlipBit(Pow2(n) * a, n + k);
        { TwiceProduct(p, a); }
        FlipBit(2 * (p * a), n + k);
        2 * FlipBit(p * a, n - 1 + k);
        { FlipDoubled(a, k, n - 1); }
        2 * (p * FlipBit(a, k));
        { TwiceProduct(p, FlipBit(a, k)); }
        Pow2(n) * FlipBit(a, k);
      }
    }
  }

  lemma {:induction false} FlipOffset(base: nat, a: nat, k: nat)
    requires Aligned(base, k + 1)
    ensures FlipBit(base + a, k) == base + FlipBit(a, k)
    decreases k
  {
    if k > 0 { FlipOffset(base / 2, a / 2, k - 1); }
  }

  lemma Pow2Values()
    ensures Pow2(12) == 4096 && Pow2(0) == 1
    ensures Aligned(HEAP_START / PAGE_SIZE, MAX_ORDERS + 1)
  {
    assert Pow2(4) == 16 && Pow2(8) == 256;
    AlignedMultiple(0xFFFF_E000_0000_0000 / 4096 / 8192, 13);
  }

  lemma {:induction false} AlignedMultiple(m: nat, k: nat)
    ensures Aligned(Pow2(k) * m, k)
  {
    if k > 0 {
      assert Pow2(k) * m == 2 * (Pow2(k - 1) * m);
      AlignedMultiple(m, k - 1);
    }
  }

  /** The kernel flips a bit of the virtual address; because the heap starts on a 2^45 boundary
      this is the same as flipping a bit of the page number inside the heap. */
  lemma AddressXor(page: nat, order: nat)
    requires order <= MAX_ORDERS
    ensures Xor(HEAP_START + page * PAGE_SIZE, Pow2(order) * PAGE_SIZE)
         == HEAP_START + FlipBit(page, order) * PAGE_SIZE
  {
    Pow2Values();
    var first := HEAP_START / PAGE_SIZE;
    Pow2Sum(12, order);
    XorOneBit(HEAP_START + page * PAGE_SIZE, 12 + order);
    assert HEAP_START + page * PAGE_SIZE == Pow2(12) * (first + page);
    FlipDoubled(first + page, order, 12);
    assert Pow2(order) * PAGE_SIZE == Pow2(12 + order);
    AlignedDown(first, MAX_ORDERS + 1, order + 1);
    FlipOffset(first, page, order);
  }

  lemma {:induction false} Pow2Sum(i: nat, j: nat)
    ensures Pow2(i + j) == Pow2(i) * Pow2(j)
    decreases j
  {
    if j > 0 { Pow2Sum(i, j - 1); }
  }

  lemma {:induction false} BlockOfStep(p: nat, k: nat)
    ensures BlockOf(p, k + 1) == BlockOf(p, k) / 2
    decreases k
  {
    if k > 0 { BlockOfStep(p / 2, k - 1); }
  }

  /** Blocks are nested or disjoint: sharing a block of order `k` means sharing every larger one. */
  lemma {:induction false} SameBlockUp(p: nat, q: nat, k: nat, j: nat)
    requires k <= j && BlockOf(p, k) == BlockOf(q, k)
    ensures BlockOf(p, j) == BlockOf(q, j)
    decreases j
  {
    if k < j {
      SameBlockUp(p, q, k, j - 1);
      BlockOfStep(p, j - 1);
      BlockOfStep(q, j - 1);
    }
  }

  lemma {:induction false} AlignedUnique(a: nat, b: nat, k: nat)
    requires Aligned(a, k) && Aligned(b, k) && BlockOf(a, k) == BlockOf(b, k)
    ensures a == b
    decreases k
  {
    if k > 0 { AlignedUnique(a / 2, b / 2, k - 1); }
  }

  lemma {:induction false} AlignedDown(a: nat, k: nat, j: nat)
    requires Aligned(a, k) && j <= k
    ensures Aligned(a, j)
    decreases j
  {
    if j > 0 { AlignedDown(a / 2, k - 1, j - 1); }
  }

  /** The two halves of a block: buddies are aligned, distinct, share a parent, and the lower
      one starts the parent. */
  lemma {:induction false} BuddyFacts(a: nat, k: nat)
    requires Aligned(a, k)
    ensures var f := FlipBit(a, k);
            && f != a && Aligned(f, k)
            && BlockOf(f, k) != BlockOf(a, k)
            && BlockOf(f, k) / 2 == BlockOf(a, k) / 2
            && BlockOf(f, k + 1) == BlockOf(a, k + 1)
            && Aligned(if f < a then f else a, k + 1)
            && (Aligned(a, k + 1) <==> a < f)
            && FlipBit(f, k) == a
    decreases k
  {
    var f := FlipBit(a, k);
    if k > 0 {
      BuddyFacts(a / 2, k - 1);
      assert a % 2 == 0 && f == 2 * FlipBit(a / 2, k - 1);
      assert f / 2 == FlipBit(a / 2, k - 1);
    }
    BlockOfStep(a, k);
    BlockOfStep(f, k);
  }

  /** A page of the parent block lies in one of the two halves. */
  lemma {:induction false} ParentHalves(a: nat, k: nat, p: nat)
    requires Aligned(a, k)
    requires BlockOf(p, k + 1) == BlockOf(a, k + 1)
    ensures BlockOf(p, k) == BlockOf(a, k) || BlockOf(p, k) == BlockOf(FlipBit(a, k), k)
  {
    BuddyFacts(a, k);
    BlockOfStep(p, k);
    BlockOfStep(a, k);
  }

  predicate Within(p: nat, a: nat, n: nat)
  {
    a <= p < a + n
  }

  /** The pages of the block of order `k` that starts at page `a`. */
  ghost function BlockPages(a: nat, k: nat): set<nat>
  {
    set p: nat | a <= p < a + Pow2(k) && Within(p, a, Pow2(k))
  }

  lemma {:induction false} InBlock(a: nat, k: nat, p: nat)
    requires Aligned(a, k)
    ensures a <= p < a + Pow2(k) <==> BlockOf(p, k) == BlockOf(a, k)
    decreases k
  {
    if k > 0 { InBlock(a / 2, k - 1, p / 2); }
  }

  lemma BlockPagesAre(a: nat, k: nat)
    requires Aligned(a, k)
    ensures forall p: nat :: p in BlockPages(a, k) <==> BlockOf(p, k) == BlockOf(a, k)
    ensures a in BlockPages(a, k)
  {
    forall p: nat ensures p in BlockPages(a, k) <==> BlockOf(p, k) == BlockOf(a, k) {
      InBlock(a, k, p);
    }
  }

  /** A block is the disjoint union of its two halves. */
  lemma BlockPagesSplit(a: nat, k: nat)
    requires Aligned(a, k + 1)
    ensures Aligned(a, k)
    ensures BlockPages(a, k + 1) == BlockPages(a, k) + BlockPages(FlipBit(a, k), k)
    ensures BlockPages(a, k) !! BlockPages(FlipBit(a, k), k)
  {
    var f := FlipBit(a, k);
    AlignedDown(a, k + 1, k);
    BuddyFacts(a, k);
    BlockPagesAre(a, k);
    BlockPagesAre(f, k);
    BlockPagesAre(a, k + 1);
    forall p: nat
      ensures p in BlockPages(a, k + 1) <==> p in BlockPages(a, k) || p in BlockPages(f, k)
    {
      if BlockOf(p, k + 1) == BlockOf(a, k + 1) { ParentHalves(a, k, p); }
      if BlockOf(p, k) == BlockOf(a, k) { SameBlockUp(p, a, k, k + 1); }
      if BlockOf(p, k) == BlockOf(f, k) { SameBlockUp(p, f, k, k + 1); }
    }
  }
}
