/** Ownership of physical frames over whole runs of the frame allocator. */
module FrameRuns {
  import opened Frames

  /** `Take(id, n)` is a call of `pmm_alloc_page` (n = 1, `many` false) or of `pmm_alloc_pages(n)`;
      the frames it yields are recorded under `id`. `Give` frees one held frame. */
  datatype Op = Take(id: nat, n: nat, many: bool) | Give(id: nat, frame: nat)

  /** What callers hold is derived from the addresses they were given. */
  datatype Config = Config(bits: seq<bool>, total: nat, held: map<nat, set<nat>>)

  ghost predicate Holds(c: Config, id: nat, frame: nat)
  {
    id in c.held && frame in c.held[id]
  }

  ghost predicate Good(c: Config)
  {
    && Wf(c.bits, c.total)
    && (forall i: nat, f: nat :: Holds(c, i, f) ==> 0 < f < c.total && c.bits[f])
    && (forall i, j :: i in c.held && j in c.held && i != j ==> c.held[i] !! c.held[j])
  }

  ghost predicate HasRun(c: Config, n: nat)
    requires Wf(c.bits, c.total)
  {
    exists s: nat :: s + n <= c.total && ClearRun(c.bits, s, n)
  }

  /** The lowest start of `n` clear frames. */
  ghost function Lowest(c: Config, n: nat): (s: nat)
    requires Wf(c.bits, c.total) && HasRun(c, n)
    ensures LowestRun(c.bits, c.total, s, n)
  {
    LowestExists(c, n);
    var s: nat :| LowestRun(c.bits, c.total, s, n);
    s
  }

  lemma LowestExists(c: Config, n: nat)
    requires Wf(c.bits, c.total) && HasRun(c, n)
    ensures exists s: nat :: LowestRun(c.bits, c.total, s, n)
  {
    var s: nat :| s + n <= c.total && ClearRun(c.bits, s, n);
    var i := 0;
    while i < s && !ClearRun(c.bits, i, n)
      invariant 0 <= i <= s && forall k: nat :: k < i ==> !ClearRun(c.bits, k, n)
    {
      i := i + 1;
    }
    assert LowestRun(c.bits, c.total, i, n);
  }

  /** The address the allocator returns for a run starting at `s`. */
  ghost function Address(s: nat, many: bool): nat
  {
    if many then RunAddress(s) else s * PAGE_SIZE
  }

  predicate Between(f: nat, first: nat, n: nat)
  {
    first <= f < first + n
  }

  ghost function Run(first: nat, n: nat): set<nat>
  {
    set f: nat | first <= f < first + n && Between(f, first, n)
  }

  /** The frames a caller takes itself to own. */
  ghost function FramesAt(addr: nat, n: nat): set<nat>
  {
    Run(addr / PAGE_SIZE, n)
  }

  lemma ToldFrame(s: nat)
    requires s < 0x8000_0000
    ensures Address(s, true) / PAGE_SIZE == s <==> s < 0x8_0000
  {
    var x := s * PAGE_SIZE;
    var low := x % 0x1_0000_0000;
    assert low == (s % 0x10_0000) * PAGE_SIZE;
    assert low / PAGE_SIZE == s % 0x10_0000;
  }

  lemma SameRunIff(a: nat, s: nat, n: nat)
    requires n > 0
    ensures Run(a, n) == Run(s, n) <==> a == s
  {
    if Run(a, n) == Run(s, n) {
      assert a in Run(a, n) && s in Run(s, n);
      assert a in Run(s, n) && s in Run(a, n);
    }
  }

  /** A caller of `pmm_alloc_pages` is told about the frames that were marked exactly when the run
      starts below 2 GB; `pmm_alloc_page` has no such limit. */
  lemma ToldWhatIsMarked(s: nat, n: nat)
    requires 0 < n && s < 0x8000_0000
    ensures FramesAt(Address(s, false), n) == Run(s, n)
    ensures FramesAt(Address(s, true), n) == Run(s, n) <==> s < 0x8_0000
  {
    assert Address(s, false) / PAGE_SIZE == s;
    ToldFrame(s);
    SameRunIff(Address(s, true) / PAGE_SIZE, s, n);
  }

  ghost predicate Enabled(c: Config, op: Op)
    requires Good(c)
  {
    match op
    case Take(id, n, many) =>
      id !in c.held && 0 < n && (!many ==> n == 1) && (many && HasRun(c, n) ==> Lowest(c, n) < 0x8_0000)
    case Give(id, frame) => Holds(c, id, frame)
  }

  ghost function Step(c: Config, op: Op): (r: Config)
    requires Good(c) && Enabled(c, op)
    ensures Good(r)
  {
    match op
    case Take(id, n, many) =>
      if HasRun(c, n) then
        var s := Lowest(c, n);
        TakeKeepsGood(c, op);
        c.(bits := SetRun(c.bits, s, n), held := c.held[id := FramesAt(Address(s, many), n)])
      else c
    case Give(id, frame) =>
      GiveKeepsGood(c, id, frame);
      c.(bits := c.bits[frame := false], held := c.held[id := c.held[id] - {frame}])
  }

  lemma GiveKeepsGood(c: Config, id: nat, frame: nat)
    requires Good(c) && Holds(c, id, frame)
    ensures frame < |c.bits| && Good(c.(bits := c.bits[frame := false], held := c.held[id := c.held[id] - {frame}]))
  {
    var r := c.(bits := c.bits[frame := false], held := c.held[id := c.held[id] - {frame}]);
    forall i: nat, f: nat | Holds(r, i, f) ensures 0 < f < r.total && r.bits[f] {
      assert Holds(c, i, f);
      assert i != id ==> c.held[i] !! c.held[id];
    }
  }

  lemma TakeKeepsGood(c: Config, op: Op)
    requires Good(c) && op.Take? && Enabled(c, op) && HasRun(c, op.n)
    ensures var s := Lowest(c, op.n);
      && FramesAt(Address(s, op.many), op.n) == Run(s, op.n)
      && Good(c.(bits := SetRun(c.bits, s, op.n), held := c.held[op.id := FramesAt(Address(s, op.many), op.n)]))
  {
    var s := Lowest(c, op.n);
    if op.many { ToldWhatIsMarked(s, op.n); }
    var mine := Run(s, op.n);
    assert FramesAt(Address(s, op.many), op.n) == mine;
    assert s > 0;
    forall i | i in c.held ensures c.held[i] !! mine {
      forall f | f in mine ensures f !in c.held[i] { assert !c.bits[f]; assert f in c.held[i] ==> Holds(c, i, f); }
    }
    var r := c.(bits := SetRun(c.bits, s, op.n), held := c.held[op.id := mine]);
    forall i: nat, f: nat | Holds(r, i, f) ensures 0 < f < r.total && r.bits[f] {
      assert i != op.id ==> Holds(c, i, f);
    }
  }

  ghost predicate RunOk(c: Config, ops: seq<Op>)
    requires Good(c)
    decreases |ops|
  {
    ops == [] || (Enabled(c, ops[0]) && RunOk(Step(c, ops[0]), ops[1..]))
  }

  ghost function After(c: Config, ops: seq<Op>): (r: Config)
    requires Good(c) && RunOk(c, ops)
    ensures Good(r)
    decreases |ops|
  {
    if ops == [] then c else After(Step(c, ops[0]), ops[1..])
  }

  /** Over every run from a bitmap nobody holds frames of, each frame is owned at most once, is marked in
      use while it is owned, and is never frame 0. */
  lemma FramesOwnedOnce(bits: seq<bool>, total: nat, ops: seq<Op>, i: nat, j: nat, f: nat)
    requires Wf(bits, total) && RunOk(Config(bits, total, map[]), ops)
    requires var c := After(Config(bits, total, map[]), ops);
      i in c.held && j in c.held && f in c.held[i] && f in c.held[j]
    ensures var c := After(Config(bits, total, map[]), ops);
      i == j && 0 < f < c.total && f < |c.bits| && c.bits[f]
  {
    assert Holds(After(Config(bits, total, map[]), ops), i, f);
  }
}
