/** What an overrun of the kernel log ring leaves to be printed when flush passes may begin at any time. */
module KringOverruns {
  import opened KringProtocol
  import opened KringPasses

  /** Every character that lost its slot equals the newer one that took it. */
  ghost predicate SameText(r: Ring)
    requires Shape(r)
  {
    forall q: nat :: r.tail <= q && q + SIZE < r.head ==> r.stream[q] == r.stream[q + SIZE]
  }

  /** What should have been printed in the end: the newest SIZE characters after those printed before. */
  ghost function Target(r: Ring): string
    requires Shape(r) && r.head >= SIZE
  {
    r.out + r.stream[r.head - SIZE..]
  }

  /** What has been printed is the beginning of that, and once no call is in progress one more pass completes it, with
      one mark in all. */
  ghost predicate Exact(r: Ring, z: Ring)
    requires Shape(r) && r.head >= SIZE && Shape(z)
  {
    && z.out <= Target(r)
    && (z.pc == Out && AllDone(z) ==> Pass(z).out == Target(r) && Pass(z).drops == r.drops + 1)
  }

  /** So it is in every continuation without further reservations, with steps of calls and passes in any order. */
  ghost predicate AlwaysExact(r: Ring)
    requires Shape(r) && r.head >= SIZE
  {
    forall run :: RunOk(r, run) && Quiet(run) ==> Exact(r, Run(r, run))
  }

  // ---- equal characters: every continuation is exact --------------------------------------------------------------

  /** The slot of position `j`: whatever has been stored there is its character, and once published it is ready. */
  ghost predicate SlotOk(r: Ring, z: Ring, j: nat)
    requires Shape(z) && j < z.head
  {
    var cell := z.cells[j % SIZE];
    && (cell.ready || z.phase[j] != Reserved || (r.tail + SIZE <= j && z.phase[j - SIZE] != Reserved) ==> cell.c == z.stream[j])
    && (z.phase[j] == Published && !(j == z.tail && z.pc == Cleared) ==> cell.ready)
  }

  /** The first position that a pass may still print. */
  ghost function First(r: Ring, z: Ring): nat
    requires r.head >= SIZE
  {
    if z.tail < r.head - SIZE then r.head - SIZE else z.tail
  }

  /** How much a pass that is at `pc` has printed beyond `tail`. */
  function Ahead(pc: Pc): nat
  {
    if pc == Printed || pc == Cleared then 1 else 0
  }

  /** What is printed: nothing before the mark, then the newest characters in order. */
  ghost predicate PrintOk(r: Ring, z: Ring)
    requires Shape(r) && r.head >= SIZE
  {
    if z.drops == r.drops then
      z.tail == r.tail && z.out == r.out && (z.pc == Out || z.pc == Top)
    else
      && z.drops == r.drops + 1 && r.head - SIZE <= z.tail && z.tail + Ahead(z.pc) <= r.head
      && z.out == r.out + r.stream[r.head - SIZE..z.tail + Ahead(z.pc)]
  }

  ghost predicate SlotsOk(r: Ring, z: Ring)
    requires Shape(z) && r.head >= SIZE && z.head == r.head
  {
    forall j: nat :: First(r, z) <= j < r.head ==> SlotOk(r, z, j)
  }

  ghost predicate Kept(r: Ring, z: Ring)
    requires Overrun(r)
  {
    && Hist(z) && z.head == r.head && z.stream == r.stream && PrintOk(r, z) && SlotsOk(r, z)
    && (forall j: nat :: j < r.tail ==> z.phase[j] == Published)
    && (z.pc == Seen || z.pc == Printed || z.pc == Cleared ==> z.tail < z.head)
    && (z.pc == Seen ==> Ready(z, z.tail))
  }

  lemma ReserveKept(y: Ring, w: nat, text: string, r: Ring)
    requires Inv(y) && Enabled(y, Reserve(w, text)) && !Room(y, Reserve(w, text)) && r == Next(y, Reserve(w, text))
    requires SameText(r)
    ensures Overrun(r) && Kept(r, r)
  {
    ReserveOverruns(y, w, text);
    forall j: nat | First(r, r) <= j < r.head ensures SlotOk(r, r, j) { ReservedSlot(y, w, text, r, j); }
  }

  lemma ReservedSlot(y: Ring, w: nat, text: string, r: Ring, j: nat)
    requires Inv(y) && Enabled(y, Reserve(w, text)) && !Room(y, Reserve(w, text)) && r == Next(y, Reserve(w, text))
    requires SameText(r) && r.head - SIZE <= j < r.head
    ensures SlotOk(r, r, j)
  {
    if j < y.head {
      assert CellOk(y, j);
    } else if y.tail + SIZE <= j {
      assert CellOk(y, j - SIZE) && (j - SIZE) % SIZE == j % SIZE;
      assert r.stream[j - SIZE] == r.stream[j - SIZE + SIZE];
    } else {
      assert Vacant(y, j);
    }
  }

  /** What a store or a publish of position `s` does. */
  ghost predicate Wrote(z: Ring, n: Ring, s: nat, store: bool)
    requires Shape(z) && Shape(n)
  {
    && SameFrame(z, n) && s < z.head
    && (if store then z.phase[s] == Reserved && n.phase == z.phase[s := Stored]
        else z.phase[s] == Stored && n.phase == z.phase[s := Published])
    && n.cells == z.cells[s % SIZE := if store then z.cells[s % SIZE].(c := z.stream[s]) else z.cells[s % SIZE].(ready := true)]
  }

  /** Two outstanding positions with one slot are the same or SIZE apart. */
  lemma SameSlot(t: nat, h: nat, s: nat, j: nat)
    requires h <= t + 2 * SIZE && t <= s < h && h - SIZE <= j < h && s % SIZE == j % SIZE
    ensures s == j || s == j - SIZE
  {
    if s > j { SlotsDiffer(j, s); }
    else if j - SIZE < s < j { SlotsDiffer(s, j); }
    else if s < j - SIZE { SlotsDiffer(s, j - SIZE); }
  }

  lemma WroteSlot(r: Ring, z: Ring, n: Ring, s: nat, store: bool, j: nat)
    requires Shape(r) && Shape(z) && Shape(n) && r.tail + SIZE < r.head <= r.tail + 2 * SIZE
    requires z.head == r.head && z.stream == r.stream && SameText(r)
    requires r.tail <= s && r.head - SIZE <= j < r.head && SlotOk(r, z, j) && Wrote(z, n, s, store) && z.pc == Out
    ensures SlotOk(r, n, j)
  {
    if s % SIZE == j % SIZE {
      SameSlot(r.tail, r.head, s, j);
      assert s == j - SIZE ==> r.stream[s] == r.stream[s + SIZE];
    }
  }

  lemma WroteAt(z: Ring, step: Step)
    requires Hist(z) && Enabled(z, step) && (step.Store? || step.Publish?)
    ensures Wrote(z, Next(z, step), Position(z, step), step.Store?)
  {
    WriterPosition(z, step.w);
    var n := Next(z, step);
    if step.Store? {
      assert n.writers.Keys == z.writers.Keys;
    } else {
      assert n.writers.Keys == z.writers.Keys;
    }
  }

  lemma WroteKept(r: Ring, z: Ring, n: Ring, s: nat, store: bool)
    requires Overrun(r) && SameText(r) && Kept(r, z) && z.pc == Out && Hist(n) && Wrote(z, n, s, store)
    ensures Kept(r, n)
  {
    forall j: nat | First(r, n) <= j < r.head ensures SlotOk(r, n, j) {
      assert SlotOk(r, z, j);
      WroteSlot(r, z, n, s, store, j);
    }
  }

  lemma CallKept(r: Ring, z: Ring, step: Step)
    requires Overrun(r) && SameText(r) && Kept(r, z) && Enabled(z, step) && (step.Store? || step.Publish?)
    ensures Kept(r, Next(z, step))
  {
    WroteAt(z, step);
    PutHist(z, step);
    WroteKept(r, z, Next(z, step), Position(z, step), step.Store?);
  }

  /** Steps of a pass that change no slot. */
  lemma LookKept(r: Ring, z: Ring, step: Step)
    requires Overrun(r) && Kept(r, z) && Enabled(z, step)
    requires step.Begin? || step.Check? || step.Stop? || step.See?
    ensures Kept(r, Next(z, step))
  {
    var n := Next(z, step);
    SameHist(z, n);
    forall j: nat | First(r, n) <= j < r.head ensures SlotOk(r, n, j) { assert SlotOk(r, z, j); }
  }

  lemma DropKept(r: Ring, z: Ring)
    requires Overrun(r) && Kept(r, z) && Enabled(z, Drop)
    ensures Kept(r, Next(z, Drop))
  {
    var n := Next(z, Drop);
    SameHist(z, n);
    forall j: nat | First(r, n) <= j < r.head ensures SlotOk(r, n, j) { assert SlotOk(r, z, j); }
    assert n.out == r.out + r.stream[r.head - SIZE..n.tail];
  }

  lemma PrintKept(r: Ring, z: Ring)
    requires Overrun(r) && Kept(r, z) && Enabled(z, Print)
    ensures Kept(r, Next(z, Print))
  {
    var n := Next(z, Print);
    SameHist(z, n);
    assert SlotOk(r, z, z.tail);
    forall j: nat | First(r, n) <= j < r.head ensures SlotOk(r, n, j) { assert SlotOk(r, z, j); }
    assert r.stream[r.head - SIZE..z.tail] + [r.stream[z.tail]] == r.stream[r.head - SIZE..z.tail + 1];
  }

  lemma ClearKept(r: Ring, z: Ring)
    requires Overrun(r) && Kept(r, z) && Enabled(z, Clear)
    ensures Kept(r, Next(z, Clear))
  {
    var n := Next(z, Clear);
    SameHist(z, n);
    forall j: nat | First(r, n) <= j < r.head ensures SlotOk(r, n, j) {
      assert SlotOk(r, z, j);
      if j != z.tail { SlotsDiffer(z.tail, j); }
    }
  }

  lemma AdvanceKept(r: Ring, z: Ring)
    requires Overrun(r) && Kept(r, z) && Enabled(z, Advance)
    ensures Kept(r, Next(z, Advance))
  {
    var n := Next(z, Advance);
    SameHist(z, n);
    forall j: nat | First(r, n) <= j < r.head ensures SlotOk(r, n, j) { assert SlotOk(r, z, j); }
  }

  lemma StepKept(r: Ring, z: Ring, step: Step)
    requires Overrun(r) && SameText(r) && Kept(r, z) && Enabled(z, step) && !step.Reserve?
    ensures Kept(r, Next(z, step))
  {
    match step
    case Store(w) => CallKept(r, z, step);
    case Publish(w) => CallKept(r, z, step);
    case Drop => DropKept(r, z);
    case Print => PrintKept(r, z);
    case Clear => ClearKept(r, z);
    case Advance => AdvanceKept(r, z);
    case _ => LookKept(r, z, step);
  }

  lemma {:induction false} RunKept(r: Ring, z: Ring, run: seq<Step>)
    requires Overrun(r) && SameText(r) && Kept(r, z) && RunOk(z, run) && Quiet(run)
    ensures Kept(r, Run(z, run))
    decreases |run|
  {
    if run != [] {
      StepKept(r, z, run[0]);
      RunKept(r, Next(z, run[0]), run[1..]);
    }
  }

  lemma KeptIsExact(r: Ring, z: Ring)
    requires Overrun(r) && Kept(r, z)
    ensures Exact(r, z)
  {
    assert z.out <= Target(r) by {
      if z.drops == r.drops {
        assert Target(r)[..|r.out|] == r.out;
      } else {
        var hi := z.tail + Ahead(z.pc);
        assert Target(r)[..|r.out| + hi - (r.head - SIZE)] == r.out + r.stream[r.head - SIZE..hi];
      }
    }
    if z.pc == Out && AllDone(z) { LastPass(r, z); }
  }

  lemma LastPass(r: Ring, z: Ring)
    requires Overrun(r) && Kept(r, z) && z.pc == Out && AllDone(z)
    ensures Pass(z).out == Target(r) && Pass(z).drops == r.drops + 1
  {
    var lo := First(r, z);
    SlotsAreReady(r, z);
    PrintsReady(z);
    Whole(r, z, lo);
  }

  lemma Whole(r: Ring, z: Ring, lo: nat)
    requires Overrun(r) && PrintOk(r, z) && z.pc == Out && lo == First(r, z) <= r.head
    ensures z.out + r.stream[lo..] == Target(r)
  {
    assert z.drops != r.drops ==> r.stream[r.head - SIZE..lo] + r.stream[lo..] == r.stream[r.head - SIZE..];
  }

  lemma SlotsAreReady(r: Ring, z: Ring)
    requires Overrun(r) && Kept(r, z) && z.pc == Out && AllDone(z)
    ensures First(r, z) == Tested(z).tail && forall j: nat :: First(r, z) <= j < z.head ==> Ready(z, j)
    ensures Chars(z.cells, First(r, z), z.head) == r.stream[First(r, z)..]
  {
    DoneIsReady(z);
    var lo := First(r, z);
    forall j: nat | lo <= j < z.head ensures Ready(z, j) && z.cells[j % SIZE].c == z.stream[j] { assert SlotOk(r, z, j); }
    forall i: nat | i < z.head - lo ensures Chars(z.cells, lo, z.head)[i] == r.stream[lo..][i] {
      assert z.cells[(lo + i) % SIZE].c == z.stream[lo + i];
    }
  }

  // ---- different characters: some continuation misprints ------------------------------------------------------------

  /** As long as the newer position has not been stored, the slot is the older one's. */
  ghost predicate Older(z: Ring, q: nat)
    requires Shape(z) && q + SIZE < z.head
  {
    z.phase[q + SIZE] == Reserved ==> Holds(z, q)
  }

  lemma OlderPut(z: Ring, n: Ring, q: nat, s: nat, store: bool)
    requires Shape(z) && Shape(n) && z.head <= z.tail + 2 * SIZE && z.tail <= q && q + SIZE < z.head
    requires Older(z, q) && Put(z, n, s, store)
    ensures Older(n, q)
  {
    if s != q && s != q + SIZE {
      if s < q { SlotsDiffer(s, q); }
      else if s < q + SIZE { SlotsDiffer(q, s); }
      else { SlotsDiffer(q + SIZE, s); assert (q + SIZE) % SIZE == q % SIZE; }
    }
  }

  lemma {:induction false} OlderRun(z: Ring, run: seq<Step>, q: nat)
    requires Overrun(z) && z.tail <= q && q + SIZE < z.head && Older(z, q) && RunOk(z, run) && Settling(run)
    ensures Run(z, run).head == z.head && Older(Run(z, run), q)
    decreases |run|
  {
    if run != [] {
      OverrunStays(z, run[0]);
      OlderPut(z, Next(z, run[0]), q, Position(z, run[0]), run[0].Store?);
      OlderRun(Next(z, run[0]), run[1..], q);
    }
  }

  /** The last call is stopped before position `p`; all others finish. */
  lemma StopBefore(r: Ring, w: nat, p: nat) returns (run: seq<Step>)
    requires Overrun(r) && w in r.writers && !r.writers[w].stored
    requires r.writers[w].start + r.writers[w].done <= p < r.writers[w].start + |r.writers[w].text|
    ensures RunOk(r, run) && Settling(run) && Run(r, run).head == r.head && Run(r, run).phase[p] == Reserved
    ensures forall j: nat :: j < r.head && j < p ==> Run(r, run).phase[j] == Published
  {
    var a := WriteUpTo(r, w, p - r.writers[w].start);
    var m := Run(r, a);
    var b := FinishBut(m, {w});
    RunAppend(r, a, b);
    run := a + b;
    var z := Run(m, b);
    SettlingFrame(r, a);
    SettlingFrame(m, b);
    assert WriterOk(z, w);
    forall j: nat | j < z.head && j < p ensures z.phase[j] == Published {
      assert Pending(z, j);
      assert z.owner[j] in z.writers && z.owner[j] != w ==> z.owner[j] !in Unfinished(z);
    }
  }

  lemma {:induction false} SettlingFrame(y: Ring, run: seq<Step>)
    requires Overrun(y) && RunOk(y, run) && Settling(run)
    ensures Overrun(Run(y, run)) && SameFrame(y, Run(y, run))
    decreases |run|
  {
    if run != [] {
      OverrunStays(y, run[0]);
      SettlingFrame(Next(y, run[0]), run[1..]);
    }
  }

  /** A pass that begins then prints the older character in the place of the newer one. */
  lemma PassMisprints(z: Ring, q: nat)
    requires Overrun(z) && Flagged(z) && z.tail <= q && q + SIZE < z.head && Older(z, q) && z.phase[q + SIZE] == Reserved
    requires forall j: nat :: j < q + SIZE ==> z.phase[j] == Published
    ensures Misprinted(z, Pass(z).out, q)
  {
    var p, lo := q + SIZE, z.head - SIZE;
    ReadyThrough(z, q);
    PrintsThrough(z, p + 1);
    var s := Chars(z.cells, lo, p + 1);
    assert s[p - lo] == z.cells[(lo + (p - lo)) % SIZE].c;
    assert (z.out + s)[|z.out| + (p - lo)] == s[p - lo];
  }

  lemma ReadyThrough(z: Ring, q: nat)
    requires Overrun(z) && Flagged(z) && z.tail <= q && q + SIZE < z.head && Older(z, q) && z.phase[q + SIZE] == Reserved
    requires forall j: nat :: j < q + SIZE ==> z.phase[j] == Published
    ensures Tested(z).tail == z.head - SIZE && forall j: nat :: z.head - SIZE <= j < q + SIZE + 1 ==> Ready(z, j)
    ensures z.cells[(q + SIZE) % SIZE].c == z.stream[q]
  {
    assert (q + SIZE) % SIZE == q % SIZE && Holds(z, q);
    forall j: nat | z.head - SIZE <= j < q + SIZE + 1 ensures Ready(z, j) { assert j < q + SIZE ==> z.phase[j] == Published; }
  }

  /** Such a continuation. */
  lemma MisprintRun(r: Ring, w: nat, q: nat) returns (run: seq<Step>)
    requires Overrun(r) && Flagged(r) && r.tail <= q && q + SIZE < r.head && Older(r, q)
    requires w in r.writers && !r.writers[w].stored
    requires r.writers[w].start + r.writers[w].done <= q + SIZE < r.writers[w].start + |r.writers[w].text|
    ensures RunOk(r, run) && Quiet(run)
    ensures Misprinted(r, Run(r, run).out, q)
  {
    var stop, z := StopThere(r, w, q);
    PassMisprints(z, q);
    run := WithPass(r, stop);
    assert Run(r, run) == Pass(z);
  }

  /** In the place of the position that took its slot, the older position `q` was printed. */
  ghost predicate Misprinted(r: Ring, out: string, q: nat)
    requires Shape(r) && r.tail <= q && q + SIZE < r.head <= r.tail + 2 * SIZE
  {
    var i := |r.out| + q + 2 * SIZE - r.head;
    i < |out| && out[i] == r.stream[q]
  }

  lemma StopThere(r: Ring, w: nat, q: nat) returns (run: seq<Step>, z: Ring)
    requires Overrun(r) && Flagged(r) && r.tail <= q && q + SIZE < r.head && Older(r, q)
    requires w in r.writers && !r.writers[w].stored
    requires r.writers[w].start + r.writers[w].done <= q + SIZE < r.writers[w].start + |r.writers[w].text|
    ensures RunOk(r, run) && Settling(run) && z == Run(r, run) && Overrun(z) && SameFrame(r, z) && Flagged(z) && Older(z, q)
    ensures z.phase[q + SIZE] == Reserved && forall j: nat :: j < q + SIZE ==> z.phase[j] == Published
  {
    run := StopBefore(r, w, q + SIZE);
    FlaggedRun(r, run);
    OlderRun(r, run, q);
    z := Run(r, run);
  }

  lemma WithPass(r: Ring, run: seq<Step>) returns (more: seq<Step>)
    requires Shape(r) && RunOk(r, run) && Settling(run) && Run(r, run).pc == Out
    ensures RunOk(r, more) && Quiet(more) && Run(r, more) == Pass(Run(r, run))
  {
    var pass := PassRun(Run(r, run));
    RunAppend(r, run, pass);
    more := run + pass;
  }

  lemma DifferentIsNotExact(y: Ring, w: nat, text: string, r: Ring, q: nat)
    requires Inv(y) && Enabled(y, Reserve(w, text)) && !Room(y, Reserve(w, text)) && r == Next(y, Reserve(w, text))
    requires y.tail <= q && q + SIZE < r.head && r.stream[q] != r.stream[q + SIZE]
    ensures Overrun(r) && !AlwaysExact(r)
  {
    ReserveOverruns(y, w, text);
    NewestFlagged(r);
    OlderHolds(y, w, text, r, q);
    var run := MisprintRun(r, w, q);
    WrongAt(r, Run(r, run).out, q);
    assert !Exact(r, Run(r, run));
  }

  lemma OlderHolds(y: Ring, w: nat, text: string, r: Ring, q: nat)
    requires Inv(y) && Enabled(y, Reserve(w, text)) && r == Next(y, Reserve(w, text))
    requires y.tail <= q && q + SIZE < r.head
    ensures Older(r, q)
  {
    assert CellOk(y, q);
  }

  lemma NewestFlagged(r: Ring)
    requires Overrun(r) && NewestHold(r)
    ensures Flagged(r)
  {
    forall j: nat | r.head - SIZE <= j < r.head && r.phase[j] == Published ensures Ready(r, j) { assert Holds(r, j); }
  }

  lemma WrongAt(r: Ring, out: string, q: nat)
    requires Overrun(r) && r.tail <= q && q + SIZE < r.head && r.stream[q] != r.stream[q + SIZE]
    requires Misprinted(r, out, q)
    ensures !(out <= Target(r))
  {
    var i := |r.out| + q + 2 * SIZE - r.head;
    assert Target(r)[i] == r.stream[q + SIZE];
  }

  /** After a reservation that overruns the ring, in every continuation without a further one, however the calls and the
      passes interleave, a mark and then exactly the newest SIZE characters are printed, if and only if every character
      that lost its slot equals the one that took it. */
  lemma OverrunExactIff(y: Ring, w: nat, text: string)
    requires Inv(y) && Enabled(y, Reserve(w, text)) && !Room(y, Reserve(w, text))
    ensures AlwaysExact(Next(y, Reserve(w, text))) <==> SameText(Next(y, Reserve(w, text)))
  {
    var r := Next(y, Reserve(w, text));
    if SameText(r) {
      ReserveKept(y, w, text, r);
      forall run | RunOk(r, run) && Quiet(run) ensures Exact(r, Run(r, run)) {
        RunKept(r, r, run);
        KeptIsExact(r, Run(r, run));
      }
    } else {
      var q: nat :| r.tail <= q && q + SIZE < r.head && r.stream[q] != r.stream[q + SIZE];
      DifferentIsNotExact(y, w, text, r, q);
    }
  }

  // ---- the failure without any earlier call in progress --------------------------------------------------------------

  /** One call fills the ring and finishes. */
  lemma FullRing() returns (run: seq<Step>, y: Ring)
    ensures RunOk(Empty(), run) && y == Run(Empty(), run) && Inv(y) && AllDone(y) && y.pc == Out
    ensures y.tail == 0 && y.head == SIZE && y.out == "" && y.drops == 0 && 1 !in y.writers && y.stream[0] == 'a'
  {
    var step := Reserve(0, seq(SIZE, _ => 'a'));
    ReserveKeeps(Empty(), 0, step.text);
    run, y := OnlyCallDone(Next(Empty(), step));
    RunCons(Empty(), step, run);
    run := [step] + run;
  }

  /** The only call finishes. */
  lemma OnlyCallDone(a: Ring) returns (run: seq<Step>, y: Ring)
    requires Inv(a) && a.pc == Out && a.writers.Keys == {0}
    ensures RunOk(a, run) && y == Run(a, run) && Inv(y) && AllDone(y) && SameFrame(a, y)
  {
    run := FinishOne(a, 0);
    y := Run(a, run);
    QuietIsRoomy(a, run);
    RunKeeps(a, run);
  }

  /** In a full ring whose calls have all finished, one character more is reserved: no call is late, yet a pass that begins
      before the character is stored finds every newest slot ready. */
  lemma OneMore(y: Ring, r: Ring)
    requires Inv(y) && AllDone(y) && y.pc == Out && y.tail == 0 && y.head == SIZE && 1 !in y.writers
    requires r == Next(y, Reserve(1, "b"))
    ensures Overrun(r) && Unraced(r) && r.head == SIZE + 1 && r.stream[SIZE] == 'b'
    ensures (forall j: nat :: r.head - SIZE <= j < r.head ==> Ready(r, j)) && r.cells[0].c == y.stream[0]
  {
    ReserveOverruns(y, 1, "b");
    DoneIsReady(y);
    forall j: nat | r.head - SIZE <= j < r.head ensures Ready(r, j) {
      var k := if j < SIZE then j else 0;
      assert CellOk(y, k) && k % SIZE == j % SIZE;
    }
    assert CellOk(y, 0);
  }

  /** From the empty ring, with every earlier call finished at the overrun: a pass that begins before the overrunning call
      has stored its character prints an old one in its place. */
  lemma EarlyPassMisprints() returns (first: seq<Step>, rest: seq<Step>)
    ensures RunOk(Empty(), first) && AllDone(Run(Empty(), first)) && Enabled(Run(Empty(), first), Reserve(1, "b"))
    ensures var r := Next(Run(Empty(), first), Reserve(1, "b"));
      && Unraced(r) && r.head == SIZE + 1 && r.stream[SIZE] == 'b' && RunOk(r, rest) && Quiet(rest)
      && var z := Run(r, rest); z.drops == 1 && z.tail == z.head == SIZE + 1 && |z.out| == SIZE && z.out[SIZE - 1] == 'a'
  {
    var y;
    first, y := FullRing();
    var r := Next(y, Reserve(1, "b"));
    OneMore(y, r);
    PrintsAfterMark(r);
    assert Chars(r.cells, 1, SIZE + 1)[SIZE - 1] == r.cells[(1 + (SIZE - 1)) % SIZE].c;
    rest := PassRun(r);
  }
}
