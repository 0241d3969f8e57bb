/** Whole flush passes of the kernel log ring, and what an overrun leaves behind. */
module KringPasses {
  import opened KringProtocol

  // ---- a pass -------------------------------------------------------------------------------------------------

  /** The overrun test at the top of the loop. */
  ghost function Tested(y: Ring): (a: Ring)
    requires Shape(y)
    ensures Shape(a) && y.tail <= a.tail && a.head - a.tail <= SIZE
  {
    if y.head - y.tail > SIZE then y.(tail := y.head - SIZE, drops := y.drops + 1, pc := Checked) else y.(pc := Checked)
  }

  ghost predicate Ready(y: Ring, j: nat)
    requires Shape(y)
  {
    y.cells[j % SIZE].ready
  }

  /** The rest of a turn that prints. */
  ghost function Turn(a: Ring): (r: Ring)
    requires Shape(a) && a.tail < a.head
    ensures Shape(r)
  {
    a.(out := a.out + [a.cells[a.tail % SIZE].c], cells := a.cells[a.tail % SIZE := a.cells[a.tail % SIZE].(ready := false)],
       tail := a.tail + 1, pc := Top)
  }

  /** The rest of a pass from the top of its loop. */
  ghost function FlushFrom(y: Ring): (r: Ring)
    requires Shape(y)
    ensures Shape(r) && r.pc == Out && r.head == y.head && r.stream == y.stream && r.phase == y.phase
    decreases y.head - y.tail
  {
    var a := Tested(y);
    if a.tail == a.head || !Ready(a, a.tail) then a.(pc := Out) else FlushFrom(Turn(a))
  }

  /** `kring_flush_to_screen`. */
  ghost function Pass(y: Ring): (r: Ring)
    requires Shape(y)
    ensures Shape(r) && r.pc == Out && r.head == y.head && r.stream == y.stream && r.phase == y.phase
  {
    FlushFrom(y)
  }

  lemma TestedIsStep(y: Ring)
    requires Shape(y) && y.pc == Top
    ensures var first := if y.head - y.tail > SIZE then Drop else Check; Enabled(y, first) && Next(y, first) == Tested(y)
  {
  }

  lemma TurnIsRun(a: Ring)
    requires Shape(a) && a.pc == Checked && Enabled(a, See)
    ensures RunOk(a, [See] + ([Print] + ([Clear] + [Advance]))) && Run(a, [See] + ([Print] + ([Clear] + [Advance]))) == Turn(a)
  {
    var b := Next(a, See);
    var c := Next(b, Print);
    var d := Next(c, Clear);
    assert RunOk(d, [Advance]) && Run(d, [Advance]) == Next(d, Advance);
    RunCons(c, Clear, [Advance]);
    RunCons(b, Print, [Clear] + [Advance]);
    RunCons(a, See, [Print] + ([Clear] + [Advance]));
    assert Next(d, Advance) == Turn(a);
  }

  /** A pass is a run. */
  lemma {:induction false} FlushRun(y: Ring) returns (run: seq<Step>)
    requires Shape(y) && y.pc == Top
    ensures RunOk(y, run) && Run(y, run) == FlushFrom(y) && Quiet(run)
    decreases y.head - y.tail
  {
    var first, a := if y.head - y.tail > SIZE then Drop else Check, Tested(y);
    TestedIsStep(y);
    if a.tail == a.head || !Ready(a, a.tail) {
      assert RunOk(a, [Stop]) && Run(a, [Stop]) == Next(a, Stop);
      run := [Stop];
    } else {
      TurnIsRun(a);
      run := FlushRun(Turn(a));
      RunAppend(a, [See] + ([Print] + ([Clear] + [Advance])), run);
      run := [See] + ([Print] + ([Clear] + [Advance])) + run;
    }
    RunCons(y, first, run);
    run := [first] + run;
  }

  lemma PassRun(y: Ring) returns (run: seq<Step>)
    requires Shape(y) && y.pc == Out
    ensures RunOk(y, run) && Run(y, run) == Pass(y) && Quiet(run)
  {
    run := FlushRun(Next(y, Begin));
    RunCons(y, Begin, run);
    run := [Begin] + run;
    FlushForgetsPc(y, Next(y, Begin));
  }

  /** The steps of one pass, up to its end. */
  ghost predicate InPass(y: Ring, run: seq<Step>)
    requires Shape(y) && RunOk(y, run)
    decreases |run|
  {
    if run == [] then y.pc == Out else y.pc != Out && InPass(Next(y, run[0]), run[1..])
  }

  /** Where a pass that has got as far as `y` ends. */
  ghost function Rest(y: Ring): Ring
    requires Shape(y)
  {
    match y.pc
    case Out => y
    case Top => FlushFrom(y)
    case Checked => if y.tail == y.head || !Ready(y, y.tail) then y.(pc := Out) else FlushFrom(Turn(y))
    case Seen => if y.tail == y.head then y else FlushFrom(Turn(y))
    case Printed => if y.tail == y.head then y else FlushFrom(Turn(y).(out := y.out))
    case Cleared => if y.tail == y.head then y else FlushFrom(y.(tail := y.tail + 1, pc := Top))
  }

  lemma StepToRest(y: Ring, step: Step)
    requires Shape(y) && y.pc != Out && Enabled(y, step) && (y.pc in {Seen, Printed} ==> y.tail < y.head)
    ensures Rest(Next(y, step)) == Rest(y)
  {
    match step
    case Clear => assert Turn(y).(out := y.out) == Next(Next(y, Clear), Advance);
    case Print =>
    case Drop => assert Tested(y) == Next(y, Drop);
    case Check => assert Tested(y) == Next(y, Check);
    case _ =>
  }

  lemma {:induction false} PassEnds(y: Ring, run: seq<Step>)
    requires Shape(y) && RunOk(y, run) && InPass(y, run) && (y.pc in {Seen, Printed} ==> y.tail < y.head)
    ensures Run(y, run) == Rest(y)
    decreases |run|
  {
    if run != [] {
      StepToRest(y, run[0]);
      PassEnds(Next(y, run[0]), run[1..]);
    }
  }

  /** Whatever steps a pass takes, from its start to its end it does what `Pass` says. */
  lemma PassIsDetermined(y: Ring, run: seq<Step>)
    requires Shape(y) && y.pc == Out && RunOk(Next(y, Begin), run) && InPass(Next(y, Begin), run)
    ensures Run(Next(y, Begin), run) == Pass(y)
  {
    PassEnds(Next(y, Begin), run);
    FlushForgetsPc(y, Next(y, Begin));
  }

  lemma FlushForgetsPc(y: Ring, t: Ring)
    requires Shape(y) && t == y.(pc := Top)
    ensures FlushFrom(t) == FlushFrom(y)
  {
    assert Tested(t) == Tested(y);
  }

  /** The characters in the slots of positions lo..hi. */
  function Chars(cells: seq<Cell>, lo: nat, hi: nat): (s: string)
    requires |cells| == SIZE && lo <= hi
    ensures |s| == hi - lo && forall i: nat :: i < |s| ==> s[i] == cells[(lo + i) % SIZE].c
  {
    seq(hi - lo, i requires 0 <= i < hi - lo => cells[(lo + i) % SIZE].c)
  }

  /** A printing turn leaves the later slots ready and their characters as they were. */
  lemma TurnKeeps(a: Ring, hi: nat)
    requires Shape(a) && a.tail < hi <= a.head <= a.tail + SIZE && forall j: nat :: a.tail <= j < hi ==> Ready(a, j)
    ensures forall j: nat :: a.tail + 1 <= j < hi ==> Ready(Turn(a), j)
    ensures Turn(a).out + Chars(Turn(a).cells, a.tail + 1, hi) == a.out + Chars(a.cells, a.tail, hi)
  {
    forall j: nat | a.tail + 1 <= j < hi ensures Ready(Turn(a), j) {
      assert Ready(a, j);
      SlotsDiffer(a.tail, j);
    }
    FirstChar(a.cells, Turn(a).cells, a.tail, hi);
  }

  /** With every slot it looks at ready, the rest of a pass prints them all. */
  lemma {:induction false} PrintsReady(y: Ring)
    requires Shape(y) && forall j: nat :: Tested(y).tail <= j < y.head ==> Ready(y, j)
    ensures var r := FlushFrom(y);
      r.out == y.out + Chars(y.cells, Tested(y).tail, y.head) && r.tail == y.head && r.drops == Tested(y).drops
    decreases y.head - y.tail
  {
    var a := Tested(y);
    forall j: nat | a.tail <= j < a.head ensures Ready(a, j) { assert Ready(y, j); }
    if a.tail == a.head {
      assert y.out + Chars(y.cells, a.tail, y.head) == y.out;
    } else {
      assert Ready(a, a.tail);
      TurnKeeps(a, a.head);
      PrintsReady(Turn(a));
    }
  }

  /** Printed characters stay printed. */
  lemma {:induction false} FlushGrows(y: Ring)
    requires Shape(y)
    ensures y.out <= FlushFrom(y).out
    decreases y.head - y.tail
  {
    var a := Tested(y);
    if a.tail < a.head && Ready(a, a.tail) { FlushGrows(Turn(a)); }
  }

  /** With the slots ready up to position `hi`, the rest of a pass prints them, and perhaps more. */
  lemma {:induction false} PrintsThrough(y: Ring, hi: nat)
    requires Shape(y) && Tested(y).tail <= hi <= y.head && forall j: nat :: Tested(y).tail <= j < hi ==> Ready(y, j)
    ensures y.out + Chars(y.cells, Tested(y).tail, hi) <= FlushFrom(y).out
    decreases y.head - y.tail
  {
    var a := Tested(y);
    forall j: nat | a.tail <= j < hi ensures Ready(a, j) { assert Ready(y, j); }
    if a.tail == hi {
      assert y.out + Chars(y.cells, a.tail, hi) == y.out;
      FlushGrows(y);
    } else {
      assert Ready(a, a.tail);
      TurnKeeps(a, hi);
      var b := Turn(a);
      assert Tested(b).tail == a.tail + 1 && FlushFrom(y) == FlushFrom(b);
      ThroughTurn(b, hi);
      PrintsThrough(b, hi);
    }
  }

  lemma ThroughTurn(b: Ring, hi: nat)
    requires Shape(b) && b.head <= b.tail + SIZE && hi <= b.head && forall j: nat :: b.tail <= j < hi ==> Ready(b, j)
    ensures Tested(b).tail == b.tail && forall j: nat :: Tested(b).tail <= j < hi ==> Ready(b, j)
  {
  }

  lemma FirstChar(cells: seq<Cell>, next: seq<Cell>, lo: nat, hi: nat)
    requires |cells| == SIZE && lo < hi && next == cells[lo % SIZE := cells[lo % SIZE].(ready := false)]
    ensures Chars(cells, lo, hi) == [cells[lo % SIZE].c] + Chars(next, lo + 1, hi)
  {
    var s, t := Chars(cells, lo, hi), [cells[lo % SIZE].c] + Chars(next, lo + 1, hi);
    forall i: nat | i < hi - lo ensures s[i] == t[i] {
      if i > 0 { assert lo + 1 + (i - 1) == lo + i; }
    }
  }

  /** After an overrun, with the newest SIZE slots all ready, a pass prints a mark and what those slots hold. */
  lemma PrintsAfterMark(y: Ring)
    requires Shape(y) && y.head - y.tail > SIZE && forall j: nat :: y.head - SIZE <= j < y.head ==> Ready(y, j)
    ensures var r := Pass(y);
      r.out == y.out + Chars(y.cells, y.head - SIZE, y.head) && r.drops == y.drops + 1 && r.tail == y.head
  {
    PrintsReady(y);
  }

  /** One pass prints the published characters up to the first unpublished one, and no further. */
  lemma {:induction false} PassPrintsPublished(y: Ring)
    requires Inv(y) && (y.pc == Out || y.pc == Top)
    ensures var r := Pass(y);
      && Inv(r) && y.tail <= r.tail && r.out == r.stream[..r.tail]
      && (forall j: nat :: y.tail <= j < r.tail ==> y.phase[j] == Published)
      && (r.tail == y.head || y.phase[r.tail] != Published)
    decreases y.head - y.tail
  {
    var t := y.(pc := Top);
    if y.pc == Out { LookKeeps(y, Begin); }
    FlushForgetsPc(y, t);
    LookKeeps(t, Check);
    var a := Tested(y);
    assert a == Next(t, Check);
    assert a.tail < a.head ==> CellOk(a, a.tail);
    if a.tail == a.head || !Ready(a, a.tail) {
      LookKeeps(a, Stop);
    } else {
      TurnInv(a);
      PassPrintsPublished(Turn(a));
    }
  }

  lemma TurnInv(a: Ring)
    requires Inv(a) && a.pc == Checked && Enabled(a, See)
    ensures Inv(Turn(a))
  {
    LookKeeps(a, See);
    var b := Next(a, See);
    LookKeeps(b, Print);
    var c := Next(b, Print);
    ClearKeeps(c);
    AdvanceKeeps(Next(c, Clear));
    assert Next(Next(c, Clear), Advance) == Turn(a);
  }

  // ---- the calls in progress finish -------------------------------------------------------------------------------

  /** Only calls in progress step: no reservation, no flush. */
  ghost predicate Settling(run: seq<Step>)
  {
    forall k: nat :: k < |run| ==> run[k].Store? || run[k].Publish?
  }

  /** What storing and publishing leave as it was. */
  ghost predicate SameFrame(y: Ring, r: Ring)
  {
    r.head == y.head && r.tail == y.tail && r.pc == y.pc && r.stream == y.stream && r.owner == y.owner
    && r.out == y.out && r.drops == y.drops && r.writers.Keys == y.writers.Keys
  }

  /** What the run of one call leaves as it was. */
  ghost predicate OnlyCall(y: Ring, r: Ring, w: nat)
    requires Shape(y) && Shape(r)
  {
    && SameFrame(y, r)
    && (forall x :: x in y.writers && x != w ==> x in r.writers && r.writers[x] == y.writers[x])
    && (forall j: nat :: j < y.head && y.owner[j] != w ==> r.phase[j] == y.phase[j])
  }

  ghost predicate Finished(y: Ring, w: nat)
  {
    w in y.writers && y.writers[w].done == |y.writers[w].text|
  }

  lemma OneCallStep(y: Ring, step: Step)
    requires Hist(y) && Enabled(y, step) && (step.Store? || step.Publish?)
    ensures Hist(Next(y, step)) && OnlyCall(y, Next(y, step), step.w)
  {
    PutHist(y, step);
    WriterPosition(y, step.w);
    assert Next(y, step).writers.Keys == y.writers.Keys;
  }

  /** A call can always go on until `n` of its characters are published, whatever the slots hold. */
  lemma {:induction false} WriteUpTo(y: Ring, w: nat, n: nat) returns (run: seq<Step>)
    requires Hist(y) && y.pc == Out && w in y.writers && y.writers[w].done <= n <= |y.writers[w].text|
    requires y.writers[w].stored ==> y.writers[w].done < n
    ensures RunOk(y, run) && Settling(run) && Hist(Run(y, run)) && OnlyCall(y, Run(y, run), w)
    ensures Run(y, run).writers[w] == y.writers[w].(done := n, stored := false)
    decreases 2 * (n - y.writers[w].done) - if y.writers[w].stored then 1 else 0
  {
    if y.writers[w].done == n {
      run := [];
    } else {
      var step := if y.writers[w].stored then Publish(w) else Store(w);
      OneCallStep(y, step);
      assert w in Next(y, step).writers;
      run := WriteUpTo(Next(y, step), w, n);
      RunCons(y, step, run);
      run := [step] + run;
    }
  }

  /** A call can always finish. */
  lemma FinishOne(y: Ring, w: nat) returns (run: seq<Step>)
    requires Hist(y) && y.pc == Out && w in y.writers
    ensures RunOk(y, run) && Settling(run) && Hist(Run(y, run)) && OnlyCall(y, Run(y, run), w) && Finished(Run(y, run), w)
  {
    assert WriterOk(y, w);
    run := WriteUpTo(y, w, |y.writers[w].text|);
  }

  ghost function Unfinished(y: Ring): set<nat>
  {
    set w | w in y.writers && y.writers[w].done < |y.writers[w].text|
  }

  /** All calls in progress can finish but those of `skip`, which do nothing meanwhile. */
  lemma {:induction false} FinishBut(y: Ring, skip: set<nat>) returns (run: seq<Step>)
    requires Hist(y) && y.pc == Out
    ensures RunOk(y, run) && Settling(run) && Hist(Run(y, run)) && Run(y, run).writers.Keys == y.writers.Keys
    ensures forall x :: x in y.writers && x in skip ==> Run(y, run).writers[x] == y.writers[x]
    ensures Unfinished(Run(y, run)) <= skip
    decreases |Unfinished(y) - skip|
  {
    if w :| w in Unfinished(y) - skip {
      run := FinishOne(y, w);
      var r := Run(y, run);
      assert w !in Unfinished(r) && Unfinished(r) <= Unfinished(y);
      FewerLeft(Unfinished(r) - skip, Unfinished(y) - skip, w);
      var rest := FinishBut(r, skip);
      RunAppend(y, run, rest);
      run := run + rest;
    } else {
      run := [];
      forall w | w in Unfinished(y) ensures w in skip { assert w !in Unfinished(y) - skip; }
    }
  }

  /** All calls in progress can finish. */
  lemma FinishAll(y: Ring) returns (run: seq<Step>)
    requires Hist(y) && y.pc == Out
    ensures RunOk(y, run) && Settling(run) && AllDone(Run(y, run))
  {
    run := FinishBut(y, {});
    var r := Run(y, run);
    NoneLeft(r);
  }

  lemma NoneLeft(r: Ring)
    requires Hist(r) && Unfinished(r) <= {}
    ensures AllDone(r)
  {
    forall w | w in r.writers ensures r.writers[w].done == |r.writers[w].text| { assert WriterOk(r, w) && w !in Unfinished(r); }
  }

  lemma FewerLeft(a: set<nat>, b: set<nat>, w: nat)
    requires a <= b && w in b && w !in a
    ensures |a| < |b|
  {
    assert a <= b - {w};
    SubsetSize(a, b - {w});
  }

  lemma {:induction false} SubsetSize(a: set<nat>, b: set<nat>)
    requires a <= b
    ensures |a| <= |b|
  {
    if x :| x in a { SubsetSize(a - {x}, b - {x}); }
  }

  // ---- an overrun ---------------------------------------------------------------------------------------------

  /** What slot `j % SIZE` has seen of position `j`: its character once stored, its flag once published. */
  ghost predicate Holds(y: Ring, j: nat)
    requires Shape(y) && j < y.head
  {
    && (y.phase[j] != Reserved ==> y.cells[j % SIZE].c == y.stream[j])
    && (y.phase[j] == Published ==> y.cells[j % SIZE].ready)
  }

  /** More than SIZE characters are outstanding, at most twice as many. */
  ghost predicate Overrun(y: Ring)
  {
    && Hist(y) && y.pc == Out && y.tail + SIZE < y.head <= y.tail + 2 * SIZE
    && forall j: nat :: j < y.tail ==> y.phase[j] == Published
  }

  /** No call still has to store a character into a slot that a newer character uses, unless it is the same one. */
  ghost predicate Unraced(y: Ring)
    requires Shape(y)
  {
    forall q: nat :: y.tail <= q && q + SIZE < y.head ==> y.phase[q] != Reserved || y.stream[q] == y.stream[q + SIZE]
  }

  ghost predicate NewestHold(y: Ring)
    requires Shape(y) && y.head >= SIZE
  {
    forall j: nat :: y.head - SIZE <= j < y.head ==> Holds(y, j)
  }

  /** The overrunning reservation itself disturbs no slot. */
  lemma ReserveOverruns(y: Ring, w: nat, text: string)
    requires Inv(y) && Enabled(y, Reserve(w, text)) && !Room(y, Reserve(w, text))
    ensures var r := Next(y, Reserve(w, text)); Overrun(r) && NewestHold(r)
  {
    var r := Next(y, Reserve(w, text));
    ReserveHist(y, w, text);
    forall j: nat | r.head - SIZE <= j < r.head ensures Holds(r, j) {
      if j < y.head { assert CellOk(y, j); }
    }
  }

  /** The position a step of a call works on. */
  ghost function Position(y: Ring, step: Step): nat
    requires (step.Store? || step.Publish?) && step.w in y.writers
  {
    y.writers[step.w].start + y.writers[step.w].done
  }

  /** What a store or a publish of position `s` does to the slots and the history. */
  ghost predicate Put(y: Ring, r: Ring, s: nat, store: bool)
    requires Shape(y) && Shape(r)
  {
    && SameFrame(y, r) && y.tail <= s < y.head
    && (if store then y.phase[s] == Reserved && r.phase == y.phase[s := Stored]
        else y.phase[s] == Stored && r.phase == y.phase[s := Published])
    && r.cells == y.cells[s % SIZE := if store then y.cells[s % SIZE].(c := y.stream[s]) else y.cells[s % SIZE].(ready := true)]
  }

  lemma PutAt(y: Ring, step: Step)
    requires Hist(y) && Enabled(y, step) && (step.Store? || step.Publish?)
    requires forall j: nat :: j < y.tail ==> y.phase[j] == Published
    ensures Put(y, Next(y, step), Position(y, step), step.Store?)
  {
    WriterPosition(y, step.w);
    assert Next(y, step).writers.Keys == y.writers.Keys;
  }

  lemma OverrunStays(y: Ring, step: Step)
    requires Overrun(y) && Enabled(y, step) && (step.Store? || step.Publish?)
    ensures Overrun(Next(y, step)) && Put(y, Next(y, step), Position(y, step), step.Store?)
  {
    PutAt(y, step);
    PutHist(y, step);
  }

  /** Without a race, a store or a publish keeps the newest characters in their slots. */
  lemma UnracedPut(y: Ring, r: Ring, s: nat, store: bool)
    requires Shape(y) && Shape(r) && y.tail + SIZE < y.head <= y.tail + 2 * SIZE
    requires Unraced(y) && NewestHold(y) && Put(y, r, s, store)
    ensures Unraced(r) && NewestHold(r)
  {
    var p := if s < y.head - SIZE then s + SIZE else s;
    assert p % SIZE == s % SIZE;
    forall j: nat | r.head - SIZE <= j < r.head ensures Holds(r, j) {
      assert Holds(y, j);
      if j < p { SlotsDiffer(j, p); } else if p < j { SlotsDiffer(p, j); }
    }
  }

  lemma {:induction false} UnracedRun(y: Ring, run: seq<Step>)
    requires Overrun(y) && Unraced(y) && NewestHold(y) && RunOk(y, run) && Settling(run)
    ensures var r := Run(y, run); Overrun(r) && SameFrame(y, r) && NewestHold(r)
    decreases |run|
  {
    if run != [] {
      OverrunStays(y, run[0]);
      UnracedPut(y, Next(y, run[0]), Position(y, run[0]), run[0].Store?);
      UnracedRun(Next(y, run[0]), run[1..]);
    }
  }

  /** Once all calls are done the newest slots are ready. */
  lemma DoneIsReady(y: Ring)
    requires Hist(y) && AllDone(y)
    ensures forall j: nat :: j < y.head ==> y.phase[j] == Published
  {
    forall j: nat | j < y.head ensures y.phase[j] == Published {
      assert Pending(y, j);
    }
  }

  /** The pass after the calls are done prints a mark and exactly the newest SIZE characters. */
  ghost predicate PrintsNewest(y: Ring, r: Ring)
    requires Shape(r) && y.head >= SIZE && |y.stream| == y.head
  {
    var p := Pass(r);
    p.drops == y.drops + 1 && p.tail == p.head == y.head && p.out == y.out + y.stream[y.head - SIZE..]
  }

  lemma UnracedPrints(y: Ring, run: seq<Step>)
    requires Overrun(y) && Unraced(y) && NewestHold(y) && RunOk(y, run) && Settling(run) && AllDone(Run(y, run))
    ensures PrintsNewest(y, Run(y, run))
  {
    var r := Run(y, run);
    UnracedRun(y, run);
    DoneIsReady(r);
    forall j: nat | r.head - SIZE <= j < r.head ensures Ready(r, j) && r.cells[j % SIZE].c == r.stream[j] { assert Holds(r, j); }
    PrintsAfterMark(r);
    NewestChars(r);
  }

  lemma NewestChars(r: Ring)
    requires Shape(r) && r.head >= SIZE && forall j: nat :: r.head - SIZE <= j < r.head ==> Holds(r, j) && r.phase[j] == Published
    ensures Chars(r.cells, r.head - SIZE, r.head) == r.stream[r.head - SIZE..]
  {
    var lo := r.head - SIZE;
    forall i: nat | i < SIZE ensures Chars(r.cells, lo, r.head)[i] == r.stream[lo..][i] { assert Holds(r, lo + i); }
  }

  // ---- a race misprints -------------------------------------------------------------------------------------------

  /** Position `q` is stored after the newer position that shares its slot. */
  ghost predicate Late(y: Ring, q: nat)
    requires Shape(y)
  {
    && y.tail <= q && q + SIZE < y.head && y.phase[q + SIZE] == Published
    && (y.phase[q] != Reserved ==> y.cells[q % SIZE].c == y.stream[q])
  }

  ghost predicate Flagged(y: Ring)
    requires Shape(y) && y.head >= SIZE
  {
    forall j: nat :: y.head - SIZE <= j < y.head && y.phase[j] == Published ==> Ready(y, j)
  }

  lemma FlaggedPut(y: Ring, r: Ring, s: nat, store: bool)
    requires Shape(y) && Shape(r) && y.head >= SIZE && Flagged(y) && Put(y, r, s, store)
    ensures Flagged(r)
  {
    forall j: nat | r.head - SIZE <= j < r.head && r.phase[j] == Published ensures Ready(r, j) {
      assert j != s ==> Ready(y, j);
    }
  }

  lemma LatePut(y: Ring, r: Ring, q: nat, s: nat, store: bool)
    requires Shape(y) && Shape(r) && y.head <= y.tail + 2 * SIZE && Late(y, q) && Put(y, r, s, store)
    ensures Late(r, q)
  {
    if s != q && s != q + SIZE {
      if s < q { SlotsDiffer(s, q); }
      else if s < q + SIZE { SlotsDiffer(q, s); }
      else { SlotsDiffer(q + SIZE, s); assert (q + SIZE) % SIZE == q % SIZE; }
    }
  }

  lemma {:induction false} FlaggedRun(y: Ring, run: seq<Step>)
    requires Overrun(y) && Flagged(y) && RunOk(y, run) && Settling(run)
    ensures var r := Run(y, run); Overrun(r) && SameFrame(y, r) && Flagged(r)
    decreases |run|
  {
    if run != [] {
      var r := Next(y, run[0]);
      OverrunStays(y, run[0]);
      FlaggedPut(y, r, Position(y, run[0]), run[0].Store?);
      FlaggedRun(r, run[1..]);
    }
  }

  lemma {:induction false} LateRun(y: Ring, run: seq<Step>, q: nat)
    requires Overrun(y) && Late(y, q) && RunOk(y, run) && Settling(run)
    ensures var r := Run(y, run); Late(r, q) && r.stream == y.stream
    decreases |run|
  {
    if run != [] {
      var r := Next(y, run[0]);
      OverrunStays(y, run[0]);
      LatePut(y, r, q, Position(y, run[0]), run[0].Store?);
      LateRun(r, run[1..], q);
    }
  }

  /** Once the newer call has finished, a character still to be stored in its slot comes late. */
  lemma NewerFirst(y: Ring, w: nat, q: nat) returns (run: seq<Step>)
    requires Overrun(y) && w in y.writers && y.tail <= q && q + SIZE < y.head
    requires y.phase[q] == Reserved && y.owner[q] != w && y.owner[q + SIZE] == w
    ensures RunOk(y, run) && Settling(run) && Hist(Run(y, run)) && Late(Run(y, run), q)
  {
    run := FinishOne(y, w);
    var r := Run(y, run);
    assert Pending(r, q + SIZE);
  }

  /** A pass over a late slot prints the older character in place of the newer one. */
  lemma LatePrints(y: Ring, q: nat)
    requires Overrun(y) && Flagged(y) && Late(y, q) && AllDone(y)
    ensures var p := Pass(y);
      && p.drops == y.drops + 1 && p.tail == p.head == y.head && |p.out| == |y.out| + SIZE
      && p.out[|y.out| + q + 2 * SIZE - y.head] == y.stream[q]
  {
    DoneIsReady(y);
    forall j: nat | y.head - SIZE <= j < y.head ensures Ready(y, j) { assert y.phase[j] == Published; }
    PrintsAfterMark(y);
    var i := q + 2 * SIZE - y.head;
    assert y.head - SIZE + i == q + SIZE && (q + SIZE) % SIZE == q % SIZE;
    assert Chars(y.cells, y.head - SIZE, y.head)[i] == y.stream[q];
  }

  /** A race can go wrong: the calls finish in an order after which the pass prints an older character in place of a newer
      one. */
  lemma RaceMisprints(y: Ring, w: nat, q: nat) returns (run: seq<Step>)
    requires Overrun(y) && Flagged(y) && w in y.writers && y.tail <= q && q + SIZE < y.head
    requires y.phase[q] == Reserved && y.owner[q] != w && y.owner[q + SIZE] == w
    ensures RunOk(y, run) && Settling(run) && AllDone(Run(y, run))
    ensures var p := Pass(Run(y, run));
      && p.drops == y.drops + 1 && p.tail == p.head == y.head && |p.out| == |y.out| + SIZE
      && p.out[|y.out| + q + 2 * SIZE - y.head] == y.stream[q]
  {
    var first := NewerFirst(y, w, q);
    FlaggedRun(y, first);
    var m := Run(y, first);
    var rest := FinishAll(m);
    FlaggedRun(m, rest);
    LateRun(m, rest, q);
    RunAppend(y, first, rest);
    run := first + rest;
    LatePrints(Run(m, rest), q);
  }

  /** Every order in which the calls in progress can finish, when no pass begins before they have, is followed by a pass
      that prints a mark and exactly the newest SIZE characters. */
  ghost predicate AlwaysNewest(y: Ring)
    requires Overrun(y)
  {
    forall run :: RunOk(y, run) && Settling(run) && AllDone(Run(y, run)) ==> PrintsNewest(y, Run(y, run))
  }

  lemma UnracedIsNewest(r: Ring)
    requires Overrun(r) && NewestHold(r) && Unraced(r)
    ensures AlwaysNewest(r)
  {
    forall run | RunOk(r, run) && Settling(run) && AllDone(Run(r, run)) ensures PrintsNewest(r, Run(r, run)) {
      UnracedPrints(r, run);
    }
  }

  lemma RacedIsNotNewest(r: Ring, w: nat, q: nat)
    requires Overrun(r) && Flagged(r) && w in r.writers && r.tail <= q && q + SIZE < r.head
    requires r.phase[q] == Reserved && r.owner[q] != w && r.owner[q + SIZE] == w && r.stream[q] != r.stream[q + SIZE]
    ensures !AlwaysNewest(r)
  {
    var run := RaceMisprints(r, w, q);
    assert (r.out + r.stream[r.head - SIZE..])[|r.out| + q + 2 * SIZE - r.head] == r.stream[q + SIZE];
    assert !PrintsNewest(r, Run(r, run));
  }

  /** After a reservation that overruns the ring, when no pass begins before the calls in progress have finished, the next
      one prints a mark and exactly the newest SIZE characters, in whatever order they finish, if and only if none of them
      still had to store a different character into a slot the reservation uses again. */
  lemma OverrunIff(y: Ring, w: nat, text: string)
    requires Inv(y) && Enabled(y, Reserve(w, text)) && !Room(y, Reserve(w, text))
    ensures Overrun(Next(y, Reserve(w, text)))
    ensures AlwaysNewest(Next(y, Reserve(w, text))) <==> Unraced(Next(y, Reserve(w, text)))
  {
    var r := Next(y, Reserve(w, text));
    ReserveOverruns(y, w, text);
    if Unraced(r) {
      UnracedIsNewest(r);
    } else {
      RacedReservation(y, w, text, r);
    }
  }

  lemma RacedReservation(y: Ring, w: nat, text: string, r: Ring)
    requires Inv(y) && Enabled(y, Reserve(w, text)) && !Room(y, Reserve(w, text)) && r == Next(y, Reserve(w, text))
    requires Overrun(r) && !Unraced(r) && r.tail == y.tail
    ensures !AlwaysNewest(r)
  {
    var q: nat :| r.tail <= q && q + SIZE < r.head && r.phase[q] == Reserved && r.stream[q] != r.stream[q + SIZE];
    RacedPosition(y, w, text, q);
    RacedIsNotNewest(r, w, q);
  }

  lemma RacedPosition(y: Ring, w: nat, text: string, q: nat)
    requires Inv(y) && Enabled(y, Reserve(w, text)) && !Room(y, Reserve(w, text))
    requires var r := Next(y, Reserve(w, text)); y.tail <= q && q + SIZE < r.head && r.phase[q] == Reserved
    ensures var r := Next(y, Reserve(w, text)); r.owner[q] != w && r.owner[q + SIZE] == w && w in r.writers && Flagged(r)
  {
    var r := Next(y, Reserve(w, text));
    assert Pending(y, q);
    ReserveOverruns(y, w, text);
    forall j: nat | r.head - SIZE <= j < r.head && r.phase[j] == Published ensures Ready(r, j) { assert Holds(r, j); }
  }

  /** Such an order of the calls, with the pass that follows, as one run. */
  lemma RacedRun(r: Ring, w: nat, q: nat) returns (run: seq<Step>)
    requires Overrun(r) && Flagged(r) && w in r.writers && r.tail <= q && q + SIZE < r.head
    requires r.phase[q] == Reserved && r.owner[q] != w && r.owner[q + SIZE] == w
    ensures RunOk(r, run)
    ensures var p := Run(r, run);
      && p.drops == r.drops + 1 && p.head == r.head && p.stream == r.stream && |p.out| == |r.out| + SIZE
      && p.out[|r.out| + q + 2 * SIZE - r.head] == r.stream[q]
  {
    run := RaceMisprints(r, w, q);
    FlaggedRun(r, run);
    var pass := PassRun(Run(r, run));
    RunAppend(r, run, pass);
    run := run + pass;
  }

  /** A first call reserves the whole ring, a second one a character more. */
  lemma TwoCalls() returns (run: seq<Step>, r: Ring)
    ensures RunOk(Empty(), run) && Run(Empty(), run) == r && Overrun(r) && Flagged(r) && 1 in r.writers
    ensures r.tail == 0 && r.head == SIZE + 1 && r.phase[0] == Reserved && r.owner[0] != 1 && r.owner[SIZE] == 1
    ensures r.out == "" && r.drops == 0 && r.stream[0] == 'a' && r.stream[SIZE] == 'b'
  {
    var text := seq(SIZE, _ => 'a');
    var y := Next(Empty(), Reserve(0, text));
    ReserveKeeps(Empty(), 0, text);
    r := Next(y, Reserve(1, "b"));
    ReserveOverruns(y, 1, "b");
    RacedPosition(y, 1, "b", 0);
    run := TwoSteps(Empty(), Reserve(0, text), Reserve(1, "b"));
  }

  lemma TwoSteps(y: Ring, s: Step, t: Step) returns (run: seq<Step>)
    requires Shape(y) && Enabled(y, s) && Enabled(Next(y, s), t)
    ensures RunOk(y, run) && Run(y, run) == Next(Next(y, s), t)
  {
    var m := Next(y, s);
    assert [t][1..] == [];
    assert RunOk(m, [t]) && Run(m, [t]) == Next(m, t);
    RunCons(y, s, [t]);
    run := [s] + [t];
  }

  /** The failure from an empty ring: the second call finishes first; after the first has finished too, the pass prints its
      first character in place of the second call's. */
  lemma OverrunMisprints() returns (run: seq<Step>)
    ensures RunOk(Empty(), run)
    ensures var r := Run(Empty(), run);
      r.drops == 1 && r.head == SIZE + 1 && r.stream[SIZE] == 'b' && |r.out| == SIZE && r.out[SIZE - 1] == 'a'
  {
    var r;
    run, r := TwoCalls();
    var rest := RacedRun(r, 1, 0);
    RunAppend(Empty(), run, rest);
    run := run + rest;
  }
}
