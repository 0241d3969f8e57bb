/** The kernel log ring of drivers/video/kring.c as a protocol: writers reserve slots under a lock, fill and
    publish them outside it, and one flusher prints published slots in order. Every store is a step of its own.
    A flush pass holds its lock with interrupts off on the one processor, so writers step only between passes. */
module KringProtocol {

  const SIZE: nat := 4096

  datatype Cell = Cell(c: char, ready: bool)

  /** A call of `kring_write`: its text, where it was reserved, how many characters are published, and whether
      the next one has been stored but not yet published. */
  datatype Writer = Writer(start: nat, text: string, done: nat, stored: bool)

  /** Where the flusher is: between passes, or in a pass at the top of its loop, past the overrun test, past the ready
      test, after printing, after clearing the flag. */
  datatype Pc = Out | Top | Checked | Seen | Printed | Cleared

  /** History of a stream position. */
  datatype Phase = Reserved | Stored | Published

  /** `stream` is the text in reservation order, `phase` and `owner` its history, `out` the characters printed
      from slots, `drops` the number of "[drop]" marks printed. */
  datatype Ring = Ring(
    head: nat, tail: nat, cells: seq<Cell>, writers: map<nat, Writer>, pc: Pc,
    stream: string, phase: seq<Phase>, owner: seq<nat>, out: string, drops: nat)

  /** `w` names one call of `kring_write`; its text is already cut to SIZE characters and not empty. */
  datatype Step =
    | Reserve(w: nat, text: string) | Store(w: nat) | Publish(w: nat)
    | Begin | Drop | Check | Stop | See | Print | Clear | Advance

  ghost predicate Shape(y: Ring)
  {
    |y.cells| == SIZE && |y.stream| == |y.phase| == |y.owner| == y.head && y.tail <= y.head
  }

  function Empty(): Ring
  {
    Ring(0, 0, seq(SIZE, _ => Cell('\0', false)), map[], Out, "", [], [], "", 0)
  }

  ghost predicate Enabled(y: Ring, step: Step)
    requires Shape(y)
  {
    match step
    case Reserve(w, text) => y.pc == Out && w !in y.writers && 0 < |text| <= SIZE
    case Store(w) => y.pc == Out && w in y.writers && y.writers[w].done < |y.writers[w].text| && !y.writers[w].stored
    case Publish(w) => y.pc == Out && w in y.writers && y.writers[w].done < |y.writers[w].text| && y.writers[w].stored
    case Begin => y.pc == Out
    case Drop => y.pc == Top && y.head - y.tail > SIZE
    case Check => y.pc == Top && y.head - y.tail <= SIZE
    case Stop => y.pc == Checked && (y.tail == y.head || !y.cells[y.tail % SIZE].ready)
    case See => y.pc == Checked && y.tail != y.head && y.cells[y.tail % SIZE].ready
    case Print => y.pc == Seen
    case Clear => y.pc == Printed
    case Advance => y.pc == Cleared && y.tail < y.head
  }

  ghost function Next(y: Ring, step: Step): (r: Ring)
    requires Shape(y) && Enabled(y, step)
    ensures Shape(r)
  {
    match step
    case Reserve(w, text) =>
      y.(head := y.head + |text|, writers := y.writers[w := Writer(y.head, text, 0, false)],
         stream := y.stream + text, phase := y.phase + seq(|text|, _ => Reserved), owner := y.owner + seq(|text|, _ => w))
    case Store(w) =>
      var wr := y.writers[w];
      var j := wr.start + wr.done;
      y.(cells := y.cells[j % SIZE := y.cells[j % SIZE].(c := wr.text[wr.done])],
         writers := y.writers[w := wr.(stored := true)],
         phase := if j < |y.phase| then y.phase[j := Stored] else y.phase)
    case Publish(w) =>
      var wr := y.writers[w];
      var j := wr.start + wr.done;
      y.(cells := y.cells[j % SIZE := y.cells[j % SIZE].(ready := true)],
         writers := y.writers[w := wr.(done := wr.done + 1, stored := false)],
         phase := if j < |y.phase| then y.phase[j := Published] else y.phase)
    case Begin => y.(pc := Top)
    case Drop => y.(tail := y.head - SIZE, drops := y.drops + 1, pc := Checked)
    case Check => y.(pc := Checked)
    case Stop => y.(pc := Out)
    case See => y.(pc := Seen)
    case Print => y.(out := y.out + [y.cells[y.tail % SIZE].c], pc := Printed)
    case Clear => y.(cells := y.cells[y.tail % SIZE := y.cells[y.tail % SIZE].(ready := false)], pc := Cleared)
    case Advance => y.(tail := y.tail + 1, pc := Top)
  }

  /** A reservation that leaves at most SIZE characters outstanding. The code does not test for it. */
  ghost predicate Room(y: Ring, step: Step)
  {
    step.Reserve? ==> y.head + |step.text| <= y.tail + SIZE
  }

  /** What the log promises: characters come out in the order they were reserved, once each, none missing. */
  ghost predicate Faithful(y: Ring)
  {
    y.drops == 0 && y.out <= y.stream
  }

  // ---- the invariant ------------------------------------------------------------------------------------

  /** What slot `j % SIZE` holds for stream position `j` of the outstanding window. */
  ghost predicate CellOk(y: Ring, j: nat)
    requires Shape(y) && j < y.head
  {
    var cell := y.cells[j % SIZE];
    match y.phase[j]
    case Reserved => !cell.ready
    case Stored => cell == Cell(y.stream[j], false)
    case Published => if j == y.tail && y.pc == Cleared then !cell.ready else cell == Cell(y.stream[j], true)
  }

  ghost predicate WriterOk(y: Ring, w: nat)
    requires Shape(y) && w in y.writers
  {
    var wr := y.writers[w];
    && wr.start + |wr.text| <= y.head && wr.done <= |wr.text| && (wr.stored ==> wr.done < |wr.text|)
    && (forall j: nat :: wr.start <= j < wr.start + |wr.text| ==> y.owner[j] == w && y.stream[j] == wr.text[j - wr.start])
    && (forall j: nat :: wr.start + wr.done <= j < wr.start + |wr.text| ==>
          y.phase[j] == if j == wr.start + wr.done && wr.stored then Stored else Reserved)
  }

  /** A slot beyond the outstanding window. */
  ghost predicate Vacant(y: Ring, j: nat)
    requires Shape(y)
  {
    !y.cells[j % SIZE].ready
  }

  /** A position not yet published still waits for the call that reserved it. */
  ghost predicate Pending(y: Ring, j: nat)
    requires Shape(y) && j < y.head
  {
    y.phase[j] != Published ==>
      var w := y.owner[j];
      w in y.writers && y.writers[w].start + y.writers[w].done <= j < y.writers[w].start + |y.writers[w].text|
  }

  /** The calls and the history agree. Writers and flusher keep this whatever happens to the slots. */
  ghost predicate Hist(y: Ring)
  {
    && Shape(y)
    && (forall j: nat :: j < y.head ==> Pending(y, j))
    && (forall w :: w in y.writers ==> WriterOk(y, w))
  }

  /** At most SIZE characters are outstanding, their slots hold them, and what was printed is what was flushed. */
  ghost predicate Inv(y: Ring)
  {
    && Hist(y) && y.head <= y.tail + SIZE && y.drops == 0
    && (forall j: nat :: j < y.tail ==> y.phase[j] == Published)
    && (y.pc == Seen || y.pc == Printed || y.pc == Cleared ==> y.tail < y.head && y.phase[y.tail] == Published)
    && y.out == y.stream[..y.tail + if y.pc == Printed || y.pc == Cleared then 1 else 0]
    && (forall j: nat :: y.tail <= j < y.head ==> CellOk(y, j))
    && (forall j: nat :: y.head <= j < y.tail + SIZE ==> Vacant(y, j))
  }

  /** Positions less than SIZE apart use different slots. */
  lemma SlotsDiffer(a: nat, b: nat)
    requires a < b < a + SIZE
    ensures a % SIZE != b % SIZE
  {
  }

  // ---- every step keeps the history -------------------------------------------------------------------------

  lemma ReserveHist(y: Ring, w: nat, text: string)
    requires Hist(y) && Enabled(y, Reserve(w, text))
    ensures Hist(Next(y, Reserve(w, text)))
  {
    var r := Next(y, Reserve(w, text));
    forall j: nat | j < r.head ensures Pending(r, j) { if j < y.head { assert Pending(y, j); } }
    ReserveWriters(y, r, w, text);
  }

  lemma ReserveWriters(y: Ring, r: Ring, w: nat, text: string)
    requires Hist(y) && Enabled(y, Reserve(w, text)) && r == Next(y, Reserve(w, text))
    ensures forall x :: x in r.writers ==> WriterOk(r, x)
  {
    forall x | x in r.writers ensures WriterOk(r, x) { if x != w { assert WriterOk(y, x); } }
  }

  /** The position a call is about to store or publish. */
  lemma WriterPosition(y: Ring, w: nat)
    requires Hist(y) && w in y.writers && y.writers[w].done < |y.writers[w].text|
    ensures var j := y.writers[w].start + y.writers[w].done;
      && j < y.head && y.phase[j] == (if y.writers[w].stored then Stored else Reserved)
      && y.owner[j] == w && y.stream[j] == y.writers[w].text[y.writers[w].done]
  {
    assert WriterOk(y, w);
    var j := y.writers[w].start + y.writers[w].done;
    assert y.owner[j] == w;
    assert y.phase[j] != Published;
  }

  /** A call's own step: its next position goes from reserved to stored, or from stored to published. */
  ghost predicate OwnStep(y: Ring, r: Ring, w: nat)
    requires Hist(y) && Shape(r)
  {
    && w in y.writers && y.writers[w].done < |y.writers[w].text|
    && r.head == y.head && r.stream == y.stream && r.owner == y.owner
    && var wr := y.writers[w];
       var j := wr.start + wr.done;
       && j < y.head && r.phase == y.phase[j := r.phase[j]]
       && ((r.writers == y.writers[w := wr.(stored := true)] && !wr.stored && r.phase[j] == Stored)
           || (r.writers == y.writers[w := wr.(done := wr.done + 1, stored := false)] && wr.stored && r.phase[j] == Published))
  }

  lemma OwnStepWriters(y: Ring, r: Ring, w: nat)
    requires Hist(y) && Shape(r) && OwnStep(y, r, w)
    ensures forall x :: x in r.writers ==> WriterOk(r, x)
  {
    var j := y.writers[w].start + y.writers[w].done;
    WriterPosition(y, w);
    forall x | x in r.writers ensures WriterOk(r, x) {
      assert WriterOk(y, x);
      var ot := y.writers[x];
      assert x != w ==> !(ot.start <= j < ot.start + |ot.text|);
    }
  }

  lemma OwnStepHist(y: Ring, r: Ring, w: nat)
    requires Hist(y) && Shape(r) && OwnStep(y, r, w)
    ensures Hist(r)
  {
    WriterPosition(y, w);
    OwnStepWriters(y, r, w);
    forall k: nat | k < r.head ensures Pending(r, k) { assert Pending(y, k); }
  }

  lemma PutHist(y: Ring, step: Step)
    requires Hist(y) && Enabled(y, step) && (step.Store? || step.Publish?)
    ensures Hist(Next(y, step)) && OwnStep(y, Next(y, step), step.w)
  {
    WriterPosition(y, step.w);
    OwnStepHist(y, Next(y, step), step.w);
  }

  /** Flusher steps leave the calls and the history alone. */
  lemma SameHist(y: Ring, r: Ring)
    requires Hist(y) && Shape(r) && r.writers == y.writers && r.phase == y.phase && r.owner == y.owner
    requires r.stream == y.stream && r.head == y.head
    ensures Hist(r)
  {
    forall x | x in r.writers ensures WriterOk(r, x) { assert WriterOk(y, x); }
    forall k: nat | k < r.head ensures Pending(r, k) { assert Pending(y, k); }
  }

  lemma StepHist(y: Ring, step: Step)
    requires Hist(y) && Enabled(y, step)
    ensures Hist(Next(y, step))
  {
    match step
    case Reserve(w, text) => ReserveHist(y, w, text);
    case Store(w) => PutHist(y, step);
    case Publish(w) => PutHist(y, step);
    case _ => SameHist(y, Next(y, step));
  }

  // ---- with room, every step keeps the slots ----------------------------------------------------------------

  lemma ReserveKeeps(y: Ring, w: nat, text: string)
    requires Inv(y) && Enabled(y, Reserve(w, text)) && Room(y, Reserve(w, text))
    ensures Inv(Next(y, Reserve(w, text)))
  {
    var r := Next(y, Reserve(w, text));
    ReserveHist(y, w, text);
    forall j: nat | r.tail <= j < r.head ensures CellOk(r, j) {
      if j < y.head { assert CellOk(y, j); } else { assert Vacant(y, j); }
    }
    forall j: nat | r.head <= j < r.tail + SIZE ensures Vacant(r, j) { assert Vacant(y, j); }
  }

  /** A change at the slot and in the history of one position leaves every other position as it was. */
  lemma OtherPositions(y: Ring, r: Ring, j: nat)
    requires Inv(y) && Shape(r) && y.tail <= j < y.head && r.head == y.head && r.tail == y.tail && r.pc == y.pc
    requires r.stream == y.stream
    requires r.cells == y.cells[j % SIZE := r.cells[j % SIZE]] && r.phase == y.phase[j := r.phase[j]]
    ensures forall k: nat :: y.tail <= k < y.head && k != j ==> CellOk(r, k)
    ensures forall k: nat :: y.head <= k < y.tail + SIZE ==> Vacant(r, k)
  {
    forall k: nat | y.tail <= k < y.head && k != j ensures CellOk(r, k) {
      assert CellOk(y, k);
      if k < j { SlotsDiffer(k, j); } else { SlotsDiffer(j, k); }
    }
    forall k: nat | y.head <= k < y.tail + SIZE ensures Vacant(r, k) {
      assert Vacant(y, k);
      SlotsDiffer(j, k);
    }
  }

  lemma CallKeeps(y: Ring, step: Step)
    requires Inv(y) && Enabled(y, step) && (step.Store? || step.Publish?)
    ensures Inv(Next(y, step))
  {
    var r, j := Next(y, step), y.writers[step.w].start + y.writers[step.w].done;
    WriterPosition(y, step.w);
    PutHist(y, step);
    assert y.tail <= j && CellOk(y, j);
    OtherPositions(y, r, j);
  }

  lemma LookKeeps(y: Ring, step: Step)
    requires Inv(y) && Enabled(y, step) && (step.Begin? || step.Check? || step.Stop? || step.See? || step.Print?)
    ensures Inv(Next(y, step))
  {
    var r := Next(y, step);
    assert y.tail < y.head ==> CellOk(y, y.tail);
    forall j: nat | r.tail <= j < r.head ensures CellOk(r, j) { assert CellOk(y, j); }
    forall j: nat | r.head <= j < r.tail + SIZE ensures Vacant(r, j) { assert Vacant(y, j); }
    SameHist(y, r);
  }

  lemma ClearKeeps(y: Ring)
    requires Inv(y) && Enabled(y, Clear)
    ensures Inv(Next(y, Clear))
  {
    var r := Next(y, Clear);
    forall j: nat | r.tail <= j < r.head ensures CellOk(r, j) {
      assert CellOk(y, j);
      if j != y.tail { SlotsDiffer(y.tail, j); }
    }
    forall j: nat | r.head <= j < r.tail + SIZE ensures Vacant(r, j) {
      assert Vacant(y, j);
      SlotsDiffer(y.tail, j);
    }
    SameHist(y, r);
  }

  lemma AdvanceKeeps(y: Ring)
    requires Inv(y) && Enabled(y, Advance)
    ensures Inv(Next(y, Advance))
  {
    var r := Next(y, Advance);
    assert CellOk(y, y.tail);
    forall j: nat | r.tail <= j < r.head ensures CellOk(r, j) { assert CellOk(y, j); }
    forall j: nat | r.head <= j < r.tail + SIZE ensures Vacant(r, j) {
      if j < y.tail + SIZE { assert Vacant(y, j); } else { assert j % SIZE == y.tail % SIZE; }
    }
    SameHist(y, r);
  }

  lemma StepKeeps(y: Ring, step: Step)
    requires Inv(y) && Enabled(y, step) && Room(y, step)
    ensures Inv(Next(y, step))
  {
    match step
    case Reserve(w, text) => ReserveKeeps(y, w, text);
    case Store(w) => CallKeeps(y, step);
    case Publish(w) => CallKeeps(y, step);
    case Drop =>
    case Clear => ClearKeeps(y);
    case Advance => AdvanceKeeps(y);
    case _ => LookKeeps(y, step);
  }

  // ---- whole runs ------------------------------------------------------------------------------------------

  /** Any interleaving of calls and flush passes that the code allows. */
  ghost predicate RunOk(y: Ring, run: seq<Step>)
    requires Shape(y)
    decreases |run|
  {
    run != [] ==> Enabled(y, run[0]) && RunOk(Next(y, run[0]), run[1..])
  }

  ghost function Run(y: Ring, run: seq<Step>): (r: Ring)
    requires Shape(y) && RunOk(y, run)
    ensures Shape(r)
    decreases |run|
  {
    if run == [] then y else Run(Next(y, run[0]), run[1..])
  }

  /** Every reservation of the run had room. */
  ghost predicate Roomy(y: Ring, run: seq<Step>)
    requires Shape(y) && RunOk(y, run)
    decreases |run|
  {
    run != [] ==> Room(y, run[0]) && Roomy(Next(y, run[0]), run[1..])
  }

  lemma {:induction false} RunKeeps(y: Ring, run: seq<Step>)
    requires Inv(y) && RunOk(y, run) && Roomy(y, run)
    ensures Inv(Run(y, run))
    decreases |run|
  {
    if run != [] {
      StepKeeps(y, run[0]);
      RunKeeps(Next(y, run[0]), run[1..]);
    }
  }

  /** As long as no mark has been printed: the slots are in order, or more than SIZE characters have been reserved
      since the last pass and the next pass will notice. */
  ghost predicate Unmarked(y: Ring)
    requires Shape(y)
  {
    if y.head <= y.tail + SIZE then Inv(y) else (y.pc == Out || y.pc == Top) && y.out == y.stream[..y.tail]
  }

  lemma StepUnmarked(y: Ring, step: Step)
    requires Hist(y) && (y.drops == 0 ==> Unmarked(y)) && Enabled(y, step)
    ensures Hist(Next(y, step)) && (Next(y, step).drops == 0 ==> Unmarked(Next(y, step)))
  {
    StepHist(y, step);
    if y.drops == 0 && y.head <= y.tail + SIZE && Room(y, step) { StepKeeps(y, step); }
  }

  lemma {:induction false} RunUnmarked(y: Ring, run: seq<Step>)
    requires Hist(y) && (y.drops == 0 ==> Unmarked(y)) && RunOk(y, run)
    ensures Hist(Run(y, run)) && (Run(y, run).drops == 0 ==> Unmarked(Run(y, run)))
    decreases |run|
  {
    if run != [] {
      StepUnmarked(y, run[0]);
      RunUnmarked(Next(y, run[0]), run[1..]);
    }
  }

  /** In every run, whatever is reserved and however the calls and the passes interleave: as long as no mark has been
      printed, what has been printed is a prefix of what was reserved. */
  lemma NoMarkMeansInOrder(run: seq<Step>)
    requires RunOk(Empty(), run) && Run(Empty(), run).drops == 0
    ensures Faithful(Run(Empty(), run))
  {
    RunUnmarked(Empty(), run);
  }

  /** When an unmarked flusher gives up with no call in progress, every character has been printed. */
  lemma NothingLeftBehind(run: seq<Step>)
    requires RunOk(Empty(), run) && Run(Empty(), run).drops == 0
    requires Enabled(Run(Empty(), run), Stop) && AllDone(Run(Empty(), run))
    ensures Run(Empty(), run).out == Run(Empty(), run).stream
  {
    RunUnmarked(Empty(), run);
    var y := Run(Empty(), run);
    assert y.tail < y.head ==> Pending(y, y.tail) && CellOk(y, y.tail);
  }

  /** No call is in progress. */
  ghost predicate AllDone(y: Ring)
  {
    forall w :: w in y.writers ==> y.writers[w].done == |y.writers[w].text|
  }

  /** With room no mark is ever printed. */
  lemma PrintedInOrder(run: seq<Step>)
    requires RunOk(Empty(), run) && Roomy(Empty(), run)
    ensures Faithful(Run(Empty(), run))
  {
    RunKeeps(Empty(), run);
  }

  /** No further reservation. */
  ghost predicate Quiet(run: seq<Step>)
  {
    forall k: nat :: k < |run| ==> !run[k].Reserve?
  }

  lemma {:induction false} QuietIsRoomy(y: Ring, run: seq<Step>)
    requires Shape(y) && RunOk(y, run) && Quiet(run)
    ensures Roomy(y, run)
    decreases |run|
  {
    if run != [] {
      QuietIsRoomy(Next(y, run[0]), run[1..]);
    }
  }

  /** The limit is exact: a reservation leaves the log faithful in every continuation if and only if it has room. */
  lemma RoomIsExact(y: Ring, w: nat, text: string)
    requires Inv(y) && Enabled(y, Reserve(w, text))
    ensures Room(y, Reserve(w, text)) <==>
      forall run :: RunOk(Next(y, Reserve(w, text)), run) && Quiet(run) ==> Faithful(Run(Next(y, Reserve(w, text)), run))
  {
    var r := Next(y, Reserve(w, text));
    if Room(y, Reserve(w, text)) {
      ReserveKeeps(y, w, text);
      forall run | RunOk(r, run) && Quiet(run) ensures Faithful(Run(r, run)) {
        QuietIsRoomy(r, run);
        RunKeeps(r, run);
      }
    } else {
      var a := Next(r, Begin);
      assert RunOk(a, [Drop]) && Run(a, [Drop]) == Next(a, Drop);
      assert [Begin, Drop][1..] == [Drop];
      assert RunOk(r, [Begin, Drop]) && Quiet([Begin, Drop]) && !Faithful(Run(r, [Begin, Drop]));
    }
  }

  lemma {:induction false} RunAppend(y: Ring, a: seq<Step>, b: seq<Step>)
    requires Shape(y) && RunOk(y, a) && RunOk(Run(y, a), b)
    ensures RunOk(y, a + b) && Run(y, a + b) == Run(Run(y, a), b)
    decreases |a|
  {
    if a == [] {
      assert a + b == b;
    } else {
      assert (a + b)[1..] == a[1..] + b;
      RunAppend(Next(y, a[0]), a[1..], b);
    }
  }

  lemma RunCons(y: Ring, step: Step, rest: seq<Step>)
    requires Shape(y) && Enabled(y, step) && RunOk(Next(y, step), rest)
    ensures RunOk(y, [step] + rest) && Run(y, [step] + rest) == Run(Next(y, step), rest)
  {
    assert ([step] + rest)[1..] == rest;
  }
}
