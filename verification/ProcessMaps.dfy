/** One global `mmap_list_head` for all processes: `scheduler_handler` swaps it at every switch between processes, and
    `mmap` and `munmap` store it back, so that each process works on a list of its own. */
module ProcessMaps {
  import opened Areas
  import opened Seqs

  /** `head` is the global list, `running` the current thread's process if it has one, `infos` the saved `mmap_infos`. */
  datatype Kernel = Kernel(head: seq<Span>, running: Option<nat>, infos: map<nat, seq<Span>>)

  /** A request by the current thread, a switch to a thread of some process or of none, or a new process. */
  datatype Step = Ask(r: Request) | Switch(next: Option<nat>) | Create(p: nat)

  ghost predicate Enabled(y: Kernel, step: Step)
  {
    match step
    case Ask(r) => y.running.Some? && y.running.value in y.infos && (r.Unmapped? ==> r.k < |y.head|)
    case Switch(next) => next.Some? ==> next.value in y.infos
    case Create(p) => p !in y.infos
  }

  function Next(y: Kernel, step: Step): Kernel
    requires Enabled(y, step)
  {
    match step
    case Ask(r) =>
      var list := Granted(true, MMAP_START, y.head, r);
      y.(head := list, infos := y.infos[y.running.value := list])
    case Switch(next) =>
      if y.running == next then y
      else
        var kept := if y.running.Some? then y.infos[y.running.value := y.head] else y.infos;
        Kernel(if next.Some? then kept[next.value] else [], next, kept)
    case Create(p) => y.(infos := y.infos[p := []])
  }

  /** The list a process works on: the global one while it runs, else the saved one. */
  function Seen(y: Kernel, p: nat): seq<Span>
  {
    if y.running == Some(p) then y.head else if p in y.infos then y.infos[p] else []
  }

  /** While a process runs, `mmap_infos`, which the page-fault handler reads, is the global list. */
  ghost predicate Inv(y: Kernel)
  {
    if y.running.Some? then y.running.value in y.infos && y.infos[y.running.value] == y.head else y.head == []
  }

  ghost predicate RunOk(y: Kernel, run: seq<Step>)
    decreases |run|
  {
    run != [] ==> Enabled(y, run[0]) && RunOk(Next(y, run[0]), run[1..])
  }

  ghost function Run(y: Kernel, run: seq<Step>): Kernel
    requires RunOk(y, run)
    decreases |run|
  {
    if run == [] then y else Run(Next(y, run[0]), run[1..])
  }

  /** The requests that process `p` itself made in a run. */
  ghost function Own(y: Kernel, run: seq<Step>, p: nat): seq<Request>
    requires RunOk(y, run)
    decreases |run|
  {
    if run == [] then []
    else (if y.running == Some(p) && run[0].Ask? then [run[0].r] else []) + Own(Next(y, run[0]), run[1..], p)
  }

  lemma StepKeeps(y: Kernel, step: Step)
    requires Inv(y) && Enabled(y, step)
    ensures Inv(Next(y, step))
    ensures forall p: nat :: p in y.infos ==> p in Next(y, step).infos
    ensures forall p: nat ::
      Seen(Next(y, step), p) == if step.Ask? && y.running == Some(p) then Granted(true, MMAP_START, Seen(y, p), step.r) else Seen(y, p)
  {
  }

  /** Whatever the other processes do in between, a process's list is what its own requests alone would have made. */
  lemma {:induction false} OwnRequestsOnly(y: Kernel, run: seq<Step>, p: nat)
    requires Inv(y) && RunOk(y, run)
    ensures Inv(Run(y, run))
    ensures Seen(Run(y, run), p) == Alone(true, MMAP_START, Seen(y, p), Own(y, run, p))
    decreases |run|
  {
    if run != [] {
      StepKeeps(y, run[0]);
      OwnRequestsOnly(Next(y, run[0]), run[1..], p);
      var own := Own(y, run, p);
      if y.running == Some(p) && run[0].Ask? {
        assert own[1..] == Own(Next(y, run[0]), run[1..], p);
      } else {
        assert own == Own(Next(y, run[0]), run[1..], p);
      }
    }
  }

  /** In every run from boot, the areas of each process stay sorted, disjoint and below the start address as long as
      the process's own requests had room. */
  lemma AreasStayApart(run: seq<Step>, p: nat)
    requires RunOk(Kernel([], None, map[]), run) && Roomy(true, MMAP_START, [], Own(Kernel([], None, map[]), run, p))
    ensures Ok(true, MMAP_START, Seen(Run(Kernel([], None, map[]), run), p))
  {
    var boot := Kernel([], None, map[]);
    OwnRequestsOnly(boot, run, p);
    AloneOk(true, MMAP_START, [], Own(boot, run, p));
  }
}
