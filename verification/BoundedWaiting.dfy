/** Bounded waiting: a ready thread in the ring is run after boundedly many scheduler entries, although
    blocking or exiting threads send the selection back to the head of the ring and woken or new
    threads join at its tail. */
module BoundedWaiting {
  import opened Seqs
  import opened Scheduling
  import opened SchedulerRuns

  /** 1 + 2 + ... + n */
  function Tri(n: nat): nat
  {
    if n == 0 then 0 else n + Tri(n - 1)
  }

  lemma {:induction false} TriClosed(n: nat)
    ensures 2 * Tri(n) == n * (n + 1)
  {
    if n > 0 { TriClosed(n - 1); }
  }

  /** `p` and `q` are the positions of the waiting and of the current thread, counted from the head. While the
      current thread is behind the waiting one, each entry moves it towards the tail or back to the
      head; once it is in front, each entry brings it nearer or moves the waiting thread to the front. */
  function Rank(bound: nat, p: nat, q: nat): nat
    requires p != q && q < bound
  {
    if q < p then Tri(p - 1) + (p - q) else (bound - q) + Tri(p)
  }

  lemma IndexIs<T>(s: seq<T>, i: nat)
    requires NoDup(s) && i < |s|
    ensures IndexOf(s, s[i]) == i
  {
  }

  ghost predicate Waits(y: Sys, t: Tid, bound: nat)
  {
    Inv(y) && t in y.sched.ring && t != y.sched.current && |y.sched.ring| <= bound
  }

  ghost function RankOf(y: Sys, t: Tid, bound: nat): nat
    requires Waits(y, t, bound)
  {
    Rank(bound, IndexOf(y.sched.ring, t), IndexOf(y.sched.ring, y.sched.current))
  }

  lemma {:induction false} TriMono(a: nat, b: nat)
    requires a <= b
    ensures Tri(a) <= Tri(b)
    decreases b
  {
    if a < b { TriMono(a, b - 1); }
  }

  /** The largest number of scheduler entries a thread can be passed over by. */
  function Limit(bound: nat): nat
  {
    bound + bound * (if bound == 0 then 0 else bound - 1) / 2
  }

  lemma RankBound(bound: nat, p: nat, q: nat)
    requires p != q && p < bound && q < bound
    ensures Rank(bound, p, q) <= Limit(bound)
  {
    TriMono(p, bound - 1);
    LimitIs(bound);
  }

  lemma LimitIs(bound: nat)
    requires bound > 0
    ensures Limit(bound) == bound + Tri(bound - 1)
  {
    TriClosed(bound - 1);
    var t := Tri(bound - 1);
    assert bound * (bound - 1) == (bound - 1) * ((bound - 1) + 1) == 2 * t;
  }

  /** The current thread stays in the ring: the next one in the ring runs. */
  lemma StayLowersRank(s: Sched<Tid>, t: Tid, bound: nat)
    requires RingOk(s) && t in s.ring && t != s.current && 1 < |s.ring| <= bound
    requires !Leaving(s.status[s.current]) && Chosen(s) != t
    ensures Chosen(s) in s.ring
    ensures Rank(bound, IndexOf(s.ring, t), IndexOf(s.ring, Chosen(s)))
          < Rank(bound, IndexOf(s.ring, t), IndexOf(s.ring, s.current))
  {
    HandlerSwitches(s);
    IndexIs(s.ring, Succ(IndexOf(s.ring, s.current), |s.ring|));
  }

  /** The current thread leaves the ring: the head of the ring runs. */
  lemma LeaveLowersRank(s: Sched<Tid>, t: Tid, bound: nat)
    requires RingOk(s) && t in s.ring && t != s.current && 1 < |s.ring| <= bound && Chosen(s) != t
    requires Leaving(s.status[s.current])
    ensures var ring := Without(s.ring, s.current);
      && t in ring && Chosen(s) in ring && |ring| < bound
      && Rank(bound, IndexOf(ring, t), IndexOf(ring, Chosen(s)))
       < Rank(bound, IndexOf(s.ring, t), IndexOf(s.ring, s.current))
  {
    LeavePositions(s, t);
    RestartLowersRank(bound, IndexOf(s.ring, t), IndexOf(s.ring, s.current));
  }

  lemma LeavePositions(s: Sched<Tid>, t: Tid)
    requires RingOk(s) && t in s.ring && t != s.current && 1 < |s.ring| && Chosen(s) != t
    requires Leaving(s.status[s.current])
    ensures var ring, p, q := Without(s.ring, s.current), IndexOf(s.ring, t), IndexOf(s.ring, s.current);
      && t in ring && Chosen(s) in ring && |ring| == |s.ring| - 1
      && IndexOf(ring, t) == (if q < p then p - 1 else p) > 0
      && IndexOf(ring, Chosen(s)) == 0
  {
    var p, q := IndexOf(s.ring, t), IndexOf(s.ring, s.current);
    var ring := Without(s.ring, s.current);
    WithoutAt(s.ring, q);
    WithoutMembers(s.ring, s.current);
    LeftAt(s.ring, p, q);
    assert ring[0] == Chosen(s);
    IndexIs(ring, if q < p then p - 1 else p);
    IndexIs(ring, 0);
  }

  /** Where the member at `p` is once the member at `q` has left. */
  lemma LeftAt(ring: seq<Tid>, p: nat, q: nat)
    requires p < |ring| && q < |ring| && p != q
    ensures var left := ring[..q] + ring[q + 1..]; left[if q < p then p - 1 else p] == ring[p]
  {
  }

  lemma RestartLowersRank(bound: nat, p: nat, q: nat)
    requires p != q && q < bound && (if q < p then p - 1 else p) > 0
    ensures Rank(bound, if q < p then p - 1 else p, 0) < Rank(bound, p, q)
  {
    var p' := if q < p then p - 1 else p;
    assert Tri(p') == p' + Tri(p' - 1);
  }

  /** One scheduler entry runs the waiting thread or lowers the rank. */
  lemma EntryLowersRank(y: Sys, t: Tid, bound: nat)
    requires Waits(y, t, bound)
    ensures var r := AfterHandler(y);
      Inv(r) && (r.sched.current == t || (Waits(r, t, bound) && RankOf(r, t, bound) < RankOf(y, t, bound)))
  {
    HandlerKeeps(y);
    var s := y.sched;
    TwoMembers(s.ring, t, s.current);
    HandlerSwitches(s);
    if Chosen(s) != t {
      if Leaving(s.status[s.current]) { LeaveLowersRank(s, t, bound); } else { StayLowersRank(s, t, bound); }
    }
  }

  lemma TwoMembers(ring: seq<Tid>, t: Tid, u: Tid)
    requires t in ring && u in ring && t != u
    ensures |ring| > 1
  {
    assert IndexOf(ring, t) != IndexOf(ring, u);
  }

  /** A thread that enters its yield keeps its position. */
  lemma YieldLowersRank(y: Sys, t: Tid, bound: nat)
    requires Waits(y, t, bound) && Enabled(y, Yield)
    ensures var r := Next(y, Yield);
      Inv(r) && (r.sched.current == t || (Waits(r, t, bound) && RankOf(r, t, bound) < RankOf(y, t, bound)))
  {
    YieldKeeps(y);
    EntryLowersRank(y, t, bound);
    assert Next(y, Yield).sched == AfterHandler(y).sched;
  }

  predicate IsEntry(step: Step)
  {
    step.Timer? || step.Yield?
  }

  /** The other steps change neither position: they leave the ring alone or append to it. */
  lemma OtherStepsKeepRank(y: Sys, step: Step, t: Tid, bound: nat)
    requires Waits(y, t, bound) && Enabled(y, step) && !IsEntry(step) && |Next(y, step).sched.ring| <= bound
    ensures Waits(Next(y, step), t, bound) && RankOf(Next(y, step), t, bound) == RankOf(y, t, bound)
  {
    StepKeeps(y, step);
    var s, r := y.sched, Next(y, step).sched;
    var p, q := IndexOf(s.ring, t), IndexOf(s.ring, s.current);
    assert r.current == s.current && s.ring <= r.ring;
    assert r.ring[p] == t && r.ring[q] == s.current;
    IndexIs(r.ring, p);
    IndexIs(r.ring, q);
  }

  function Entries(steps: seq<Step>): nat
  {
    if steps == [] then 0 else (if IsEntry(steps[0]) then 1 else 0) + Entries(steps[1..])
  }

  /** Along the run the ring holds at most `bound` threads and `t` is never made current. */
  ghost predicate PassedOver(y: Sys, steps: seq<Step>, t: Tid, bound: nat)
    requires Inv(y) && RunOk(y, steps)
    decreases |steps|
  {
    && |y.sched.ring| <= bound && y.sched.current != t
    && (steps == [] || (StepKeeps(y, steps[0]); PassedOver(Next(y, steps[0]), steps[1..], t, bound)))
  }

  lemma {:induction false} EntriesBelowRank(y: Sys, steps: seq<Step>, t: Tid, bound: nat)
    requires Waits(y, t, bound) && RunOk(y, steps) && PassedOver(y, steps, t, bound)
    ensures Entries(steps) <= RankOf(y, t, bound)
    decreases |steps|
  {
    if steps != [] {
      var r := Next(y, steps[0]);
      StepKeeps(y, steps[0]);
      if steps[0].Timer? { EntryLowersRank(y, t, bound); }
      else if steps[0].Yield? { YieldLowersRank(y, t, bound); }
      else { OtherStepsKeepRank(y, steps[0], t, bound); }
      EntriesBelowRank(r, steps[1..], t, bound);
    }
  }

  /** In any run with at most `bound` threads in the ring, a ready thread of the ring is passed over by at
      most `bound + bound * (bound - 1) / 2` scheduler entries. */
  lemma WaitingIsBounded(y: Sys, steps: seq<Step>, t: Tid, bound: nat)
    requires Waits(y, t, bound) && RunOk(y, steps) && PassedOver(y, steps, t, bound)
    ensures Entries(steps) <= Limit(bound)
  {
    EntriesBelowRank(y, steps, t, bound);
    RankBound(bound, IndexOf(y.sched.ring, t), IndexOf(y.sched.ring, y.sched.current));
  }
}
