/** What each step of the scheduler and of the mutex does to the threads it names, and that it leaves the others alone. */
module SchedulerSteps {
  import opened Seqs
  import opened Scheduling
  import opened SchedulerRuns

  /** No thread but those of `named` changes its status. */
  ghost predicate OthersSame(s: Sched<Tid>, r: Sched<Tid>, named: set<Tid>)
  {
    forall u :: u !in named ==> (u in r.status <==> u in s.status) && (u in s.status ==> r.status[u] == s.status[u])
  }

  /** Thread `w` has joined the ring at its tail, ready to run, and nothing else has changed. */
  ghost predicate Joined(s: Sched<Tid>, r: Sched<Tid>, w: Tid)
  {
    && r.ring == s.ring + [w] && w in r.status && r.status[w] == Ready && OthersSame(s, r, {w})
    && r.current == s.current && r.dead == s.dead
  }

  /** The current thread has the new status, and nothing else has changed. */
  ghost predicate Marked(s: Sched<Tid>, r: Sched<Tid>, status: Status)
  {
    && r.current == s.current && r.ring == s.ring && r.dead == s.dead
    && s.current in r.status && r.status[s.current] == status && OthersSame(s, r, {s.current})
  }

  /** `mutex_lock`: on a free mutex the thread holds it and goes on; on a held one it is blocked at the tail of the queue. */
  lemma AcquireEffect(y: Sys, m: Mid)
    requires Inv(y) && Enabled(y, Acquire(m))
    ensures var r, t := Next(y, Acquire(m)), y.sched.current;
      && m in r.locks && r.locks[m].mutex.locked && r.waiting == y.waiting
      && (!y.locks[m].mutex.locked ==> t in r.locks[m].holders && r.locks[m].mutex.queue == [] && r.sched == y.sched)
      && (y.locks[m].mutex.locked ==>
            && r.locks[m].mutex.queue == y.locks[m].mutex.queue + [t] && r.locks[m].holders == y.locks[m].holders
            && Marked(y.sched, r.sched, Blocked))
      && (forall k :: k in y.locks && k != m ==> k in r.locks && r.locks[k] == y.locks[k])
  {
    assert LockOk(y.locks[m]);
  }

  /** `mutex_unlock`: without waiters the mutex is free; else it stays locked for the first waiter, which becomes ready at the
      tail of the ring. The caller goes on. */
  lemma ReleaseEffect(y: Sys, m: Mid)
    requires Inv(y) && Enabled(y, Release(m))
    ensures var r, q := Next(y, Release(m)), y.locks[m].mutex.queue;
      && m in r.locks && y.sched.current !in r.locks[m].holders && r.waiting == y.waiting
      && (q == [] ==> !r.locks[m].mutex.locked && r.locks[m].mutex.queue == [] && r.sched == y.sched)
      && (q != [] ==> r.locks[m].mutex.locked && r.locks[m].mutex.queue == q[1..] && Joined(y.sched, r.sched, q[0]))
      && (forall k :: k in y.locks && k != m ==> k in r.locks && r.locks[k] == y.locks[k])
  {
    assert LockOk(y.locks[m]);
  }

  /** A wait for the disk blocks the thread; the wake-up makes it ready at the tail of the ring. */
  lemma DeviceEffect(y: Sys, w: Tid)
    requires Inv(y)
    ensures Enabled(y, WaitDevice) ==>
      var r := Next(y, WaitDevice); Marked(y.sched, r.sched, Blocked) && r.waiting == y.waiting + {y.sched.current} && r.locks == y.locks
    ensures Enabled(y, WakeDevice(w)) ==>
      var r := Next(y, WakeDevice(w)); Joined(y.sched, r.sched, w) && r.waiting == y.waiting - {w} && r.locks == y.locks
  {
  }

  /** A new thread, with a number never used before, becomes ready at the tail of the ring. */
  lemma CreateEffect(y: Sys)
    requires Inv(y)
    ensures var r := Next(y, Create);
      Joined(y.sched, r.sched, y.nextTid) && y.nextTid !in y.sched.status && r.nextTid > y.nextTid && r.locks == y.locks
  {
  }

  /** The cleaner empties the dead list and forgets its threads, and no others. */
  lemma CleanupEffect(y: Sys)
    requires Inv(y) && Enabled(y, Cleanup)
    ensures var r := Next(y, Cleanup);
      && r.sched.dead == [] && r.sched.ring == y.sched.ring && r.sched.current == y.sched.current && r.locks == y.locks
      && (forall u :: u in y.sched.dead ==> u !in r.sched.status) && OthersSame(y.sched, r.sched, set u | u in y.sched.dead)
  {
  }

  // ---- exit ---------------------------------------------------------------------------------------------------------

  /** A thread that has exited is dead, and the next scheduler entry takes it off the ring and puts it on the dead list. */
  lemma ExitBuries(y: Sys, entry: Step)
    requires Inv(y) && Enabled(y, Exit) && (entry == Timer || entry == Yield)
    ensures var d, t := Next(y, Exit), y.sched.current;
      && Marked(y.sched, d.sched, Dead) && Shape(d) && Enabled(d, entry)
      && var r := Next(d, entry).sched; t !in r.ring && r.dead == [t] + y.sched.dead && r.current != t
  {
    ExitKeeps(y);
    var d, t := Next(y, Exit), y.sched.current;
    var i :| 0 <= i < |y.sched.ring| && y.sched.ring[i] == t;
    TwoInRing(y.sched.ring, t, y.daemon);
    HandlerEffect(d.sched, i);
    CutOut(y.sched.ring, i);
    assert EnterYield(d) == d;
  }

  lemma TwoInRing(ring: seq<Tid>, t: Tid, u: Tid)
    requires t in ring && u in ring && t != u
    ensures |ring| > 1
  {
  }

  lemma CutOut(ring: seq<Tid>, i: nat)
    requires NoDup(ring) && i < |ring|
    ensures ring[i] !in ring[..i] + ring[i + 1..]
  {
  }

  /** The thread is neither in the ring nor suspended, and its number has been used. */
  ghost predicate Gone(y: Sys, t: Tid)
  {
    t < y.nextTid && t !in y.sched.ring && !Suspended(y, t)
  }

  lemma GoneStays(y: Sys, step: Step, t: Tid)
    requires Inv(y) && Enabled(y, step) && Gone(y, t)
    ensures Inv(Next(y, step)) && Gone(Next(y, step), t)
  {
    StepKeeps(y, step);
    var r := Next(y, step);
    assert t != y.sched.current;
    assert forall m :: !Parked(y.locks, m, t);
    match step
    case Timer => EntryGone(y, t);
    case Yield => assert forall m :: Parked(EnterYield(y).locks, m, t) <==> Parked(y.locks, m, t); EntryGone(EnterYield(y), t);
    case Acquire(m) => AcquireEffect(y, m); assert forall k :: !Parked(r.locks, k, t);
    case Release(m) => ReleaseGone(y, m, t);
    case Return => assert forall k :: Parked(r.locks, k, t) <==> Parked(y.locks, k, t);
    case _ => assert forall k :: Parked(r.locks, k, t) <==> Parked(y.locks, k, t);
  }

  lemma ReleaseGone(y: Sys, m: Mid, t: Tid)
    requires Inv(y) && Enabled(y, Release(m)) && Gone(y, t)
    ensures Gone(Next(y, Release(m)), t)
  {
    ReleaseEffect(y, m);
    var r, q := Next(y, Release(m)), y.locks[m].mutex.queue;
    assert !Parked(y.locks, m, t);
    if q != [] { assert q[0] in q; }
    forall k ensures !Parked(r.locks, k, t) { assert !Parked(y.locks, k, t); }
  }

  lemma EntryGone(y: Sys, t: Tid)
    requires InvCore(y) && Gone(y, t)
    ensures Gone(AfterHandler(y), t)
  {
    var s, r := y.sched, AfterHandler(y);
    assert forall k :: Parked(r.locks, k, t) <==> Parked(y.locks, k, t);
    if |s.ring| > 1 {
      HandlerSwitches(s);
      WithoutMembers(s.ring, s.current);
    }
  }

  /** A thread that is gone is never current again, in any run. */
  lemma {:induction false} NeverAgain(y: Sys, steps: seq<Step>, t: Tid)
    requires Inv(y) && RunOk(y, steps) && Gone(y, t)
    ensures Gone(Run(y, steps), t) && Run(y, steps).sched.current != t
    decreases |steps|
  {
    if steps != [] {
      GoneStays(y, steps[0], t);
      NeverAgain(Next(y, steps[0]), steps[1..], t);
    }
  }

  /** So a thread that exits is gone from the next scheduler entry on. */
  lemma ExitIsFinal(y: Sys, entry: Step, steps: seq<Step>)
    requires Inv(y) && Enabled(y, Exit) && (entry == Timer || entry == Yield)
    requires var d := Next(y, Exit); Inv(d) && Enabled(d, entry) && Inv(Next(d, entry)) && RunOk(Next(d, entry), steps)
    ensures Run(Next(Next(y, Exit), entry), steps).sched.current != y.sched.current
  {
    ExitBuries(y, entry);
    var t, r := y.sched.current, Next(Next(y, Exit), entry);
    StatusTellsPlace(r, t);
    NeverAgain(r, steps, t);
  }
}
