/** Runs of threads that are switched, block on mutexes and devices, exit and are created, in any
    interleaving a single processor allows. */
module SchedulerRuns {
  import opened Seqs
  import opened Scheduling

  type Tid = nat
  type Mid = nat

  /** Where a thread is inside `mutex_lock`: not there, queued but not yet in its yield, or in it. */
  datatype Pc = Outside | BeforeYield(m: Mid) | InYield(m: Mid)

  /** A mutex, the threads past `mutex_lock` and not yet past the matching unlock (`holders`), and its
      history: who was last given it, and in which order it was asked for and given. */
  datatype Lock = Lock(
    mutex: Mutex<Tid>,
    holders: set<Tid>,
    owner: Option<Tid>,
    requests: seq<Tid>,
    grants: seq<Tid>)

  /** `waiting` are the threads blocked on a device; `daemon` is a thread that never blocks and never exits. */
  datatype Sys = Sys(
    sched: Sched<Tid>,
    locks: map<Mid, Lock>,
    waiting: set<Tid>,
    pc: map<Tid, Pc>,
    daemon: Tid,
    nextTid: Tid)

  datatype Step =
    | Timer
    | Yield
    | Acquire(m: Mid)
    | Return
    | Release(m: Mid)
    | WaitDevice
    | WakeDevice(t: Tid)
    | Exit
    | Create
    | Cleanup

  ghost predicate Shape(y: Sys)
  {
    Wf(y.sched) && y.sched.current in y.pc
  }

  ghost predicate Executing(y: Sys)
    requires Shape(y)
  {
    y.sched.status[y.sched.current] == Running && y.pc[y.sched.current] == Outside
  }

  /** What the kernel code itself establishes before each step. Only a return from `mutex_lock` is not
      conditional on the thread's status: control comes back whenever the thread is current again. */
  ghost predicate Enabled(y: Sys, step: Step)
    requires Shape(y)
  {
    var t := y.sched.current;
    match step
    case Timer => true
    case Yield => !y.pc[t].InYield?
    case Acquire(m) => Executing(y) && m in y.locks && t != y.daemon
    case Return => y.pc[t].InYield? && y.pc[t].m in y.locks
    case Release(m) => Executing(y) && m in y.locks && t in y.locks[m].holders
    case WaitDevice => Executing(y) && t != y.daemon
    case WakeDevice(w) => w in y.waiting && w !in y.sched.ring
    case Exit => Executing(y) && t != y.daemon
    case Create => true
    case Cleanup => Executing(y)
  }

  ghost function AfterHandler(y: Sys): Sys
    requires Shape(y)
  {
    match Handler(y.sched)
    case Continue(s) => y.(sched := s)
    case Spin => y
  }

  /** The current thread enters its yield. */
  ghost function EnterYield(y: Sys): Sys
    requires Shape(y)
  {
    var t := y.sched.current;
    if y.pc[t].BeforeYield? then y.(pc := y.pc[t := InYield(y.pc[t].m)]) else y
  }

  ghost function AcquireStep(y: Sys, m: Mid): Sys
    requires m in y.locks
  {
    var l, t := y.locks[m], y.sched.current;
    var (mx, s) := LockMutex(l.mutex, y.sched);
    if l.mutex.locked then
      y.(sched := s, locks := y.locks[m := l.(mutex := mx, requests := l.requests + [t])], pc := y.pc[t := BeforeYield(m)])
    else
      y.(sched := s, locks := y.locks[m := l.(mutex := mx, requests := l.requests + [t], grants := l.grants + [t],
                                              owner := Some(t), holders := l.holders + {t})])
  }

  ghost function ReturnStep(y: Sys): Sys
    requires Shape(y) && !y.pc[y.sched.current].Outside? && y.pc[y.sched.current].m in y.locks
  {
    var t := y.sched.current;
    var m := y.pc[t].m;
    y.(pc := y.pc[t := Outside], locks := y.locks[m := y.locks[m].(holders := y.locks[m].holders + {t})])
  }

  ghost function ReleaseStep(y: Sys, m: Mid): Sys
    requires m in y.locks
  {
    var l, t := y.locks[m], y.sched.current;
    var (mx, s) := UnlockMutex(l.mutex, y.sched);
    if l.mutex.queue == [] then
      y.(sched := s, locks := y.locks[m := l.(mutex := mx, holders := l.holders - {t}, owner := None)])
    else
      var w := l.mutex.queue[0];
      y.(sched := s, locks := y.locks[m := l.(mutex := mx, holders := l.holders - {t}, owner := Some(w),
                                              grants := l.grants + [w])])
  }

  ghost function Next(y: Sys, step: Step): Sys
    requires Shape(y) && Enabled(y, step)
  {
    var s, t := y.sched, y.sched.current;
    match step
    case Timer => AfterHandler(y)
    case Yield => AfterHandler(EnterYield(y))
    case Acquire(m) => AcquireStep(y, m)
    case Return => ReturnStep(y)
    case Release(m) => ReleaseStep(y, m)
    case WaitDevice => y.(sched := s.(status := s.status[t := Blocked]), waiting := y.waiting + {t})
    case WakeDevice(w) =>
      y.(sched := Enqueue(s.(status := s.status[w := Ready]), w), waiting := y.waiting - {w})
    case Exit => y.(sched := s.(status := s.status[t := Dead]))
    case Create =>
      var n := y.nextTid;
      y.(sched := Enqueue(s.(status := s.status[n := Ready]), n), pc := y.pc[n := Outside], nextTid := n + 1)
    case Cleanup =>
      y.(sched := s.(dead := [], status := s.status - (set d | d in s.dead)))
  }

  // ---- the invariant ------------------------------------------------------------------------------------

  /** The ready ring and the dead list. */
  ghost predicate ThreadsOk(y: Sys)
  {
    var s := y.sched;
    && RingOk(s) && s.status[s.current] != Ready
    && y.daemon in s.ring && (s.current == y.daemon ==> s.status[s.current] == Running)
    && NoDup(s.dead)
    && (forall t :: t in s.dead ==> t in s.status && s.status[t] == Dead && t !in s.ring)
    && (forall t :: t in s.status ==> t < y.nextTid && t in y.pc)
  }

  /** Thread `t` is on the queue of mutex `m`. */
  ghost predicate Parked(locks: map<Mid, Lock>, m: Mid, t: Tid)
  {
    m in locks && t in locks[m].mutex.queue
  }

  /** A blocked thread; in the ring it can only be the current one. */
  ghost predicate Stopped(s: Sched<Tid>, t: Tid)
  {
    t in s.status && s.status[t] == Blocked && (t in s.ring ==> t == s.current)
  }

  /** Blocked threads are on one mutex queue or wait for a device. */
  ghost predicate BlockedOk(y: Sys)
  {
    && (forall m, t :: Parked(y.locks, m, t) ==> Stopped(y.sched, t) && t !in y.waiting)
    && (forall m, n, t :: Parked(y.locks, m, t) && Parked(y.locks, n, t) ==> m == n)
    && (forall t :: t in y.waiting ==> Stopped(y.sched, t))
  }

  ghost predicate Suspended(y: Sys, t: Tid)
  {
    t in y.waiting || exists m :: Parked(y.locks, m, t)
  }

  /** No thread is lost, and the current one has somewhere to be when it is blocked. */
  ghost predicate AllPlaced(y: Sys)
    requires Shape(y)
  {
    && (forall t :: t in y.sched.status ==> t in y.sched.ring || t in y.sched.dead || Suspended(y, t))
    && (y.sched.status[y.sched.current] == Blocked ==> Suspended(y, y.sched.current))
  }

  /** Inside `mutex_lock` a thread is parked or has already been given the mutex. */
  ghost predicate PcOk(y: Sys)
  {
    && (forall m, t :: Parked(y.locks, m, t) ==> t in y.pc && (y.pc[t] == BeforeYield(m) || y.pc[t] == InYield(m)))
    && (forall t :: t in y.pc && !y.pc[t].Outside? ==>
          y.pc[t].m in y.locks && (Parked(y.locks, y.pc[t].m, t) || y.locks[y.pc[t].m].owner == Some(t)))
  }

  /** A parked thread that is still current has not entered its yield. */
  ghost predicate CurrentOk(y: Sys)
    requires Shape(y)
  {
    forall m :: Parked(y.locks, m, y.sched.current) ==> y.pc[y.sched.current].BeforeYield?
  }

  /** Each mutex: its owner, its holders, and the history of requests and grants. */
  ghost predicate LockOk(l: Lock)
  {
    && (l.mutex.locked <==> l.owner.Some?) && (!l.mutex.locked ==> l.mutex.queue == [])
    && NoDup(l.mutex.queue)
    && (forall t :: t in l.holders ==> l.owner == Some(t))
    && l.requests == l.grants + l.mutex.queue
  }

  ghost predicate LocksOk(locks: map<Mid, Lock>)
  {
    forall m :: m in locks ==> LockOk(locks[m])
  }

  /** Everything but the position of a parked current thread, which a yield breaks for a moment. */
  ghost predicate InvCore(y: Sys)
  {
    Shape(y) && ThreadsOk(y) && BlockedOk(y) && PcOk(y) && LocksOk(y.locks) && AllPlaced(y)
  }

  ghost predicate Inv(y: Sys)
  {
    InvCore(y) && CurrentOk(y)
  }

  // ---- every step keeps it --------------------------------------------------------------------------------

  /** A scheduler entry, also by a thread that has just entered its yield. */
  lemma HandlerKeeps(y: Sys)
    requires InvCore(y) && (CurrentOk(y) || |y.sched.ring| > 1)
    ensures Inv(AfterHandler(y))
    ensures Handler(y.sched).Continue?
    ensures |y.sched.ring| > 1 ==> AfterHandler(y).sched.current == Chosen(y.sched)
  {
    var s := y.sched;
    if |s.ring| > 1 {
      HandlerSwitches(s);
      WithoutMembers(s.ring, s.current);
      var r := AfterHandler(y);
      var t := Chosen(s);
      assert forall m :: !Parked(y.locks, m, t);
      HandlerThreads(y);
      assert forall u :: Suspended(y, u) ==> Suspended(r, u);
    } else {
      assert s.current == y.daemon;
    }
  }

  lemma HandlerThreads(y: Sys)
    requires Shape(y) && ThreadsOk(y) && |y.sched.ring| > 1
    ensures Shape(AfterHandler(y)) && ThreadsOk(AfterHandler(y))
  {
    HandlerSwitches(y.sched);
    WithoutMembers(y.sched.ring, y.sched.current);
  }

  lemma YieldKeeps(y: Sys)
    requires Inv(y) && Enabled(y, Yield)
    ensures Inv(Next(y, Yield))
  {
    var t, e := y.sched.current, EnterYield(y);
    assert forall u :: Suspended(y, u) ==> Suspended(e, u);
    if y.pc[t].BeforeYield? && |y.sched.ring| <= 1 { assert t == y.daemon; }
    HandlerKeeps(e);
  }

  lemma AcquireKeeps(y: Sys, m: Mid)
    requires Inv(y) && Enabled(y, Acquire(m))
    ensures Inv(AcquireStep(y, m))
  {
    if y.locks[m].mutex.locked { QueueUp(y, m); } else { TakeFree(y, m); }
  }

  ghost predicate SameQueues(locks: map<Mid, Lock>, locks': map<Mid, Lock>)
  {
    locks.Keys == locks'.Keys && forall m :: m in locks ==> locks'[m].mutex.queue == locks[m].mutex.queue
  }

  /** A change of owner, holders or history only: the threads are where they were. */
  lemma QueuesKept(y: Sys, r: Sys)
    requires Shape(y) && BlockedOk(y) && AllPlaced(y) && r.sched == y.sched && r.waiting == y.waiting && r.pc.Keys == y.pc.Keys
    requires SameQueues(y.locks, r.locks)
    ensures Shape(r) && BlockedOk(r) && AllPlaced(r)
    ensures forall m, t :: Parked(r.locks, m, t) <==> Parked(y.locks, m, t)
  {
    assert forall m, t :: Parked(r.locks, m, t) <==> Parked(y.locks, m, t);
    SuspendedGrows(y, r);
  }

  /** Nobody is inside `mutex_lock(m)` without being parked on `m`. */
  ghost predicate NobodyGranted(y: Sys, m: Mid)
    requires m in y.locks
  {
    forall t :: t in y.pc && y.locks[m].owner == Some(t) ==> y.pc[t].Outside? || y.pc[t].m != m
  }

  lemma OwnerChange(y: Sys, r: Sys, m: Mid)
    requires Shape(y) && PcOk(y) && CurrentOk(y) && m in y.locks && NobodyGranted(y, m)
    requires r.sched == y.sched && r.pc == y.pc && SameQueues(y.locks, r.locks)
    requires forall k :: k in y.locks && k != m ==> r.locks[k].owner == y.locks[k].owner
    requires forall k, t :: Parked(r.locks, k, t) <==> Parked(y.locks, k, t)
    ensures Shape(r) && PcOk(r) && CurrentOk(r)
  {
  }

  lemma TakeFree(y: Sys, m: Mid)
    requires Inv(y) && Enabled(y, Acquire(m)) && !y.locks[m].mutex.locked
    ensures Inv(AcquireStep(y, m))
  {
    var r := AcquireStep(y, m);
    assert LockOk(y.locks[m]);
    QueuesKept(y, r);
    OwnerChange(y, r, m);
  }

  lemma QueueUp(y: Sys, m: Mid)
    requires Inv(y) && Enabled(y, Acquire(m)) && y.locks[m].mutex.locked
    ensures Inv(AcquireStep(y, m))
  {
    var r, t, l := AcquireStep(y, m), y.sched.current, y.locks[m];
    assert forall k :: !Parked(y.locks, k, t);
    assert LockOk(l) && !Parked(y.locks, m, t);
    QueuedLock(l, r.locks[m], t);
    QueuedParked(y.locks, r.locks, m, t);
    BlockThreads(y, r);
    QueuedBlocked(y, r, m, t);
    QueuedPc(y, r, m, t);
    SuspendedGrows(y, r);
  }

  lemma QueuedLock(l: Lock, r: Lock, t: Tid)
    requires LockOk(l) && l.mutex.locked && t !in l.mutex.queue
    requires r == l.(mutex := l.mutex.(queue := l.mutex.queue + [t]), requests := l.requests + [t])
    ensures LockOk(r)
  {
    assert l.requests + [t] == l.grants + (l.mutex.queue + [t]);
  }

  lemma QueuedParked(locks: map<Mid, Lock>, locks': map<Mid, Lock>, m: Mid, t: Tid)
    requires m in locks && locks'.Keys == locks.Keys && locks'[m].mutex.queue == locks[m].mutex.queue + [t]
    requires forall k :: k in locks && k != m ==> locks'[k] == locks[k]
    ensures forall k, u :: Parked(locks', k, u) <==> Parked(locks, k, u) || (k == m && u == t)
    ensures Parked(locks', m, t)
  {
  }

  lemma QueuedBlocked(y: Sys, r: Sys, m: Mid, t: Tid)
    requires BlockedOk(y) && r.waiting == y.waiting && t == y.sched.current && t !in y.waiting
    requires r.sched == y.sched.(status := y.sched.status[t := Blocked])
    requires forall k :: !Parked(y.locks, k, t)
    requires forall k, u :: Parked(r.locks, k, u) <==> Parked(y.locks, k, u) || (k == m && u == t)
    ensures BlockedOk(r)
  {
  }

  lemma QueuedPc(y: Sys, r: Sys, m: Mid, t: Tid)
    requires Shape(y) && Shape(r) && PcOk(y) && t == y.sched.current == r.sched.current
    requires r.pc == y.pc[t := BeforeYield(m)] && r.locks.Keys == y.locks.Keys && m in y.locks
    requires forall k :: k in y.locks ==> r.locks[k].owner == y.locks[k].owner
    requires forall k :: !Parked(y.locks, k, t)
    requires forall k, u :: Parked(r.locks, k, u) <==> Parked(y.locks, k, u) || (k == m && u == t)
    ensures PcOk(r) && CurrentOk(r)
  {
  }

  lemma SuspendedGrows(y: Sys, r: Sys)
    requires y.waiting <= r.waiting
    requires forall k, u :: Parked(y.locks, k, u) ==> Parked(r.locks, k, u)
    ensures forall u :: Suspended(y, u) ==> Suspended(r, u)
  {
    forall u | Suspended(y, u) ensures Suspended(r, u) {
      if u !in y.waiting { var k :| Parked(y.locks, k, u); assert Parked(r.locks, k, u); }
    }
  }

  /** Marking the running current thread blocked leaves the ring as it is. */
  lemma BlockThreads(y: Sys, r: Sys)
    requires ThreadsOk(y) && y.sched.current != y.daemon && y.sched.status[y.sched.current] == Running
    requires r.sched == y.sched.(status := y.sched.status[y.sched.current := Blocked])
    requires r.daemon == y.daemon && r.nextTid == y.nextTid && r.pc.Keys >= y.pc.Keys
    ensures ThreadsOk(r)
  {
  }

  /** A thread outside the ring joins it at the tail. */
  lemma WakeThreads(y: Sys, r: Sys, w: Tid)
    requires ThreadsOk(y) && w !in y.sched.ring && w !in y.sched.dead && w < r.nextTid && w in r.pc
    requires r.sched == Enqueue(y.sched.(status := y.sched.status[w := Ready]), w)
    requires r.daemon == y.daemon && r.nextTid >= y.nextTid && r.pc.Keys >= y.pc.Keys
    ensures ThreadsOk(r)
  {
    assert forall t :: t in r.sched.ring <==> t in y.sched.ring || t == w;
  }

  /** Control that comes back from the yield in `mutex_lock` finds the mutex given to this thread. */
  lemma ReturnKeeps(y: Sys)
    requires Inv(y) && Enabled(y, Return)
    ensures y.locks[y.pc[y.sched.current].m].owner == Some(y.sched.current)
    ensures Inv(ReturnStep(y))
  {
    var r, t, m := ReturnStep(y), y.sched.current, y.pc[y.sched.current].m;
    assert !Parked(y.locks, m, t);
    assert LockOk(y.locks[m]);
    QueuesKept(y, r);
    ReturnPc(y, r, t);
  }

  lemma ReturnPc(y: Sys, r: Sys, t: Tid)
    requires Shape(y) && PcOk(y) && t in y.pc && r.pc == y.pc[t := Outside] && r.sched == y.sched && t == y.sched.current
    requires CurrentOk(y) && y.pc[t].InYield? && SameQueues(y.locks, r.locks)
    requires forall k :: k in y.locks ==> r.locks[k].owner == y.locks[k].owner
    requires forall k, u :: Parked(r.locks, k, u) <==> Parked(y.locks, k, u)
    ensures Shape(r) && PcOk(r) && CurrentOk(r)
  {
  }

  lemma ReleaseKeeps(y: Sys, m: Mid)
    requires Inv(y) && Enabled(y, Release(m))
    ensures Inv(ReleaseStep(y, m))
  {
    if y.locks[m].mutex.queue == [] { Unlock(y, m); } else { HandOff(y, m); }
  }

  lemma Unlock(y: Sys, m: Mid)
    requires Inv(y) && Enabled(y, Release(m)) && y.locks[m].mutex.queue == []
    ensures Inv(ReleaseStep(y, m))
  {
    var r := ReleaseStep(y, m);
    assert LockOk(y.locks[m]);
    QueuesKept(y, r);
    OwnerChange(y, r, m);
  }

  lemma HandOff(y: Sys, m: Mid)
    requires Inv(y) && Enabled(y, Release(m)) && y.locks[m].mutex.queue != []
    ensures Inv(ReleaseStep(y, m))
  {
    var r, l := ReleaseStep(y, m), y.locks[m];
    var w := l.mutex.queue[0];
    assert LockOk(l) && Parked(y.locks, m, w);
    HandOffLock(l, y.sched.current);
    HandOffParked(y, r, m);
    WakeThreads(y, r, w);
    HandOffBlocked(y, r, w);
    HandOffPc(y, r, m, w);
    HandOffPlaced(y, r, w);
  }

  lemma HandOffLock(l: Lock, t: Tid)
    requires LockOk(l) && l.mutex.queue != [] && t in l.holders
    ensures var w := l.mutex.queue[0];
      LockOk(l.(mutex := l.mutex.(queue := l.mutex.queue[1..]), holders := l.holders - {t}, owner := Some(w), grants := l.grants + [w]))
  {
    var q := l.mutex.queue;
    assert l.grants + q == (l.grants + [q[0]]) + q[1..];
    PopQueue(q);
  }

  lemma HandOffParked(y: Sys, r: Sys, m: Mid)
    requires BlockedOk(y) && m in y.locks && y.locks[m].mutex.queue != [] && NoDup(y.locks[m].mutex.queue)
    requires r.locks.Keys == y.locks.Keys && r.locks[m].mutex.queue == y.locks[m].mutex.queue[1..]
    requires forall k :: k in y.locks && k != m ==> r.locks[k] == y.locks[k]
    ensures forall k, u :: Parked(r.locks, k, u) <==> Parked(y.locks, k, u) && u != y.locks[m].mutex.queue[0]
  {
    PopQueue(y.locks[m].mutex.queue);
    assert Parked(y.locks, m, y.locks[m].mutex.queue[0]);
  }

  lemma HandOffBlocked(y: Sys, r: Sys, w: Tid)
    requires BlockedOk(y) && r.waiting == y.waiting && w !in y.waiting && w !in y.sched.ring
    requires r.sched == Enqueue(y.sched.(status := y.sched.status[w := Ready]), w)
    requires forall k, u :: Parked(r.locks, k, u) <==> Parked(y.locks, k, u) && u != w
    ensures BlockedOk(r)
  {
  }

  lemma HandOffPc(y: Sys, r: Sys, m: Mid, w: Tid)
    requires Shape(y) && Shape(r) && PcOk(y) && CurrentOk(y) && r.pc == y.pc && r.sched.current == y.sched.current
    requires r.locks.Keys == y.locks.Keys && Parked(y.locks, m, w) && NobodyGranted(y, m)
    requires forall k :: k in y.locks && k != m ==> r.locks[k].owner == y.locks[k].owner
    requires r.locks[m].owner == Some(w)
    requires forall k, u :: Parked(r.locks, k, u) <==> Parked(y.locks, k, u) && u != w
    ensures PcOk(r) && CurrentOk(r)
  {
  }

  lemma PopQueue(q: seq<Tid>)
    requires q != [] && NoDup(q)
    ensures NoDup(q[1..]) && forall u :: u in q[1..] <==> u in q && u != q[0]
  {
    assert q == [q[0]] + q[1..];
  }

  lemma HandOffPlaced(y: Sys, r: Sys, w: Tid)
    requires Shape(y) && Shape(r) && AllPlaced(y) && y.waiting - {w} <= r.waiting && w !in y.sched.ring
    requires r.sched == Enqueue(y.sched.(status := y.sched.status[w := Ready]), w)
    requires forall k, u :: Parked(y.locks, k, u) && u != w ==> Parked(r.locks, k, u)
    ensures AllPlaced(r)
  {
    forall u | Suspended(y, u) && u != w ensures Suspended(r, u) {
      if u !in y.waiting { var k :| Parked(y.locks, k, u); assert Parked(r.locks, k, u); }
    }
  }

  lemma DeviceKeeps(y: Sys, step: Step)
    requires Inv(y) && Enabled(y, step) && (step.WaitDevice? || step.WakeDevice?)
    ensures Inv(Next(y, step))
  {
    var r, t := Next(y, step), y.sched.current;
    if step.WaitDevice? {
      assert forall k :: !Parked(y.locks, k, t);
      BlockThreads(y, r);
      SuspendedGrows(y, r);
    } else {
      WakeThreads(y, r, step.t);
      HandOffPlaced(y, r, step.t);
    }
  }

  lemma ExitKeeps(y: Sys)
    requires Inv(y) && Enabled(y, Exit)
    ensures Inv(Next(y, Exit))
  {
    assert forall k :: !Parked(y.locks, k, y.sched.current);
    SuspendedGrows(y, Next(y, Exit));
  }

  lemma CreateKeeps(y: Sys)
    requires Inv(y)
    ensures Inv(Next(y, Create))
  {
    var r, n := Next(y, Create), y.nextTid;
    assert n !in y.sched.status && n !in y.sched.ring;
    WakeThreads(y, r, n);
    SuspendedGrows(y, r);
  }

  lemma CleanupKeeps(y: Sys)
    requires Inv(y) && Enabled(y, Cleanup)
    ensures Inv(Next(y, Cleanup))
  {
    SuspendedGrows(y, Next(y, Cleanup));
  }

  lemma StepKeeps(y: Sys, step: Step)
    requires Inv(y) && Enabled(y, step)
    ensures Inv(Next(y, step))
  {
    match step
    case Timer => HandlerKeeps(y);
    case Yield => YieldKeeps(y);
    case Acquire(m) => AcquireKeeps(y, m);
    case Return => ReturnKeeps(y);
    case Release(m) => ReleaseKeeps(y, m);
    case WaitDevice => DeviceKeeps(y, step);
    case WakeDevice(w) => DeviceKeeps(y, step);
    case Exit => ExitKeeps(y);
    case Create => CreateKeeps(y);
    case Cleanup => CleanupKeeps(y);
  }

  // ---- whole runs -----------------------------------------------------------------------------------------

  ghost predicate RunOk(y: Sys, steps: seq<Step>)
    requires Inv(y)
    decreases |steps|
  {
    steps == [] || (Enabled(y, steps[0]) && (StepKeeps(y, steps[0]); RunOk(Next(y, steps[0]), steps[1..])))
  }

  ghost function Run(y: Sys, steps: seq<Step>): (r: Sys)
    requires Inv(y) && RunOk(y, steps)
    ensures Inv(r)
    decreases |steps|
  {
    if steps == [] then y
    else
      StepKeeps(y, steps[0]);
      Run(Next(y, steps[0]), steps[1..])
  }

  /** `init_scheduler`: the running main thread, the log flusher and the thread cleaner; any number of
      free mutexes. The log flusher serves as the thread that never blocks. */
  ghost function Boot(mids: set<Mid>): (y: Sys)
    ensures Inv(y)
  {
    var free := Lock(Mutex(false, []), {}, None, [], []);
    var y := Sys(Sched([0, 1, 2], 0, map[0 := Running, 1 := Ready, 2 := Ready], []),
                 map m | m in mids :: free, {}, map[0 := Outside, 1 := Outside, 2 := Outside], 1, 3);
    assert y.sched.ring[0] == 0 && y.sched.ring[1] == 1 && y.sched.ring[2] == 2;
    assert forall m, t :: !Parked(y.locks, m, t);
    y
  }

  /** Mutual exclusion: over every run at most one thread is past `mutex_lock` and not yet unlocked. */
  lemma MutualExclusion(mids: set<Mid>, steps: seq<Step>, m: Mid, t: Tid, u: Tid)
    requires RunOk(Boot(mids), steps) && m in Run(Boot(mids), steps).locks
    requires t in Run(Boot(mids), steps).locks[m].holders && u in Run(Boot(mids), steps).locks[m].holders
    ensures t == u && Run(Boot(mids), steps).locks[m].mutex.locked
  {
    assert LockOk(Run(Boot(mids), steps).locks[m]);
  }

  /** No barging: the grants of a mutex are always an initial part of its requests, in the same order, the
      rest being its queue; and an unlocked mutex has no queue. */
  lemma GrantsInRequestOrder(mids: set<Mid>, steps: seq<Step>, m: Mid)
    requires RunOk(Boot(mids), steps) && m in Run(Boot(mids), steps).locks
    ensures var l := Run(Boot(mids), steps).locks[m];
      l.requests == l.grants + l.mutex.queue && (!l.mutex.locked ==> l.grants == l.requests)
  {
    assert LockOk(Run(Boot(mids), steps).locks[m]);
  }

  /** Over every step, requests and grants are only appended to: by at most one each, and a new request
      is by the current thread. */
  lemma HistoryGrows(y: Sys, step: Step, m: Mid)
    requires Inv(y) && Enabled(y, step) && m in y.locks
    ensures var r := Next(y, step);
      && m in r.locks
      && (r.locks[m].requests == y.locks[m].requests || r.locks[m].requests == y.locks[m].requests + [y.sched.current])
      && (r.locks[m].grants == y.locks[m].grants
          || (step == Acquire(m) && r.locks[m].grants == y.locks[m].grants + [y.sched.current])
          || (step == Release(m) && y.locks[m].mutex.queue != []
              && r.locks[m].grants == y.locks[m].grants + [y.locks[m].mutex.queue[0]]))
  {
  }

  /** The places a thread can be in. */
  ghost function Places(y: Sys, t: Tid): nat
  {
    (if t in y.sched.ring then 1 else 0) + (if t in y.sched.dead then 1 else 0)
    + (if t in y.waiting then 1 else 0) + (if exists m :: Parked(y.locks, m, t) then 1 else 0)
  }

  /** Over every run each thread is in exactly one place, except that a current thread that has just
      blocked is still in the ring too; it is on at most one mutex queue; only the current thread can
      be running; and the handler finds a ready thread at its first test, so it never spins. */
  lemma ThreadsArePlaced(mids: set<Mid>, steps: seq<Step>, t: Tid)
    requires RunOk(Boot(mids), steps) && t in Run(Boot(mids), steps).sched.status
    ensures var y := Run(Boot(mids), steps);
      && Places(y, t) == (if t == y.sched.current && y.sched.status[t] == Blocked then 2 else 1)
      && (forall m, n :: Parked(y.locks, m, t) && Parked(y.locks, n, t) ==> m == n)
      && (y.sched.status[t] == Running ==> t == y.sched.current)
      && (t in y.sched.ring && t != y.sched.current ==> y.sched.status[t] == Ready)
      && Handler(y.sched).Continue?
  {
    var y := Run(Boot(mids), steps);
    HandlerKeeps(y);
    PlacedOnce(y, t);
  }

  lemma PlacedOnce(y: Sys, t: Tid)
    requires Inv(y) && t in y.sched.status
    ensures Places(y, t) == (if t == y.sched.current && y.sched.status[t] == Blocked then 2 else 1)
    ensures forall m, n :: Parked(y.locks, m, t) && Parked(y.locks, n, t) ==> m == n
    ensures y.sched.status[t] == Running ==> t == y.sched.current
    ensures t in y.sched.ring && t != y.sched.current ==> y.sched.status[t] == Ready
  {
    StatusTellsPlace(y, t);
  }

  /** The status of a thread determines where it is. */
  lemma StatusTellsPlace(y: Sys, t: Tid)
    requires Shape(y) && ThreadsOk(y) && BlockedOk(y) && AllPlaced(y) && t in y.sched.status
    ensures Suspended(y, t) <==> y.sched.status[t] == Blocked
    ensures t in y.waiting ==> !exists m :: Parked(y.locks, m, t)
    ensures t in y.sched.dead ==> y.sched.status[t] == Dead && t !in y.sched.ring
    ensures t in y.sched.ring <==> y.sched.status[t] == Ready || t == y.sched.current
    ensures y.sched.status[t] == Running ==> t == y.sched.current
  {
    assert Suspended(y, t) ==> Stopped(y.sched, t);
  }

  // ---- what the assumptions are needed for ------------------------------------------------------------------

  /** Thread 0, alone in the ring, has asked for mutex 0 while thread 1, which holds it, waits for a device. */
  ghost function Lonely(): Sys
  {
    Sys(Sched([0], 0, map[0 := Blocked, 1 := Blocked], []),
        map[0 := Lock(Mutex(true, [0]), {1}, Some(1), [1, 0], [1])],
        {1}, map[0 := BeforeYield(0), 1 := Outside], 2, 3)
  }

  /** Without another thread in the ring exclusion fails: the handler returns to the blocked thread, which
      then leaves `mutex_lock` although thread 1 holds the mutex. */
  lemma LonelyThreadBreaksExclusion()
    ensures Shape(Lonely()) && Enabled(Lonely(), Yield)
    ensures var y := Next(Lonely(), Yield); Shape(y) && Enabled(y, Return) && Next(y, Return).locks[0].holders == {0, 1}
  {
    assert Lonely().sched.ring[0] == 0;
  }

  /** The disk driver enables interrupts between marking its thread blocked and the switch: from boot, one step leads to a
      state in which the wake-up of a thread that is still in the ring can arrive. */
  lemma WakeCanComeBeforeSwitch(mids: set<Mid>)
    ensures RunOk(Boot(mids), [WaitDevice])
    ensures var s := Run(Boot(mids), [WaitDevice]).sched;
      s.current in Run(Boot(mids), [WaitDevice]).waiting && s.current == s.ring[0] && |s.ring| > 1
  {
    var y := Boot(mids);
    var r := Next(y, WaitDevice);
    StepKeeps(y, WaitDevice);
    assert RunOk(r, []) && Run(r, []) == r;
    assert [WaitDevice][1..] == [];
  }
}
