/** kernel/scheduler and kernel/sync/mutex.c in place: threads linked into a circular ready list, a dead
    list and the queue of a mutex. */
module ReadyRing {
  import opened Seqs
  import opened Scheduling

  class Thread {
    var state: Status
    var next: Thread?
    var prev: Thread?
    var nextBlocked: Thread?

    constructor ()
      ensures state == Ready && next == null && prev == null && nextBlocked == null
    {
      state, next, prev, nextBlocked := Ready, null, null, null;
    }
  }

  function Head(s: seq<Thread>): Thread?
  {
    if s == [] then null else s[0]
  }

  /** `next` and `prev` go round the ring. */
  ghost predicate Circular(ring: seq<Thread>)
    reads ring`next, ring`prev
  {
    && (forall i :: 0 <= i < |ring| - 1 ==> ring[i].next == ring[i + 1])
    && (forall i :: 1 <= i < |ring| ==> ring[i].prev == ring[i - 1])
    && (ring != [] ==> ring[|ring| - 1].next == ring[0] && ring[0].prev == ring[|ring| - 1])
  }

  /** `next` leads along the list and ends in null. */
  ghost predicate Linear(s: seq<Thread>)
    reads s`next
  {
    && (forall i :: 0 <= i < |s| - 1 ==> s[i].next == s[i + 1])
    && (s != [] ==> s[|s| - 1].next == null)
  }

  /** The ring after its k-th member has been enqueued again: `next` leads from it straight back to the head. */
  ghost predicate Rewired(ring: seq<Thread>, k: nat)
    requires k < |ring|
    reads ring`next, ring`prev
  {
    && (forall i :: 0 <= i < k ==> ring[i].next == ring[i + 1])
    && ring[k].next == ring[0]
    && (k == |ring| - 1 ==> ring[k].prev == ring[k])
  }

  /** `s` follows `next` from the head of the ring. */
  ghost predicate Follows(ring: seq<Thread>, s: seq<Thread>)
    requires ring != []
    reads s`next
  {
    (s != [] ==> s[0] == ring[0]) && forall i :: 0 <= i < |s| - 1 ==> s[i].next == s[i + 1]
  }

  /** From the head of a rewired ring exactly the members up to the rewired one are reached. */
  lemma {:induction false} ReachedAfterRewiring(ring: seq<Thread>, k: nat, s: seq<Thread>, i: nat) returns (j: nat)
    requires k < |ring| && Rewired(ring, k) && Follows(ring, s) && i < |s|
    ensures j <= k && s[i] == ring[j] && (i <= k ==> j == i)
    ensures Follows(ring, ring[..k + 1])
  {
    if i == 0 {
      j := 0;
    } else {
      j := ReachedAfterRewiring(ring, k, s, i - 1);
      assert s[i] == s[i - 1].next;
      j := if j == k then 0 else j + 1;
    }
  }

  /** A ready ring with the given head and members. */
  ghost predicate WholeRing(head: Thread, members: seq<Thread>, s: seq<Thread>)
    reads s`next, s`prev
  {
    s != [] && s[0] == head && NoDup(s) && Circular(s) && (forall t :: t in s ==> t in members) && (forall t :: t in members ==> t in s)
  }

  /** Enqueueing a member again leaves a ring of all the members if and only if it was alone. */
  lemma RewiredIsWholeIff(ring: seq<Thread>, k: nat)
    requires NoDup(ring) && k < |ring| && Rewired(ring, k)
    ensures |ring| == 1 ==> WholeRing(ring[0], ring, ring)
    ensures |ring| > 1 ==> forall s: seq<Thread> :: !WholeRing(ring[0], ring, s)
  {
    forall s: seq<Thread> | |ring| > 1 && WholeRing(ring[0], ring, s) ensures false {
      NotWhole(ring, k, s);
    }
  }

  lemma NotWhole(ring: seq<Thread>, k: nat, s: seq<Thread>)
    requires NoDup(ring) && k < |ring| && Rewired(ring, k) && |ring| > 1
    ensures !WholeRing(ring[0], ring, s)
  {
    if WholeRing(ring[0], ring, s) {
      assert Follows(ring, s);
      var i := LastReached(ring, k, s);
      PrevIsOther(s, i);
    }
  }

  lemma PrevIsOther(s: seq<Thread>, i: nat)
    requires NoDup(s) && Circular(s) && 0 < i < |s|
    ensures s[i].prev != s[i]
  {
    assert s[i].prev == s[i - 1];
  }

  /** If everybody is reached, the rewired member is the last one. */
  lemma LastReached(ring: seq<Thread>, k: nat, s: seq<Thread>) returns (i: nat)
    requires NoDup(ring) && k < |ring| && Rewired(ring, k) && |ring| > 1 && Follows(ring, s) && ring[|ring| - 1] in s
    ensures k == |ring| - 1 && 0 < i < |s| && s[i].prev == s[i]
  {
    i :| i < |s| && s[i] == ring[|ring| - 1];
    var j := ReachedAfterRewiring(ring, k, s, i);
    assert ring[j] == ring[|ring| - 1];
  }

  class Scheduler {
    var current: Thread
    var readyListHead: Thread?
    var deadListHead: Thread?
    ghost var ring: seq<Thread>
    ghost var dead: seq<Thread>
    ghost var threads: set<Thread>

    constructor (main: Thread)
      modifies main
      ensures Valid() && ring == [main] && current == main && threads == {main} && dead == [] && main.state == Running
    {
      current, readyListHead, deadListHead := main, null, null;
      ring, dead, threads := [], [], {main};
      new;
      main.state := Running;
      Enqueue(main);
    }

    ghost function Statuses(): map<Thread, Status>
      reads this`threads, threads`state
    {
      map t | t in threads :: t.state
    }

    ghost function Model(): Sched<Thread>
      reads this, threads`state
    {
      Sched(ring, current, Statuses(), dead)
    }

    ghost predicate RingValid()
      reads this`ring, this`readyListHead, ring`next, ring`prev
    {
      && NoDup(ring) && readyListHead == Head(ring) && Circular(ring)
    }

    ghost predicate DeadValid()
      reads this`dead, this`deadListHead, dead`next
    {
      && NoDup(dead) && deadListHead == Head(dead) && Linear(dead)
    }

    ghost predicate Valid()
      reads this, ring`next, ring`prev, dead`next
    {
      && RingValid() && DeadValid() && current in threads
      && (forall t :: t in ring ==> t in threads && t !in dead) && (forall t :: t in dead ==> t in threads)
    }

    /** `enqueue_thread`. A thread outside the ring joins it at the tail; one inside it is rewired instead. */
    method Enqueue(t: Thread)
      requires RingValid()
      modifies this`readyListHead, this`ring, ring`next, ring`prev, t`next, t`prev
      ensures Statuses() == old(Statuses())
      ensures t !in old(ring) ==> RingValid() && ring == old(ring) + [t]
      ensures t in old(ring) ==> ring == old(ring) && readyListHead == old(readyListHead)
      ensures forall k: nat :: k < |old(ring)| && old(ring)[k] == t ==> Rewired(old(ring), k)
    {
      if readyListHead == null {
        t.next := t;
        t.prev := t;
        readyListHead := t;
      } else {
        var tail := readyListHead.prev;
        assert tail == ring[|ring| - 1];
        tail.next := t;
        t.prev := tail;
        t.next := readyListHead;
        readyListHead.prev := t;
      }
      if t !in ring {
        ring := ring + [t];
      }
    }

    /** `dequeue_thread` */
    method Dequeue(t: Thread, ghost k: nat)
      requires RingValid() && k < |ring| && ring[k] == t
      modifies this`readyListHead, this`ring, ring`next, ring`prev
      ensures RingValid() && ring == Cut(old(ring), k) && t.next == null && t.prev == null
    {
      CutNoDup(ring, k);
      if t.next == t {
        AloneWhen(ring, k);
        readyListHead := null;
      } else {
        if readyListHead == t {
          readyListHead := t.next;
        }
        HeadAfter(ring, k);
        Bypass(t, ring, k);
      }
      Loosen(t, Cut(ring, k));
      ring := Cut(ring, k);
    }

    /** The outgoing thread is dead or blocked: it leaves the ring. */
    method LeaveRing(ghost k: nat)
      requires Valid() && k < |ring| && ring[k] == current && Leaving(current.state)
      modifies this`readyListHead, this`deadListHead, this`ring, this`dead, ring`next, ring`prev
      ensures Valid() && Model() == Leave<Thread>(old(Model()))
    {
      LeaveAt(Model(), k);
      Detach(k);
      if current.state == Dead {
        Bury();
      }
    }

    method Detach(ghost k: nat)
      requires Valid() && k < |ring| && ring[k] == current
      modifies this`readyListHead, this`ring, ring`next, ring`prev
      ensures Valid() && ring == Cut(old(ring), k) && current !in ring && current !in dead && Statuses() == old(Statuses())
    {
      ghost var was := ring;
      CutNoDup(was, k);
      assert current in was;
      assert forall i :: 0 <= i < |dead| ==> dead[i] in dead && dead[i] !in was;
      Dequeue(current, k);
      assert DeadValid();
      assert forall t :: t in ring ==> t in was;
    }

    method Bury()
      requires Valid() && current !in ring && current !in dead
      modifies this`deadListHead, this`dead, current`next
      ensures Valid() && dead == [current] + old(dead) && Statuses() == old(Statuses())
    {
      ghost var rest := dead;
      assert forall i :: 0 <= i < |dead| ==> dead[i] in dead;
      current.next := deadListHead;
      deadListHead := current;
      dead := [current] + dead;
      assert RingValid();
      assert forall t :: t in dead <==> t == current || t in rest;
    }

    /** The selection loop of `scheduler_handler`: the first runnable thread from `start` on, or null after one round. */
    method FindRunnable(start: Thread, ghost i: nat) returns (next: Thread?, ghost j: nat)
      requires Valid() && i < |ring| && ring[i] == start
      ensures j < |ring| && (next != null ==> next == ring[j])
      ensures Select<Thread>(ring, Statuses(), i, i) == if next == null then None else Some(j)
    {
      next, j := start, i;
      while !Runnable(next.state)
        invariant j < |ring| && next == ring[j] && Select<Thread>(ring, Statuses(), i, j) == Select<Thread>(ring, Statuses(), i, i)
        decreases Around(j, i, |ring|)
      {
        assert next.next == ring[Succ(j, |ring|)];
        next := next.next;
        j := Succ(j, |ring|);
        if next == start {
          assert j == i;
          return null, j;
        }
      }
    }

    /** The switch to the thread the selection loop finds, or back to the outgoing one. */
    method PickNext(start: Thread, ghost i: nat, prior: Thread)
      requires Valid() && i < |ring| && ring[i] == start && prior in threads
      requires Pick<Thread>(Model(), i, Leaving(prior.state), prior).Continue?
      modifies this`current, threads`state
      ensures Valid() && Outcome<Thread>.Continue(Model()) == Pick<Thread>(old(Model()), i, old(Leaving(prior.state)), prior)
    {
      var next, j := FindRunnable(start, i);
      if next == null {
        if Leaving(prior.state) {
          assert false;
        }
        SetRunning(prior);
      } else {
        SetRunning(next);
        current := next;
      }
    }

    method SetReady(t: Thread)
      requires Valid() && t in threads
      modifies t`state, t`nextBlocked
      ensures Valid() && Statuses() == old(Statuses())[t := Ready]
    {
      t.state := Ready;
      t.nextBlocked := null;
    }

    /** A thread that is in no list joins the ring. */
    method Join(t: Thread)
      requires Valid() && t !in ring && t !in dead && t in threads
      modifies this`ring, this`readyListHead, ring`next, ring`prev, t`next, t`prev
      ensures Valid() && ring == old(ring) + [t] && Statuses() == old(Statuses())
    {
      ghost var was := ring;
      assert forall i :: 0 <= i < |dead| ==> dead[i] in dead && dead[i] !in was;
      Enqueue(t);
      assert DeadValid();
      assert forall u :: u in ring <==> u in was || u == t;
    }

    method SetRunning(t: Thread)
      requires Valid() && t in threads
      modifies t`state
      ensures Valid() && Statuses() == old(Statuses())[t := Running]
    {
      t.state := Running;
    }

    /** `scheduler_handler`: thread selection. */
    method SchedulerHandler(ghost k: nat)
      requires Valid() && k < |ring| && ring[k] == current && k == IndexOf(ring, current)
      requires Handler<Thread>(Model()).Continue?
      modifies this, threads`state, ring`next, ring`prev
      ensures Valid() && Outcome<Thread>.Continue(Model()) == Handler<Thread>(old(Model()))
    {
      if readyListHead == null || readyListHead.next == readyListHead {
        assert |ring| == 1;
        return;
      }
      var prior := current;
      var start, i := StepAside(k);
      if start == null {
        return;
      }
      PickNext(start, i, prior);
    }

    /** The outgoing thread gives way: it leaves the ring, or becomes ready. The selection starts at `start`. */
    method StepAside(ghost k: nat) returns (start: Thread?, ghost i: nat)
      requires Valid() && k < |ring| && ring[k] == current
      modifies this`readyListHead, this`deadListHead, this`ring, this`dead, current`state, ring`next, ring`prev
      ensures Valid() && Leaving(current.state) == old(Leaving(current.state))
      ensures old(Leaving(current.state)) ==> Model() == Leave<Thread>(old(Model())) && start == readyListHead && i == 0
      ensures !old(Leaving(current.state)) ==>
        && Model() == old(Model()).(status := old(Statuses())[current := Ready])
        && i == Succ(k, |ring|) && start == ring[i]
    {
      start, i := current.next, Succ(k, |ring|);
      if Leaving(current.state) {
        LeaveRing(k);
        start, i := readyListHead, 0;
      } else {
        current.state := Ready;
      }
    }
  }

  ghost function Cut(ring: seq<Thread>, k: nat): (r: seq<Thread>)
    requires k < |ring|
    ensures |r| == |ring| - 1
    ensures forall i :: 0 <= i < k ==> r[i] == ring[i]
    ensures forall i :: k <= i < |r| ==> r[i] == ring[i + 1]
  {
    ring[..k] + ring[k + 1..]
  }

  lemma LeaveAt(s: Sched<Thread>, k: nat)
    requires NoDup(s.ring) && k < |s.ring| && s.ring[k] == s.current && s.current in s.status
    ensures Leave<Thread>(s) == s.(ring := Cut(s.ring, k), dead := if s.status[s.current] == Dead then [s.current] + s.dead else s.dead)
  {
    WithoutAt<Thread>(s.ring, k);
  }

  lemma CutNoDup(ring: seq<Thread>, k: nat)
    requires NoDup(ring) && k < |ring|
    ensures NoDup(Cut(ring, k)) && ring[k] !in Cut(ring, k)
  {
  }

  /** A member that is its own successor is alone. */
  lemma AloneWhen(ring: seq<Thread>, k: nat)
    requires NoDup(ring) && Circular(ring) && k < |ring| && ring[k].next == ring[k]
    ensures |ring| == 1 && Cut(ring, k) == [] && Circular(Cut(ring, k))
  {
    assert ring[k].next == ring[if k == |ring| - 1 then 0 else k + 1];
  }

  /** The head once a member that is not alone has left. */
  lemma HeadAfter(ring: seq<Thread>, k: nat)
    requires NoDup(ring) && Circular(ring) && k < |ring| && ring[k].next != ring[k]
    ensures |ring| > 1 && Head(Cut(ring, k)) == (if k == 0 then ring[k].next else ring[0])
    ensures ring[0] == ring[k] <==> k == 0
  {
    assert ring[k].next == ring[if k == |ring| - 1 then 0 else k + 1];
  }

  method Loosen(t: Thread, ghost rest: seq<Thread>)
    requires Circular(rest) && t !in rest
    modifies t`next, t`prev
    ensures Circular(rest) && t.next == null && t.prev == null
  {
    t.next := null;
    t.prev := null;
  }

  /** Link the neighbours of `t` to each other. */
  method Bypass(t: Thread, ghost ring: seq<Thread>, ghost k: nat)
    requires NoDup(ring) && Circular(ring) && k < |ring| && ring[k] == t && |ring| > 1
    modifies ring`next, ring`prev
    ensures Circular(Cut(ring, k))
  {
    ghost var n := |ring|;
    assert t.prev == ring[if k == 0 then n - 1 else k - 1];
    assert t.next == ring[if k == n - 1 then 0 else k + 1];
    t.prev.next := t.next;
    t.next.prev := t.prev;
  }

  /** `mutex_t`: its waiters are linked by `next_blocked`, first to be woken first. */
  class KernelMutex {
    var locked: bool
    var blockedHead: Thread?
    var blockedTail: Thread?
    ghost var queue: seq<Thread>

    constructor ()
      ensures Valid() && Model() == Mutex(false, [])
    {
      locked, blockedHead, blockedTail, queue := false, null, null, [];
    }

    ghost function Model(): Mutex<Thread>
      reads this`locked, this`queue
    {
      Mutex(locked, queue)
    }

    ghost predicate Valid()
      reads this, queue`nextBlocked
    {
      && NoDup(queue) && blockedHead == Head(queue)
      && blockedTail == (if queue == [] then null else queue[|queue| - 1])
      && (forall i :: 0 <= i < |queue| - 1 ==> queue[i].nextBlocked == queue[i + 1])
      && (queue != [] ==> queue[|queue| - 1].nextBlocked == null)
    }

    /** `mutex_lock` up to its yield */
    method Lock(s: Scheduler)
      requires Valid() && s.Valid() && s.current !in queue
      modifies this, s.current`state, s.current`nextBlocked, queue`nextBlocked
      ensures Valid() && s.Valid() && (Model(), s.Model()) == LockMutex<Thread>(old(Model()), old(s.Model()))
    {
      if !locked {
        locked := true;
        assert s.Model() == old(s.Model());
        return;
      }
      var t := s.current;
      t.state := Blocked;
      Append(t);
      assert s.Statuses() == old(s.Statuses())[t := Blocked];
    }

    method Append(t: Thread)
      requires Valid() && t !in queue
      modifies this`blockedHead, this`blockedTail, this`queue, t`nextBlocked, queue`nextBlocked
      ensures Valid() && queue == old(queue) + [t]
    {
      t.nextBlocked := null;
      if blockedHead == null {
        blockedHead := t;
        blockedTail := t;
      } else {
        blockedTail.nextBlocked := t;
        blockedTail := t;
      }
      queue := queue + [t];
    }

    /** `mutex_unlock` */
    method Unlock(s: Scheduler)
      requires Valid() && s.Valid()
      requires queue != [] ==> queue[0] !in s.ring && queue[0] !in s.dead && queue[0] in s.threads
      modifies this, queue`nextBlocked, queue`state, queue`next, queue`prev
      modifies s`ring, s`readyListHead, s.ring`next, s.ring`prev
      ensures Valid() && s.Valid() && (Model(), s.Model()) == UnlockMutex<Thread>(old(Model()), old(s.Model()))
    {
      if blockedHead == null {
        locked := false;
        return;
      }
      var wake := blockedHead;
      Pop();
      Wake(s, wake);
    }

    /** A thread that has left the queue joins the ring; the queue stays as it is. */
    method Wake(s: Scheduler, wake: Thread)
      requires Valid() && s.Valid() && wake !in queue && wake !in s.ring && wake !in s.dead && wake in s.threads
      modifies s`ring, s`readyListHead, s.ring`next, s.ring`prev, wake`state, wake`nextBlocked, wake`next, wake`prev
      ensures Valid() && s.Valid()
      ensures s.Model() == Enqueue<Thread>(old(s.Model()).(status := old(s.Model()).status[wake := Ready]), wake)
    {
      assert forall i :: 0 <= i < |queue| ==> queue[i] in queue;
      Rouse(s, wake);
    }

    /** Take the first waiter off the queue. */
    method Pop()
      requires Valid() && queue != []
      modifies this`blockedHead, this`blockedTail, this`queue
      ensures Valid() && queue == old(queue)[1..] && old(queue)[0] !in queue
    {
      blockedHead := blockedHead.nextBlocked;
      if blockedHead == null {
        blockedTail := null;
      }
      queue := queue[1..];
    }
  }

  /** A woken thread becomes ready and joins the ring. */
  method Rouse(s: Scheduler, t: Thread)
    requires s.Valid() && t !in s.ring && t !in s.dead && t in s.threads
    modifies s`ring, s`readyListHead, s.ring`next, s.ring`prev, t`state, t`nextBlocked, t`next, t`prev
    ensures s.Valid() && s.Model() == Enqueue<Thread>(old(s.Model()).(status := old(s.Model()).status[t := Ready]), t)
  {
    s.SetReady(t);
    s.Join(t);
  }
}
