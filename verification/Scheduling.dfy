/** Thread selection, the ready ring and the blocking mutex, on sequences.

    `ring` is the circular ready list read from `ready_list_head`; `queue` is a mutex's list of
    blocked threads read from its head. */
module Scheduling {
  import opened Seqs

  datatype Status = Ready | Running | Blocked | Dead

  datatype Sched<T(==)> = Sched(ring: seq<T>, current: T, status: map<T, Status>, dead: seq<T>)

  datatype Mutex<T> = Mutex(locked: bool, queue: seq<T>)

  /** `Spin` is the endless loop the handler enters when it finds no thread to run. */
  datatype Outcome<T> = Continue(s: Sched<T>) | Spin

  /** Every thread of the ring has a status, and the current thread is in the ring. */
  ghost predicate Wf<T>(s: Sched<T>)
  {
    s.current in s.ring && forall t :: t in s.ring ==> t in s.status
  }

  function IndexOf<T(==)>(s: seq<T>, x: T): (i: nat)
    requires x in s
    ensures i < |s| && s[i] == x
  {
    if s[0] == x then 0 else 1 + IndexOf(s[1..], x)
  }

  function Succ(i: nat, n: nat): (j: nat)
    requires i < n
    ensures j < n
  {
    if i + 1 == n then 0 else i + 1
  }

  predicate Runnable(st: Status)
  {
    st == Ready || st == Running
  }

  predicate Leaving(st: Status)
  {
    st == Dead || st == Blocked
  }

  /** How many steps round the ring lead from `i` back to `start`. */
  function Around(i: nat, start: nat, n: nat): nat
    requires i < n && start < n
  {
    if i < start then start - i else start + n - i
  }

  /** The selection loop: the first runnable thread at or after index `i`, going round once to `start`. */
  function Select<T(==)>(ring: seq<T>, status: map<T, Status>, start: nat, i: nat): (r: Option<nat>)
    requires start < |ring| && i < |ring| && forall t :: t in ring ==> t in status
    ensures r.Some? ==> r.value < |ring| && Runnable(status[ring[r.value]])
    decreases Around(i, start, |ring|)
  {
    if Runnable(status[ring[i]]) then Some(i)
    else if Succ(i, |ring|) == start then None
    else Select(ring, status, start, Succ(i, |ring|))
  }

  /** `scheduler_handler`, as far as threads are concerned. */
  function Handler<T(==)>(s: Sched<T>): (o: Outcome<T>)
    requires Wf(s)
  {
    if |s.ring| <= 1 then Continue(s)
    else if Leaving(s.status[s.current]) then
      LeaveWf(s);
      Pick(Leave(s), 0, true, s.current)
    else
      Pick(s.(status := s.status[s.current := Ready]), Succ(IndexOf(s.ring, s.current), |s.ring|), false, s.current)
  }

  /** The outgoing thread leaves the ring; a dead one goes to the dead list. */
  function Leave<T(==)>(s: Sched<T>): Sched<T>
    requires s.current in s.status
  {
    var t := s.current;
    s.(ring := Without(s.ring, t), dead := if s.status[t] == Dead then [t] + s.dead else s.dead)
  }

  lemma LeaveWf<T>(s: Sched<T>)
    requires Wf(s)
    ensures forall t :: t in Leave(s).ring ==> t in s.ring && t in s.status
  {
    WithoutSubset(s.ring, s.current);
  }

  lemma {:induction false} WithoutSubset<T>(s: seq<T>, x: T)
    ensures forall y :: y in Without(s, x) ==> y in s
    ensures |Without(s, x)| == if x in s then |s| - 1 else |s|
  {
    if s != [] {
      WithoutSubset(s[1..], x);
      assert s == [s[0]] + s[1..];
    }
  }

  function Pick<T(==)>(s: Sched<T>, start: nat, leaving: bool, prior: T): Outcome<T>
    requires s.ring == [] || start < |s.ring|
    requires forall t :: t in s.ring ==> t in s.status
  {
    if s.ring == [] then Continue(s)
    else
      match Select(s.ring, s.status, start, start)
      case Some(i) => Continue(s.(status := s.status[s.ring[i] := Running], current := s.ring[i]))
      case None => if leaving then Spin else Continue(s.(status := s.status[prior := Running]))
  }

  /** `enqueue_thread`: the ring's tail is just before its head. */
  function Enqueue<T>(s: Sched<T>, t: T): Sched<T>
  {
    s.(ring := s.ring + [t])
  }

  /** `mutex_lock` by the current thread, up to its yield. */
  function LockMutex<T>(m: Mutex<T>, s: Sched<T>): (Mutex<T>, Sched<T>)
  {
    if !m.locked then (m.(locked := true), s)
    else (m.(queue := m.queue + [s.current]), s.(status := s.status[s.current := Blocked]))
  }

  /** `mutex_unlock`: with waiters the lock is handed to the first one. */
  function UnlockMutex<T>(m: Mutex<T>, s: Sched<T>): (Mutex<T>, Sched<T>)
  {
    if m.queue == [] then (m.(locked := false), s)
    else
      var t := m.queue[0];
      (m.(queue := m.queue[1..]), Enqueue(s.(status := s.status[t := Ready]), t))
  }

  // ---- what one scheduler entry does when every other thread of the ring is ready --------------------

  /** The ring is duplicate-free and all its threads except the current one are ready. */
  ghost predicate RingOk<T>(s: Sched<T>)
  {
    && Wf(s) && NoDup(s.ring)
    && (forall t :: t in s.ring && t != s.current ==> s.status[t] == Ready)
  }

  /** The thread that runs next: the successor of the current one, or the head of the ring when the
      current one leaves. */
  ghost function Chosen<T>(s: Sched<T>): T
    requires RingOk(s) && |s.ring| > 1
  {
    if Leaving(s.status[s.current]) then s.ring[if s.ring[0] == s.current then 1 else 0]
    else s.ring[Succ(IndexOf(s.ring, s.current), |s.ring|)]
  }

  /** With another thread in the ring, the handler always switches to `Chosen`: the selection loop
      stops at its first test and the spin is not reached. */
  lemma HandlerSwitches<T>(s: Sched<T>)
    requires RingOk(s) && |s.ring| > 1
    ensures Chosen(s) in s.ring && Chosen(s) != s.current && s.status[Chosen(s)] == Ready
    ensures Handler(s) == Continue(
      if Leaving(s.status[s.current]) then Leave(s).(status := s.status[Chosen(s) := Running], current := Chosen(s))
      else s.(status := s.status[s.current := Ready][Chosen(s) := Running], current := Chosen(s)))
  {
    var i := IndexOf(s.ring, s.current);
    var next := Chosen(s);
    assert next in s.ring && next != s.current;
    if Leaving(s.status[s.current]) {
      WithoutAt(s.ring, i);
      LeaveWf(s);
      assert Leave(s).ring[0] == next;
    }
  }

  /** Alone in the ring, the current thread goes on running even if it is blocked or dead; so a thread
      that blocks stops running exactly when the ring holds another thread. */
  lemma BlockedStopsIffOther<T>(s: Sched<T>)
    requires RingOk(s)
    ensures Handler(s).Continue?
    ensures Handler(s).s.current != s.current <==> |s.ring| > 1
    ensures |s.ring| == 1 ==> Handler(s).s == s
  {
    if |s.ring| > 1 { HandlerSwitches(s); }
  }

  // ---- thread selection in any ring -----------------------------------------------------------------------

  /** Going round the ring from `i`, position `p` comes before position `j`. */
  ghost predicate Sooner(i: nat, p: nat, j: nat)
  {
    if i <= j then i <= p < j else i <= p || p < j
  }

  lemma {:induction false} SelectFrom<T>(ring: seq<T>, status: map<T, Status>, start: nat, i: nat)
    requires start < |ring| && i < |ring| && forall t :: t in ring ==> t in status
    ensures var r := Select(ring, status, start, i);
      && (r.Some? ==> (r.value == i || Sooner(i, r.value, start) || i == start)
                      && forall p: nat :: p < |ring| && Sooner(i, p, r.value) ==> !Runnable(status[ring[p]]))
      && (r.None? ==> forall p: nat :: p < |ring| && (Sooner(i, p, start) || i == start) ==> !Runnable(status[ring[p]]))
    decreases Around(i, start, |ring|)
  {
    if !Runnable(status[ring[i]]) && Succ(i, |ring|) != start { SelectFrom(ring, status, start, Succ(i, |ring|)); }
  }

  /** The selection loop finds the first runnable thread going round from `start`, and none exactly when the ring holds no
      runnable thread. */
  lemma SelectIsFirst<T>(ring: seq<T>, status: map<T, Status>, start: nat)
    requires start < |ring| && forall t :: t in ring ==> t in status
    ensures var r := Select(ring, status, start, start);
      && (r.None? <==> forall t :: t in ring ==> !Runnable(status[t]))
      && (r.Some? ==> forall p: nat :: p < |ring| && Sooner(start, p, r.value) ==> !Runnable(status[ring[p]]))
  {
    SelectFrom(ring, status, start, start);
    var r := Select(ring, status, start, start);
    if r.None? {
      forall t | t in ring ensures !Runnable(status[t]) {
        var p :| 0 <= p < |ring| && ring[p] == t;
      }
    } else {
      assert ring[r.value] in ring;
    }
  }

  /** What one entry does to the ring, the dead list, the statuses and the current thread, when every other thread of the ring
      is ready. */
  lemma HandlerEffect<T>(s: Sched<T>, i: nat)
    requires RingOk(s) && |s.ring| > 1 && i < |s.ring| && s.ring[i] == s.current
    ensures Handler(s).Continue?
    ensures var r, t, leaving := Handler(s).s, s.current, Leaving(s.status[s.current]);
      && r.ring == (if leaving then s.ring[..i] + s.ring[i + 1..] else s.ring)
      && r.dead == (if s.status[t] == Dead then [t] + s.dead else s.dead)
      && r.current == (if leaving then s.ring[if i == 0 then 1 else 0] else s.ring[if i + 1 == |s.ring| then 0 else i + 1])
      && r.status == (if leaving then s.status else s.status[t := Ready])[r.current := Running]
  {
    HandlerSwitches(s);
    WithoutAt(s.ring, i);
    OneIndex(s.ring, i, IndexOf(s.ring, s.current));
  }

  lemma OneIndex<T>(s: seq<T>, i: nat, j: nat)
    requires NoDup(s) && i < |s| && j < |s| && s[i] == s[j]
    ensures i == j
  {
  }
}
