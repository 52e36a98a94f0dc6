// The thread kernel as a step system: threads/synch.cc, thread.cc and scheduler.cc.  Interrupts are off inside these
// routines on a uniprocessor, so the code between two context switches is one atomic step.
module Kernel {
  import opened Basics

  type Tid = nat

  datatype Status = Running | Ready | Blocked

  datatype QueueId = SemQueue(sem: nat) | LockQueue(lock: nat) | CondQueue(cond: nat)

  /** Where a thread is in its code, as far as synchronization goes. */
  datatype Pc =
    | User                              // outside these routines
    | InP(sem: nat)                     // in the loop of P, about to test the value
    | InAcquire(lock: nat)              // in the loop of Acquire, about to test the lock
    | InWait(cond: nat, lock: nat)      // asleep in Wait

  datatype State = State(
    status: map<Tid, Status>,
    pc: map<Tid, Pc>,
    current: Option<Tid>,               // None while the machine idles
    ready: seq<Tid>,
    queues: map<QueueId, seq<Tid>>,
    value: map<nat, int>,               // of each semaphore
    free: map<nat, bool>,               // of each lock
    holder: map<nat, Option<Tid>>,
    ups: map<nat, int>,                 // history: calls of V, completed calls of P, initial value included
    downs: map<nat, int>,
    inside: set<(Tid, nat)>,            // history: threads between Acquire and Release of a lock
    readied: seq<Tid>,                  // history: threads in the order they were put on the ready list
    dispatched: seq<Tid>)               // history: threads in the order they were taken off it

  /** The queue a sleeping thread waits on. */
  function QueueOf(pc: Pc): Option<QueueId> {
    match pc
    case User => None
    case InP(s) => Some(SemQueue(s))
    case InAcquire(l) => Some(LockQueue(l))
    case InWait(c, l) => Some(CondQueue(c))
  }

  /** The queues of the conditions are untouched. */
  ghost predicate SameConds(k: State, k': State) {
    forall c :: CondQueue(c) in k.queues ==>
      CondQueue(c) in k'.queues && k'.queues[CondQueue(c)] == k.queues[CondQueue(c)]
  }

  /** No semaphore value and no lock differs. */
  ghost predicate SameSync(k: State, k': State) {
    k'.value == k.value && k'.free == k.free && k'.holder == k.holder && k'.inside == k.inside
  }

  // ---------------------------------------------------------------- the scheduler

  /** Scheduler::ReadyToRun. */
  function ReadyToRun(k: State, t: Tid): State {
    k.(status := k.status[t := Ready], ready := k.ready + [t], readied := k.readied + [t])
  }

  /** FindNextToRun and Run: the head of the ready list gets the processor, or the machine idles. */
  function Dispatch(k: State): (k': State)
    ensures SameSync(k, k') && (k'.current.None? ==> k'.ready == [])
  {
    if k.ready == [] then k.(current := None)
    else k.(current := Some(k.ready[0]), status := k.status[k.ready[0] := Running], ready := k.ready[1..],
            dispatched := k.dispatched + [k.ready[0]])
  }

  /** Append the current thread to a queue and Thread::Sleep. */
  function SleepOn(k: State, pc: Pc): (k': State)
    requires k.current.Some? && QueueOf(pc).Some? && QueueOf(pc).value in k.queues
    ensures k'.queues == k.queues[QueueOf(pc).value := k.queues[QueueOf(pc).value] + [k.current.value]]
    ensures SameSync(k, k') && (k'.current.None? ==> k'.ready == [])
  {
    var t, q := k.current.value, QueueOf(pc).value;
    Dispatch(k.(status := k.status[t := Blocked], pc := k.pc[t := pc], queues := k.queues[q := k.queues[q] + [t]]))
  }

  /** Take the head of a queue, if any, and make it ready; `pc` is where it goes on. */
  function WakeHead(k: State, q: QueueId): (k': State)
    requires q in k.queues
    ensures k'.queues == if k.queues[q] == [] then k.queues else k.queues[q := k.queues[q][1..]]
    ensures SameSync(k, k') && k'.current == k.current
  {
    if k.queues[q] == [] then k else
    ReadyToRun(k.(queues := k.queues[q := k.queues[q][1..]]), k.queues[q][0])
  }

  // ---------------------------------------------------------------- semaphores

  predicate HasSem(k: State, s: nat) {
    SemQueue(s) in k.queues && s in k.value && s in k.ups && s in k.downs
  }

  /** One pass through the loop of P by the current thread: on entry, or when it is dispatched after a wake-up. */
  function PStep(k: State, s: nat): (k': State)
    requires k.current.Some? && HasSem(k, s)
    ensures SameConds(k, k')
  {
    if k.value[s] == 0 then SleepOn(k, InP(s))
    else k.(value := k.value[s := k.value[s] - 1], downs := k.downs[s := k.downs[s] + 1],
            pc := k.pc[k.current.value := User])
  }

  /** V, called by a thread or by an interrupt handler. */
  function VStep(k: State, s: nat): (k': State)
    requires HasSem(k, s)
    ensures SameConds(k, k')
  {
    var k' := WakeHead(k, SemQueue(s));
    k'.(value := k'.value[s := k'.value[s] + 1], ups := k'.ups[s := k'.ups[s] + 1])
  }

  // ---------------------------------------------------------------- locks and conditions

  predicate HasLock(k: State, l: nat) {
    LockQueue(l) in k.queues && l in k.free && l in k.holder
  }

  /** One pass through the loop of Acquire by the current thread. */
  function AcquireStep(k: State, l: nat): (k': State)
    requires k.current.Some? && HasLock(k, l)
    ensures SameConds(k, k')
  {
    var t := k.current.value;
    if !k.free[l] then SleepOn(k, InAcquire(l))
    else k.(free := k.free[l := false], holder := k.holder[l := Some(t)], pc := k.pc[t := User],
            inside := k.inside + {(t, l)})
  }

  /** Release takes a waiter off the queue before it looks at the owner; only the owner's call wakes it. */
  function ReleaseStep(k: State, l: nat): (k': State)
    requires k.current.Some? && HasLock(k, l)
    ensures SameConds(k, k') && k'.current == k.current && k'.value == k.value
  {
    var q := k.queues[LockQueue(l)];
    if k.holder[l] == k.current then
      WakeHead(k, LockQueue(l)).(free := k.free[l := true], inside := k.inside - {(k.current.value, l)})
    else if q == [] then k
    else k.(queues := k.queues[LockQueue(l) := q[1..]])
  }

  /** Wait up to the point where the thread sleeps: the lock is released and the thread enqueued in one step. */
  function WaitStep(k: State, c: nat, l: nat): State
    requires k.current.Some? && HasLock(k, l) && CondQueue(c) in k.queues
  {
    SleepOn(ReleaseStep(k, l), InWait(c, l))
  }

  /** A signalled thread goes on in Wait by calling Acquire. */
  function SignalStep(k: State, c: nat): (k': State)
    requires CondQueue(c) in k.queues
    ensures SameSync(k, k') && k'.current == k.current
  {
    var q := k.queues[CondQueue(c)];
    if q == [] then k else
    var k' := WakeHead(k, CondQueue(c));
    if q[0] in k.pc && k.pc[q[0]].InWait? then k'.(pc := k'.pc[q[0] := InAcquire(k.pc[q[0]].lock)]) else k'
  }

  /** Signal until the queue is empty. */
  function BroadcastStep(k: State, c: nat): State
    requires CondQueue(c) in k.queues
    decreases |k.queues[CondQueue(c)]|
  {
    if k.queues[CondQueue(c)] == [] then k else BroadcastStep(SignalStep(k, c), c)
  }

  // ---------------------------------------------------------------- threads

  function ForkStep(k: State, t: Tid): State {
    ReadyToRun(k.(pc := k.pc[t := User]), t)
  }

  function YieldStep(k: State): (k': State)
    requires k.current.Some?
    ensures SameConds(k, k')
  {
    if k.ready == [] then k
    else
      var next := k.ready[0];
      var k' := ReadyToRun(k.(ready := k.ready[1..], dispatched := k.dispatched + [next]), k.current.value);
      k'.(current := Some(next), status := k'.status[next := Running])
  }

  function FinishStep(k: State): (k': State)
    requires k.current.Some?
    ensures SameConds(k, k')
  {
    Dispatch(k.(status := k.status - {k.current.value}, pc := k.pc - {k.current.value}))
  }

  // ---------------------------------------------------------------- invariants

  predicate NoDup(q: seq<Tid>) {
    forall i, j :: 0 <= i < j < |q| ==> q[i] != q[j]
  }

  /** Thread t sleeps on queue q. */
  predicate SleepsOn(k: State, t: Tid, q: QueueId) {
    t in k.status && t in k.pc && k.status[t] == Blocked && QueueOf(k.pc[t]) == Some(q)
  }

  /** The current thread and the ready list, by status. */
  ghost predicate PlacedReady(k: State) {
    && k.pc.Keys == k.status.Keys
    && (forall t :: k.current == Some(t) <==> t in k.status && k.status[t] == Running)
    && NoDup(k.ready) && (forall t :: t in k.ready <==> t in k.status && k.status[t] == Ready)
    && k.readied == k.dispatched + k.ready
  }

  /** The wait queues, by status and by where each thread is in its code. */
  ghost predicate PlacedQueues(k: State) {
    && (forall q :: q in k.queues ==> NoDup(k.queues[q]))
    && (forall q, t :: q in k.queues ==> (t in k.queues[q] <==> SleepsOn(k, t, q)))
    && (forall t :: t in k.status && t in k.pc && k.status[t] == Blocked ==>
          QueueOf(k.pc[t]).Some? && QueueOf(k.pc[t]).value in k.queues)
    && (forall t :: t in k.status && t in k.pc && k.pc[t].InWait? ==> k.status[t] == Blocked)
  }

  /** Every thread is in exactly one place, and its status says which. */
  ghost predicate Placed(k: State) {
    PlacedReady(k) && PlacedQueues(k)
  }

  /** Threads that were woken on semaphore s and have not tested it again yet. */
  ghost function WokenP(k: State, s: nat): set<Tid> {
    set t | t in k.status && t in k.pc && k.status[t] != Blocked && k.pc[t] == InP(s)
  }

  ghost function WokenAcquire(k: State, l: nat): set<Tid> {
    set t | t in k.status && t in k.pc && k.status[t] != Blocked && k.pc[t] == InAcquire(l)
  }

  /** The value counts Vs minus completed Ps; a sleeper sleeps only while the value is spoken for by woken threads. */
  ghost predicate SemSound(k: State, s: nat)
    requires HasSem(k, s)
  {
    && k.value[s] >= 0 && k.value[s] == k.ups[s] - k.downs[s]
    && (k.queues[SemQueue(s)] != [] ==> k.value[s] <= |WokenP(k, s)|)
  }

  /** Only the holder is inside; a free lock with sleepers has a contender that will test it again. */
  ghost predicate LockSound(k: State, l: nat)
    requires HasLock(k, l)
  {
    && (forall t :: (t, l) in k.inside ==> !k.free[l] && k.holder[l] == Some(t))
    && (k.free[l] && k.queues[LockQueue(l)] != [] ==> WokenAcquire(k, l) != {})
  }

  ghost predicate WellFormed(k: State) {
    && (forall s :: SemQueue(s) in k.queues ==> HasSem(k, s))
    && (forall l :: LockQueue(l) in k.queues ==> HasLock(k, l))
  }

  /** The counting invariants of all semaphores and locks. */
  ghost predicate Accounted(k: State) {
    && WellFormed(k)
    && (forall s :: SemQueue(s) in k.queues ==> SemSound(k, s))
    && (forall l :: LockQueue(l) in k.queues ==> LockSound(k, l))
  }

  ghost predicate Inv(k: State) {
    Placed(k) && Accounted(k)
  }

  // ---------------------------------------------------------------- keeping the places

  lemma Tail(q: seq<Tid>)
    requires NoDup(q) && q != []
    ensures NoDup(q[1..]) && forall t :: t in q[1..] <==> t in q && t != q[0]
  {
    forall t
      ensures t in q[1..] <==> t in q && t != q[0]
    {
      if t in q && t != q[0] {
        var i :| 0 <= i < |q| && q[i] == t;
        assert q[1..][i - 1] == t;
      }
    }
  }

  lemma Snoc(q: seq<Tid>, t: Tid)
    requires NoDup(q) && t !in q
    ensures NoDup(q + [t]) && forall u :: u in q + [t] <==> u in q || u == t
  {
  }

  lemma SameSleepersPlaced(k: State, k': State)
    requires PlacedQueues(k) && k'.queues == k.queues
    requires forall t :: (t in k'.status && t in k'.pc && k'.status[t] == Blocked)
                         <==> (t in k.status && t in k.pc && k.status[t] == Blocked)
    requires forall t :: t in k.status && t in k.pc && k.status[t] == Blocked ==> k'.pc[t] == k.pc[t]
    requires forall t :: t in k'.status && t in k'.pc && k'.pc[t].InWait? ==> k'.status[t] == Blocked
    ensures PlacedQueues(k')
  {
    assert forall q, t :: q in k.queues ==> (SleepsOn(k', t, q) <==> SleepsOn(k, t, q));
  }

  lemma DispatchPlacedReady(k: State)
    requires k.current.None? && PlacedReady(k) && k.ready != []
    ensures PlacedReady(Dispatch(k))
  {
    var k' := Dispatch(k);
    Tail(k.ready);
    assert k.readied == k.dispatched + ([k.ready[0]] + k'.ready);
  }

  lemma DispatchPlaced(k: State)
    requires k.current.None? && Placed(k)
    ensures Placed(Dispatch(k)) && Dispatch(k).queues == k.queues
  {
    if k.ready != [] {
      assert k.ready[0] in k.ready;
      DispatchPlacedReady(k);
      SameSleepersPlaced(k, Dispatch(k));
    }
  }

  lemma WakeHeadPlacedQueues(k: State, k': State, q: QueueId, t: Tid)
    requires PlacedQueues(k) && q in k.queues && k.queues[q] != [] && t == k.queues[q][0]
    requires k'.queues == k.queues[q := k.queues[q][1..]] && k'.status == k.status[t := Ready]
    requires t in k'.pc && k'.pc == k.pc[t := k'.pc[t]] && !k'.pc[t].InWait?
    ensures PlacedQueues(k')
  {
    assert SleepsOn(k, t, q);
    Tail(k.queues[q]);
    forall r, u | r in k'.queues
      ensures u in k'.queues[r] <==> SleepsOn(k', u, r)
    {
      assert u in k.queues[r] <==> SleepsOn(k, u, r);
    }
  }

  lemma WakeHeadPlacedReady(k: State, k': State, t: Tid)
    requires PlacedReady(k) && t in k.status && k.status[t] == Blocked
    requires k'.status == k.status[t := Ready] && k'.pc.Keys == k.pc.Keys && k'.current == k.current
    requires k'.ready == k.ready + [t] && k'.readied == k.readied + [t] && k'.dispatched == k.dispatched
    ensures PlacedReady(k')
  {
    Snoc(k.ready, t);
    assert k'.readied == k'.dispatched + k'.ready;
  }

  /** Making the head of a queue ready keeps every thread in one place, wherever it goes on. */
  lemma WakeHeadPlaced(k: State, k': State, q: QueueId, pc: Pc)
    requires Placed(k) && q in k.queues && k.queues[q] != [] && !pc.InWait?
    requires
      var t := k.queues[q][0];
      && k'.queues == k.queues[q := k.queues[q][1..]] && k'.status == k.status[t := Ready] && k'.pc == k.pc[t := pc]
      && k'.current == k.current && k'.ready == k.ready + [t] && k'.readied == k.readied + [t]
      && k'.dispatched == k.dispatched
    ensures Placed(k') && WokeUp(k, k', k.queues[q][0], q)
  {
    var t := k.queues[q][0];
    assert SleepsOn(k, t, q);
    WakeHeadPlacedQueues(k, k', q, t);
    assert k'.pc.Keys == k.pc.Keys;
    WakeHeadPlacedReady(k, k', t);
  }

  lemma SleepOnPlaced(k: State, pc: Pc)
    requires Placed(k) && k.current.Some? && QueueOf(pc).Some? && QueueOf(pc).value in k.queues
    ensures Placed(SleepOn(k, pc))
  {
    var t, q := k.current.value, QueueOf(pc).value;
    var k' := k.(status := k.status[t := Blocked], pc := k.pc[t := pc], queues := k.queues[q := k.queues[q] + [t]],
                 current := None);
    assert !SleepsOn(k, t, q);
    Snoc(k.queues[q], t);
    forall r, u | r in k'.queues
      ensures u in k'.queues[r] <==> SleepsOn(k', u, r)
    {
      assert u in k.queues[r] <==> SleepsOn(k, u, r);
    }
    DispatchPlaced(k');
  }

  // ---------------------------------------------------------------- accounting for one thread's move

  /** Except for thread t, both states agree on who is blocked and where everyone is. */
  ghost predicate OnlyMoves(k: State, k': State, t: Tid) {
    forall u :: u != t ==>
      && (u in k'.status && u in k'.pc <==> u in k.status && u in k.pc)
      && (u in k.status && u in k.pc ==>
            k'.pc[u] == k.pc[u] && (k'.status[u] == Blocked <==> k.status[u] == Blocked))
  }

  lemma WokenElsewhere(k: State, k': State, t: Tid, n: nat)
    requires OnlyMoves(k, k', t)
    ensures WokenP(k', n) - {t} == WokenP(k, n) - {t}
    ensures WokenAcquire(k', n) - {t} == WokenAcquire(k, n) - {t}
  {
  }

  /** Nothing about semaphore s changed, and t is not among its woken threads before or after. */
  ghost predicate LeavesSem(k: State, k': State, t: Tid, s: nat)
    requires HasSem(k, s)
  {
    && HasSem(k', s) && k'.queues[SemQueue(s)] == k.queues[SemQueue(s)] && k'.value[s] == k.value[s]
    && k'.ups[s] == k.ups[s] && k'.downs[s] == k.downs[s]
    && t !in WokenP(k, s) && t !in WokenP(k', s)
  }

  ghost predicate LeavesLock(k: State, k': State, t: Tid, l: nat)
    requires HasLock(k, l)
  {
    && HasLock(k', l) && k'.queues[LockQueue(l)] == k.queues[LockQueue(l)] && k'.free[l] == k.free[l]
    && k'.holder[l] == k.holder[l] && (forall u :: (u, l) in k'.inside <==> (u, l) in k.inside)
    && t !in WokenAcquire(k, l) && t !in WokenAcquire(k', l)
  }

  ghost predicate LeavesSems(k: State, k': State, t: Tid) {
    && (forall s :: SemQueue(s) in k'.queues <==> SemQueue(s) in k.queues)
    && (forall s :: SemQueue(s) in k.queues ==> HasSem(k, s) && LeavesSem(k, k', t, s))
  }

  ghost predicate LeavesLocks(k: State, k': State, t: Tid) {
    && (forall l :: LockQueue(l) in k'.queues <==> LockQueue(l) in k.queues)
    && (forall l :: LockQueue(l) in k.queues ==> HasLock(k, l) && LeavesLock(k, k', t, l))
  }

  lemma LeftSems(k: State, k': State, t: Tid)
    requires Accounted(k) && OnlyMoves(k, k', t) && LeavesSems(k, k', t)
    ensures forall s :: SemQueue(s) in k'.queues ==> HasSem(k', s) && SemSound(k', s)
  {
    forall s | SemQueue(s) in k'.queues
      ensures HasSem(k', s) && SemSound(k', s)
    {
      assert SemSound(k, s) && LeavesSem(k, k', t, s);
      WokenElsewhere(k, k', t, s);
      assert WokenP(k', s) == WokenP(k', s) - {t} && WokenP(k, s) == WokenP(k, s) - {t};
    }
  }

  lemma LeftLocks(k: State, k': State, t: Tid)
    requires Accounted(k) && OnlyMoves(k, k', t) && LeavesLocks(k, k', t)
    ensures forall l :: LockQueue(l) in k'.queues ==> HasLock(k', l) && LockSound(k', l)
  {
    forall l | LockQueue(l) in k'.queues
      ensures HasLock(k', l) && LockSound(k', l)
    {
      assert LockSound(k, l) && LeavesLock(k, k', t, l);
      WokenElsewhere(k, k', t, l);
      assert WokenAcquire(k', l) == WokenAcquire(k', l) - {t} && WokenAcquire(k, l) == WokenAcquire(k, l) - {t};
    }
  }

  // ---------------------------------------------------------------- falling asleep and waking up

  /** Thread t fell asleep as `pc` says; no semaphore value and no lock changed. */
  ghost predicate FellAsleep(k: State, k': State, t: Tid, pc: Pc) {
    && OnlyMoves(k, k', t)
    && QueueOf(pc).Some? && QueueOf(pc).value in k.queues
    && k'.queues == k.queues[QueueOf(pc).value := k.queues[QueueOf(pc).value] + [t]]
    && t in k'.status && k'.status[t] == Blocked
    && k'.value == k.value && k'.ups == k.ups && k'.downs == k.downs
    && k'.free == k.free && k'.holder == k.holder && k'.inside == k.inside
  }

  /** Dispatching changes nobody's place in the code and blocks nobody. */
  lemma DispatchMoves(k: State, t: Tid)
    requires forall u :: u in k.ready && u != t ==> u in k.status && k.status[u] == Ready
    ensures OnlyMoves(k, Dispatch(k), t)
  {
    assert k.ready != [] ==> k.ready[0] in k.ready;
  }

  lemma AsleepMoves(k: State, t: Tid, pc: Pc)
    requires k.current == Some(t) && QueueOf(pc).Some? && QueueOf(pc).value in k.queues
    requires t !in k.ready && forall u :: u in k.ready ==> u in k.status && k.status[u] == Ready
    ensures FellAsleep(k, SleepOn(k, pc), t, pc)
  {
    var q := QueueOf(pc).value;
    var k1 := k.(status := k.status[t := Blocked], pc := k.pc[t := pc], queues := k.queues[q := k.queues[q] + [t]]);
    assert OnlyMoves(k, k1, t);
    DispatchMoves(k1, t);
    assert k.ready != [] ==> k.ready[0] in k.ready;
  }

  lemma SleepOnMoves(k: State, pc: Pc)
    requires PlacedReady(k) && k.current.Some? && QueueOf(pc).Some? && QueueOf(pc).value in k.queues
    ensures FellAsleep(k, SleepOn(k, pc), k.current.value, pc)
  {
    AsleepMoves(k, k.current.value, pc);
  }

  /** Thread t, the head of queue q, was put on the ready list. */
  ghost predicate WokeUp(k: State, k': State, t: Tid, q: QueueId) {
    && OnlyMoves(k, k', t)
    && q in k.queues && k.queues[q] != [] && t == k.queues[q][0]
    && k'.queues == k.queues[q := k.queues[q][1..]]
    && t in k.status && k.status[t] == Blocked && t in k'.status && k'.status[t] == Ready && t in k'.pc
  }

  /** Giving the running thread another pc moves nobody. */
  lemma RunningPcPlaced(k: State, k': State)
    requires Placed(k) && k.current.Some? && k.current.value in k.pc
    requires k'.pc == k.pc[k.current.value := User] && k'.status == k.status && k'.current == k.current
    requires k'.ready == k.ready && k'.queues == k.queues && k'.readied == k.readied && k'.dispatched == k.dispatched
    ensures Placed(k')
  {
    assert forall q, t :: q in k.queues ==> (SleepsOn(k', t, q) <==> SleepsOn(k, t, q));
  }

  /** What the current thread must be doing to run a pass of a loop: entering the routine, or resuming in it. */
  ghost predicate MayRun(k: State, resume: Pc) {
    && k.current.Some? && k.current.value in k.pc
    && (k.pc[k.current.value] == User || k.pc[k.current.value] == resume)
  }

  // ---------------------------------------------------------------- semaphores keep the invariant

  lemma PAccounted(k: State, k': State, t: Tid, s: nat)
    requires Accounted(k) && OnlyMoves(k, k', t) && LeavesLocks(k, k', t)
    requires SemQueue(s) in k.queues && HasSem(k', s)
    requires forall s' :: SemQueue(s') in k'.queues <==> SemQueue(s') in k.queues
    requires forall s' :: s' != s && SemQueue(s') in k.queues ==> HasSem(k, s') && LeavesSem(k, k', t, s')
    requires t !in WokenP(k', s) && k'.ups[s] == k.ups[s]
    requires || (k'.value[s] == k.value[s] == 0 && k'.downs[s] == k.downs[s])
             || (k'.value[s] == k.value[s] - 1 >= 0 && k'.downs[s] == k.downs[s] + 1
                 && k'.queues[SemQueue(s)] == k.queues[SemQueue(s)])
    ensures Accounted(k')
  {
    LeftLocks(k, k', t);
    forall s' | SemQueue(s') in k'.queues
      ensures HasSem(k', s') && SemSound(k', s')
    {
      assert SemSound(k, s');
      WokenElsewhere(k, k', t, s');
      assert WokenP(k', s') == WokenP(k, s') - {t};
    }
  }

  lemma PSleepsAccounted(k: State, k': State, t: Tid, s: nat)
    requires Accounted(k) && SemQueue(s) in k.queues && k.value[s] == 0 && FellAsleep(k, k', t, InP(s))
    requires t in k.pc && (k.pc[t] == User || k.pc[t] == InP(s))
    ensures Accounted(k')
  {
    PAccounted(k, k', t, s);
  }

  lemma PCompletesAccounted(k: State, s: nat)
    requires Accounted(k) && SemQueue(s) in k.queues && k.value[s] > 0 && MayRun(k, InP(s))
    ensures Accounted(PStep(k, s))
  {
    PAccounted(k, PStep(k, s), k.current.value, s);
  }

  lemma PKeepsInv(k: State, s: nat)
    requires Inv(k) && SemQueue(s) in k.queues && MayRun(k, InP(s))
    ensures Inv(PStep(k, s))
  {
    assert SemSound(k, s);
    if k.value[s] == 0 {
      SleepOnPlaced(k, InP(s));
      SleepOnMoves(k, InP(s));
      PSleepsAccounted(k, PStep(k, s), k.current.value, s);
    } else {
      RunningPcPlaced(k, PStep(k, s));
      PCompletesAccounted(k, s);
    }
  }

  lemma VWakesSem(k: State, k': State, t: Tid, s: nat)
    requires Accounted(k) && WokeUp(k, k', t, SemQueue(s)) && k'.pc[t] == InP(s) && HasSem(k', s)
    requires k'.value[s] == k.value[s] + 1 && k'.ups[s] == k.ups[s] + 1 && k'.downs[s] == k.downs[s]
    ensures SemSound(k', s)
  {
    assert SemSound(k, s);
    WokenElsewhere(k, k', t, s);
    assert WokenP(k', s) == WokenP(k, s) + {t};
  }

  lemma VWakesAccounted(k: State, k': State, t: Tid, s: nat)
    requires Accounted(k) && WokeUp(k, k', t, SemQueue(s)) && k'.pc[t] == InP(s)
    requires k'.value == k.value[s := k.value[s] + 1] && k'.ups == k.ups[s := k.ups[s] + 1] && k'.downs == k.downs
    requires k'.free == k.free && k'.holder == k.holder && k'.inside == k.inside
    ensures Accounted(k')
  {
    assert LeavesLocks(k, k', t);
    LeftLocks(k, k', t);
    VWakesSem(k, k', t, s);
    forall s' | SemQueue(s') in k'.queues && s' != s
      ensures HasSem(k', s') && SemSound(k', s')
    {
      assert SemSound(k, s');
      WokenElsewhere(k, k', t, s');
      assert WokenP(k', s') == WokenP(k, s');
    }
  }

  lemma VCountsAccounted(k: State, s: nat)
    requires Accounted(k) && SemQueue(s) in k.queues && k.queues[SemQueue(s)] == []
    ensures Accounted(VStep(k, s))
  {
    var k' := VStep(k, s);
    assert forall n :: WokenP(k', n) == WokenP(k, n) && WokenAcquire(k', n) == WokenAcquire(k, n);
    assert forall s' :: SemQueue(s') in k.queues ==> SemSound(k, s');
    assert forall l :: LockQueue(l) in k.queues ==> LockSound(k, l);
  }

  lemma VWakesPlaced(k: State, s: nat)
    requires Placed(k) && HasSem(k, s) && k.queues[SemQueue(s)] != []
    ensures
      var t, k' := k.queues[SemQueue(s)][0], VStep(k, s);
      Placed(k') && WokeUp(k, k', t, SemQueue(s)) && k'.pc[t] == InP(s)
  {
    var t := k.queues[SemQueue(s)][0];
    assert SleepsOn(k, t, SemQueue(s)) && k.pc[t := InP(s)] == k.pc;
    WakeHeadPlaced(k, VStep(k, s), SemQueue(s), InP(s));
  }

  lemma VKeepsInv(k: State, s: nat)
    requires Inv(k) && SemQueue(s) in k.queues
    ensures Inv(VStep(k, s))
  {
    var q := k.queues[SemQueue(s)];
    if q == [] {
      VCountsAccounted(k, s);
    } else {
      VWakesPlaced(k, s);
      VWakesAccounted(k, VStep(k, s), q[0], s);
    }
  }

  // ---------------------------------------------------------------- locks and conditions keep the invariant

  lemma AcquireAccounted(k: State, k': State, t: Tid, l: nat)
    requires Accounted(k) && OnlyMoves(k, k', t) && LeavesSems(k, k', t)
    requires LockQueue(l) in k.queues && HasLock(k', l) && !k'.free[l]
    requires forall l' :: LockQueue(l') in k'.queues <==> LockQueue(l') in k.queues
    requires forall l' :: l' != l && LockQueue(l') in k.queues ==> HasLock(k, l') && LeavesLock(k, k', t, l')
    requires forall u :: (u, l) in k'.inside ==> k'.holder[l] == Some(u)
    ensures Accounted(k')
  {
    LeftSems(k, k', t);
    forall l' | LockQueue(l') in k'.queues
      ensures HasLock(k', l') && LockSound(k', l')
    {
      assert LockSound(k, l');
      WokenElsewhere(k, k', t, l');
      assert l' != l ==> WokenAcquire(k', l') == WokenAcquire(k, l');
    }
  }

  lemma AcquireSleepsAccounted(k: State, k': State, t: Tid, l: nat)
    requires Accounted(k) && LockQueue(l) in k.queues && !k.free[l] && FellAsleep(k, k', t, InAcquire(l))
    requires t in k.pc && (k.pc[t] == User || k.pc[t] == InAcquire(l))
    ensures Accounted(k')
  {
    assert LockSound(k, l);
    AcquireAccounted(k, k', t, l);
  }

  lemma AcquireTakesAccounted(k: State, l: nat)
    requires Accounted(k) && LockQueue(l) in k.queues && k.free[l] && MayRun(k, InAcquire(l))
    ensures Accounted(AcquireStep(k, l))
  {
    assert LockSound(k, l);
    AcquireAccounted(k, AcquireStep(k, l), k.current.value, l);
  }

  lemma AcquireKeepsInv(k: State, l: nat)
    requires Inv(k) && LockQueue(l) in k.queues && MayRun(k, InAcquire(l))
    ensures Inv(AcquireStep(k, l))
  {
    if !k.free[l] {
      SleepOnPlaced(k, InAcquire(l));
      SleepOnMoves(k, InAcquire(l));
      AcquireSleepsAccounted(k, AcquireStep(k, l), k.current.value, l);
    } else {
      RunningPcPlaced(k, AcquireStep(k, l));
      AcquireTakesAccounted(k, l);
    }
  }

  lemma WakeLockAccounted(k: State, k': State, t: Tid, q: QueueId, l: nat)
    requires Accounted(k) && WokeUp(k, k', t, q) && !q.SemQueue? && k'.pc[t] == InAcquire(l)
    requires k'.value == k.value && k'.ups == k.ups && k'.downs == k.downs && k'.holder == k.holder
    requires (q.CondQueue? && k'.free == k.free && k'.inside == k.inside)
             || (q == LockQueue(l) && l in k.free && l in k.holder && k'.free == k.free[l := true]
                 && exists u :: k.holder[l] == Some(u) && k'.inside == k.inside - {(u, l)})
    ensures Accounted(k')
  {
    assert LeavesSems(k, k', t);
    LeftSems(k, k', t);
    forall l' | LockQueue(l') in k'.queues
      ensures HasLock(k', l') && LockSound(k', l')
    {
      assert LockSound(k, l');
      WokenElsewhere(k, k', t, l');
      assert WokenAcquire(k', l') == if l' == l then WokenAcquire(k, l') + {t} else WokenAcquire(k, l');
    }
  }

  lemma ReleaseIdleAccounted(k: State, l: nat)
    requires Accounted(k) && LockQueue(l) in k.queues && k.current.Some? && k.queues[LockQueue(l)] == []
    ensures Accounted(ReleaseStep(k, l))
  {
    var k' := ReleaseStep(k, l);
    assert forall n :: WokenP(k', n) == WokenP(k, n) && WokenAcquire(k', n) == WokenAcquire(k, n);
    assert forall s :: SemQueue(s) in k.queues ==> SemSound(k, s);
    assert forall l' :: LockQueue(l') in k.queues ==> LockSound(k, l');
  }

  /** The convention of synch.h: only the holder releases.  A call is harmless, too, when nobody waits. */
  ghost predicate MayRelease(k: State, l: nat)
    requires HasLock(k, l)
  {
    k.holder[l] == k.current || k.queues[LockQueue(l)] == []
  }

  lemma ReleaseKeepsInv(k: State, l: nat)
    requires Inv(k) && LockQueue(l) in k.queues && k.current.Some? && MayRelease(k, l)
    ensures Inv(ReleaseStep(k, l))
    ensures ReleaseStep(k, l).current == k.current && ReleaseStep(k, l).pc == k.pc
    ensures ReleaseStep(k, l).queues.Keys == k.queues.Keys
  {
    var k', q := ReleaseStep(k, l), k.queues[LockQueue(l)];
    if q == [] {
      ReleaseIdleAccounted(k, l);
    } else {
      var t := q[0];
      assert SleepsOn(k, t, LockQueue(l)) && k.pc[t := InAcquire(l)] == k.pc;
      WakeHeadPlaced(k, k', LockQueue(l), InAcquire(l));
      assert k.holder[l] == Some(k.current.value);
      WakeLockAccounted(k, k', t, LockQueue(l), l);
    }
  }

  /** A caller that is not the holder takes a waiter off the queue and strands it: asleep, on no queue. */
  lemma StrangerReleaseStrands(k: State, l: nat)
    requires Inv(k) && LockQueue(l) in k.queues && k.current.Some? && !MayRelease(k, l)
    ensures !Placed(ReleaseStep(k, l))
  {
    var k', t := ReleaseStep(k, l), k.queues[LockQueue(l)][0];
    assert SleepsOn(k, t, LockQueue(l)) && SleepsOn(k', t, LockQueue(l));
    Tail(k.queues[LockQueue(l)]);
    assert t !in k'.queues[LockQueue(l)];
  }

  lemma WaitSleepsAccounted(k: State, k': State, t: Tid, c: nat, l: nat)
    requires Accounted(k) && FellAsleep(k, k', t, InWait(c, l)) && t in k.pc && k.pc[t] == User
    ensures Accounted(k')
  {
    assert LeavesSems(k, k', t) && LeavesLocks(k, k', t);
    LeftSems(k, k', t);
    LeftLocks(k, k', t);
  }

  lemma WaitKeepsInv(k: State, c: nat, l: nat)
    requires Inv(k) && LockQueue(l) in k.queues && CondQueue(c) in k.queues && MayRun(k, User) && MayRelease(k, l)
    ensures Inv(WaitStep(k, c, l))
    ensures k.current.value in WaitStep(k, c, l).queues[CondQueue(c)]
  {
    ReleaseKeepsInv(k, l);
    var k1 := ReleaseStep(k, l);
    SleepOnPlaced(k1, InWait(c, l));
    SleepOnMoves(k1, InWait(c, l));
    WaitSleepsAccounted(k1, WaitStep(k, c, l), k.current.value, c, l);
  }

  lemma SignalKeepsInv(k: State, c: nat)
    requires Inv(k) && CondQueue(c) in k.queues
    ensures Inv(SignalStep(k, c)) && SignalStep(k, c).current == k.current
    ensures k.queues[CondQueue(c)] != [] ==>
              SignalStep(k, c).queues == k.queues[CondQueue(c) := k.queues[CondQueue(c)][1..]]
  {
    var k', q := SignalStep(k, c), k.queues[CondQueue(c)];
    if q != [] {
      var t := q[0];
      assert SleepsOn(k, t, CondQueue(c));
      WakeHeadPlaced(k, k', CondQueue(c), InAcquire(k.pc[t].lock));
      WakeLockAccounted(k, k', t, CondQueue(c), k.pc[t].lock);
    }
  }

  lemma {:induction false} BroadcastKeepsInv(k: State, c: nat)
    requires Inv(k) && CondQueue(c) in k.queues
    ensures Inv(BroadcastStep(k, c))
    decreases |k.queues[CondQueue(c)]|
  {
    if k.queues[CondQueue(c)] != [] {
      SignalKeepsInv(k, c);
      BroadcastKeepsInv(SignalStep(k, c), c);
    }
  }

  // ---------------------------------------------------------------- threads keep the invariant

  /** Thread t is awake in the middle of a routine. */
  ghost predicate Midway(k: State, t: Tid) {
    t in k.status && t in k.pc && k.status[t] != Blocked && k.pc[t] != User
  }

  /** The threads awake in the middle of a routine are the same, in the same routine; no semaphore or lock changed. */
  ghost predicate SameAccounts(k: State, k': State) {
    && k'.queues == k.queues && k'.value == k.value && k'.ups == k.ups && k'.downs == k.downs
    && k'.free == k.free && k'.holder == k.holder && k'.inside == k.inside
    && (forall t :: Midway(k', t) <==> Midway(k, t))
    && (forall t :: Midway(k, t) ==> k'.pc[t] == k.pc[t])
  }

  lemma SameWoken(k: State, k': State, n: nat)
    requires SameAccounts(k, k')
    ensures WokenP(k', n) == WokenP(k, n) && WokenAcquire(k', n) == WokenAcquire(k, n)
  {
    assert forall t :: t in WokenP(k', n) <==> Midway(k', t) && k'.pc[t] == InP(n);
    assert forall t :: t in WokenP(k, n) <==> Midway(k, t) && k.pc[t] == InP(n);
    assert forall t :: t in WokenAcquire(k', n) <==> Midway(k', t) && k'.pc[t] == InAcquire(n);
    assert forall t :: t in WokenAcquire(k, n) <==> Midway(k, t) && k.pc[t] == InAcquire(n);
  }

  lemma SameAccountsAccounted(k: State, k': State)
    requires Accounted(k) && SameAccounts(k, k')
    ensures Accounted(k')
  {
    forall s | SemQueue(s) in k.queues
      ensures SemSound(k', s)
    {
      SameWoken(k, k', s);
      assert SemSound(k, s);
    }
    forall l | LockQueue(l) in k.queues
      ensures LockSound(k', l)
    {
      SameWoken(k, k', l);
      assert LockSound(k, l);
    }
  }

  lemma YieldPlacedReady(k: State)
    requires PlacedReady(k) && k.current.Some? && k.ready != []
    ensures PlacedReady(YieldStep(k))
  {
    var k', t, next := YieldStep(k), k.current.value, k.ready[0];
    Tail(k.ready);
    Snoc(k.ready[1..], t);
    assert k.readied + [t] == k.dispatched + ([next] + k.ready[1..]) + [t];
    assert k'.readied == k'.dispatched + k'.ready;
  }

  lemma YieldSameAccounts(k: State)
    requires PlacedReady(k) && k.current.Some? && k.ready != []
    ensures SameAccounts(k, YieldStep(k))
  {
    assert k.ready[0] in k.ready;
  }

  lemma YieldPlacedQueues(k: State)
    requires Placed(k) && k.current.Some? && k.ready != []
    ensures PlacedQueues(YieldStep(k))
  {
    assert k.ready[0] in k.ready;
    SameSleepersPlaced(k, YieldStep(k));
  }

  lemma YieldKeepsInv(k: State)
    requires Inv(k) && k.current.Some?
    ensures Inv(YieldStep(k))
  {
    if k.ready != [] {
      YieldPlacedReady(k);
      YieldPlacedQueues(k);
      YieldSameAccounts(k);
      SameAccountsAccounted(k, YieldStep(k));
    }
  }

  lemma DispatchSameAccounts(k: State)
    requires PlacedReady(k)
    ensures SameAccounts(k, Dispatch(k))
  {
    assert k.ready != [] ==> k.ready[0] in k.ready;
  }

  /** The machine idled until an interrupt made a thread ready. */
  lemma ResumeKeepsInv(k: State)
    requires Inv(k) && k.current.None?
    ensures Inv(Dispatch(k))
  {
    DispatchPlaced(k);
    DispatchSameAccounts(k);
    SameAccountsAccounted(k, Dispatch(k));
  }

  lemma ForkPlacedReady(k: State, t: Tid)
    requires PlacedReady(k) && t !in k.status
    ensures PlacedReady(ForkStep(k, t))
  {
    var k' := ForkStep(k, t);
    Snoc(k.ready, t);
    assert k'.readied == k'.dispatched + k'.ready;
  }

  lemma ForkSameAccounts(k: State, t: Tid)
    requires t !in k.status && k.pc.Keys == k.status.Keys
    ensures SameAccounts(k, ForkStep(k, t))
  {
  }

  lemma ForkPlacedQueues(k: State, t: Tid)
    requires PlacedQueues(k) && t !in k.status && k.pc.Keys == k.status.Keys
    ensures PlacedQueues(ForkStep(k, t))
  {
    SameSleepersPlaced(k, ForkStep(k, t));
  }

  lemma ForkKeepsInv(k: State, t: Tid)
    requires Inv(k) && t !in k.status
    ensures Inv(ForkStep(k, t))
  {
    ForkPlacedReady(k, t);
    ForkPlacedQueues(k, t);
    ForkSameAccounts(k, t);
    SameAccountsAccounted(k, ForkStep(k, t));
  }

  /** The kernel without its running thread. */
  function Vanished(k: State): State
    requires k.current.Some?
  {
    k.(status := k.status - {k.current.value}, pc := k.pc - {k.current.value}, current := None)
  }

  lemma VanishedPlaced(k: State)
    requires Placed(k) && MayRun(k, User)
    ensures Placed(Vanished(k))
  {
    SameSleepersPlaced(k, Vanished(k));
  }

  lemma VanishedSameAccounts(k: State)
    requires PlacedReady(k) && MayRun(k, User)
    ensures SameAccounts(k, Vanished(k))
  {
  }

  lemma FinishKeepsInv(k: State)
    requires Inv(k) && MayRun(k, User)
    ensures Inv(FinishStep(k))
  {
    VanishedPlaced(k);
    VanishedSameAccounts(k);
    SameAccountsAccounted(k, Vanished(k));
    ResumeKeepsInv(Vanished(k));
    assert Dispatch(Vanished(k)) == FinishStep(k);
  }

  // ---------------------------------------------------------------- whole runs

  datatype Action =
    | CallP(sem: nat) | CallV(sem: nat) | HandlerV(sem: nat)
    | CallAcquire(lock: nat) | CallRelease(lock: nat)
    | CallWait(cond: nat, lock: nat) | CallSignal(cond: nat) | CallBroadcast(cond: nat)
    | Resume                            // a dispatched thread goes on in the loop it slept in
    | Fork(child: Tid) | Yield | Finish
    | Wakeup                            // the idle machine dispatches a thread

  /** Calls are made by the current thread outside these routines; only the holder releases a lock. */
  ghost predicate Enabled(k: State, a: Action) {
    match a
    case CallP(s) => SemQueue(s) in k.queues && MayRun(k, User)
    case CallV(s) => SemQueue(s) in k.queues && MayRun(k, User)
    case HandlerV(s) => SemQueue(s) in k.queues
    case CallAcquire(l) => LockQueue(l) in k.queues && MayRun(k, User)
    case CallRelease(l) => LockQueue(l) in k.queues && MayRun(k, User) && HasLock(k, l) && MayRelease(k, l)
    case CallWait(c, l) =>
      LockQueue(l) in k.queues && CondQueue(c) in k.queues && MayRun(k, User) && HasLock(k, l) && MayRelease(k, l)
    case CallSignal(c) => CondQueue(c) in k.queues && MayRun(k, User)
    case CallBroadcast(c) => CondQueue(c) in k.queues && MayRun(k, User)
    case Resume => k.current.Some? && k.current.value in k.pc &&
      (match k.pc[k.current.value]
       case InP(s) => SemQueue(s) in k.queues
       case InAcquire(l) => LockQueue(l) in k.queues
       case _ => false)
    case Fork(t) => t !in k.status && MayRun(k, User)
    case Yield => MayRun(k, User)
    case Finish => MayRun(k, User)
    case Wakeup => k.current.None? && k.ready != []
  }

  ghost function Next(k: State, a: Action): State
    requires WellFormed(k) && Enabled(k, a)
  {
    match a
    case CallP(s) => PStep(k, s)
    case CallV(s) => VStep(k, s)
    case HandlerV(s) => VStep(k, s)
    case CallAcquire(l) => AcquireStep(k, l)
    case CallRelease(l) => ReleaseStep(k, l)
    case CallWait(c, l) => WaitStep(k, c, l)
    case CallSignal(c) => SignalStep(k, c)
    case CallBroadcast(c) => BroadcastStep(k, c)
    case Resume => (match k.pc[k.current.value] case InP(s) => PStep(k, s) case InAcquire(l) => AcquireStep(k, l))
    case Fork(t) => ForkStep(k, t)
    case Yield => YieldStep(k)
    case Finish => FinishStep(k)
    case Wakeup => Dispatch(k)
  }

  lemma StepKeepsInv(k: State, a: Action)
    requires Inv(k) && Enabled(k, a)
    ensures Inv(Next(k, a))
  {
    match a
    case CallP(s) => PKeepsInv(k, s);
    case CallV(s) => VKeepsInv(k, s);
    case HandlerV(s) => VKeepsInv(k, s);
    case CallAcquire(l) => AcquireKeepsInv(k, l);
    case CallRelease(l) => ReleaseKeepsInv(k, l);
    case CallWait(c, l) => WaitKeepsInv(k, c, l);
    case CallSignal(c) => SignalKeepsInv(k, c);
    case CallBroadcast(c) => BroadcastKeepsInv(k, c);
    case Resume =>
      match k.pc[k.current.value] {
        case InP(s) => PKeepsInv(k, s);
        case InAcquire(l) => AcquireKeepsInv(k, l);
      }
    case Fork(t) => ForkKeepsInv(k, t);
    case Yield => YieldKeepsInv(k);
    case Finish => FinishKeepsInv(k);
    case Wakeup => ResumeKeepsInv(k);
  }

  /** The kernel at start-up: one thread, nobody waiting, all locks free. */
  ghost predicate Init(k: State) {
    && WellFormed(k)
    && (exists t :: k.status == map[t := Running] && k.pc == map[t := User] && k.current == Some(t))
    && k.ready == [] && k.readied == [] && k.dispatched == [] && k.inside == {}
    && (forall q :: q in k.queues ==> k.queues[q] == [])
    && (forall s :: SemQueue(s) in k.queues ==> k.value[s] == k.ups[s] >= 0 && k.downs[s] == 0)
    && (forall l :: LockQueue(l) in k.queues ==> k.free[l])
  }

  lemma InitPlaced(k: State)
    requires Init(k)
    ensures Placed(k)
  {
    var t :| k.status == map[t := Running] && k.pc == map[t := User] && k.current == Some(t);
    assert forall u :: u in k.status <==> u == t;
    assert PlacedReady(k);
    assert forall q, u :: q in k.queues ==> u !in k.queues[q] && !SleepsOn(k, u, q);
  }

  lemma InitInv(k: State)
    requires Init(k)
    ensures Inv(k)
  {
    InitPlaced(k);
    assert Accounted(k);
  }

  ghost predicate Run(states: seq<State>, actions: seq<Action>) {
    && |states| == |actions| + 1 && Init(states[0])
    && forall i :: 0 <= i < |actions| ==>
         Enabled(states[i], actions[i]) && (WellFormed(states[i]) ==> states[i + 1] == Next(states[i], actions[i]))
  }

  /** In every state of every run, threads are in one place each and no wake-up is lost. */
  lemma {:induction false} RunKeepsInv(states: seq<State>, actions: seq<Action>, n: nat)
    requires Run(states, actions) && n < |states|
    ensures Inv(states[n])
  {
    if n == 0 {
      InitInv(states[0]);
    } else {
      RunKeepsInv(states, actions, n - 1);
      StepKeepsInv(states[n - 1], actions[n - 1]);
    }
  }

  // ---------------------------------------------------------------- what the invariant means

  /** At most one thread is between Acquire and Release of a lock. */
  lemma MutualExclusion(states: seq<State>, actions: seq<Action>, n: nat, l: nat, t: Tid, u: Tid)
    requires Run(states, actions) && n < |states| && LockQueue(l) in states[n].queues
    requires (t, l) in states[n].inside && (u, l) in states[n].inside
    ensures t == u
  {
    RunKeepsInv(states, actions, n);
    assert LockSound(states[n], l);
  }

  /** No wake-up of a semaphore is lost: its value counts the Vs minus the completed Ps, and threads sleep on it
      only while every unit of its value is spoken for by a woken thread that has not tested it yet. */
  lemma NoLostWakeup(states: seq<State>, actions: seq<Action>, n: nat, s: nat)
    requires Run(states, actions) && n < |states| && SemQueue(s) in states[n].queues
    ensures
      var k := states[n];
      && HasSem(k, s) && k.value[s] == k.ups[s] - k.downs[s] >= 0
      && (k.queues[SemQueue(s)] != [] ==> k.value[s] <= |WokenP(k, s)|)
  {
    RunKeepsInv(states, actions, n);
    assert SemSound(states[n], s);
  }

  /** A free lock with sleepers has a woken thread that will test it again. */
  lemma FreeLockHasContender(states: seq<State>, actions: seq<Action>, n: nat, l: nat)
    requires Run(states, actions) && n < |states| && LockQueue(l) in states[n].queues
    ensures
      var k := states[n];
      HasLock(k, l) && (k.free[l] && k.queues[LockQueue(l)] != [] ==> WokenAcquire(k, l) != {})
  {
    RunKeepsInv(states, actions, n);
    assert LockSound(states[n], l);
  }

  /** Threads are dispatched in the order in which they became ready. */
  lemma DispatchIsFifo(states: seq<State>, actions: seq<Action>, n: nat)
    requires Run(states, actions) && n < |states|
    ensures states[n].dispatched <= states[n].readied
    ensures states[n].readied[|states[n].dispatched|..] == states[n].ready
  {
    RunKeepsInv(states, actions, n);
  }

  /** Every thread is running, or once on the ready list, or once on one wait queue, and nowhere else. */
  lemma OnePlace(states: seq<State>, actions: seq<Action>, n: nat, t: Tid)
    requires Run(states, actions) && n < |states| && t in states[n].status
    ensures
      var k := states[n];
      match k.status[t]
      case Running => k.current == Some(t) && t !in k.ready && forall q :: q in k.queues ==> t !in k.queues[q]
      case Ready => k.current != Some(t) && multiset(k.ready)[t] == 1 && forall q :: q in k.queues ==> t !in k.queues[q]
      case Blocked => k.current != Some(t) && t !in k.ready && exists q ::
        q in k.queues && multiset(k.queues[q])[t] == 1 && forall r :: r in k.queues && r != q ==> t !in k.queues[r]
  {
    var k := states[n];
    RunKeepsInv(states, actions, n);
    match k.status[t] {
      case Running =>
      case Ready => OnceInQueue(k.ready, t);
      case Blocked =>
        var q := QueueOf(k.pc[t]).value;
        assert SleepsOn(k, t, q);
        OnceInQueue(k.queues[q], t);
    }
  }

  lemma {:induction false} OnceInQueue(q: seq<Tid>, t: Tid)
    requires NoDup(q) && t in q
    ensures multiset(q)[t] == 1
  {
    assert q == [q[0]] + q[1..];
    Tail(q);
    if q[0] != t {
      OnceInQueue(q[1..], t);
    }
  }

  /** Position of a thread in a queue. */
  ghost function IndexIn(q: seq<Tid>, t: Tid): nat
    requires t in q
  {
    if q[0] == t then 0 else 1 + IndexIn(q[1..], t)
  }

  lemma {:induction false} IndexAfterAppend(q: seq<Tid>, t: Tid, u: Tid)
    requires t in q
    ensures IndexIn(q + [u], t) == IndexIn(q, t)
  {
    if q[0] != t {
      assert (q + [u])[1..] == q[1..] + [u];
      IndexAfterAppend(q[1..], t, u);
    }
  }

  /** What a step does to the queue of a condition. */
  ghost function CondAfter(q: seq<Tid>, k: State, a: Action, c: nat): seq<Tid> {
    if a.CallWait? && a.cond == c && k.current.Some? then q + [k.current.value]
    else if a == CallSignal(c) && q != [] then q[1..]
    else if a == CallBroadcast(c) then []
    else q
  }

  /** Broadcast empties the queue of the condition and touches no other. */
  lemma {:induction false} BroadcastQueues(k: State, c: nat)
    requires CondQueue(c) in k.queues
    ensures BroadcastStep(k, c).queues == k.queues[CondQueue(c) := []]
    decreases |k.queues[CondQueue(c)]|
  {
    if k.queues[CondQueue(c)] == [] {
      assert k.queues[CondQueue(c) := []] == k.queues;
    } else {
      BroadcastQueues(SignalStep(k, c), c);
    }
  }

  lemma WaitQueueAfter(k: State, d: nat, l: nat, c: nat)
    requires k.current.Some? && HasLock(k, l) && CondQueue(d) in k.queues && CondQueue(c) in k.queues
    ensures CondQueue(c) in WaitStep(k, d, l).queues
    ensures WaitStep(k, d, l).queues[CondQueue(c)] == CondAfter(k.queues[CondQueue(c)], k, CallWait(d, l), c)
  {
    var k1 := ReleaseStep(k, l);
    assert SameConds(k, k1) && k1.current == k.current;
    assert WaitStep(k, d, l).queues == k1.queues[CondQueue(d) := k1.queues[CondQueue(d)] + [k.current.value]];
  }

  lemma SignalQueueAfter(k: State, d: nat, c: nat)
    requires CondQueue(d) in k.queues && CondQueue(c) in k.queues
    ensures CondQueue(c) in SignalStep(k, d).queues
    ensures SignalStep(k, d).queues[CondQueue(c)] == CondAfter(k.queues[CondQueue(c)], k, CallSignal(d), c)
  {
  }

  lemma CondQueueAfter(k: State, a: Action, c: nat)
    requires WellFormed(k) && Enabled(k, a) && CondQueue(c) in k.queues
    ensures CondQueue(c) in Next(k, a).queues
    ensures Next(k, a).queues[CondQueue(c)] == CondAfter(k.queues[CondQueue(c)], k, a, c)
  {
    match a
    case CallWait(d, l) => WaitQueueAfter(k, d, l, c);
    case CallSignal(d) => SignalQueueAfter(k, d, c);
    case CallBroadcast(d) => BroadcastQueues(k, d);
    case _ => assert SameConds(k, Next(k, a));
  }

  lemma SignalWakes(k: State, c: nat)
    requires Inv(k) && CondQueue(c) in k.queues && k.queues[CondQueue(c)] != []
    ensures
      var t, k' := k.queues[CondQueue(c)][0], SignalStep(k, c);
      && t in k.pc && k.pc[t].InWait? && t in k'.status && t in k'.pc
      && k'.status[t] == Ready && k'.pc[t] == InAcquire(k.pc[t].lock)
  {
    assert SleepsOn(k, k.queues[CondQueue(c)][0], CondQueue(c));
  }

  /** A waiter stays on its condition until it is woken: nobody overtakes it, each Signal brings it one place nearer,
      and only a Signal at its turn or a Broadcast takes it off, as a thread that goes on to acquire its lock. */
  lemma NoSignalMissed(k: State, a: Action, c: nat, t: Tid)
    requires Inv(k) && Enabled(k, a) && CondQueue(c) in k.queues && t in k.queues[CondQueue(c)]
    ensures
      var q, k' := k.queues[CondQueue(c)], Next(k, a);
      && CondQueue(c) in k'.queues
      && (t in k'.queues[CondQueue(c)] ==>
            IndexIn(k'.queues[CondQueue(c)], t) == IndexIn(q, t) - (if a == CallSignal(c) then 1 else 0))
      && (t !in k'.queues[CondQueue(c)] <==> a == CallBroadcast(c) || (a == CallSignal(c) && q[0] == t))
      && (t !in k'.queues[CondQueue(c)] ==>
            && t in k.pc && k.pc[t].InWait? && t in k'.status && t in k'.pc
            && k'.status[t] == Ready && k'.pc[t] == InAcquire(k.pc[t].lock))
  {
    var q, k' := k.queues[CondQueue(c)], Next(k, a);
    CondQueueAfter(k, a, c);
    Tail(q);
    if a.CallWait? && a.cond == c {
      IndexAfterAppend(q, t, k.current.value);
    } else if a == CallSignal(c) {
      SignalWakes(k, c);
    } else if a == CallBroadcast(c) {
      assert SleepsOn(k, t, CondQueue(c));
      BroadcastWakes(k, c, t, k.pc[t].lock);
    }
  }

  lemma {:induction false} BroadcastWakes(k: State, c: nat, t: Tid, l: nat)
    requires Inv(k) && CondQueue(c) in k.queues && t in k.status && t in k.pc
    requires || (t in k.queues[CondQueue(c)] && k.pc[t] == InWait(c, l))
             || (k.status[t] == Ready && k.pc[t] == InAcquire(l))
    ensures
      var k' := BroadcastStep(k, c);
      t in k'.status && t in k'.pc && k'.status[t] == Ready && k'.pc[t] == InAcquire(l)
    decreases |k.queues[CondQueue(c)]|
  {
    var q := k.queues[CondQueue(c)];
    if q != [] {
      SignalKeepsInv(k, c);
      assert SleepsOn(k, q[0], CondQueue(c));
      Tail(q);
      BroadcastWakes(SignalStep(k, c), c, t, l);
    }
  }
}
