// What the calls made in a run say about the kernel: semaphore values, lock owners and the set of threads are told
// from the sequence of calls alone.
module KernelRuns {
  import opened Basics
  import opened Kernel

  // ---------------------------------------------------------------- passes through the loops

  /** The step is a pass through the loop of P of semaphore s. */
  predicate PPass(k: State, a: Action, s: nat) {
    || a == CallP(s)
    || (a.Resume? && k.current.Some? && k.current.value in k.pc && k.pc[k.current.value] == InP(s))
  }

  predicate AcquirePass(k: State, a: Action, l: nat) {
    || a == CallAcquire(l)
    || (a.Resume? && k.current.Some? && k.current.value in k.pc && k.pc[k.current.value] == InAcquire(l))
  }

  /** The caller left the loop and goes on. */
  predicate Returned(k: State, k': State) {
    k.current.Some? && k'.current == k.current && k.current.value in k'.pc && k'.pc[k.current.value] == User
  }

  /** The caller sleeps, last on the queue, and somebody else or nobody runs. */
  predicate FellAsleepOn(k: State, k': State, q: QueueId) {
    && k.current.Some? && k'.current != k.current && SleepsOn(k', k.current.value, q)
    && q in k.queues && q in k'.queues && k'.queues[q] == k.queues[q] + [k.current.value]
  }

  lemma SleepOutcome(k: State, pc: Pc)
    requires Placed(k) && k.current.Some? && QueueOf(pc).Some? && QueueOf(pc).value in k.queues
    ensures FellAsleepOn(k, SleepOn(k, pc), QueueOf(pc).value)
  {
    assert k.ready != [] ==> k.ready[0] in k.ready;
  }

  lemma PassOutcome(k: State, s: nat)
    requires Placed(k) && k.current.Some? && HasSem(k, s)
    ensures k.value[s] != 0 ==> Returned(k, PStep(k, s))
    ensures k.value[s] == 0 ==> FellAsleepOn(k, PStep(k, s), SemQueue(s))
  {
    if k.value[s] == 0 {
      SleepOutcome(k, InP(s));
    }
  }

  lemma AcquireOutcome(k: State, l: nat)
    requires Placed(k) && k.current.Some? && HasLock(k, l)
    ensures k.free[l] ==> Returned(k, AcquireStep(k, l))
    ensures !k.free[l] ==> FellAsleepOn(k, AcquireStep(k, l), LockQueue(l))
  {
    if !k.free[l] {
      SleepOutcome(k, InAcquire(l));
    }
  }

  /** Broadcast touches no semaphore and no lock. */
  lemma {:induction false} BroadcastKeeps(k: State, c: nat)
    requires CondQueue(c) in k.queues
    ensures SameSync(k, BroadcastStep(k, c)) && BroadcastStep(k, c).current == k.current
    decreases |k.queues[CondQueue(c)]|
  {
    if k.queues[CondQueue(c)] != [] {
      BroadcastKeeps(SignalStep(k, c), c);
    }
  }

  /** Everything but a call on a semaphore or a lock leaves them alone. */
  lemma OthersKeep(k: State, a: Action)
    requires WellFormed(k) && Enabled(k, a)
    requires a.CallSignal? || a.CallBroadcast? || a.Fork? || a.Yield? || a.Finish? || a.Wakeup?
    ensures SameSync(k, Next(k, a))
  {
    match a
    case CallBroadcast(c) => BroadcastKeeps(k, c);
    case Yield => YieldKeeps(k);
    case _ =>
  }

  lemma YieldKeeps(k: State)
    requires k.current.Some?
    ensures SameSync(k, YieldStep(k))
  {
    if k.ready == [] {
      assert YieldStep(k) == k;
    }
  }

  lemma PassKeepsQueue(k: State, a: Action, q: QueueId)
    requires WellFormed(k) && Enabled(k, a) && (a.CallP? || a.CallAcquire? || a.Resume?)
    ensures q in Next(k, a).queues <==> q in k.queues
  {
  }

  lemma NextKeepsQueue(k: State, a: Action, q: QueueId)
    requires WellFormed(k) && Enabled(k, a)
    ensures q in Next(k, a).queues <==> q in k.queues
  {
    match a
    case CallP(_) => PassKeepsQueue(k, a, q);
    case CallAcquire(_) => PassKeepsQueue(k, a, q);
    case Resume => PassKeepsQueue(k, a, q);
    case CallBroadcast(c) => BroadcastQueues(k, c);
    case _ =>
  }

  lemma {:induction false} RunKeepsQueue(states: seq<State>, actions: seq<Action>, n: nat, q: QueueId)
    requires Run(states, actions) && n < |states|
    ensures q in states[n].queues <==> q in states[0].queues
  {
    if n > 0 {
      RunKeepsQueue(states, actions, n - 1, q);
      RunKeepsInv(states, actions, n - 1);
      NextKeepsQueue(states[n - 1], actions[n - 1], q);
    }
  }

  // ---------------------------------------------------------------- semaphores

  predicate IsV(a: Action, s: nat) {
    a == CallV(s) || a == HandlerV(s)
  }

  /** The pass finds a unit to take. */
  predicate TakesUnit(k: State, a: Action, s: nat) {
    PPass(k, a, s) && s in k.value && k.value[s] != 0
  }

  /** Calls of V among the first n. */
  function Vs(actions: seq<Action>, n: nat, s: nat): nat
    requires n <= |actions|
  {
    if n == 0 then 0 else Vs(actions, n - 1, s) + One(IsV(actions[n - 1], s))
  }

  /** Passes of P, among the first n steps, that took a unit. */
  function Ps(states: seq<State>, actions: seq<Action>, n: nat, s: nat): nat
    requires n <= |actions| < |states|
  {
    if n == 0 then 0 else Ps(states, actions, n - 1, s) + One(TakesUnit(states[n - 1], actions[n - 1], s))
  }

  lemma PValue(k: State, r: nat, s: nat)
    requires k.current.Some? && HasSem(k, r) && HasSem(k, s)
    ensures s in PStep(k, r).value
    ensures PStep(k, r).value[s] == k.value[s] - One(r == s && k.value[s] != 0)
    ensures PStep(k, r).free == k.free && PStep(k, r).holder == k.holder && PStep(k, r).inside == k.inside
  {
  }

  lemma VValue(k: State, r: nat, s: nat)
    requires HasSem(k, r) && HasSem(k, s)
    ensures s in VStep(k, r).value && VStep(k, r).value[s] == k.value[s] + One(r == s)
    ensures VStep(k, r).free == k.free && VStep(k, r).holder == k.holder && VStep(k, r).inside == k.inside
  {
  }

  lemma AcquireValues(k: State, l: nat)
    requires k.current.Some? && HasLock(k, l)
    ensures AcquireStep(k, l).value == k.value
  {
  }

  lemma WaitSame(k: State, c: nat, l: nat)
    requires k.current.Some? && HasLock(k, l) && CondQueue(c) in k.queues
    ensures SameSync(ReleaseStep(k, l), WaitStep(k, c, l))
  {
  }

  lemma ResumeValue(k: State, s: nat)
    requires WellFormed(k) && Enabled(k, Resume) && HasSem(k, s)
    ensures s in Next(k, Resume).value
    ensures Next(k, Resume).value[s] == k.value[s] - One(TakesUnit(k, Resume, s))
  {
    match k.pc[k.current.value] {
      case InP(r) => PValue(k, r, s);
      case InAcquire(l) => AcquireValues(k, l);
    }
  }

  lemma ValueAfter(k: State, a: Action, s: nat)
    requires WellFormed(k) && Enabled(k, a) && SemQueue(s) in k.queues
    ensures s in Next(k, a).value
    ensures Next(k, a).value[s] == k.value[s] + One(IsV(a, s)) - One(TakesUnit(k, a, s))
  {
    match a
    case CallP(r) => PValue(k, r, s);
    case CallV(r) => VValue(k, r, s);
    case HandlerV(r) => VValue(k, r, s);
    case CallAcquire(l) => AcquireValues(k, l);
    case CallWait(c, l) => WaitSame(k, c, l);
    case CallRelease(l) =>
    case Resume => ResumeValue(k, s);
    case _ => OthersKeep(k, a);
  }

  lemma ValueStep(states: seq<State>, actions: seq<Action>, n: nat, s: nat)
    requires Run(states, actions) && n < |actions| && SemQueue(s) in states[0].queues
    ensures s in states[n].value && s in states[n + 1].value
    ensures states[n + 1].value[s] ==
            states[n].value[s] + One(IsV(actions[n], s)) - One(TakesUnit(states[n], actions[n], s))
  {
    RunKeepsInv(states, actions, n);
    RunKeepsQueue(states, actions, n, SemQueue(s));
    ValueAfter(states[n], actions[n], s);
  }

  /** The value of a semaphore is its initial value, plus the calls of V, minus the units that passes of P took. */
  lemma {:induction false} SemaphoreCounts(states: seq<State>, actions: seq<Action>, n: nat, s: nat)
    requires Run(states, actions) && n < |states| && SemQueue(s) in states[0].queues
    ensures s in states[n].value && s in states[0].value
    ensures states[n].value[s] == states[0].value[s] + Vs(actions, n, s) - Ps(states, actions, n, s)
  {
    if n > 0 {
      SemaphoreCounts(states, actions, n - 1, s);
      ValueStep(states, actions, n - 1, s);
    }
  }

  /** A pass of P returns if and only if some V, or the initial value, has not been used up; otherwise it sleeps, last
      on the queue. */
  lemma PReturnsWhen(states: seq<State>, actions: seq<Action>, n: nat, s: nat)
    requires Run(states, actions) && n < |actions| && SemQueue(s) in states[0].queues
    requires PPass(states[n], actions[n], s)
    ensures s in states[0].value
    ensures
      var units := states[0].value[s] + Vs(actions, n, s) - Ps(states, actions, n, s);
      && (Returned(states[n], states[n + 1]) <==> units > 0)
      && (FellAsleepOn(states[n], states[n + 1], SemQueue(s)) <==> units == 0)
  {
    SemaphoreCounts(states, actions, n, s);
    RunKeepsInv(states, actions, n);
    RunKeepsQueue(states, actions, n, SemQueue(s));
    assert SemSound(states[n], s);
    PassOutcome(states[n], s);
  }

  // ---------------------------------------------------------------- locks

  predicate GivesUp(a: Action, l: nat) {
    a == CallRelease(l) || (a.CallWait? && a.lock == l)
  }

  /** The owner of lock l after the step. */
  ghost function OwnerNext(k: State, a: Action, l: nat, o: Option<Tid>): Option<Tid> {
    if o.None? && AcquirePass(k, a, l) then k.current
    else if o == k.current && GivesUp(a, l) then None
    else o
  }

  /** Who owns lock l after n steps, told from the calls: the first to pass Acquire while nobody does, until that thread
      calls Release or Wait. */
  ghost function Owner(states: seq<State>, actions: seq<Action>, n: nat, l: nat): Option<Tid>
    requires n <= |actions| < |states|
  {
    if n == 0 then None else
    OwnerNext(states[n - 1], actions[n - 1], l, Owner(states, actions, n - 1, l))
  }

  /** The lock's fields agree with its owner. */
  ghost predicate OwnedBy(k: State, l: nat, owner: Option<Tid>) {
    && l in k.free && l in k.holder && (k.free[l] <==> owner.None?) && (owner.Some? ==> k.holder[l] == owner)
    && forall t :: (t, l) in k.inside <==> owner == Some(t)
  }

  lemma AcquireOwner(k: State, r: nat, l: nat, o: Option<Tid>)
    requires k.current.Some? && HasLock(k, r) && OwnedBy(k, l, o)
    ensures OwnedBy(AcquireStep(k, r), l, if o.None? && r == l then k.current else o)
  {
  }

  lemma ReleaseOwner(k: State, r: nat, l: nat, o: Option<Tid>)
    requires k.current.Some? && HasLock(k, r) && OwnedBy(k, l, o)
    ensures OwnedBy(ReleaseStep(k, r), l, if o == k.current && r == l then None else o)
  {
  }

  lemma WaitOwner(k: State, c: nat, r: nat, l: nat, o: Option<Tid>)
    requires k.current.Some? && HasLock(k, r) && CondQueue(c) in k.queues && OwnedBy(k, l, o)
    ensures OwnedBy(WaitStep(k, c, r), l, if o == k.current && r == l then None else o)
  {
    WaitSame(k, c, r);
    ReleaseOwner(k, r, l, o);
  }

  lemma ResumeOwner(k: State, l: nat, o: Option<Tid>)
    requires WellFormed(k) && Enabled(k, Resume) && OwnedBy(k, l, o)
    ensures OwnedBy(Next(k, Resume), l, if o.None? && AcquirePass(k, Resume, l) then k.current else o)
  {
    match k.pc[k.current.value] {
      case InP(r) => PValue(k, r, r);
      case InAcquire(r) => AcquireOwner(k, r, l, o);
    }
  }

  lemma LockCallOwner(k: State, a: Action, l: nat, o: Option<Tid>)
    requires WellFormed(k) && Enabled(k, a) && OwnedBy(k, l, o)
    requires a.CallAcquire? || a.CallRelease? || a.CallWait? || a.Resume?
    ensures OwnedBy(Next(k, a), l, OwnerNext(k, a, l, o))
  {
    match a
    case CallAcquire(r) => AcquireOwner(k, r, l, o);
    case CallRelease(r) => ReleaseOwner(k, r, l, o);
    case CallWait(c, r) => WaitOwner(k, c, r, l, o);
    case Resume => ResumeOwner(k, l, o);
  }

  lemma OwnerAfter(k: State, a: Action, l: nat, o: Option<Tid>)
    requires WellFormed(k) && Enabled(k, a) && OwnedBy(k, l, o)
    ensures OwnedBy(Next(k, a), l, OwnerNext(k, a, l, o))
  {
    match a
    case CallP(r) => PValue(k, r, r);
    case CallV(r) => VValue(k, r, r);
    case HandlerV(r) => VValue(k, r, r);
    case CallAcquire(_) => LockCallOwner(k, a, l, o);
    case CallRelease(_) => LockCallOwner(k, a, l, o);
    case CallWait(_, _) => LockCallOwner(k, a, l, o);
    case Resume => LockCallOwner(k, a, l, o);
    case _ => OthersKeep(k, a);
  }

  /** In every state of every run a lock is free if and only if nobody owns it by the calls made so far, and exactly its
      owner is inside: a busy lock has somebody inside, and Release and Wait by the owner make it free. */
  lemma {:induction false} LockFollowsCalls(states: seq<State>, actions: seq<Action>, n: nat, l: nat)
    requires Run(states, actions) && n < |states| && LockQueue(l) in states[0].queues
    ensures OwnedBy(states[n], l, Owner(states, actions, n, l))
    ensures !states[n].free[l] ==> exists t :: (t, l) in states[n].inside
  {
    if n > 0 {
      LockFollowsCalls(states, actions, n - 1, l);
      RunKeepsInv(states, actions, n - 1);
      RunKeepsQueue(states, actions, n - 1, LockQueue(l));
      OwnerAfter(states[n - 1], actions[n - 1], l, Owner(states, actions, n - 1, l));
    }
    var o := Owner(states, actions, n, l);
    if o.Some? {
      assert (o.value, l) in states[n].inside;
    }
  }

  /** A pass of Acquire returns if and only if nobody owns the lock; otherwise it sleeps, last on the queue. */
  lemma AcquireReturnsWhen(states: seq<State>, actions: seq<Action>, n: nat, l: nat)
    requires Run(states, actions) && n < |actions| && LockQueue(l) in states[0].queues
    requires AcquirePass(states[n], actions[n], l)
    ensures Returned(states[n], states[n + 1]) <==> Owner(states, actions, n, l).None?
    ensures FellAsleepOn(states[n], states[n + 1], LockQueue(l)) <==> Owner(states, actions, n, l).Some?
  {
    LockFollowsCalls(states, actions, n, l);
    RunKeepsInv(states, actions, n);
    RunKeepsQueue(states, actions, n, LockQueue(l));
    AcquireOutcome(states[n], l);
  }

  // ---------------------------------------------------------------- threads

  /** The threads after n steps, told from the calls. */
  ghost function Alive(states: seq<State>, actions: seq<Action>, n: nat): set<Tid>
    requires n <= |actions| < |states|
  {
    if n == 0 then states[0].status.Keys else
    var k, a, alive := states[n - 1], actions[n - 1], Alive(states, actions, n - 1);
    if a.Fork? then alive + {a.child}
    else if a.Finish? && k.current.Some? then alive - {k.current.value}
    else alive
  }

  lemma {:induction false} BroadcastKeepsThreads(k: State, c: nat)
    requires Inv(k) && CondQueue(c) in k.queues
    ensures BroadcastStep(k, c).status.Keys == k.status.Keys
    decreases |k.queues[CondQueue(c)]|
  {
    var q := k.queues[CondQueue(c)];
    if q != [] {
      assert SleepsOn(k, q[0], CondQueue(c));
      SignalKeepsInv(k, c);
      BroadcastKeepsThreads(SignalStep(k, c), c);
    }
  }

  lemma WakeHeadKeepsThreads(k: State, q: QueueId)
    requires Placed(k) && q in k.queues
    ensures WakeHead(k, q).status.Keys == k.status.Keys && WakeHead(k, q).current == k.current
    ensures WakeHead(k, q).ready != [] ==> WakeHead(k, q).ready[0] in k.status
  {
    assert k.ready != [] ==> k.ready[0] in k.ready;
    assert k.queues[q] != [] ==> SleepsOn(k, k.queues[q][0], q);
  }

  lemma SleepKeepsThreads(k: State, pc: Pc)
    requires k.current.Some? && QueueOf(pc).Some? && QueueOf(pc).value in k.queues
    requires k.current.value in k.status && (k.ready != [] ==> k.ready[0] in k.status)
    ensures SleepOn(k, pc).status.Keys == k.status.Keys
    ensures k.ready != [] ==> SleepOn(k, pc).current.Some?
  {
  }

  /** No call on a semaphore or a lock starts or ends a thread. */
  lemma SyncKeepsThreads(k: State, a: Action)
    requires Inv(k) && Enabled(k, a) && !a.Fork? && !a.Yield? && !a.Finish? && !a.Wakeup?
    ensures Next(k, a).status.Keys == k.status.Keys
  {
    match a
    case CallP(s) => PKeepsThreads(k, s);
    case CallAcquire(l) => AcquireKeepsThreads(k, l);
    case Resume =>
      match k.pc[k.current.value] {
        case InP(s) => PKeepsThreads(k, s);
        case InAcquire(l) => AcquireKeepsThreads(k, l);
      }
    case CallV(s) => WakeHeadKeepsThreads(k, SemQueue(s));
    case HandlerV(s) => WakeHeadKeepsThreads(k, SemQueue(s));
    case CallRelease(l) => ReleaseKeepsThreads(k, l);
    case CallWait(c, l) => WaitKeepsThreads(k, c, l);
    case CallSignal(c) => WakeHeadKeepsThreads(k, CondQueue(c));
    case CallBroadcast(c) => BroadcastKeepsThreads(k, c);
  }

  lemma WaitKeepsThreads(k: State, c: nat, l: nat)
    requires Inv(k) && Enabled(k, CallWait(c, l))
    ensures WaitStep(k, c, l).status.Keys == k.status.Keys
  {
    ReleaseKeepsThreads(k, l);
    SleepKeepsThreads(ReleaseStep(k, l), InWait(c, l));
  }

  lemma ThreadsAfter(states: seq<State>, actions: seq<Action>, n: nat)
    requires Run(states, actions) && n < |actions|
    ensures actions[n].Finish? ==> states[n].current.Some?
    ensures
      var k, a := states[n], actions[n];
      states[n + 1].status.Keys == if a.Fork? then k.status.Keys + {a.child}
                                   else if a.Finish? then k.status.Keys - {k.current.value}
                                   else k.status.Keys
  {
    var k, a := states[n], actions[n];
    RunKeepsInv(states, actions, n);
    assert k.ready != [] ==> k.ready[0] in k.ready;
    if !a.Fork? && !a.Yield? && !a.Finish? && !a.Wakeup? {
      SyncKeepsThreads(k, a);
    }
  }

  lemma PKeepsThreads(k: State, s: nat)
    requires Placed(k) && k.current.Some? && HasSem(k, s)
    ensures PStep(k, s).status.Keys == k.status.Keys
  {
    assert k.ready != [] ==> k.ready[0] in k.ready;
    if k.value[s] == 0 {
      SleepKeepsThreads(k, InP(s));
    }
  }

  lemma AcquireKeepsThreads(k: State, l: nat)
    requires Placed(k) && k.current.Some? && HasLock(k, l)
    ensures AcquireStep(k, l).status.Keys == k.status.Keys
  {
    assert k.ready != [] ==> k.ready[0] in k.ready;
    if !k.free[l] {
      SleepKeepsThreads(k, InAcquire(l));
    }
  }

  lemma ReleaseKeepsThreads(k: State, l: nat)
    requires Placed(k) && k.current.Some? && HasLock(k, l)
    ensures ReleaseStep(k, l).status.Keys == k.status.Keys
    ensures ReleaseStep(k, l).ready != [] ==> ReleaseStep(k, l).ready[0] in k.status
  {
    WakeHeadKeepsThreads(k, LockQueue(l));
    assert k.ready != [] ==> k.ready[0] in k.ready;
  }

  /** The threads are those forked and not finished, and the initial one: none is lost or made up on the way. */
  lemma {:induction false} ThreadsFollowCalls(states: seq<State>, actions: seq<Action>, n: nat)
    requires Run(states, actions) && n < |states|
    ensures states[n].status.Keys == Alive(states, actions, n)
  {
    if n > 0 {
      ThreadsFollowCalls(states, actions, n - 1);
      ThreadsAfter(states, actions, n - 1);
    }
  }

  // ---------------------------------------------------------------- the processor

  lemma {:induction false} BroadcastReadies(k: State, c: nat)
    requires CondQueue(c) in k.queues
    ensures BroadcastStep(k, c).ready == k.ready + k.queues[CondQueue(c)]
    decreases |k.queues[CondQueue(c)]|
  {
    var q := k.queues[CondQueue(c)];
    if q != [] {
      assert SignalStep(k, c).ready == k.ready + [q[0]];
      BroadcastReadies(SignalStep(k, c), c);
      assert q == [q[0]] + q[1..];
    }
  }

  /** The processor goes idle only when no thread is ready. */
  lemma IdlesOnlyWhenNoneReady(k: State, a: Action)
    requires WellFormed(k) && Enabled(k, a) && k.current.Some? && Next(k, a).current.None?
    ensures Next(k, a).ready == []
  {
    match a
    case CallBroadcast(c) => BroadcastKeeps(k, c);
    case _ =>
  }

  function FirstOf(q: seq<Tid>): seq<Tid> {
    if q == [] then [] else [q[0]]
  }

  /** Who becomes ready in the step: the first waiter of a semaphore, a lock or a condition, all waiters of a condition,
      a new thread, or the one that yields. */
  ghost function Joins(k: State, a: Action): seq<Tid>
    requires WellFormed(k) && Enabled(k, a)
  {
    match a
    case CallV(s) => FirstOf(k.queues[SemQueue(s)])
    case HandlerV(s) => FirstOf(k.queues[SemQueue(s)])
    case CallRelease(l) => if k.holder[l] == k.current then FirstOf(k.queues[LockQueue(l)]) else []
    case CallWait(c, l) => if k.holder[l] == k.current then FirstOf(k.queues[LockQueue(l)]) else []
    case CallSignal(c) => FirstOf(k.queues[CondQueue(c)])
    case CallBroadcast(c) => k.queues[CondQueue(c)]
    case Fork(t) => [t]
    case Yield => if k.ready == [] then [] else [k.current.value]
    case _ => []
  }

  /** Those who become ready stand behind those who are, and a thread that gets the processor is the first of all. */
  predicate Advances(k: State, k': State, joins: seq<Tid>) {
    var line := k.ready + joins;
    if k'.current.Some? && k'.current != k.current
    then line != [] && k'.current == Some(line[0]) && k'.ready == line[1..]
    else k'.ready == line
  }

  lemma SleepAdvances(k: State, pc: Pc)
    requires PlacedReady(k) && k.current.Some? && QueueOf(pc).Some? && QueueOf(pc).value in k.queues
    ensures Advances(k, SleepOn(k, pc), [])
  {
    assert k.ready + [] == k.ready;
    assert k.ready != [] ==> k.ready[0] in k.ready;
  }

  lemma PAdvances(k: State, s: nat)
    requires PlacedReady(k) && k.current.Some? && HasSem(k, s)
    ensures Advances(k, PStep(k, s), [])
  {
    assert k.ready + [] == k.ready;
    if k.value[s] == 0 {
      SleepAdvances(k, InP(s));
    }
  }

  lemma AcquireAdvances(k: State, l: nat)
    requires PlacedReady(k) && k.current.Some? && HasLock(k, l)
    ensures Advances(k, AcquireStep(k, l), [])
  {
    assert k.ready + [] == k.ready;
    if !k.free[l] {
      SleepAdvances(k, InAcquire(l));
    }
  }

  lemma WakeAdvances(k: State, q: QueueId)
    requires q in k.queues
    ensures WakeHead(k, q).ready == k.ready + FirstOf(k.queues[q]) && WakeHead(k, q).current == k.current
  {
    assert k.ready + [] == k.ready;
  }

  lemma ReleaseAdvances(k: State, l: nat)
    requires WellFormed(k) && Enabled(k, CallRelease(l))
    ensures ReleaseStep(k, l).ready == k.ready + Joins(k, CallRelease(l)) && ReleaseStep(k, l).current == k.current
  {
    assert k.ready + [] == k.ready;
    WakeAdvances(k, LockQueue(l));
  }

  lemma WaitAdvances(k: State, c: nat, l: nat)
    requires Inv(k) && Enabled(k, CallWait(c, l))
    ensures Advances(k, WaitStep(k, c, l), Joins(k, CallWait(c, l)))
  {
    var k1 := ReleaseStep(k, l);
    ReleaseAdvances(k, l);
    ReleaseKeepsInv(k, l);
    SleepAdvances(k1, InWait(c, l));
    assert k1.ready + [] == k1.ready;
  }

  lemma YieldAdvances(k: State)
    requires Inv(k) && Enabled(k, Yield)
    ensures Advances(k, YieldStep(k), Joins(k, Yield))
  {
    if k.ready == [] {
      assert k.ready + [] == k.ready;
    } else {
      assert k.ready[0] in k.ready;
      assert (k.ready + [k.current.value])[1..] == k.ready[1..] + [k.current.value];
    }
  }

  lemma FinishAdvances(k: State)
    requires PlacedReady(k) && k.current.Some?
    ensures Advances(k, FinishStep(k), [])
  {
    assert k.ready + [] == k.ready;
    assert k.ready != [] ==> k.ready[0] in k.ready;
  }

  lemma WakeupAdvances(k: State)
    requires k.current.None? && k.ready != []
    ensures Advances(k, Dispatch(k), [])
  {
    assert k.ready + [] == k.ready;
  }

  lemma StepAdvances(k: State, a: Action)
    requires Inv(k) && Enabled(k, a)
    ensures Advances(k, Next(k, a), Joins(k, a))
  {
    match a
    case CallP(s) => PAdvances(k, s);
    case CallAcquire(l) => AcquireAdvances(k, l);
    case Resume =>
      match k.pc[k.current.value] {
        case InP(s) => PAdvances(k, s);
        case InAcquire(l) => AcquireAdvances(k, l);
      }
    case CallV(s) => WakeAdvances(k, SemQueue(s));
    case HandlerV(s) => WakeAdvances(k, SemQueue(s));
    case CallRelease(l) => ReleaseAdvances(k, l);
    case CallWait(c, l) => WaitAdvances(k, c, l);
    case CallSignal(c) => WakeAdvances(k, CondQueue(c));
    case CallBroadcast(c) =>
      BroadcastReadies(k, c);
      BroadcastKeeps(k, c);
    case Fork(t) => assert ForkStep(k, t).ready == k.ready + [t];
    case Yield => YieldAdvances(k);
    case Finish => FinishAdvances(k);
    case Wakeup => WakeupAdvances(k);
  }

  /** In every step of every run the ready list is first in, first out: V, Release and Signal make the first waiter
      ready, Broadcast all of them in order, and nobody is overtaken on the way to the processor. */
  lemma ReadyIsFifo(states: seq<State>, actions: seq<Action>, n: nat)
    requires Run(states, actions) && n < |actions|
    ensures Inv(states[n]) && Enabled(states[n], actions[n])
    ensures Advances(states[n], states[n + 1], Joins(states[n], actions[n]))
  {
    RunKeepsInv(states, actions, n);
    StepAdvances(states[n], actions[n]);
  }

  /** The running thread and those ready behind it. */
  function Line(k: State): seq<Tid> {
    (if k.current.Some? then [k.current.value] else []) + k.ready
  }

  /** From state i to the next the first of the line went to its end. */
  predicate TurnsAt(states: seq<State>, i: nat) {
    && i + 1 < |states| && Line(states[i]) != []
    && Line(states[i + 1]) == Line(states[i])[1..] + [Line(states[i])[0]]
  }

  lemma {:induction false} TurnsRotate(states: seq<State>, n: nat, m: nat)
    requires n + m < |states| && m <= |Line(states[n])| && forall i :: n <= i < n + m ==> TurnsAt(states, i)
    ensures Line(states[n + m]) == Line(states[n])[m..] + Line(states[n])[..m]
  {
    if m > 0 {
      TurnsRotate(states, n, m - 1);
      assert TurnsAt(states, n + m - 1);
      TurnOnce(Line(states[n]), m);
    }
  }

  lemma TurnOnce(line: seq<Tid>, m: nat)
    requires 0 < m <= |line|
    ensures
      var before := line[m - 1..] + line[..m - 1];
      before[1..] + [before[0]] == line[m..] + line[..m]
  {
  }

  lemma YieldTurns(k: State)
    requires k.current.Some?
    ensures Line(k) != [] && Line(YieldStep(k)) == Line(k)[1..] + [Line(k)[0]]
  {
    if k.ready == [] {
      assert YieldStep(k) == k;
    }
  }

  /** Threads that yield take turns: every call moves the running thread to the end of the line, so that each of them
      has the processor once before any has it again. */
  lemma YieldsRotate(states: seq<State>, actions: seq<Action>, n: nat, m: nat)
    requires Run(states, actions) && n + m <= |actions|
    requires forall i :: n <= i < n + m ==> actions[i].Yield?
    requires m <= |Line(states[n])|
    ensures Line(states[n + m]) == Line(states[n])[m..] + Line(states[n])[..m]
  {
    forall i | n <= i < n + m
      ensures TurnsAt(states, i)
    {
      RunKeepsInv(states, actions, i);
      YieldTurns(states[i]);
    }
    TurnsRotate(states, n, m);
  }

  // ---------------------------------------------------------------- deadlock

  /** When the processor is idle and no thread is ready, a thread sleeps on a semaphore only at value zero and on a lock
      only while some thread owns it. */
  lemma IdleOnlyWhenBlocked(states: seq<State>, actions: seq<Action>, n: nat, i: nat)
    requires Run(states, actions) && n < |states| && states[n].current.None? && states[n].ready == []
    ensures SemQueue(i) in states[n].queues && states[n].queues[SemQueue(i)] != [] ==>
              i in states[n].value && states[n].value[i] == 0
    ensures LockQueue(i) in states[n].queues && states[n].queues[LockQueue(i)] != [] ==>
              Owner(states, actions, n, i).Some?
  {
    var k := states[n];
    RunKeepsInv(states, actions, n);
    assert forall t :: t in k.status ==> k.status[t] == Blocked;
    assert WokenP(k, i) == {} && WokenAcquire(k, i) == {};
    if SemQueue(i) in k.queues {
      assert SemSound(k, i);
    }
    if LockQueue(i) in k.queues {
      assert LockSound(k, i);
      RunKeepsQueue(states, actions, n, LockQueue(i));
      LockFollowsCalls(states, actions, n, i);
    }
  }
}
