// The synchronous disk of filesys/synchdisk.cc as a step system: any number of ReadSector and WriteSector calls
// share a lock, a semaphore that starts at 0 and a disk (machine/disk.cc) that accepts one request at a time and
// answers it by an interrupt.  A lock is acquired only while it is free and P completes only on a positive value,
// as the kernel guarantees.
module SynchDisks {
  import opened Basics
  import opened Files

  datatype Operation = Read(sector: int) | Write(sector: int, data: Sector)

  datatype Phase = Wants | Locked | Requested | Completed | Returned

  /** One call: its request gets the number of its place in the history, and a read gets its data, when it is made. */
  datatype Call = Call(op: Operation, phase: Phase, number: int, result: Sector)

  datatype Entry = Entry(op: Operation, result: Sector)

  datatype State = State(
    image: Image, active: bool, semaphore: int, lock: Option<int>, calls: map<int, Call>,
    history: seq<Entry>, interrupts: nat)

  datatype Step =
    | Invoke(id: int, op: Operation) | Acquire(id: int) | Request(id: int) | Interrupt | P(id: int) | Release(id: int)

  predicate InRange(op: Operation) {
    0 <= op.sector < NUM_SECTORS
  }

  ghost predicate AllInRange(s: State) {
    forall i :: i in s.calls ==> InRange(s.calls[i].op)
  }

  predicate At(s: State, i: int, phase: Phase) {
    i in s.calls && s.calls[i].phase == phase
  }

  predicate Enabled(s: State, step: Step) {
    match step
    case Invoke(i, op) => i !in s.calls && InRange(op)
    case Acquire(i) => At(s, i, Wants) && s.lock.None?
    case Request(i) => At(s, i, Locked)
    case Interrupt => s.active
    case P(i) => At(s, i, Requested) && s.semaphore > 0
    case Release(i) => At(s, i, Completed)
  }

  function Move(s: State, i: int, phase: Phase): map<int, Call>
    requires i in s.calls
  {
    s.calls[i := s.calls[i].(phase := phase)]
  }

  /** The data a request delivers: for a write, what it wrote. */
  function Answer(d: Image, op: Operation): Sector
    requires InRange(op)
  {
    if op.Read? then d[op.sector] else op.data
  }

  function Effect(d: Image, op: Operation): Image
    requires InRange(op)
  {
    if op.Read? then d else d[op.sector := op.data]
  }

  ghost function Next(s: State, step: Step): State
    requires Enabled(s, step) && AllInRange(s)
  {
    match step
    case Invoke(i, op) => s.(calls := s.calls[i := Call(op, Wants, -1, BlankSector())])
    case Acquire(i) => s.(lock := Some(i), calls := Move(s, i, Locked))
    case Request(i) =>
      var op := s.calls[i].op;
      var answer := Answer(s.image, op);
      s.(image := Effect(s.image, op), active := true, history := s.history + [Entry(op, answer)],
         calls := s.calls[i := Call(op, Requested, |s.history|, answer)])
    case Interrupt => s.(active := false, semaphore := s.semaphore + 1, interrupts := s.interrupts + 1)
    case P(i) => s.(semaphore := s.semaphore - 1, calls := Move(s, i, Completed))
    case Release(i) => s.(lock := None, calls := Move(s, i, Returned))
  }

  // ---------------------------------------------------------------- the invariant

  predicate HasLock(c: Call) {
    c.phase.Locked? || c.phase.Requested? || c.phase.Completed?
  }

  ghost predicate LockInv(s: State) {
    forall i :: s.lock == Some(i) <==> i in s.calls && HasLock(s.calls[i])
  }

  /** The lock holder has made its request and has not been told yet that it is done. */
  predicate Awaiting(s: State) {
    s.lock.Some? && At(s, s.lock.value, Requested)
  }

  predicate CallInv(s: State, c: Call) {
    && InRange(c.op)
    && (c.phase.Requested? || c.phase.Completed? || c.phase.Returned? ==>
          0 <= c.number < |s.history| && s.history[c.number] == Entry(c.op, c.result))
    && (c.phase.Requested? ==> c.number == |s.history| - 1)
    && (c.phase.Completed? || c.phase.Returned? ==> c.number < s.interrupts)
  }

  ghost predicate Inv(s: State, start: Image) {
    && LockInv(s) && (forall i :: i in s.calls ==> CallInv(s, s.calls[i]))
    && One(s.active) + s.semaphore == One(Awaiting(s)) && s.semaphore >= 0
    && |s.history| == s.interrupts + One(s.active)
    && Replays(start, s.history, s.image)
  }

  /** The history, taken one operation after the other, leads from d to d' and every read saw the contents at its
      turn. */
  ghost predicate Replays(d: Image, history: seq<Entry>, d': Image) {
    if history == [] then d' == d else
      var n := |history| - 1;
      var e := history[n];
      InRange(e.op) && exists mid: Image ::
        Replays(d, history[..n], mid) && d' == Effect(mid, e.op) && e.result == Answer(mid, e.op)
  }

  lemma ReplaysMore(d: Image, history: seq<Entry>, mid: Image, op: Operation)
    requires Replays(d, history, mid) && InRange(op)
    ensures Replays(d, history + [Entry(op, Answer(mid, op))], Effect(mid, op))
  {
    var more := history + [Entry(op, Answer(mid, op))];
    assert more[..|more| - 1] == history;
  }

  /** No request is made while another one is in progress: the assertion in the disk holds. */
  lemma RequestFindsDiskIdle(s: State, start: Image, i: int)
    requires Inv(s, start) && Enabled(s, Request(i))
    ensures !s.active && s.semaphore == 0
  {
    assert s.lock == Some(i);
  }

  lemma RequestKeepsInv(s: State, start: Image, i: int)
    requires Inv(s, start) && Enabled(s, Request(i))
    ensures Inv(Next(s, Request(i)), start)
  {
    RequestFindsDiskIdle(s, start, i);
    ReplaysMore(start, s.history, s.image, s.calls[i].op);
    var s' := Next(s, Request(i));
    forall j | j in s'.calls
      ensures CallInv(s', s'.calls[j])
    {
      if j != i {
        assert CallInv(s, s.calls[j]);
        assert s.lock != Some(j);
      }
    }
    assert s'.lock == Some(i);
  }

  /** Only the lock holder leaves P, and the interrupt that lets it go is the one of its own request. */
  lemma CompleteKeepsInv(s: State, start: Image, i: int)
    requires Inv(s, start) && Enabled(s, P(i))
    ensures s.lock == Some(i) && !s.active && s.interrupts == |s.history| && Inv(Next(s, P(i)), start)
  {
    assert s.lock == Some(i) && CallInv(s, s.calls[i]);
    var s' := Next(s, P(i));
    forall j | j in s'.calls
      ensures CallInv(s', s'.calls[j])
    {
      assert j != i ==> CallInv(s, s.calls[j]);
    }
  }

  lemma InterruptKeepsInv(s: State, start: Image)
    requires Inv(s, start) && Enabled(s, Interrupt)
    ensures Inv(Next(s, Interrupt), start)
  {
    var s' := Next(s, Interrupt);
    assert forall j :: j in s.calls ==> CallInv(s, s.calls[j]) ==> CallInv(s', s'.calls[j]);
  }

  lemma LockStepKeepsInv(s: State, start: Image, step: Step)
    requires Inv(s, start) && Enabled(s, step) && (step.Invoke? || step.Acquire? || step.Release?)
    ensures Inv(Next(s, step), start)
  {
    var s' := Next(s, step);
    forall j | j in s'.calls
      ensures CallInv(s', s'.calls[j])
    {
      assert j in s.calls ==> CallInv(s, s.calls[j]);
    }
    assert step.Release? ==> s.lock == Some(step.id);
  }

  lemma NextKeepsInv(s: State, start: Image, step: Step)
    requires Inv(s, start) && Enabled(s, step)
    ensures Inv(Next(s, step), start)
  {
    match step
    case Request(i) => RequestKeepsInv(s, start, i);
    case P(i) => CompleteKeepsInv(s, start, i);
    case Interrupt => InterruptKeepsInv(s, start);
    case _ => LockStepKeepsInv(s, start, step);
  }

  // ---------------------------------------------------------------- whole runs

  function Initial(start: Image): State {
    State(start, false, 0, None, map[], [], 0)
  }

  ghost predicate Run(states: seq<State>, steps: seq<Step>, start: Image) {
    && |states| == |steps| + 1 && states[0] == Initial(start)
    && forall n :: 0 <= n < |steps| ==>
         Enabled(states[n], steps[n]) && (AllInRange(states[n]) ==> states[n + 1] == Next(states[n], steps[n]))
  }

  lemma {:induction false} RunKeepsInv(states: seq<State>, steps: seq<Step>, start: Image, n: nat)
    requires Run(states, steps, start) && n < |states|
    ensures Inv(states[n], start)
  {
    if n > 0 {
      RunKeepsInv(states, steps, start, n - 1);
      NextKeepsInv(states[n - 1], start, steps[n - 1]);
    }
  }

  /** In every reachable state the disk accepts the request of whoever holds the lock, and the disk being active
      plus the semaphore's value is one exactly while a lock holder awaits its interrupt. */
  lemma OneRequestAtATime(states: seq<State>, steps: seq<Step>, start: Image, n: nat)
    requires Run(states, steps, start) && n < |states|
    ensures One(states[n].active) + states[n].semaphore == One(Awaiting(states[n])) && states[n].semaphore >= 0
    ensures n < |steps| && steps[n].Request? ==> !states[n].active
  {
    RunKeepsInv(states, steps, start, n);
    if n < |steps| && steps[n].Request? {
      RequestFindsDiskIdle(states[n], start, steps[n].id);
    }
  }

  /** A call that has returned had its request completed, and its result is that of its place in a history in which the
      calls happen one at a time. */
  lemma ReturnsAfterCompletion(states: seq<State>, steps: seq<Step>, start: Image, n: nat, i: int)
    requires Run(states, steps, start) && n < |states| && At(states[n], i, Returned)
    ensures
      var s, c := states[n], states[n].calls[i];
      && 0 <= c.number < s.interrupts <= |s.history| && s.history[c.number] == Entry(c.op, c.result)
      && Replays(start, s.history, s.image)
  {
    RunKeepsInv(states, steps, start, n);
    assert CallInv(states[n], states[n].calls[i]);
  }

  predicate HasRequested(c: Call) {
    c.phase.Requested? || c.phase.Completed? || c.phase.Returned?
  }

  /** From s to s' history was only added to, call i kept its number, or got it after what was there before. */
  ghost predicate Grown(s: State, s': State, i: int) {
    && s.history <= s'.history
    && (i in s.calls ==> i in s'.calls)
    && (i in s.calls && HasRequested(s.calls[i]) ==>
          HasRequested(s'.calls[i]) && s'.calls[i].number == s.calls[i].number)
    && (i in s'.calls && HasRequested(s'.calls[i]) && !(i in s.calls && HasRequested(s.calls[i])) ==>
          s'.calls[i].number >= |s.history|)
  }

  lemma NextGrows(s: State, step: Step, i: int)
    requires AllInRange(s) && Enabled(s, step)
    ensures Grown(s, Next(s, step), i)
  {
  }

  lemma GrownTwice(s0: State, s1: State, s2: State, i: int)
    requires Grown(s0, s1, i) && Grown(s1, s2, i)
    ensures Grown(s0, s2, i)
  {
  }

  /** History is only added to, and a call keeps its number once it has one. */
  lemma {:induction false} HistoryGrows(states: seq<State>, steps: seq<Step>, start: Image, n: nat, m: nat, i: int)
    requires Run(states, steps, start) && n <= m < |states|
    ensures Grown(states[n], states[m], i)
  {
    if n < m {
      RunKeepsInv(states, steps, start, m - 1);
      HistoryGrows(states, steps, start, n, m - 1, i);
      NextGrows(states[m - 1], steps[m - 1], i);
      GrownTwice(states[n], states[m - 1], states[m], i);
    }
  }

  /** The history respects real time: a call that returned before another one was made comes before it. */
  lemma HistoryRespectsTime(states: seq<State>, steps: seq<Step>, start: Image, n: nat, m: nat, i: int, j: int)
    requires Run(states, steps, start) && n <= m < |states| && At(states[n], i, Returned)
    requires j !in states[n].calls && At(states[m], j, Returned)
    ensures i in states[m].calls && states[m].calls[i].number < states[m].calls[j].number
  {
    ReturnsAfterCompletion(states, steps, start, n, i);
    HistoryGrows(states, steps, start, n, m, i);
    HistoryGrows(states, steps, start, n, m, j);
  }

  // ---------------------------------------------------------------- reads see writes

  /** What the sector holds after the first k operations, told from the writes alone. */
  function LastWritten(start: Image, history: seq<Entry>, k: nat, sector: int): Sector
    requires k <= |history| && 0 <= sector < NUM_SECTORS
  {
    if k == 0 then start[sector] else
    match history[k - 1].op
    case Write(at, data) => if at == sector then data else LastWritten(start, history, k - 1, sector)
    case Read(_) => LastWritten(start, history, k - 1, sector)
  }

  lemma {:induction false} LastWrittenPrefix(start: Image, history: seq<Entry>, longer: seq<Entry>, k: nat, sector: int)
    requires history <= longer && k <= |history| && 0 <= sector < NUM_SECTORS
    ensures LastWritten(start, longer, k, sector) == LastWritten(start, history, k, sector)
  {
    if k > 0 {
      LastWrittenPrefix(start, history, longer, k - 1, sector);
    }
  }

  /** A history in which every read saw the contents at its turn is one in which every read saw the last write to its
      sector, and every sector ends up with the last write to it. */
  lemma {:induction false} ReplaysLastWrites(start: Image, history: seq<Entry>, d: Image)
    requires Replays(start, history, d)
    ensures forall sector :: 0 <= sector < NUM_SECTORS ==>
              d[sector] == LastWritten(start, history, |history|, sector)
    ensures forall k :: 0 <= k < |history| && history[k].op.Read? ==>
              InRange(history[k].op) && history[k].result == LastWritten(start, history, k, history[k].op.sector)
  {
    if history != [] {
      var n := |history| - 1;
      var front, e := history[..n], history[n];
      var mid: Image :| Replays(start, front, mid) && d == Effect(mid, e.op) && e.result == Answer(mid, e.op);
      ReplaysLastWrites(start, front, mid);
      forall k, sector | 0 <= k <= n && 0 <= sector < NUM_SECTORS
        ensures LastWritten(start, history, k, sector) == LastWritten(start, front, k, sector)
      {
        LastWrittenPrefix(start, front, history, k, sector);
      }
      forall k | 0 <= k < n && history[k].op.Read?
        ensures InRange(history[k].op) && history[k].result == LastWritten(start, history, k, history[k].op.sector)
      {
        assert history[k] == front[k];
      }
    }
  }

  /** The operations requested in the first n steps, in order. */
  ghost function RequestedOps(states: seq<State>, steps: seq<Step>, n: nat): seq<Operation>
    requires n <= |steps| < |states|
  {
    if n == 0 then [] else
    var before := RequestedOps(states, steps, n - 1);
    if steps[n - 1].Request? && steps[n - 1].id in states[n - 1].calls
    then before + [states[n - 1].calls[steps[n - 1].id].op]
    else before
  }

  /** The history holds the operation of every request that was made, in order, and no other. */
  lemma {:induction false} HistoryIsRequests(states: seq<State>, steps: seq<Step>, start: Image, n: nat)
    requires Run(states, steps, start) && n < |states|
    ensures
      var ops, history := RequestedOps(states, steps, n), states[n].history;
      |ops| == |history| && forall k :: 0 <= k < |ops| ==> history[k].op == ops[k]
  {
    if n > 0 {
      HistoryIsRequests(states, steps, start, n - 1);
      RunKeepsInv(states, steps, start, n - 1);
    }
  }

  /** A call does what it was invoked for. */
  lemma {:induction false} CallIsInvoked(states: seq<State>, steps: seq<Step>, start: Image, n: nat, i: int)
    requires Run(states, steps, start) && n < |states| && i in states[n].calls
    ensures exists m :: 0 <= m < n && steps[m] == Invoke(i, states[n].calls[i].op)
  {
    var s, step := states[n - 1], steps[n - 1];
    RunKeepsInv(states, steps, start, n - 1);
    if i in s.calls {
      CallIsInvoked(states, steps, start, n - 1, i);
    } else {
      assert step == Invoke(i, states[n].calls[i].op);
    }
  }

  /** A read that has returned delivers the last write to its sector that was requested before it, or what the disk held
      at the start; and every sector holds the last write to it. */
  lemma ReadSeesLastWrite(states: seq<State>, steps: seq<Step>, start: Image, n: nat, i: int)
    requires Run(states, steps, start) && n < |states| && At(states[n], i, Returned)
    ensures
      var s, c := states[n], states[n].calls[i];
      && 0 <= c.number < |s.history| && InRange(c.op)
      && (c.op.Read? ==> c.result == LastWritten(start, s.history, c.number, c.op.sector))
      && forall sector :: 0 <= sector < NUM_SECTORS ==>
           s.image[sector] == LastWritten(start, s.history, |s.history|, sector)
  {
    ReturnsAfterCompletion(states, steps, start, n, i);
    RunKeepsInv(states, steps, start, n);
    assert CallInv(states[n], states[n].calls[i]);
    ReplaysLastWrites(start, states[n].history, states[n].image);
  }

  // ---------------------------------------------------------------- progress

  /** No run gets stuck: as long as a call has not returned, the calls that were made or the disk can go on. */
  lemma NeverStuck(states: seq<State>, steps: seq<Step>, start: Image, n: nat, i: int)
    requires Run(states, steps, start) && n < |states| && i in states[n].calls && !states[n].calls[i].phase.Returned?
    ensures exists step: Step :: !step.Invoke? && Enabled(states[n], step)
  {
    RunKeepsInv(states, steps, start, n);
    var s := states[n];
    var holder := if s.lock.Some? then s.lock.value else i;
    var step :=
      if s.lock.None? then Acquire(i)
      else if At(s, holder, Locked) then Request(holder)
      else if At(s, holder, Completed) then Release(holder)
      else if s.active then Interrupt
      else P(holder);
    assert s.lock.None? ==> !HasLock(s.calls[i]);
    assert s.lock.Some? ==> holder in s.calls && HasLock(s.calls[holder]);
    assert Enabled(s, step);
  }
}
