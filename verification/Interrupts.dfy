// The simulated clock and the pending interrupts of machine/interrupt.cc.  What a handler does is left open: a script
// says which interrupts the k-th handler call schedules and whether it asks for a context switch, and everything is
// proved for every script.
module Interrupts {
  import opened Lists

  const SYSTEM_TICK := 10
  const USER_TICK := 1

  datatype IntType = TimerInt | DiskInt | ConsoleWriteInt | ConsoleReadInt | NetworkSendInt | NetworkRecvInt

  datatype Status = IdleMode | SystemMode | UserMode

  datatype Pending = Pending(handler: int, arg: int, when: int, kind: IntType)

  datatype Request = Request(handler: int, arg: int, fromNow: int, kind: IntType)

  /** What one handler call does. */
  datatype Effect = Effect(requests: seq<Request>, switches: bool)

  type Script = nat -> Effect

  datatype Ticks = Ticks(total: int, idle: int, system: int, user: int)

  datatype Fired = Fired(interrupt: Pending, at: int)

  datatype State = State(pending: seq<Cell<Pending>>, ticks: Ticks, status: Status, switches: bool, log: seq<Fired>)

  datatype Outcome = Outcome(state: State, fired: bool)

  // ---------------------------------------------------------------- the operations on values

  /** Schedule asserts that the delay is positive. */
  predicate AllLater(rs: seq<Request>) {
    forall i :: 0 <= i < |rs| ==> rs[i].fromNow > 0
  }

  ghost predicate Legal(script: Script) {
    forall k :: AllLater(script(k).requests)
  }

  function CellFor(r: Request, total: int): Cell<Pending> {
    Cell(Pending(r.handler, r.arg, total + r.fromNow, r.kind), total + r.fromNow)
  }

  function ScheduleAll(pending: seq<Cell<Pending>>, rs: seq<Request>, total: int): seq<Cell<Pending>> {
    if rs == [] then pending
    else InsertSorted(ScheduleAll(pending, rs[..|rs| - 1], total), CellFor(rs[|rs| - 1], total))
  }

  /** The handler of the first pending interrupt runs. */
  function Fire(s: State, script: Script): State
    requires s.pending != []
  {
    var effect := script(|s.log|);
    s.(pending := ScheduleAll(s.pending[1..], effect.requests, s.ticks.total),
       switches := s.switches || effect.switches,
       log := s.log + [Fired(s.pending[0].item, s.ticks.total)])
  }

  /** The first pending interrupt is taken off the list and put back. */
  function PutBack(s: State): State
    requires s.pending != []
  {
    s.(pending := InsertSorted(s.pending[1..], s.pending[0]))
  }

  function AdvanceTo(t: Ticks, when: int): Ticks {
    t.(idle := t.idle + (when - t.total), total := when)
  }

  function CheckIfDue(s: State, advanceClock: bool, script: Script): Outcome {
    if s.pending == [] then Outcome(s, false) else
      var when := s.pending[0].key;
      if !advanceClock && when > s.ticks.total then Outcome(PutBack(s), false) else
        var s1 := if when > s.ticks.total then s.(ticks := AdvanceTo(s.ticks, when)) else s;
        if s.status == IdleMode && s.pending[0].item.kind == TimerInt && |s.pending| == 1 then
          Outcome(PutBack(s1), false)
        else Outcome(Fire(s1, script), true)
  }

  /** What becomes of an interrupt c that was taken off the list of s: put back, or due at a clock that may have
      moved. */
  function DecideOn(s: State, c: Cell<Pending>, advanceClock: bool): Outcome {
    var late := c.key > s.ticks.total;
    var s1 := if advanceClock && late then s.(ticks := AdvanceTo(s.ticks, c.key)) else s;
    if (!advanceClock && late) || (s.status == IdleMode && c.item.kind == TimerInt && s.pending == []) then
      Outcome(s1.(pending := InsertSorted(s.pending, c)), false)
    else Outcome(s1, true)
  }

  /** The handler of an interrupt that was taken off the list of s runs. */
  function FireCell(s: State, p: Pending, script: Script): State {
    var effect := script(|s.log|);
    s.(pending := ScheduleAll(s.pending, effect.requests, s.ticks.total), switches := s.switches || effect.switches,
       log := s.log + [Fired(p, s.ticks.total)])
  }

  lemma CheckByParts(s: State, advanceClock: bool, script: Script)
    requires s.pending != []
    ensures
      var c := s.pending[0];
      var o := DecideOn(s.(pending := s.pending[1..]), c, advanceClock);
      CheckIfDue(s, advanceClock, script) == if o.fired then Outcome(FireCell(o.state, c.item, script), true) else o
  {
  }

  /** The leading interrupts that are due at time t. */
  function DuePart(pending: seq<Cell<Pending>>, t: int): (d: seq<Cell<Pending>>)
    ensures |d| <= |pending|
  {
    if pending == [] || pending[0].key > t then [] else [pending[0]] + DuePart(pending[1..], t)
  }

  /** The loop that fires whatever is due.  A handler can only add interrupts that are due later, so every firing leaves
      one less that is due now. */
  ghost function Drain(s: State, script: Script): State
    requires Legal(script)
    decreases |DuePart(s.pending, s.ticks.total)|
  {
    var o := CheckIfDue(s, false, script);
    if o.fired then
      FireLowersDue(s, script);
      Drain(o.state, script)
    else o.state
  }

  function Advance(s: State): State {
    var t := s.ticks;
    s.(ticks := if s.status == SystemMode then t.(total := t.total + SYSTEM_TICK, system := t.system + SYSTEM_TICK)
                else t.(total := t.total + USER_TICK, user := t.user + USER_TICK))
  }

  ghost function OneTick(s: State, script: Script): State
    requires Legal(script)
  {
    Drain(Advance(s), script).(switches := false)
  }

  /** With nothing to fire the machine halts; the outcome says whether something fired. */
  ghost function Idle(s: State, script: Script): Outcome
    requires Legal(script)
  {
    var o := CheckIfDue(s.(status := IdleMode), true, script);
    if o.fired then Outcome(Drain(o.state, script).(switches := false, status := SystemMode), true) else o
  }

  // ---------------------------------------------------------------- termination

  lemma {:induction false} InsertKeepsDue(pending: seq<Cell<Pending>>, c: Cell<Pending>, t: int)
    requires c.key > t
    ensures DuePart(InsertSorted(pending, c), t) == DuePart(pending, t)
  {
    if pending != [] && c.key >= pending[0].key {
      InsertKeepsDue(pending[1..], c, t);
      assert InsertSorted(pending, c)[1..] == InsertSorted(pending[1..], c);
    }
  }

  lemma {:induction false} ScheduleKeepsDue(pending: seq<Cell<Pending>>, rs: seq<Request>, total: int)
    requires AllLater(rs)
    ensures DuePart(ScheduleAll(pending, rs, total), total) == DuePart(pending, total)
  {
    if rs != [] {
      ScheduleKeepsDue(pending, rs[..|rs| - 1], total);
      InsertKeepsDue(ScheduleAll(pending, rs[..|rs| - 1], total), CellFor(rs[|rs| - 1], total), total);
    }
  }

  /** A firing at the current time takes exactly the first due interrupt off the due ones. */
  lemma FireLowersDue(s: State, script: Script)
    requires Legal(script) && CheckIfDue(s, false, script).fired
    ensures
      var s' := CheckIfDue(s, false, script).state;
      && s'.ticks == s.ticks && s'.status == s.status && s.pending != []
      && DuePart(s.pending, s.ticks.total) == [s.pending[0]] + DuePart(s'.pending, s.ticks.total)
      && s'.log == s.log + [Fired(s.pending[0].item, s.ticks.total)]
  {
    ScheduleKeepsDue(s.pending[1..], script(|s.log|).requests, s.ticks.total);
  }

  // ---------------------------------------------------------------- what a run of the loop fires

  function LogOf(cells: seq<Cell<Pending>>, at: int): (log: seq<Fired>)
    ensures |log| == |cells|
  {
    seq(|cells|, i requires 0 <= i < |cells| => Fired(cells[i].item, at))
  }

  lemma LogOfFirst(c: Cell<Pending>, cells: seq<Cell<Pending>>, at: int)
    ensures LogOf([c] + cells, at) == [Fired(c.item, at)] + LogOf(cells, at)
  {
  }

  predicate NothingDue(s: State) {
    forall i :: 0 <= i < |s.pending| ==> s.pending[i].key > s.ticks.total
  }

  lemma {:induction false} NoDuePart(pending: seq<Cell<Pending>>, t: int)
    requires Sorted(pending)
    ensures DuePart(pending, t) == [] <==> forall i :: 0 <= i < |pending| ==> pending[i].key > t
  {
    if pending != [] {
      assert forall i :: 0 < i < |pending| ==> pending[0].key <= pending[i].key;
    }
  }

  /** Outside idle mode the loop fires exactly the interrupts that were due, in the order of their times, each once and
      now, and leaves nothing due. */
  lemma {:induction false} DrainFiresDue(s: State, script: Script)
    requires Legal(script) && Sorted(s.pending) && !s.status.IdleMode?
    ensures
      var s' := Drain(s, script);
      && s'.ticks == s.ticks && s'.status == s.status && NothingDue(s') && Sorted(s'.pending)
      && s'.log == s.log + LogOf(DuePart(s.pending, s.ticks.total), s.ticks.total)
    decreases |DuePart(s.pending, s.ticks.total)|
  {
    var o := CheckIfDue(s, false, script);
    CheckKeepsSorted(s, false, script);
    if o.fired {
      FireLowersDue(s, script);
      DrainFiresDue(o.state, script);
      LogOfFirst(s.pending[0], DuePart(o.state.pending, s.ticks.total), s.ticks.total);
    } else {
      StopsWithNothingDue(s, script);
    }
  }

  lemma StopsWithNothingDue(s: State, script: Script)
    requires Sorted(s.pending) && !s.status.IdleMode? && !CheckIfDue(s, false, script).fired
    ensures DuePart(s.pending, s.ticks.total) == [] && NothingDue(CheckIfDue(s, false, script).state)
    ensures CheckIfDue(s, false, script).state == s.(pending := CheckIfDue(s, false, script).state.pending)
  {
    if s.pending != [] {
      NoDuePart(s.pending, s.ticks.total);
      PutBackKeepsCells(s);
      var after := PutBack(s).pending;
      assert forall i :: 0 <= i < |after| ==> after[i] in s.pending;
    }
  }

  lemma PutBackKeepsCells(s: State)
    requires s.pending != []
    ensures multiset(PutBack(s).pending) == multiset(s.pending)
    ensures forall c :: c in PutBack(s).pending <==> c in s.pending
  {
    InsertKeepsCells(s.pending[1..], s.pending[0]);
    assert s.pending == [s.pending[0]] + s.pending[1..];
    forall c
      ensures c in PutBack(s).pending <==> c in s.pending
    {
      assert c in PutBack(s).pending <==> c in multiset(PutBack(s).pending);
    }
  }

  lemma {:induction false} ScheduleKeepsSorted(pending: seq<Cell<Pending>>, rs: seq<Request>, total: int)
    requires Sorted(pending)
    ensures Sorted(ScheduleAll(pending, rs, total))
  {
    if rs != [] {
      ScheduleKeepsSorted(pending, rs[..|rs| - 1], total);
      InsertKeepsSorted(ScheduleAll(pending, rs[..|rs| - 1], total), CellFor(rs[|rs| - 1], total));
    }
  }

  lemma CheckKeepsSorted(s: State, advanceClock: bool, script: Script)
    requires Sorted(s.pending)
    ensures Sorted(CheckIfDue(s, advanceClock, script).state.pending)
  {
    if s.pending != [] {
      InsertKeepsSorted(s.pending[1..], s.pending[0]);
      ScheduleKeepsSorted(s.pending[1..], script(|s.log|).requests, s.ticks.total);
      ScheduleKeepsSorted(s.pending[1..], script(|s.log|).requests, s.pending[0].key);
    }
  }

  // ---------------------------------------------------------------- the invariant

  /** No firing was early, and firings went in the order of the due times. */
  ghost predicate GoodLog(log: seq<Fired>) {
    && (forall i :: 0 <= i < |log| ==> log[i].interrupt.when <= log[i].at)
    && (forall i, j :: 0 <= i < j < |log| ==> log[i].interrupt.when <= log[j].interrupt.when && log[i].at <= log[j].at)
  }

  /** What has fired was due before whatever is still pending, and not in the future. */
  ghost predicate LogBefore(log: seq<Fired>, pending: seq<Cell<Pending>>, total: int) {
    && (forall i :: 0 <= i < |log| ==> log[i].at <= total)
    && (forall i, c :: 0 <= i < |log| && c in pending ==> log[i].interrupt.when <= c.key)
  }

  ghost predicate Keyed(pending: seq<Cell<Pending>>) {
    forall c :: c in pending ==> c.key == c.item.when
  }

  ghost predicate Sound(s: State) {
    && Sorted(s.pending) && Keyed(s.pending) && GoodLog(s.log) && LogBefore(s.log, s.pending, s.ticks.total)
    && s.ticks.total == s.ticks.idle + s.ticks.system + s.ticks.user
  }

  lemma InsertMembers(pending: seq<Cell<Pending>>, c: Cell<Pending>)
    ensures forall x :: x in InsertSorted(pending, c) <==> x in pending || x == c
  {
    InsertKeepsCells(pending, c);
    forall x
      ensures x in InsertSorted(pending, c) <==> x in pending || x == c
    {
      assert x in InsertSorted(pending, c) <==> x in multiset(InsertSorted(pending, c));
    }
  }

  /** What is scheduled is due later than anything that has fired. */
  lemma {:induction false} ScheduleAllKeeps(log: seq<Fired>, pending: seq<Cell<Pending>>, rs: seq<Request>, total: int)
    requires AllLater(rs) && Keyed(pending) && GoodLog(log) && LogBefore(log, pending, total)
    ensures Keyed(ScheduleAll(pending, rs, total)) && LogBefore(log, ScheduleAll(pending, rs, total), total)
  {
    if rs != [] {
      ScheduleAllKeeps(log, pending, rs[..|rs| - 1], total);
      InsertMembers(ScheduleAll(pending, rs[..|rs| - 1], total), CellFor(rs[|rs| - 1], total));
    }
  }

  lemma FireKeepsSound(s: State, script: Script)
    requires Legal(script) && Sound(s) && s.pending != [] && s.pending[0].key <= s.ticks.total
    ensures Sound(Fire(s, script))
  {
    var c, rest, rs := s.pending[0], s.pending[1..], script(|s.log|).requests;
    var log := s.log + [Fired(c.item, s.ticks.total)];
    assert c in s.pending;
    assert forall x :: x in rest ==> x in s.pending && c.key <= x.key;
    assert GoodLog(log) && LogBefore(log, rest, s.ticks.total);
    ScheduleAllKeeps(log, rest, rs, s.ticks.total);
    ScheduleKeepsSorted(rest, rs, s.ticks.total);
  }

  lemma PutBackKeepsSound(s: State)
    requires Sound(s) && s.pending != []
    ensures Sound(PutBack(s))
  {
    PutBackKeepsCells(s);
    InsertKeepsSorted(s.pending[1..], s.pending[0]);
  }

  lemma CheckKeepsSound(s: State, advanceClock: bool, script: Script)
    requires Legal(script) && Sound(s)
    ensures Sound(CheckIfDue(s, advanceClock, script).state)
  {
    if s.pending != [] {
      var when := s.pending[0].key;
      var s1 := if when > s.ticks.total then s.(ticks := AdvanceTo(s.ticks, when)) else s;
      assert Sound(s1);
      PutBackKeepsSound(s);
      PutBackKeepsSound(s1);
      FireKeepsSound(s1, script);
    }
  }

  lemma {:induction false} DrainKeepsSound(s: State, script: Script)
    requires Legal(script) && Sound(s)
    ensures Sound(Drain(s, script))
    decreases |DuePart(s.pending, s.ticks.total)|
  {
    CheckKeepsSound(s, false, script);
    var o := CheckIfDue(s, false, script);
    if o.fired {
      FireLowersDue(s, script);
      DrainKeepsSound(o.state, script);
    }
  }

  // ---------------------------------------------------------------- whole runs

  datatype Step = Tick | GoIdle | Ask(request: Request) | SetMode(status: Status)

  ghost predicate Enabled(s: State, step: Step, script: Script)
    requires Legal(script)
  {
    match step
    case Tick => !s.status.IdleMode?
    case GoIdle => Idle(s, script).fired
    case Ask(r) => r.fromNow > 0
    case SetMode(status) => !status.IdleMode?
  }

  ghost function Next(s: State, step: Step, script: Script): State
    requires Legal(script)
  {
    match step
    case Tick => OneTick(s, script)
    case GoIdle => Idle(s, script).state
    case Ask(r) => s.(pending := ScheduleAll(s.pending, [r], s.ticks.total))
    case SetMode(status) => s.(status := status)
  }

  lemma NextKeepsSound(s: State, step: Step, script: Script)
    requires Legal(script) && Sound(s) && Enabled(s, step, script)
    ensures Sound(Next(s, step, script))
  {
    match step
    case Tick =>
      assert Sound(Advance(s));
      DrainKeepsSound(Advance(s), script);
    case GoIdle =>
      CheckKeepsSound(s.(status := IdleMode), true, script);
      DrainKeepsSound(CheckIfDue(s.(status := IdleMode), true, script).state, script);
    case Ask(r) =>
      ScheduleAllKeeps(s.log, s.pending, [r], s.ticks.total);
      ScheduleKeepsSorted(s.pending, [r], s.ticks.total);
    case SetMode(_) =>
  }

  ghost predicate Run(states: seq<State>, steps: seq<Step>, script: Script)
    requires Legal(script)
  {
    && |states| == |steps| + 1 && states[0] == State([], Ticks(0, 0, 0, 0), SystemMode, false, [])
    && forall n :: 0 <= n < |steps| ==>
         Enabled(states[n], steps[n], script) && states[n + 1] == Next(states[n], steps[n], script)
  }

  /** Over a whole run: fired due times never decrease, none fires early, and the clock is the sum of its parts. */
  lemma {:induction false} RunKeepsSound(states: seq<State>, steps: seq<Step>, script: Script, n: nat)
    requires Legal(script) && Run(states, steps, script) && n < |states|
    ensures Sound(states[n])
  {
    if n > 0 {
      RunKeepsSound(states, steps, script, n - 1);
      NextKeepsSound(states[n - 1], steps[n - 1], script);
    }
  }

  /** After every tick of a run nothing that is due is left, and what fired is exactly what was due. */
  lemma TickFiresDue(states: seq<State>, steps: seq<Step>, script: Script, n: nat)
    requires Legal(script) && Run(states, steps, script) && n < |steps| && steps[n].Tick?
    ensures
      var s, s' := Advance(states[n]), states[n + 1];
      && NothingDue(s') && s'.ticks == s.ticks
      && s'.log == s.log + LogOf(DuePart(s.pending, s.ticks.total), s.ticks.total)
  {
    RunKeepsSound(states, steps, script, n);
    DrainFiresDue(Advance(states[n]), script);
  }

  /** Idle mode may leave one due interrupt behind, the time slice, when nothing else is pending. */
  lemma {:induction false} IdleLeavesTimer(s: State, script: Script)
    requires Legal(script) && Sorted(s.pending) && s.status.IdleMode?
    ensures
      var s' := Drain(s, script);
      || NothingDue(s')
      || (|s'.pending| == 1 && s'.pending[0].item.kind == TimerInt && s'.pending[0].key <= s'.ticks.total)
    decreases |DuePart(s.pending, s.ticks.total)|
  {
    var o := CheckIfDue(s, false, script);
    NoDuePart(s.pending, s.ticks.total);
    CheckKeepsSorted(s, false, script);
    if o.fired {
      FireLowersDue(s, script);
      IdleLeavesTimer(o.state, script);
    } else if s.pending != [] {
      PutBackKeepsCells(s);
      assert s.pending[0] in PutBack(s).pending;
      assert forall i :: 0 <= i < |o.state.pending| ==> o.state.pending[i] in s.pending;
    }
  }
}
