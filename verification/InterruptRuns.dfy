// Laws of the simulated clock over whole runs: what each step charges, that no interrupt is lost, when the machine
// halts.
module InterruptRuns {
  import opened Basics
  import opened Lists
  import opened Interrupts

  // ---------------------------------------------------------------- the clock

  /** A tick in system mode takes 10 units of system time; any other takes one unit of user time.  The mode stays as it
      was, and no request for a context switch is left over. */
  lemma TickCharges(states: seq<State>, steps: seq<Step>, script: Script, n: nat)
    requires Legal(script) && Run(states, steps, script) && n < |steps| && steps[n].Tick?
    ensures
      var t := states[n].ticks;
      states[n + 1].ticks == if states[n].status == SystemMode
                             then Ticks(t.total + 10, t.idle, t.system + 10, t.user)
                             else Ticks(t.total + 1, t.idle, t.system, t.user + 1)
    ensures states[n + 1].status == states[n].status && !states[n + 1].switches
  {
    TickFiresDue(states, steps, script, n);
    DrainKeepsClock(Advance(states[n]), script);
  }

  /** The machine halts if and only if nothing is pending, or nothing but one time slice. */
  lemma HaltsWhen(s: State, script: Script)
    requires Legal(script)
    ensures !Idle(s, script).fired <==> s.pending == [] || (|s.pending| == 1 && s.pending[0].item.kind == TimerInt)
  {
  }

  lemma {:induction false} DrainKeepsClock(s: State, script: Script)
    requires Legal(script)
    ensures Drain(s, script).ticks == s.ticks && Drain(s, script).status == s.status && s.log <= Drain(s, script).log
    decreases |DuePart(s.pending, s.ticks.total)|
  {
    var o := CheckIfDue(s, false, script);
    if o.fired {
      FireLowersDue(s, script);
      DrainKeepsClock(o.state, script);
    }
  }

  /** An idle machine waits until the first interrupt is due, which fires first; the time it waits is idle time. */
  lemma IdleWaits(s: State, script: Script)
    requires Legal(script) && Idle(s, script).fired
    ensures
      var t, s' := s.ticks, Idle(s, script).state;
      && s.pending != [] && s'.status == SystemMode && !s'.switches
      && var now := if s.pending[0].key > t.total then s.pending[0].key else t.total;
      && s'.ticks == Ticks(now, t.idle + (now - t.total), t.system, t.user)
      && s.log + [Fired(s.pending[0].item, now)] <= s'.log
  {
    DrainKeepsClock(CheckIfDue(s.(status := IdleMode), true, script).state, script);
  }

  /** Ticks, among the first n steps, that were taken in system mode or not. */
  function TicksTaken(states: seq<State>, steps: seq<Step>, n: nat, system: bool): nat
    requires n <= |steps| < |states|
  {
    if n == 0 then 0 else
    TicksTaken(states, steps, n - 1, system)
    + One(steps[n - 1].Tick? && (states[n - 1].status == SystemMode) == system)
  }

  /** System time counts the ticks taken in system mode, at 10 units each, and user time counts the others. */
  lemma {:induction false} ClockCountsTicks(states: seq<State>, steps: seq<Step>, script: Script, n: nat)
    requires Legal(script) && Run(states, steps, script) && n < |states|
    ensures states[n].ticks.system == 10 * TicksTaken(states, steps, n, true)
    ensures states[n].ticks.user == TicksTaken(states, steps, n, false)
  {
    if n > 0 {
      ClockCountsTicks(states, steps, script, n - 1);
      var s, step := states[n - 1], steps[n - 1];
      assert Enabled(s, step, script) && states[n] == Next(s, step, script);
      if step.Tick? {
        TickCharges(states, steps, script, n - 1);
      } else if step.GoIdle? {
        IdleWaits(s, script);
      }
    }
  }

  // ---------------------------------------------------------------- no interrupt is lost

  /** What the requests put on the list when they are made at the given time. */
  function RequestCells(rs: seq<Request>, total: int): multiset<Cell<Pending>> {
    if rs == [] then multiset{} else
    var r := rs[|rs| - 1];
    var when := total + r.fromNow;
    RequestCells(rs[..|rs| - 1], total) + multiset{Cell(Pending(r.handler, r.arg, when, r.kind), when)}
  }

  /** The interrupts that have fired, as they were on the list. */
  function FiredCells(log: seq<Fired>): multiset<Cell<Pending>> {
    if log == [] then multiset{} else
    var p := log[|log| - 1].interrupt;
    FiredCells(log[..|log| - 1]) + multiset{Cell(p, p.when)}
  }

  /** What the handlers scheduled. */
  function HandlerCells(log: seq<Fired>, script: Script): multiset<Cell<Pending>> {
    if log == [] then multiset{} else
    var k := |log| - 1;
    HandlerCells(log[..k], script) + RequestCells(script(k).requests, log[k].at)
  }

  /** What the step schedules from outside. */
  function Called(s: State, step: Step): multiset<Cell<Pending>> {
    if step.Ask? then RequestCells([step.request], s.ticks.total) else multiset{}
  }

  /** What was scheduled from outside in the first n steps. */
  function CallCells(states: seq<State>, steps: seq<Step>, n: nat): multiset<Cell<Pending>>
    requires n <= |steps| < |states|
  {
    if n == 0 then multiset{} else
    CallCells(states, steps, n - 1) + Called(states[n - 1], steps[n - 1])
  }

  lemma {:induction false} ScheduleAddsCells(pending: seq<Cell<Pending>>, rs: seq<Request>, total: int)
    ensures multiset(ScheduleAll(pending, rs, total)) == multiset(pending) + RequestCells(rs, total)
  {
    if rs != [] {
      var front, last := rs[..|rs| - 1], CellFor(rs[|rs| - 1], total);
      ScheduleAddsCells(pending, front, total);
      InsertKeepsCells(ScheduleAll(pending, front, total), last);
    }
  }

  /** What is pending or has fired is what was scheduled, by the calls given and by the handlers. */
  ghost predicate Conserved(s: State, script: Script, calls: multiset<Cell<Pending>>) {
    multiset(s.pending) + FiredCells(s.log) == calls + HandlerCells(s.log, script)
  }

  lemma LoggedCells(log: seq<Fired>, f: Fired, script: Script)
    ensures FiredCells(log + [f]) == FiredCells(log) + multiset{Cell(f.interrupt, f.interrupt.when)}
    ensures HandlerCells(log + [f], script) == HandlerCells(log, script) + RequestCells(script(|log|).requests, f.at)
  {
    assert (log + [f])[..|log|] == log;
  }

  /** An entry that moves from one side of the account to the other, and new ones on both sides, keep it balanced. */
  lemma Balance<T>(pending: multiset<T>, fired: multiset<T>, calls: multiset<T>, handlers: multiset<T>,
                   moved: multiset<T>, added: multiset<T>)
    requires moved + pending + fired == calls + handlers
    ensures (pending + added) + (fired + moved) == calls + (handlers + added)
  {
    forall x
      ensures ((pending + added) + (fired + moved))[x] == (calls + (handlers + added))[x]
    {
      assert (moved + pending + fired)[x] == (calls + handlers)[x];
    }
  }

  lemma BalanceBoth<T>(pending: multiset<T>, fired: multiset<T>, calls: multiset<T>, handlers: multiset<T>,
                       added: multiset<T>)
    requires pending + fired == calls + handlers
    ensures (pending + added) + fired == (calls + added) + handlers
  {
    forall x
      ensures ((pending + added) + fired)[x] == ((calls + added) + handlers)[x]
    {
      assert (pending + fired)[x] == (calls + handlers)[x];
    }
  }

  lemma AskConserves(s: State, r: Request, script: Script, calls: multiset<Cell<Pending>>)
    requires Conserved(s, script, calls)
    ensures Conserved(s.(pending := ScheduleAll(s.pending, [r], s.ticks.total)), script,
                      calls + RequestCells([r], s.ticks.total))
  {
    ScheduleAddsCells(s.pending, [r], s.ticks.total);
    BalanceBoth(multiset(s.pending), FiredCells(s.log), calls, HandlerCells(s.log, script),
                RequestCells([r], s.ticks.total));
  }

  lemma FireConserves(s: State, script: Script, calls: multiset<Cell<Pending>>)
    requires Conserved(s, script, calls) && s.pending != [] && Keyed(s.pending)
    ensures Conserved(Fire(s, script), script, calls)
  {
    var c, rest := s.pending[0], s.pending[1..];
    assert c in s.pending && s.pending == [c] + rest;
    LoggedCells(s.log, Fired(c.item, s.ticks.total), script);
    ScheduleAddsCells(rest, script(|s.log|).requests, s.ticks.total);
    Balance(multiset(rest), FiredCells(s.log), calls, HandlerCells(s.log, script), multiset{c},
            RequestCells(script(|s.log|).requests, s.ticks.total));
  }

  lemma CheckConserves(s: State, advanceClock: bool, script: Script, calls: multiset<Cell<Pending>>)
    requires Conserved(s, script, calls) && Keyed(s.pending)
    ensures Conserved(CheckIfDue(s, advanceClock, script).state, script, calls)
  {
    if s.pending != [] {
      var when := s.pending[0].key;
      var s1 := if when > s.ticks.total then s.(ticks := AdvanceTo(s.ticks, when)) else s;
      PutBackKeepsCells(s);
      PutBackKeepsCells(s1);
      FireConserves(s1, script, calls);
    }
  }

  lemma {:induction false} DrainConserves(s: State, script: Script, calls: multiset<Cell<Pending>>)
    requires Legal(script) && Sound(s) && Conserved(s, script, calls)
    ensures Conserved(Drain(s, script), script, calls)
    decreases |DuePart(s.pending, s.ticks.total)|
  {
    CheckConserves(s, false, script, calls);
    CheckKeepsSound(s, false, script);
    var o := CheckIfDue(s, false, script);
    if o.fired {
      FireLowersDue(s, script);
      DrainConserves(o.state, script, calls);
    }
  }

  /** In every state of every run the interrupts that are pending and those that have fired are together exactly those
      that were scheduled, each for the time asked for: none is lost, none is made up and none fires twice. */
  lemma {:induction false} NoInterruptLost(states: seq<State>, steps: seq<Step>, script: Script, n: nat)
    requires Legal(script) && Run(states, steps, script) && n < |states|
    ensures Conserved(states[n], script, CallCells(states, steps, n))
  {
    if n > 0 {
      NoInterruptLost(states, steps, script, n - 1);
      RunKeepsSound(states, steps, script, n - 1);
      NextConserves(states[n - 1], steps[n - 1], script, CallCells(states, steps, n - 1));
    }
  }

  lemma NextConserves(s: State, step: Step, script: Script, calls: multiset<Cell<Pending>>)
    requires Legal(script) && Sound(s) && Conserved(s, script, calls) && Enabled(s, step, script)
    ensures Conserved(Next(s, step, script), script, calls + Called(s, step))
  {
    match step
    case Tick =>
      assert Sound(Advance(s));
      DrainConserves(Advance(s), script, calls);
    case GoIdle => IdleConserves(s, script, calls);
    case Ask(r) => AskConserves(s, r, script, calls);
    case SetMode(_) =>
  }

  lemma IdleConserves(s: State, script: Script, calls: multiset<Cell<Pending>>)
    requires Legal(script) && Sound(s) && Conserved(s, script, calls) && Idle(s, script).fired
    ensures Conserved(Idle(s, script).state, script, calls)
  {
    var s0 := s.(status := IdleMode);
    CheckConserves(s0, true, script, calls);
    CheckKeepsSound(s0, true, script);
    DrainConserves(CheckIfDue(s0, true, script).state, script, calls);
  }

  // ---------------------------------------------------------------- context switches

  /** One of the handler calls from the i-th up to the j-th asks for a context switch. */
  ghost predicate SomeAsks(script: Script, i: nat, j: nat) {
    exists k :: i <= k < j && script(k).switches
  }

  /** After the loop a context switch is due if and only if one was before, or a handler that ran asked for one. */
  lemma {:induction false} SwitchesWhen(s: State, script: Script)
    requires Legal(script)
    ensures
      var s' := Drain(s, script);
      |s.log| <= |s'.log| && (s'.switches <==> s.switches || SomeAsks(script, |s.log|, |s'.log|))
    decreases |DuePart(s.pending, s.ticks.total)|
  {
    var o := CheckIfDue(s, false, script);
    if o.fired {
      FireLowersDue(s, script);
      SwitchesWhen(o.state, script);
      var k, end := |s.log|, |Drain(s, script).log|;
      assert SomeAsks(script, k, end) <==> script(k).switches || SomeAsks(script, k + 1, end);
    }
  }
}
