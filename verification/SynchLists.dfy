// The synchronized list of threads/synchlist.cc as a step system: any number of Append and Remove calls share a lock, a
// condition on which removers wait (first in, first out, woken threads compete for the lock again) and the list.
module SynchLists {
  import opened Basics

  datatype Phase =
    | AppendWants         // wants the lock
    | AppendLocked        // holds it, about to append
    | Appended            // holds it, about to signal
    | Signalled           // holds it, about to release it
    | RemoveWants         // wants the lock for the first time
    | RemoveLocked        // holds it, about to test whether the list is empty
    | Sleeping            // waits on the condition
    | Woken               // signalled, wants the lock again
    | WokenLocked         // holds it again, about to test again
    | Removed             // holds it, has its item
    | Done

  /** A remover that has its item knows its number: how many items were removed before. */
  datatype Call = Call(phase: Phase, item: int, number: int)

  /** appended and removed record the items in the order in which they went in and out. */
  datatype State = State(
    list: seq<int>, lock: Option<int>, waiting: seq<int>, calls: map<int, Call>, appended: seq<int>, removed: seq<int>)

  datatype Step = CallAppend(id: int, item: int) | CallRemove(id: int) | Act(id: int)

  predicate HasLock(p: Phase) {
    p.AppendLocked? || p.Appended? || p.Signalled? || p.RemoveLocked? || p.WokenLocked? || p.Removed?
  }

  predicate Enabled(s: State, step: Step) {
    match step
    case CallAppend(i, _) => i !in s.calls
    case CallRemove(i) => i !in s.calls
    case Act(i) =>
      && i in s.calls
      && match s.calls[i].phase
         case AppendWants => s.lock.None?
         case RemoveWants => s.lock.None?
         case Woken => s.lock.None?
         case Sleeping => false
         case Done => false
         case _ => true
  }

  function Set(s: State, i: int, phase: Phase): map<int, Call>
    requires i in s.calls
  {
    s.calls[i := s.calls[i].(phase := phase)]
  }

  /** The test at the head of the loop of Remove, and what follows it: Wait releases the lock and sleeps in one step. */
  function Test(s: State, i: int): State
    requires i in s.calls
  {
    if s.list == [] then s.(lock := None, waiting := s.waiting + [i], calls := Set(s, i, Sleeping))
    else
      s.(list := s.list[1..], removed := s.removed + [s.list[0]],
         calls := s.calls[i := Call(Removed, s.list[0], |s.removed|)])
  }

  function Signal(s: State, i: int): State
    requires i in s.calls && (s.waiting != [] ==> s.waiting[0] in s.calls && s.waiting[0] != i)
  {
    var calls := Set(s, i, Signalled);
    if s.waiting == [] then s.(calls := calls)
    else s.(waiting := s.waiting[1..], calls := calls[s.waiting[0] := s.calls[s.waiting[0]].(phase := Woken)])
  }

  ghost predicate Waiters(s: State) {
    && (forall i :: i in s.calls && s.calls[i].phase.Sleeping? <==> i in s.waiting)
    && (forall i, j :: 0 <= i < j < |s.waiting| ==> s.waiting[i] != s.waiting[j])
  }

  function ActStep(s: State, i: int): State
    requires i in s.calls && (s.waiting != [] ==> s.waiting[0] in s.calls)
    requires s.waiting != [] ==> s.waiting[0] != i
  {
    match s.calls[i].phase
    case AppendWants => s.(lock := Some(i), calls := Set(s, i, AppendLocked))
    case AppendLocked =>
      var x := s.calls[i].item;
      s.(list := s.list + [x], appended := s.appended + [x], calls := Set(s, i, Appended))
    case Appended => Signal(s, i)
    case Signalled => s.(lock := None, calls := Set(s, i, Done))
    case RemoveWants => s.(lock := Some(i), calls := Set(s, i, RemoveLocked))
    case RemoveLocked => Test(s, i)
    case Woken => s.(lock := Some(i), calls := Set(s, i, WokenLocked))
    case WokenLocked => Test(s, i)
    case Removed => s.(lock := None, calls := Set(s, i, Done))
    case _ => s
  }

  ghost function Next(s: State, step: Step): State
    requires Waiters(s) && Enabled(s, step)
  {
    match step
    case CallAppend(i, x) => s.(calls := s.calls[i := Call(AppendWants, x, -1)])
    case CallRemove(i) => s.(calls := s.calls[i := Call(RemoveWants, 0, -1)])
    case Act(i) =>
      assert s.waiting != [] ==>
        var w := s.waiting[0]; w in s.waiting && w in s.calls && s.calls[w].phase.Sleeping?;
      ActStep(s, i)
  }

  // ---------------------------------------------------------------- the invariant

  /** Removers that were signalled and have not looked at the list again. */
  predicate Owed(p: Phase) {
    p.Woken? || p.WokenLocked?
  }

  ghost function OwedCalls(s: State): set<int> {
    set i | i in s.calls && Owed(s.calls[i].phase)
  }

  predicate InAppended(s: State) {
    s.lock.Some? && s.lock.value in s.calls && s.calls[s.lock.value].phase.Appended?
  }

  ghost predicate LockInv(s: State) {
    forall i :: s.lock == Some(i) <==> i in s.calls && HasLock(s.calls[i].phase)
  }

  /** No lost wakeup: while removers sleep, every item is accounted for by a signalled remover that has not
      looked yet, or by the appender that is about to signal. */
  ghost predicate Accounted(s: State) {
    s.waiting != [] ==> |s.list| <= |OwedCalls(s)| + One(InAppended(s))
  }

  /** Every remover has the item of its number, no two have the same number, and nobody has a number too early. */
  ghost predicate Delivered(s: State) {
    && (forall i :: i in s.calls && s.calls[i].number >= 0 ==>
          s.calls[i].number < |s.removed| && s.removed[s.calls[i].number] == s.calls[i].item)
    && (forall i, j :: i in s.calls && j in s.calls && i != j && s.calls[i].number >= 0 ==>
          s.calls[i].number != s.calls[j].number)
  }

  ghost predicate Core(s: State) {
    Waiters(s) && LockInv(s) && Accounted(s) && s.removed + s.list == s.appended
  }

  ghost predicate Inv(s: State) {
    Core(s) && Delivered(s)
  }

  /** A step of one call that leaves the condition alone. */
  lemma PlainStepKeepsCore(s: State, i: int)
    requires Core(s) && Enabled(s, Act(i)) && !s.calls[i].phase.Appended?
    requires s.calls[i].phase.RemoveLocked? || s.calls[i].phase.WokenLocked? ==> s.list != []
    ensures Core(Next(s, Act(i)))
  {
    var s' := Next(s, Act(i));
    OneDiffers(OwedCalls(s), OwedCalls(s'), i);
    assert s.lock == Some(i) <==> HasLock(s.calls[i].phase);
  }

  lemma WaitKeepsCore(s: State, i: int)
    requires Core(s) && Enabled(s, Act(i)) && s.list == []
    requires s.calls[i].phase.RemoveLocked? || s.calls[i].phase.WokenLocked?
    ensures Core(Next(s, Act(i)))
  {
    assert s.lock == Some(i) && i !in s.waiting;
  }

  lemma SignalKeepsCore(s: State, i: int)
    requires Core(s) && Enabled(s, Act(i)) && s.calls[i].phase.Appended?
    ensures Core(Next(s, Act(i)))
  {
    var s' := Next(s, Act(i));
    assert s.lock == Some(i);
    if s.waiting != [] {
      var w := s.waiting[0];
      assert w in s.waiting;
      OneDiffers(OwedCalls(s), OwedCalls(s'), w);
      assert forall j :: j in s'.waiting <==> j in s.waiting && j != w;
    }
  }

  lemma CallKeepsCore(s: State, step: Step)
    requires Core(s) && Enabled(s, step) && !step.Act?
    ensures Core(Next(s, step))
  {
    var s' := Next(s, step);
    OneDiffers(OwedCalls(s), OwedCalls(s'), step.id);
  }

  /** Only taking an item gives out a number. */
  lemma SameNumbers(s: State, step: Step)
    requires Waiters(s) && Enabled(s, step)
    requires step.Act? && s.list != [] ==>
               !s.calls[step.id].phase.RemoveLocked? && !s.calls[step.id].phase.WokenLocked?
    ensures
      var s' := Next(s, step);
      && s'.removed == s.removed
      && forall i :: i in s'.calls ==>
           if i in s.calls then s'.calls[i].number == s.calls[i].number && s'.calls[i].item == s.calls[i].item
           else s'.calls[i].number == -1
  {
  }

  lemma NextKeepsDelivered(s: State, step: Step)
    requires Waiters(s) && Delivered(s) && Enabled(s, step)
    ensures Delivered(Next(s, step))
  {
    if step.Act? && s.list != [] && (s.calls[step.id].phase.RemoveLocked? || s.calls[step.id].phase.WokenLocked?) {
      var s' := Next(s, step);
      assert s' == Test(s, step.id) && s'.removed == s.removed + [s.list[0]];
    } else {
      SameNumbers(s, step);
    }
  }

  lemma NextKeepsInv(s: State, step: Step)
    requires Inv(s) && Enabled(s, step)
    ensures Inv(Next(s, step))
  {
    NextKeepsDelivered(s, step);
    if !step.Act? {
      CallKeepsCore(s, step);
    } else {
      var phase := s.calls[step.id].phase;
      if phase.Appended? {
        SignalKeepsCore(s, step.id);
      } else if (phase.RemoveLocked? || phase.WokenLocked?) && s.list == [] {
        WaitKeepsCore(s, step.id);
      } else {
        PlainStepKeepsCore(s, step.id);
      }
    }
  }

  // ---------------------------------------------------------------- whole runs

  ghost predicate Run(states: seq<State>, steps: seq<Step>) {
    && |states| == |steps| + 1 && states[0] == State([], None, [], map[], [], [])
    && forall n :: 0 <= n < |steps| ==>
         Enabled(states[n], steps[n]) && (Waiters(states[n]) ==> states[n + 1] == Next(states[n], steps[n]))
  }

  lemma {:induction false} RunKeepsInv(states: seq<State>, steps: seq<Step>, n: nat)
    requires Run(states, steps) && n < |states|
    ensures Inv(states[n])
  {
    if n > 0 {
      RunKeepsInv(states, steps, n - 1);
      NextKeepsInv(states[n - 1], steps[n - 1]);
    }
  }

  /** In every reachable state the items removed so far, in order, are a prefix of the items appended, and the rest is
      what the list holds. */
  lemma RemovedIsPrefix(states: seq<State>, steps: seq<Step>, n: nat)
    requires Run(states, steps) && n < |states|
    ensures states[n].removed <= states[n].appended
    ensures states[n].list == states[n].appended[|states[n].removed|..]
  {
    RunKeepsInv(states, steps, n);
  }

  /** With the lock free and removers asleep, there are at most as many items as signalled removers on their way. */
  lemma NoLostWakeup(states: seq<State>, steps: seq<Step>, n: nat)
    requires Run(states, steps) && n < |states| && states[n].lock.None? && states[n].waiting != []
    ensures |states[n].list| <= |OwedCalls(states[n])|
  {
    RunKeepsInv(states, steps, n);
  }

  /** An item goes to one remover only: different calls hold different elements of the appended sequence. */
  lemma EachItemOnce(states: seq<State>, steps: seq<Step>, n: nat, i: int, j: int)
    requires Run(states, steps) && n < |states| && i in states[n].calls && j in states[n].calls && i != j
    requires states[n].calls[i].number >= 0 && states[n].calls[j].number >= 0
    ensures
      var s, a, b := states[n], states[n].calls[i], states[n].calls[j];
      && a.number < |s.appended| && b.number < |s.appended| && a.number != b.number
      && s.appended[a.number] == a.item && s.appended[b.number] == b.item
  {
    RunKeepsInv(states, steps, n);
  }

  // ---------------------------------------------------------------- who is woken

  /** The step is a signal, and somebody waits. */
  predicate Wakes(s: State, step: Step) {
    step.Act? && step.id in s.calls && s.calls[step.id].phase.Appended? && s.waiting != []
  }

  /** Removers wait first in, first out: a signal wakes the one that has slept longest and nobody else, and whoever
      falls asleep goes to the end. */
  lemma WaitersAreFifo(s: State, step: Step)
    requires Inv(s) && Enabled(s, step)
    ensures
      var s' := Next(s, step);
      var rest := if Wakes(s, step) then s.waiting[1..] else s.waiting;
      && (Wakes(s, step) ==> s.waiting[0] in s'.calls && s'.calls[s.waiting[0]].phase.Woken?)
      && (s'.waiting == rest || (step.Act? && s'.waiting == rest + [step.id]))
      && (forall j :: j in s'.waiting <==> j in s'.calls && s'.calls[j].phase.Sleeping?)
  {
    NextKeepsInv(s, step);
    assert s.waiting != [] ==> s.waiting[0] in s.waiting;
  }

  // ---------------------------------------------------------------- what the calls say

  /** An Append call on its way: it never has a number. */
  predicate Appends(c: Call) {
    c.number == -1
    && (c.phase.AppendWants? || c.phase.AppendLocked? || c.phase.Appended? || c.phase.Signalled? || c.phase.Done?)
  }

  /** A Remove call on its way: it has a number, and so an item, exactly from the moment it has found one. */
  predicate Removes(c: Call) {
    if c.number >= 0 then c.phase.Removed? || c.phase.Done?
    else c.number == -1 && (c.phase.RemoveWants? || c.phase.RemoveLocked? || c.phase.Sleeping? || Owed(c.phase))
  }

  /** The call keeps its kind; an Append call keeps its item, a Remove call keeps its number once it has one. */
  lemma CallAfter(s: State, step: Step, i: int)
    requires Inv(s) && Enabled(s, step) && i in s.calls && (Appends(s.calls[i]) || Removes(s.calls[i]))
    ensures
      var c, s' := s.calls[i], Next(s, step);
      && i in s'.calls
      && (Appends(c) ==> Appends(s'.calls[i]) && s'.calls[i].item == c.item)
      && (Removes(c) ==> Removes(s'.calls[i]))
      && (c.number >= 0 ==> s'.calls[i].number == c.number && s'.calls[i].item == c.item)
  {
  }

  /** Every call is one that was made: an Append with the item given, or a Remove, which does not return before it has
      an item. */
  lemma {:induction false} CallIsMade(states: seq<State>, steps: seq<Step>, n: nat, i: int)
    requires Run(states, steps) && n < |states| && i in states[n].calls
    ensures
      var c := states[n].calls[i];
      || (Appends(c) && exists m :: 0 <= m < n && steps[m] == CallAppend(i, c.item))
      || (Removes(c) && exists m :: 0 <= m < n && steps[m] == CallRemove(i))
  {
    var s, step := states[n - 1], steps[n - 1];
    RunKeepsInv(states, steps, n - 1);
    if i in s.calls {
      CallIsMade(states, steps, n - 1, i);
      CallAfter(s, step, i);
    } else {
      assert step == CallAppend(i, states[n].calls[i].item) || step == CallRemove(i);
    }
  }

  /** The items of the Append calls that reached the list in the first n steps, in order. */
  ghost function AppendedItems(states: seq<State>, steps: seq<Step>, n: nat): seq<int>
    requires n <= |steps| < |states|
  {
    if n == 0 then [] else
    var s, step, before := states[n - 1], steps[n - 1], AppendedItems(states, steps, n - 1);
    if step.Act? && step.id in s.calls && s.calls[step.id].phase.AppendLocked?
    then before + [s.calls[step.id].item]
    else before
  }

  /** What is recorded as appended is what the calls appended. */
  lemma {:induction false} AppendedFollowsCalls(states: seq<State>, steps: seq<Step>, n: nat)
    requires Run(states, steps) && n < |states|
    ensures states[n].appended == AppendedItems(states, steps, n)
  {
    if n > 0 {
      AppendedFollowsCalls(states, steps, n - 1);
      RunKeepsInv(states, steps, n - 1);
    }
  }

  lemma TakerAfter(s: State, step: Step, k: nat)
    requires Waiters(s) && Enabled(s, step) && |s.removed| <= k < |Next(s, step).removed|
    ensures step.Act? && step.id in Next(s, step).calls
    ensures k == |s.removed| == Next(s, step).calls[step.id].number
  {
  }

  /** Every item that left the list is held by the call that took it: none is lost on the way. */
  lemma {:induction false} TakenByCall(states: seq<State>, steps: seq<Step>, n: nat, k: nat)
    requires Run(states, steps) && n < |states| && k < |states[n].removed|
    ensures k < |states[n].appended|
    ensures exists i :: i in states[n].calls && states[n].calls[i].number == k
                        && states[n].calls[i].item == states[n].appended[k]
  {
    RunKeepsInv(states, steps, n);
    var s, step := states[n - 1], steps[n - 1];
    RunKeepsInv(states, steps, n - 1);
    var i: int;
    if k < |s.removed| {
      TakenByCall(states, steps, n - 1, k);
      i :| i in s.calls && s.calls[i].number == k && s.calls[i].item == s.appended[k];
      CallIsMade(states, steps, n - 1, i);
      CallAfter(s, step, i);
    } else {
      TakerAfter(s, step, k);
      i := step.id;
    }
    assert states[n].calls[i].number == k;
    assert states[n].removed[k] == states[n].appended[k];
  }

  // ---------------------------------------------------------------- progress

  /** A run gets stuck only when nothing is left to do: if no call that was made can go on, the list is empty and every
      call is done or a remover that sleeps. */
  lemma StuckOnlyWhenEmpty(states: seq<State>, steps: seq<Step>, n: nat)
    requires Run(states, steps) && n < |states| && forall i :: !Enabled(states[n], Act(i))
    ensures forall i :: i in states[n].calls ==> states[n].calls[i].phase.Done? || states[n].calls[i].phase.Sleeping?
    ensures states[n].waiting != [] ==> states[n].list == []
  {
    RunKeepsInv(states, steps, n);
    var s := states[n];
    if s.lock.Some? {
      assert Enabled(s, Act(s.lock.value));
    }
    forall i | i in s.calls
      ensures s.calls[i].phase.Done? || s.calls[i].phase.Sleeping?
    {
      assert !Enabled(s, Act(i));
      assert s.lock != Some(i);
    }
    assert forall i :: i in OwedCalls(s) ==> i in s.calls && Owed(s.calls[i].phase);
    assert OwedCalls(s) == {};
  }
}
