// The Interrupt object of machine/interrupt.cc over the linked list of pending interrupts, proved against the clock
// functions of Interrupts.
module InterruptCalls {
  import opened Basics
  import opened Lists
  import opened Interrupts

  class Interrupt {
    const pending: List<Pending>
    var enabled: bool
    var inHandler: bool
    var yieldOnReturn: bool
    var status: Status
    var ticks: Ticks
    var calls: nat
    ghost var log: seq<Fired>

    ghost predicate Valid()
      reads this, pending, pending.Repr
    {
      pending.Valid() && calls == |log|
    }

    ghost function View(): State
      reads this, pending
    {
      State(pending.Contents(), ticks, status, yieldOnReturn, log)
    }

    constructor ()
      ensures Valid() && fresh(pending) && fresh(pending.Repr) && !enabled && !inHandler
      ensures View() == State([], Ticks(0, 0, 0, 0), SystemMode, false, [])
    {
      pending := new List();
      enabled, inHandler, yieldOnReturn, status := false, false, false, SystemMode;
      ticks, calls, log := Ticks(0, 0, 0, 0), 0, [];
    }

    method Schedule(r: Request)
      requires Valid() && r.fromNow > 0
      modifies pending, pending.Repr
      ensures Valid() && fresh(pending.Repr - old(pending.Repr))
      ensures View() == old(View()).(pending := InsertSorted(old(View()).pending, CellFor(r, ticks.total)))
    {
      var when := ticks.total + r.fromNow;
      pending.SortedInsert(Pending(r.handler, r.arg, when, r.kind), when);
    }

    /** The interrupts that a handler schedules. */
    method ScheduleRequests(rs: seq<Request>)
      requires Valid() && AllLater(rs)
      modifies pending, pending.Repr
      ensures Valid() && fresh(pending.Repr - old(pending.Repr))
      ensures View() == old(View()).(pending := ScheduleAll(old(View()).pending, rs, ticks.total))
    {
      for i := 0 to |rs|
        invariant Valid() && fresh(pending.Repr - old(pending.Repr))
        invariant View() == old(View()).(pending := ScheduleAll(old(View()).pending, rs[..i], ticks.total))
      {
        assert rs[..i + 1][..i] == rs[..i];
        Schedule(rs[i]);
      }
      assert rs[..|rs|] == rs;
    }

    /** The handler runs in system mode with inHandler set: it schedules interrupts and may ask for a context switch. */
    method CallHandler(toOccur: Pending, script: Script)
      requires Valid() && Legal(script)
      modifies this, pending, pending.Repr
      ensures Valid() && !inHandler && enabled == old(enabled) && fresh(pending.Repr - old(pending.Repr))
      ensures View() == FireCell(old(View()), toOccur, script)
    {
      var before, effect := status, script(calls);
      inHandler := true;
      status := SystemMode;
      log, calls := log + [Fired(toOccur, ticks.total)], calls + 1;
      ScheduleRequests(effect.requests);
      if effect.switches {
        yieldOnReturn := true;
      }
      status := before;
      inHandler := false;
    }

    /** Puts an interrupt back that was taken off the list. */
    method PutBackIn(c: Cell<Pending>)
      requires Valid()
      modifies pending, pending.Repr
      ensures Valid() && fresh(pending.Repr - old(pending.Repr))
      ensures View() == old(View()).(pending := InsertSorted(old(View()).pending, c))
    {
      pending.SortedInsert(c.item, c.key);
    }

    method TakeOff() returns (r: Option<Cell<Pending>>)
      requires Valid()
      modifies pending
      ensures Valid() && pending.Repr == old(pending.Repr) && (r.None? <==> old(View()).pending == [])
      ensures if r.None? then View() == old(View())
              else r.value == old(View()).pending[0] && View() == old(View()).(pending := old(View()).pending[1..])
    {
      r := pending.SortedRemove();
    }

    /** The interrupt just taken off the list is put back, or it is due and the clock may have moved on to it. */
    method Decide(c: Cell<Pending>, advanceClock: bool) returns (due: bool)
      requires Valid()
      modifies this`ticks, pending, pending.Repr
      ensures Valid() && fresh(pending.Repr - old(pending.Repr))
      ensures Outcome(View(), due) == DecideOn(old(View()), c, advanceClock)
    {
      if advanceClock && c.key > ticks.total {
        ticks := ticks.(idle := ticks.idle + (c.key - ticks.total), total := c.key);
      } else if c.key > ticks.total {
        PutBackIn(c);
        return false;
      }
      var alone := pending.IsEmpty();
      if status == IdleMode && c.item.kind == TimerInt && alone {
        PutBackIn(c);
        return false;
      }
      return true;
    }

    method CheckIfDue(advanceClock: bool, script: Script) returns (fired: bool)
      requires Valid() && Legal(script) && !enabled && !inHandler
      modifies this, pending, pending.Repr
      ensures Valid() && !enabled && !inHandler && fresh(pending.Repr - old(pending.Repr))
      ensures Outcome(View(), fired) == Interrupts.CheckIfDue(old(View()), advanceClock, script)
    {
      var toOccur := TakeOff();
      if toOccur.None? {
        return false;
      }
      CheckByParts(old(View()), advanceClock, script);
      fired := Decide(toOccur.value, advanceClock);
      if fired {
        CallHandler(toOccur.value.item, script);
      }
    }

    /** The firing loop of OneTick and Idle. */
    method FireAll(script: Script)
      requires Valid() && Legal(script) && !enabled && !inHandler
      modifies this, pending, pending.Repr
      ensures Valid() && !enabled && !inHandler && fresh(pending.Repr - old(pending.Repr))
      ensures View() == Drain(old(View()), script)
    {
      var more := true;
      while more
        invariant Valid() && !enabled && !inHandler && fresh(pending.Repr - old(pending.Repr))
        invariant more ==> Drain(View(), script) == Drain(old(View()), script)
        invariant !more ==> View() == Drain(old(View()), script)
        decreases more, |DuePart(View().pending, ticks.total)|
      {
        ghost var s := View();
        more := CheckIfDue(false, script);
        if more {
          FireLowersDue(s, script);
        }
      }
    }

    /** One step of simulated time; answers whether a handler asked for a context switch. */
    method OneTick(script: Script) returns (yieldNow: bool)
      requires Valid() && Legal(script) && !inHandler
      modifies this, pending, pending.Repr
      ensures Valid() && enabled && !inHandler && fresh(pending.Repr - old(pending.Repr))
      ensures View() == Interrupts.OneTick(old(View()), script)
      ensures yieldNow == Drain(Advance(old(View())), script).switches
    {
      if status == SystemMode {
        ticks := ticks.(total := ticks.total + SYSTEM_TICK, system := ticks.system + SYSTEM_TICK);
      } else {
        ticks := ticks.(total := ticks.total + USER_TICK, user := ticks.user + USER_TICK);
      }
      enabled := false;
      assert View() == Advance(old(View()));
      FireAll(script);
      enabled := true;
      yieldNow := yieldOnReturn;
      if yieldOnReturn {
        yieldOnReturn := false;
      }
    }

    /** Turning interrupts on takes one tick; a handler may not do it. */
    method SetLevel(now: bool, script: Script) returns (before: bool, yieldNow: bool)
      requires Valid() && Legal(script) && (now ==> !inHandler)
      modifies this, pending, pending.Repr
      ensures Valid() && before == old(enabled) && enabled == now && inHandler == old(inHandler)
      ensures View() == if now && !before then Interrupts.OneTick(old(View()), script) else old(View())
      ensures yieldNow == (now && !before && Drain(Advance(old(View())), script).switches)
    {
      before, yieldNow := enabled, false;
      enabled := now;
      if now && !before {
        yieldNow := OneTick(script);
      }
    }

    /** Nothing is ready to run: time moves on to the next interrupt; false means that the machine halts. */
    method Idle(script: Script) returns (resumed: bool)
      requires Valid() && Legal(script) && !enabled && !inHandler
      modifies this, pending, pending.Repr
      ensures Valid() && !enabled && !inHandler
      ensures Outcome(View(), resumed) == Interrupts.Idle(old(View()), script)
    {
      status := IdleMode;
      assert View() == old(View()).(status := IdleMode);
      resumed := CheckIfDue(true, script);
      if resumed {
        Resume(script);
      }
    }

    /** The rest of Idle once an interrupt has fired. */
    method Resume(script: Script)
      requires Valid() && Legal(script) && !enabled && !inHandler
      modifies this, pending, pending.Repr
      ensures Valid() && !enabled && !inHandler && fresh(pending.Repr - old(pending.Repr))
      ensures View() == Drain(old(View()), script).(switches := false, status := SystemMode)
    {
      FireAll(script);
      yieldOnReturn := false;
      status := SystemMode;
    }
  }
}
