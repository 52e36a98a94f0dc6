// The routines of threads/scheduler.cc, thread.cc and synch.cc as they update the kernel's fields.  Each is proved
// to make the corresponding step of module Kernel; a routine that puts its caller to sleep ends where the processor
// goes to another thread, and the caller goes on later with another pass through its loop.
module KernelCalls {
  import opened Basics
  import opened Kernel

  class NachosKernel {
    var status: map<Tid, Status>
    var pc: map<Tid, Pc>
    var currentThread: Option<Tid>
    var readyList: seq<Tid>
    var queues: map<QueueId, seq<Tid>>
    var value: map<nat, int>
    var free: map<nat, bool>
    var holder: map<nat, Option<Tid>>
    ghost var ups: map<nat, int>
    ghost var downs: map<nat, int>
    ghost var inside: set<(Tid, nat)>
    ghost var readied: seq<Tid>
    ghost var dispatched: seq<Tid>

    ghost function View(): State
      reads this
    {
      State(status, pc, currentThread, readyList, queues, value, free, holder, ups, downs, inside, readied, dispatched)
    }

    // -------------------------------------------------------------- the scheduler

    method ReadyToRunThread(t: Tid)
      modifies this
      ensures View() == ReadyToRun(old(View()), t)
    {
      status := status[t := Ready];
      readyList := readyList + [t];
      readied := readied + [t];
    }

    /** Takes the first ready thread off the list, if there is one. */
    method FindNextToRun() returns (next: Option<Tid>)
      modifies this`readyList, this`dispatched
      ensures old(readyList) == [] ==> next == None && readyList == [] && dispatched == old(dispatched)
      ensures old(readyList) != [] ==>
                next == Some(old(readyList)[0]) && readyList == old(readyList)[1..]
                && dispatched == old(dispatched) + [old(readyList)[0]]
    {
      if readyList == [] {
        return None;
      }
      next := Some(readyList[0]);
      dispatched := dispatched + [readyList[0]];
      readyList := readyList[1..];
    }

    /** The context switch: the processor goes to `next`. */
    method SwitchTo(next: Tid)
      modifies this`currentThread, this`status
      ensures currentThread == Some(next) && status == old(status)[next := Running]
    {
      currentThread := Some(next);
      status := status[next := Running];
    }

    /** Thread::Sleep: block the caller and dispatch; the machine idles while no thread is ready. */
    method Sleep()
      requires currentThread.Some?
      modifies this
      ensures View() == Dispatch(old(View()).(status := old(status)[old(currentThread).value := Blocked]))
    {
      status := status[currentThread.value := Blocked];
      var next := FindNextToRun();
      match next {
        case None => currentThread := None;
        case Some(t) => SwitchTo(t);
      }
    }

    method Enqueue(q: QueueId, where: Pc)
      requires currentThread.Some? && q in queues
      modifies this`queues, this`pc
      ensures queues == old(queues)[q := old(queues)[q] + [currentThread.value]]
      ensures pc == old(pc)[currentThread.value := where]
    {
      queues := queues[q := queues[q] + [currentThread.value]];
      pc := pc[currentThread.value := where];
    }

    /** List::Remove on a wait queue. */
    method Dequeue(q: QueueId) returns (t: Option<Tid>)
      requires q in queues
      modifies this`queues
      ensures old(queues)[q] == [] ==> t == None && queues == old(queues)
      ensures old(queues)[q] != [] ==> t == Some(old(queues)[q][0]) && queues == old(queues)[q := old(queues)[q][1..]]
    {
      if queues[q] == [] {
        return None;
      }
      t := Some(queues[q][0]);
      queues := queues[q := queues[q][1..]];
    }

    method Yield()
      requires currentThread.Some?
      modifies this
      ensures View() == YieldStep(old(View()))
    {
      var next := FindNextToRun();
      if next.Some? {
        ReadyToRunThread(currentThread.value);
        SwitchTo(next.value);
      }
    }

    method Fork(child: Tid)
      modifies this
      ensures View() == ForkStep(old(View()), child)
    {
      pc := pc[child := User];
      ReadyToRunThread(child);
    }

    /** The thread is gone once another one runs; its carcass is never scheduled again. */
    method Finish()
      requires currentThread.Some?
      modifies this
      ensures View() == FinishStep(old(View()))
    {
      var threadToBeDestroyed := currentThread.value;
      status := status - {threadToBeDestroyed};
      pc := pc - {threadToBeDestroyed};
      var next := FindNextToRun();
      match next {
        case None => currentThread := None;
        case Some(t) => SwitchTo(t);
      }
    }

    // -------------------------------------------------------------- semaphores

    /** P up to its return or its next sleep. */
    method P(s: nat)
      requires currentThread.Some? && HasSem(View(), s)
      modifies this
      ensures View() == PStep(old(View()), s)
    {
      if value[s] == 0 {
        Enqueue(SemQueue(s), InP(s));
        Sleep();
      } else {
        value := value[s := value[s] - 1];
        downs := downs[s := downs[s] + 1];
        pc := pc[currentThread.value := User];
      }
    }

    method V(s: nat)
      requires HasSem(View(), s)
      modifies this
      ensures View() == VStep(old(View()), s)
    {
      var t := Dequeue(SemQueue(s));
      if t.Some? {
        ReadyToRunThread(t.value);
      }
      value := value[s := value[s] + 1];
      ups := ups[s := ups[s] + 1];
    }

    // -------------------------------------------------------------- locks and conditions

    method Acquire(l: nat)
      requires currentThread.Some? && HasLock(View(), l)
      modifies this
      ensures View() == AcquireStep(old(View()), l)
    {
      if !free[l] {
        Enqueue(LockQueue(l), InAcquire(l));
        Sleep();
      } else {
        free := free[l := false];
        holder := holder[l := currentThread];
        pc := pc[currentThread.value := User];
        inside := inside + {(currentThread.value, l)};
      }
    }

    method Release(l: nat)
      requires currentThread.Some? && HasLock(View(), l)
      modifies this
      ensures View() == ReleaseStep(old(View()), l)
    {
      var t := Dequeue(LockQueue(l));
      if currentThread == holder[l] {
        if t.Some? {
          ReadyToRunThread(t.value);
        }
        free := free[l := true];
        inside := inside - {(currentThread.value, l)};
      }
    }

    method Wait(c: nat, l: nat)
      requires currentThread.Some? && HasLock(View(), l) && CondQueue(c) in queues
      modifies this
      ensures View() == WaitStep(old(View()), c, l)
    {
      Release(l);
      Enqueue(CondQueue(c), InWait(c, l));
      Sleep();
    }

    method Signal(c: nat) returns (woken: bool)
      requires CondQueue(c) in queues
      modifies this
      ensures View() == SignalStep(old(View()), c)
      ensures woken <==> old(queues)[CondQueue(c)] != []
    {
      var t := Dequeue(CondQueue(c));
      woken := t.Some?;
      if woken {
        if t.value in pc && pc[t.value].InWait? {
          pc := pc[t.value := InAcquire(pc[t.value].lock)];
        }
        ReadyToRunThread(t.value);
      }
    }

    /** The loop wakes waiters until the queue is empty. */
    method Broadcast(c: nat)
      requires CondQueue(c) in queues
      modifies this
      ensures View() == BroadcastStep(old(View()), c)
    {
      var more := true;
      while more
        invariant CondQueue(c) in queues
        invariant BroadcastStep(View(), c) == BroadcastStep(old(View()), c)
        invariant !more ==> queues[CondQueue(c)] == []
        decreases more, |queues[CondQueue(c)]|
      {
        more := Signal(c);
      }
    }
  }
}
