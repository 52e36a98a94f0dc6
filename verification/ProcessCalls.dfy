// StartProcess of userprog/progtest.cc and the fork, exec, exit and kill calls of userprog/exception.cc on the shared
// memory, the two bit maps and the table of live processes.  Each call is proved to be one event of Processes.
module ProcessCalls {
  import opened Basics
  import opened Words
  import opened BitMaps
  import opened Paging
  import opened Programs
  import opened Processes
  import opened AddrSpaces

  lemma {:induction false} ClearSetBound(bits: seq<bool>)
    ensures |ClearSet(bits)| <= |bits|
  {
    if bits != [] {
      var n := |bits| - 1;
      ClearSetBound(bits[..n]);
      assert bits[..n + 1] == bits;
      ClearSetOfPrefix(bits, n);
    } else {
      assert ClearSet(bits) == {};
    }
  }

  /** No space is larger than memory. */
  lemma OwnedBound(bits: seq<bool>, frames: seq<int>)
    requires Marked(bits, frames) && Distinct(frames)
    ensures |frames| + |ClearSet(bits)| <= |bits|
  {
    ReleasedCount(bits, frames);
    ClearSetBound(Released(bits, frames));
  }

  lemma ForkHappens(s: State, s': State, parent: int, child: int, taken: seq<int>)
    requires Sound(s) && parent in s.spaces && |s.spaces[parent]| == |taken| <= |ClearSet(s.frames)|
    requires Building(s.frames, s'.frames, s.mem, s'.mem, taken, Paging.View(s.mem, s.spaces[parent]))
    requires if child < 0 then ClearSet(s.pids) == {} && s'.pids == s.pids && s'.spaces == s.spaces
             else FirstClear(s.pids, child) && s'.pids == s.pids[child := true] && s'.spaces == s.spaces[child := taken]
    ensures Happens(s, if child < 0 then ForkAbandoned(parent, taken) else Forked(parent, child, taken), s')
    ensures Sound(s')
  {
    HappensKeepsSound(s, if child < 0 then ForkAbandoned(parent, taken) else Forked(parent, child, taken), s');
  }

  class ProcessTable {
    const memory: array<Byte>
    const manager: MemoryManager
    const pids: BitMap
    var spaces: map<int, AddrSpace>

    ghost function Spaces(): set<object>
      reads this
    {
      set p | p in spaces :: spaces[p]
    }

    ghost function View(): State
      requires manager.Valid() && pids.Valid()
      reads this, memory, manager.virtMem.words, pids.words, Spaces()
    {
      State(memory[..], manager.Bits(), pids.Bits(), map p | p in spaces :: spaces[p].Frames())
    }

    /** The objects are separate and every page is valid. */
    ghost predicate Shape()
      reads this, Spaces()
    {
      && manager.Valid() && pids.Valid() && manager.virtMem.words != pids.words
      && manager.virtMem.numBits < 0x8000_0000
      && (forall p, q :: p in spaces && q in spaces && p != q ==> spaces[p] != spaces[q])
      && (forall p :: p in spaces ==> AllValid(spaces[p].pageTable))
    }

    ghost predicate Valid()
      reads this, memory, manager.virtMem.words, pids.words, Spaces()
    {
      Shape() && Sound(View())
    }

    /** What every live space may rely on. */
    lemma SpaceFacts(p: int)
      requires Valid() && p in spaces
      ensures Marked(manager.Bits(), spaces[p].Frames()) && Distinct(spaces[p].Frames())
      ensures InMemory(spaces[p].Frames(), memory[..]) && memory.Length == PAGE_SIZE * |manager.Bits()|
      ensures 0 <= p < pids.numBits
    {
      assert View().spaces[p] == spaces[p].Frames();
      assert Owns(View(), View().spaces[p]);
    }

    constructor (numFrames: nat, numPids: nat)
      requires numFrames < 0x8000_0000
      ensures Valid()
      ensures exists mem: seq<Byte> :: |mem| == PAGE_SIZE * numFrames && View() == Initial(mem, numFrames, numPids)
    {
      memory := new Byte[PAGE_SIZE * numFrames];
      manager := new MemoryManager(numFrames);
      pids := new BitMap(numPids);
      spaces := map[];
      new;
      assert View().spaces == map[];
      assert View() == Initial(memory[..], numFrames, numPids);
    }

    /** Adds a new process to the table. */
    method Register(pid: int, space: AddrSpace)
      requires Shape() && AllValid(space.pageTable) && space !in Spaces()
      modifies this
      ensures Shape() && Spaces() <= old(Spaces()) + {space}
      ensures View() == old(View()).(spaces := old(View()).spaces[pid := space.Frames()])
    {
      spaces := spaces[pid := space];
      assert View().spaces == old(View()).spaces[pid := space.Frames()];
    }

    /** No space was changed in place. */
    twostate lemma SpacesUntouched()
      requires manager.Valid() && pids.Valid() && spaces == old(spaces)
      requires forall p :: p in spaces ==> unchanged(spaces[p])
      ensures View().spaces == old(View()).spaces
    {
      forall p | p in spaces
        ensures spaces[p].Frames() == old(spaces[p].Frames())
      {
      }
    }

    /** A space for the program, under an identifier already taken. */
    method StartAs(pid: int, prog: Program) returns (ghost taken: seq<int>)
      requires Shape() && memory.Length == PAGE_SIZE * |manager.Bits()|
      requires NumPages(prog) <= |ClearSet(manager.Bits())| && WouldLoad(manager.Bits(), memory[..], prog)
      modifies this, memory, manager.virtMem.words
      ensures Shape() && |taken| == NumPages(prog)
      ensures View().pids == old(View()).pids && View().spaces == old(View()).spaces[pid := taken]
      ensures TakenFrom(old(manager.Bits()), manager.Bits(), taken)
      ensures ProgramLoadable(prog, taken, old(memory[..]))
      ensures memory[..] == ProgramLoaded(old(memory[..]), taken, prog)
    {
      var space := new AddrSpace.Load(prog, memory, manager);
      taken := space.Frames();
      SpacesUntouched();
      Register(pid, space);
    }

    /** StartProcess once the executable is open; the source asserts that memory suffices when there is an
        identifier. */
    method Start(prog: Program) returns (pid: int, ghost e: Event)
      requires Valid() && NumPages(prog) <= |ClearSet(manager.Bits())| && WouldLoad(manager.Bits(), memory[..], prog)
      modifies this, memory, manager.virtMem.words, pids.words
      ensures Valid() && Happens(old(View()), e, View())
      ensures if ClearSet(old(pids.Bits())) == {} then pid == -1 && e == NotStarted
              else e.Started? && e.pid == pid && e.prog == prog
    {
      pid := pids.Find();
      assert View() == old(View()).(pids := pids.Bits());
      if pid < 0 {
        e := NotStarted;
      } else {
        ghost var taken := StartAs(pid, prog);
        e := Started(pid, prog, taken);
        HappensKeepsSound(old(View()), e, View());
      }
    }

    /** The copying half of fork. */
    method CopyOf(parent: int) returns (copy: AddrSpace?)
      requires Shape() && memory.Length == PAGE_SIZE * |manager.Bits()| && parent in spaces
      requires Marked(manager.Bits(), spaces[parent].Frames()) && InMemory(spaces[parent].Frames(), memory[..])
      modifies memory, manager.virtMem.words
      ensures Shape() && View().pids == old(View()).pids && View().spaces == old(View()).spaces
      ensures copy == null <==> |View().spaces[parent]| > |ClearSet(old(manager.Bits()))|
      ensures copy == null ==> View() == old(View())
      ensures copy != null ==>
                && fresh(copy) && AllValid(copy.pageTable) && |copy.Frames()| == |View().spaces[parent]|
                && Building(old(manager.Bits()), manager.Bits(), old(memory[..]), memory[..], copy.Frames(),
                            Paging.View(old(memory[..]), View().spaces[parent]))
    {
      copy := spaces[parent].Copy(memory, manager);
      SpacesUntouched();
    }

    /** Fork answers the child's identifier; -1 when frames or identifiers run out, and in the latter case the frames of
        the copy stay marked. */
    method Fork(parent: int) returns (r: int, ghost e: Event)
      requires Valid() && parent in spaces
      modifies this, memory, manager.virtMem.words, pids.words
      ensures Valid() && Happens(old(View()), e, View())
      ensures if |old(View()).spaces[parent]| > |ClearSet(old(manager.Bits()))| then r == -1 && e == ForkRefused(parent)
              else if ClearSet(old(pids.Bits())) == {} then r == -1 && e.ForkAbandoned? && e.parent == parent
              else e.Forked? && e.parent == parent && e.child == r
    {
      SpaceFacts(parent);
      var copy := CopyOf(parent);
      if copy == null {
        r, e := -1, ForkRefused(parent);
        return;
      }
      r, e := Admit(parent, copy, old(View()));
    }

    /** The other half of fork: an identifier and an entry for the copy. */
    method Admit(parent: int, copy: AddrSpace, ghost before: State) returns (r: int, ghost e: Event)
      requires Shape() && copy !in Spaces() && AllValid(copy.pageTable) && Sound(before)
      requires View().spaces == before.spaces && pids.Bits() == before.pids && parent in before.spaces
      requires |before.spaces[parent]| == |copy.Frames()| <= |ClearSet(before.frames)|
      requires Building(before.frames, manager.Bits(), before.mem, memory[..], copy.Frames(),
                        Paging.View(before.mem, before.spaces[parent]))
      modifies this, pids.words
      ensures Valid() && Happens(before, e, View())
      ensures if ClearSet(before.pids) == {} then r == -1 && e.ForkAbandoned? && e.parent == parent
              else e.Forked? && e.parent == parent && e.child == r
    {
      r := pids.Find();
      assert View() == old(View()).(pids := pids.Bits());
      if r < 0 {
        e := ForkAbandoned(parent, copy.Frames());
      } else {
        Register(r, copy);
        e := Forked(parent, r, copy.Frames());
      }
      ForkHappens(before, View(), parent, r, copy.Frames());
    }

    /** Unless it is refused, loading the program writes nothing outside main memory. */
    ghost predicate MayReplace(pid: int, prog: Program)
      requires manager.Valid() && pid in spaces
      reads this, memory, manager.virtMem.words, Spaces()
    {
      !ExecRefuses(|spaces[pid].pageTable|, NumPages(prog), |ClearSet(manager.Bits())|) ==>
        WouldLoad(Released(manager.Bits(), spaces[pid].Frames()), memory[..], prog)
    }

    /** Exec answers 1, or -1 when there is no such file or the program is refused. */
    method Exec(pid: int, file: Option<Program>) returns (r: int, ghost e: Event)
      requires Valid() && pid in spaces
      requires file.Some? ==> NumPages(file.value) < 0x8000_0000 && MayReplace(pid, file.value)
      modifies spaces[pid], memory, manager.virtMem.words
      ensures Valid() && Happens(old(View()), e, View())
      ensures if file.Some?
                 && !ExecRefuses(|old(View()).spaces[pid]|, NumPages(file.value), |ClearSet(old(manager.Bits()))|)
              then r == 1 && e.Executed? && e.pid == pid && e.prog == file.value
              else r == -1 && e == ExecRefused(pid)
    {
      SpaceFacts(pid);
      OwnedBound(manager.Bits(), spaces[pid].Frames());
      r, e := -1, ExecRefused(pid);
      if file.Some? {
        var ok, taken := ReplaceSpace(pid, file.value);
        if ok {
          r, e := 1, Executed(pid, file.value, taken);
          HappensKeepsSound(old(View()), e, View());
        }
      }
    }

    /** Only one space was changed in place. */
    twostate lemma OneSpaceChanged(pid: int)
      requires manager.Valid() && pids.Valid() && pid in spaces && spaces == old(spaces)
      requires forall p, q :: p in spaces && q in spaces && p != q ==> spaces[p] != spaces[q]
      requires forall p :: p in spaces && spaces[p] != spaces[pid] ==> unchanged(spaces[p])
      ensures View().spaces == old(View()).spaces[pid := spaces[pid].Frames()]
    {
      forall p | p in spaces && p != pid
        ensures spaces[p].Frames() == old(spaces[p].Frames())
      {
      }
    }

    method ReplaceSpace(pid: int, prog: Program) returns (ok: bool, ghost taken: seq<int>)
      requires Shape() && memory.Length == PAGE_SIZE * |manager.Bits()| && pid in spaces
      requires Marked(manager.Bits(), spaces[pid].Frames()) && Distinct(spaces[pid].Frames())
      requires |spaces[pid].Frames()| + |ClearSet(manager.Bits())| <= |manager.Bits()|
      requires NumPages(prog) < 0x8000_0000 && MayReplace(pid, prog)
      modifies spaces[pid], memory, manager.virtMem.words
      ensures Shape() && View().pids == old(View()).pids
      ensures ok <==> !ExecRefuses(|old(View()).spaces[pid]|, NumPages(prog), |ClearSet(old(manager.Bits()))|)
      ensures !ok ==> View() == old(View())
      ensures ok ==> |taken| == NumPages(prog) && View().spaces == old(View()).spaces[pid := taken]
                     && TakenFrom(Released(old(manager.Bits()), old(View()).spaces[pid]), manager.Bits(), taken)
                     && ProgramLoadable(prog, taken, old(memory[..]))
                     && memory[..] == ProgramLoaded(old(memory[..]), taken, prog)
    {
      ok := spaces[pid].Replace(prog, memory, manager);
      taken := spaces[pid].Frames();
      OneSpaceChanged(pid);
    }

    /** Exit: the identifier and the frames are given back. */
    method Exit(pid: int)
      requires Valid() && pid in spaces
      modifies this, manager.virtMem.words, pids.words
      ensures Valid() && Leaves(old(View()), pid, View())
    {
      SpaceFacts(pid);
      Discard(pid);
      HappensKeepsSound(old(View()), Exited(pid), View());
    }

    method Discard(pid: int)
      requires Shape() && pid in spaces && 0 <= pid < pids.numBits && Marked(manager.Bits(), spaces[pid].Frames())
      modifies this, manager.virtMem.words, pids.words
      ensures Shape() && Leaves(old(View()), pid, View())
    {
      ghost var before := View();
      pids.Clear(pid);
      assert View() == before.(pids := before.pids[pid := false]);
      GiveBack(pid);
      Forget(pid);
    }

    method GiveBack(pid: int)
      requires Shape() && pid in spaces && Marked(manager.Bits(), spaces[pid].Frames())
      modifies manager.virtMem.words
      ensures Shape() && View() == old(View()).(frames := Released(old(View()).frames, old(View()).spaces[pid]))
    {
      spaces[pid].ReleasePhysicalMemory(manager);
      assert View().spaces == old(View()).spaces;
    }

    method Forget(pid: int)
      requires Shape() && pid in spaces
      modifies this
      ensures Shape() && View() == old(View()).(spaces := old(View()).spaces - {pid})
    {
      spaces := spaces - {pid};
      assert View().spaces == old(View()).spaces - {pid};
    }

    /** Kill gives back what the target has, exactly as its own exit would; -1 when there is no such process. */
    method Kill(target: nat) returns (r: int)
      requires Valid() && target < pids.numBits
      modifies this, manager.virtMem.words, pids.words
      ensures Valid()
      ensures target in old(View()).spaces ==> r == 0 && Leaves(old(View()), target, View())
      ensures target !in old(View()).spaces ==> r == -1 && View() == old(View())
    {
      var live := IsLive(target);
      if live {
        Exit(target);
        r := 0;
      } else {
        r := -1;
      }
    }

    /** getProcess finds a process exactly for the identifiers of live ones. */
    method IsLive(pid: nat) returns (live: bool)
      requires Valid() && pid < pids.numBits
      ensures live <==> pid in View().spaces
    {
      LivePid(pid);
      live := pids.Test(pid);
    }

    lemma LivePid(pid: nat)
      requires Valid() && pid < pids.numBits
      ensures pids.Bits()[pid] <==> pid in spaces
    {
      assert pid in View().spaces <==> pid in spaces;
    }
  }
}
