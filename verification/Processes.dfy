// Process start, fork, exec, exit, kill and user stores (userprog/exception.cc, progtest.cc, addrspace.cc) as events on
// the frames of main memory, the process identifiers and the live address spaces.
module Processes {
  import opened Basics
  import opened Words
  import opened BitMaps
  import opened Paging
  import opened Programs

  // ---------------------------------------------------------------- states and events

  /** frames and pids are the two bit maps; spaces gives the frames of every live process. */
  datatype State = State(mem: seq<Byte>, frames: seq<bool>, pids: seq<bool>, spaces: map<int, seq<int>>)

  datatype Event =
    | Started(pid: int, prog: Program, taken: seq<int>)
    | NotStarted                                            // no process identifier left
    | Forked(parent: int, child: int, taken: seq<int>)
    | ForkRefused(parent: int)                              // not enough frames
    | ForkAbandoned(parent: int, taken: seq<int>)           // frames copied, then no process identifier left
    | Executed(pid: int, prog: Program, taken: seq<int>)
    | ExecRefused(pid: int)                                 // no such file, or not enough frames
    | Exited(pid: int)                                      // by itself or killed
    | Stored(pid: int, at: nat, bytes: seq<Byte>)           // a user store of 1, 2 or 4 bytes

  predicate FirstClear(bits: seq<bool>, i: int) {
    0 <= i < |bits| && !bits[i] && forall j :: 0 <= j < i ==> bits[j]
  }

  /** The bit map after frames are given back. */
  function Released(bits: seq<bool>, given: seq<int>): (r: seq<bool>)
    ensures |r| == |bits|
  {
    seq(|bits|, f requires 0 <= f < |bits| => bits[f] && f !in given)
  }

  /** The check of Replace: a difference of unsigned numbers against the number of free frames. */
  predicate ExecRefuses(oldPages: nat, newPages: nat, free: nat) {
    (newPages - oldPages) % 0x1_0000_0000 > free
  }

  /** Exec is refused to every program that is smaller than the running one, however much memory is free. */
  lemma ExecRefusesWhen(oldPages: nat, newPages: nat, free: nat)
    requires oldPages < 0x8000_0000 && newPages < 0x8000_0000 && free < 0x8000_0000
    ensures ExecRefuses(oldPages, newPages, free) <==> newPages < oldPages || newPages > oldPages + free
  {
  }

  /** The process gives back its frames and its identifier. */
  predicate Leaves(s: State, pid: int, s': State) {
    && pid in s.spaces && 0 <= pid < |s.pids|
    && s' == State(s.mem, Released(s.frames, s.spaces[pid]), s.pids[pid := false], s.spaces - {pid})
  }

  ghost predicate Happens(s: State, e: Event, s': State)
    requires Sound(s)
  {
    match e
    case Started(pid, prog, taken) =>
      && FirstClear(s.pids, pid) && |taken| == NumPages(prog) && TakenFrom(s.frames, s'.frames, taken)
      && ProgramLoadable(prog, taken, s.mem) && s'.mem == ProgramLoaded(s.mem, taken, prog)
      && s'.pids == s.pids[pid := true] && s'.spaces == s.spaces[pid := taken]
    case NotStarted => ClearSet(s.pids) == {} && s' == s
    case Forked(parent, child, taken) =>
      && parent in s.spaces && |s.spaces[parent]| <= |ClearSet(s.frames)| && FirstClear(s.pids, child)
      && |taken| == |s.spaces[parent]| && TakenFrom(s.frames, s'.frames, taken)
      && Filled(s.mem, s'.mem, taken, View(s.mem, s.spaces[parent]))
      && s'.pids == s.pids[child := true] && s'.spaces == s.spaces[child := taken]
    case ForkRefused(parent) =>
      parent in s.spaces && |s.spaces[parent]| > |ClearSet(s.frames)| && s' == s
    case ForkAbandoned(parent, taken) =>
      && parent in s.spaces && |s.spaces[parent]| <= |ClearSet(s.frames)| && ClearSet(s.pids) == {}
      && |taken| == |s.spaces[parent]| && TakenFrom(s.frames, s'.frames, taken)
      && Filled(s.mem, s'.mem, taken, View(s.mem, s.spaces[parent]))
      && s'.pids == s.pids && s'.spaces == s.spaces
    case Executed(pid, prog, taken) =>
      && pid in s.spaces && !ExecRefuses(|s.spaces[pid]|, NumPages(prog), |ClearSet(s.frames)|)
      && |taken| == NumPages(prog) && TakenFrom(Released(s.frames, s.spaces[pid]), s'.frames, taken)
      && ProgramLoadable(prog, taken, s.mem) && s'.mem == ProgramLoaded(s.mem, taken, prog)
      && s'.pids == s.pids && s'.spaces == s.spaces[pid := taken]
    case ExecRefused(pid) => pid in s.spaces && s' == s
    case Exited(pid) => Leaves(s, pid, s')
    case Stored(pid, at, bytes) =>
      && pid in s.spaces && Aligned(at, |bytes|)
      && at + |bytes| <= PAGE_SIZE * |s.spaces[pid]|
      && var pa := Phys(s.spaces[pid], at);
         0 <= pa && pa + |bytes| <= |s.mem| && s' == s.(mem := Patched(s.mem, pa, bytes))
  }

  // ---------------------------------------------------------------- the invariant

  /** Frames that a live space may use: in range, marked, pairwise distinct. */
  ghost predicate Owns(s: State, frames: seq<int>) {
    && |frames| > 0 && Distinct(frames)
    && forall i :: 0 <= i < |frames| ==> 0 <= frames[i] < |s.frames| && s.frames[frames[i]]
  }

  ghost predicate Sound(s: State) {
    && |s.mem| == PAGE_SIZE * |s.frames|
    && (forall p :: p in s.spaces <==> 0 <= p < |s.pids| && s.pids[p])
    && (forall p :: p in s.spaces ==> Owns(s, s.spaces[p]) && InMemory(s.spaces[p], s.mem))
    && (forall p, q :: p in s.spaces && q in s.spaces && p != q ==> Apart(s.spaces[p], s.spaces[q]))
  }

  /** Frames that were clear belong to nobody. */
  lemma TakenApart(s: State, bits: seq<bool>, bits': seq<bool>, taken: seq<int>, frames: seq<int>)
    requires Owns(s, frames) && TakenFrom(bits, bits', taken) && |bits| == |s.frames|
    requires forall i :: 0 <= i < |frames| ==> bits[frames[i]]
    ensures Apart(frames, taken) && Apart(taken, frames)
    ensures forall i :: 0 <= i < |frames| ==> bits'[frames[i]]
  {
  }

  lemma TakenOwned(s': State, bits: seq<bool>, taken: seq<int>)
    requires TakenFrom(bits, s'.frames, taken) && |taken| > 0 && |s'.mem| == PAGE_SIZE * |s'.frames|
    ensures Owns(s', taken) && InMemory(taken, s'.mem)
  {
    assert forall i :: 0 <= i < |taken| ==> taken[i] in taken;
  }

  /** New frames for one process: a new one, or one that gave its frames back first. */
  lemma GrantKeepsSound(s: State, bits: seq<bool>, s': State, p: int, taken: seq<int>)
    requires Sound(s) && |bits| == |s.frames| && |s'.mem| == |s.mem| && |taken| > 0
    requires forall q, i :: q in s.spaces && q != p && 0 <= i < |s.spaces[q]| ==> bits[s.spaces[q][i]]
    requires TakenFrom(bits, s'.frames, taken) && s'.spaces == s.spaces[p := taken]
    requires 0 <= p < |s.pids| && s'.pids == s.pids[p := true]
    ensures Sound(s')
  {
    TakenOwned(s', bits, taken);
    forall q | q in s.spaces && q != p
      ensures Apart(s.spaces[q], taken) && Apart(taken, s.spaces[q])
      ensures Owns(s', s.spaces[q]) && InMemory(s.spaces[q], s'.mem)
    {
      TakenApart(s, bits, s'.frames, taken, s.spaces[q]);
    }
  }

  /** What a process gives back is nobody else's. */
  lemma ReleaseSparesOthers(s: State, p: int, q: int)
    requires Sound(s) && p in s.spaces && q in s.spaces && p != q
    ensures forall i :: 0 <= i < |s.spaces[q]| ==> Released(s.frames, s.spaces[p])[s.spaces[q][i]]
  {
    assert Apart(s.spaces[p], s.spaces[q]) && Owns(s, s.spaces[q]);
  }

  lemma ExitKeepsSound(s: State, p: int, s': State)
    requires Sound(s) && Happens(s, Exited(p), s')
    ensures Sound(s')
  {
    forall q | q in s'.spaces
      ensures Owns(s', s'.spaces[q])
    {
      ReleaseSparesOthers(s, p, q);
    }
  }

  lemma AbandonKeepsSound(s: State, p: int, taken: seq<int>, s': State)
    requires Sound(s) && Happens(s, ForkAbandoned(p, taken), s')
    ensures Sound(s')
  {
    forall q | q in s'.spaces
      ensures Owns(s', s'.spaces[q])
    {
      TakenApart(s, s.frames, s'.frames, taken, s.spaces[q]);
    }
  }

  lemma ExecKeepsSound(s: State, p: int, prog: Program, taken: seq<int>, s': State)
    requires Sound(s) && Happens(s, Executed(p, prog, taken), s')
    ensures Sound(s')
  {
    forall q, i | q in s.spaces && q != p && 0 <= i < |s.spaces[q]|
      ensures Released(s.frames, s.spaces[p])[s.spaces[q][i]]
    {
      ReleaseSparesOthers(s, p, q);
    }
    assert s.pids == s.pids[p := true];
    GrantKeepsSound(s, Released(s.frames, s.spaces[p]), s', p, taken);
  }

  lemma HappensKeepsSound(s: State, e: Event, s': State)
    requires Sound(s) && Happens(s, e, s')
    ensures Sound(s')
  {
    match e
    case Started(pid, prog, taken) => GrantKeepsSound(s, s.frames, s', pid, taken);
    case Forked(parent, child, taken) =>
      assert Owns(s, s.spaces[parent]);
      GrantKeepsSound(s, s.frames, s', child, taken);
    case ForkAbandoned(parent, taken) => AbandonKeepsSound(s, parent, taken, s');
    case Executed(pid, prog, taken) => ExecKeepsSound(s, pid, prog, taken, s');
    case Exited(pid) => ExitKeepsSound(s, pid, s');
    case _ =>
  }

  // ---------------------------------------------------------------- isolation

  /** What a live process sees. */
  ghost function Sees(s: State, p: int): seq<Byte>
    requires Sound(s) && p in s.spaces
  {
    View(s.mem, s.spaces[p])
  }

  /** The event is the process's own doing. */
  predicate ByItself(e: Event, p: int) {
    (e.Stored? || e.Executed?) && e.pid == p
  }

  /** Loading a program may stray beyond its frames; it spares a space when it leaves the bytes there as they were. */
  ghost predicate Spares(s: State, e: Event, frames: seq<int>) {
    (e.Started? || e.Executed?) && InSpace(e.prog.code, |e.taken|) && InSpace(e.prog.data, |e.taken|) ==>
      forall x :: 0 <= x < |s.mem| && x / PAGE_SIZE in frames ==>
        Or(StrayByte(e.prog, e.taken, x), s.mem[x]) == s.mem[x]
  }

  lemma LoadSpares(mem: seq<Byte>, taken: seq<int>, prog: Program, frames: seq<int>)
    requires ProgramLoadable(prog, taken, mem) && Distinct(taken) && InMemory(frames, mem) && Apart(frames, taken)
    ensures InMemory(frames, ProgramLoaded(mem, taken, prog))
    ensures View(ProgramLoaded(mem, taken, prog), frames) == View(mem, frames) <==>
            forall x :: 0 <= x < |mem| && x / PAGE_SIZE in frames ==> Or(StrayByte(prog, taken, x), mem[x]) == mem[x]
  {
    SameViewWhen(mem, ProgramLoaded(mem, taken, prog), frames);
    forall x | 0 <= x < |mem| && x / PAGE_SIZE in frames
      ensures ProgramLoaded(mem, taken, prog)[x] == Or(StrayByte(prog, taken, x), mem[x])
    {
      ProgramOutside(mem, taken, prog, x);
    }
  }

  lemma LoadedOthersKeep(s: State, e: Event, s': State, p: int)
    requires Sound(s) && Happens(s, e, s') && Sound(s') && (e.Started? || e.Executed?)
    requires p in s.spaces && p != e.pid
    ensures s'.spaces[p] == s.spaces[p]
    ensures View(s'.mem, s.spaces[p]) == View(s.mem, s.spaces[p]) <==> Spares(s, e, s.spaces[p])
  {
    EventLoads(s, e, s');
    assert p in s'.spaces && s'.spaces[p] == s.spaces[p] && s'.spaces[e.pid] == e.taken;
    assert Apart(s'.spaces[p], s'.spaces[e.pid]) && Owns(s', s'.spaces[e.pid]) && InMemory(s.spaces[p], s.mem);
    LoadSpares(s.mem, e.taken, e.prog, s.spaces[p]);
  }

  /** No event moves another live process, and none changes a byte that it sees, if and only if loading spares it. */
  lemma OthersKeepView(s: State, e: Event, s': State, p: int)
    requires Sound(s) && Happens(s, e, s') && Sound(s')
    requires p in s.spaces && p in s'.spaces && !ByItself(e, p)
    ensures s'.spaces[p] == s.spaces[p]
    ensures View(s'.mem, s.spaces[p]) == View(s.mem, s.spaces[p]) <==> Spares(s, e, s.spaces[p])
  {
    assert Owns(s, s.spaces[p]);
    match e
    case Started(_, _, _) => LoadedOthersKeep(s, e, s', p);
    case Executed(_, _, _) => LoadedOthersKeep(s, e, s', p);
    case Forked(_, _, taken) =>
      TakenApart(s, s.frames, s'.frames, taken, s.spaces[p]);
      ApartKeepsView(s.mem, s'.mem, taken, s.spaces[p]);
    case ForkAbandoned(_, taken) =>
      TakenApart(s, s.frames, s'.frames, taken, s.spaces[p]);
      ApartKeepsView(s.mem, s'.mem, taken, s.spaces[p]);
    case Stored(pid, at, bytes) =>
      assert Apart(s.spaces[p], s.spaces[pid]);
      StoreOwnView(s, pid, at, bytes, s');
      ApartKeepsView(s.mem, s'.mem, s.spaces[pid], s.spaces[p]);
    case _ =>
  }

  /** The event is not the process's own and spares it. */
  ghost predicate Undisturbed(s: State, e: Event, p: int) {
    p in s.spaces && !ByItself(e, p) && Spares(s, e, s.spaces[p])
  }

  lemma StepKeepsView(s: State, e: Event, s': State, p: int)
    requires Sound(s) && Happens(s, e, s') && Sound(s') && Undisturbed(s, e, p) && p in s'.spaces
    ensures Sees(s', p) == Sees(s, p)
  {
    OthersKeepView(s, e, s', p);
  }

  /** A program whose segments load well spares everybody, and its own process sees its flat image. */
  lemma WellLoadedIsolates(s: State, e: Event, s': State, p: int)
    requires Sound(s) && Happens(s, e, s') && Sound(s') && (e.Started? || e.Executed?) && ProgramWell(e.prog, e.taken)
    requires p in s.spaces && p != e.pid
    ensures Spares(s, e, s.spaces[p])
    ensures s'.spaces[e.pid] == e.taken && View(s'.mem, e.taken) == ImageOf(e.prog)
  {
    ProgramFilled(s.mem, e.taken, e.prog);
    assert p in s'.spaces && s'.spaces[p] == s.spaces[p] && Apart(s'.spaces[p], s'.spaces[e.pid]);
    forall x | 0 <= x < |s.mem| && x / PAGE_SIZE in s.spaces[p]
      ensures Or(StrayByte(e.prog, e.taken, x), s.mem[x]) == s.mem[x]
    {
      WellStraysNowhere(e.prog, e.taken, x);
    }
  }

  lemma StrayChanges(s: State, e: Event, s': State, q: int, x: int)
    requires Sound(s) && Happens(s, e, s') && Sound(s') && (e.Started? || e.Executed?) && q in s.spaces && q != e.pid
    requires 0 <= x < |s.mem| && x / PAGE_SIZE in s.spaces[q]
    requires Or(StrayByte(e.prog, e.taken, x), s.mem[x]) != s.mem[x]
    ensures q in s'.spaces && Sees(s', q) != Sees(s, q)
  {
    OthersKeepView(s, e, s', q);
  }

  /** The data segment crosses from a frame f, frame f + 1 belongs to q, and its first byte differs from the one that
      the segment leaves there. */
  predicate StraysOnto(s: State, e: Event, q: int) {
    && (e.Started? || e.Executed?) && q in s.spaces && q != e.pid
    && |e.prog.data.bytes| > 0 && InSpace(e.prog.data, |e.taken|) && Crosses(e.prog.data.at, |e.prog.data.bytes|)
    && var f, k := e.taken[e.prog.data.at / PAGE_SIZE], PAGE_SIZE - e.prog.data.at % PAGE_SIZE;
       && f + 1 in s.spaces[q] && 0 <= (f + 1) * PAGE_SIZE < |s.mem|
       && s.mem[(f + 1) * PAGE_SIZE] != e.prog.data.bytes[k]
  }

  lemma StrayAddress(s: State, e: Event, q: int) returns (x: int)
    requires StraysOnto(s, e, q) && InSpace(e.prog.code, |e.taken|) && InMemory(s.spaces[q], s.mem)
    ensures 0 <= x < |s.mem| && x / PAGE_SIZE in s.spaces[q]
    ensures Or(StrayByte(e.prog, e.taken, x), s.mem[x]) != s.mem[x]
  {
    var f := e.taken[e.prog.data.at / PAGE_SIZE];
    FrameStart(s.spaces[q], s.mem, f + 1);
    DataStrays(e.prog, e.taken);
    x := (f + 1) * PAGE_SIZE;
  }

  /** Loading a program that strays onto another live process changes what that process sees. */
  lemma StrayReachesOther(s: State, e: Event, s': State, q: int)
    requires Sound(s) && Happens(s, e, s') && Sound(s') && StraysOnto(s, e, q)
    ensures q in s'.spaces && Sees(s', q) != Sees(s, q)
  {
    EventLoads(s, e, s');
    var x := StrayAddress(s, e, q);
    StrayChanges(s, e, s', q, x);
  }

  lemma EventLoads(s: State, e: Event, s': State)
    requires Sound(s) && Happens(s, e, s') && (e.Started? || e.Executed?)
    ensures ProgramLoadable(e.prog, e.taken, s.mem) && s'.mem == ProgramLoaded(s.mem, e.taken, e.prog)
    ensures InSpace(e.prog.code, |e.taken|) && InSpace(e.prog.data, |e.taken|)
  {
  }

  predicate Aligned(at: nat, n: nat) {
    n == 1 || (n == 2 && at % 2 == 0) || (n == 4 && at % 4 == 0)
  }

  lemma AlignedInOnePage(at: nat, n: nat)
    requires Aligned(at, n)
    ensures InOnePage(at, n)
  {
  }

  /** An aligned store lies in one page, and the process that stores sees exactly those bytes change. */
  lemma StoreOwnView(s: State, p: int, at: nat, bytes: seq<Byte>, s': State)
    requires Sound(s) && Happens(s, Stored(p, at, bytes), s')
    ensures OnlyFrames(s.mem, s'.mem, s.spaces[p]) && InMemory(s.spaces[p], s'.mem)
    ensures View(s'.mem, s'.spaces[p]) == Patched(View(s.mem, s.spaces[p]), at, bytes)
  {
    assert Owns(s, s.spaces[p]);
    AlignedInOnePage(at, |bytes|);
    PatchOnePage(s.mem, s.spaces[p], at, bytes);
  }

  /** After a fork the child sees, byte for byte, what its parent saw, and so does the parent. */
  lemma ChildSeesParent(s: State, parent: int, child: int, taken: seq<int>, s': State)
    requires Sound(s) && Happens(s, Forked(parent, child, taken), s') && Sound(s')
    ensures child != parent && {child, parent} <= s'.spaces.Keys
    ensures View(s'.mem, s'.spaces[child]) == View(s.mem, s.spaces[parent]) == View(s'.mem, s'.spaces[parent])
  {
    OthersKeepView(s, Forked(parent, child, taken), s', parent);
  }

  // ---------------------------------------------------------------- whole runs

  function Initial(mem: seq<Byte>, numFrames: nat, numPids: nat): State {
    State(mem, seq(numFrames, _ => false), seq(numPids, _ => false), map[])
  }

  ghost predicate Run(states: seq<State>, events: seq<Event>) {
    && |states| == |events| + 1
    && (exists mem: seq<Byte>, numFrames, numPids ::
          |mem| == PAGE_SIZE * numFrames && states[0] == Initial(mem, numFrames, numPids))
    && (forall n :: 0 <= n < |events| ==> Sound(states[n]) ==> Happens(states[n], events[n], states[n + 1]))
  }

  /** The frames of live spaces are in range, marked and pairwise disjoint in every reachable state. */
  lemma {:induction false} RunKeepsSound(states: seq<State>, events: seq<Event>, n: nat)
    requires Run(states, events) && n < |states|
    ensures Sound(states[n])
  {
    if n > 0 {
      RunKeepsSound(states, events, n - 1);
      HappensKeepsSound(states[n - 1], events[n - 1], states[n]);
    }
  }

  ghost predicate Lives(s: State, p: int) {
    Sound(s) && p in s.spaces
  }

  /** At step k the process lives on, does nothing itself and is spared. */
  ghost predicate LivesOn(states: seq<State>, events: seq<Event>, k: int, p: int) {
    0 <= k < |events| && |states| == |events| + 1 && Undisturbed(states[k], events[k], p) && p in states[k + 1].spaces
  }

  /** Step k leaves the process alive with the same view. */
  ghost predicate KeptAt(states: seq<State>, k: int, p: int) {
    && 0 <= k && k + 1 < |states| && Lives(states[k], p) && Lives(states[k + 1], p)
    && Sees(states[k + 1], p) == Sees(states[k], p)
  }

  lemma {:induction false} KeptThrough(states: seq<State>, m: nat, n: nat, p: int)
    requires m <= n < |states| && Lives(states[m], p)
    requires forall k :: m <= k < n ==> KeptAt(states, k, p)
    ensures Lives(states[n], p) && Sees(states[n], p) == Sees(states[m], p)
  {
    if m < n {
      KeptThrough(states, m, n - 1, p);
      assert KeptAt(states, n - 1, p);
    }
  }

  /** Over any part of a run in which it lives, does nothing itself and is spared by every load, a process keeps
      every byte it sees. */
  lemma RunKeepsView(states: seq<State>, events: seq<Event>, m: nat, n: nat, p: int)
    requires Run(states, events) && m <= n < |states| && p in states[m].spaces
    requires forall k :: m <= k < n ==> LivesOn(states, events, k, p)
    ensures Lives(states[m], p) && Lives(states[n], p) && Sees(states[n], p) == Sees(states[m], p)
  {
    RunKeepsSound(states, events, m);
    forall k | m <= k < n
      ensures KeptAt(states, k, p)
    {
      RunStepKeepsView(states, events, k, p);
    }
    KeptThrough(states, m, n, p);
  }

  lemma RunStepKeepsView(states: seq<State>, events: seq<Event>, n: nat, p: int)
    requires Run(states, events) && LivesOn(states, events, n, p)
    ensures KeptAt(states, n, p)
  {
    RunKeepsSound(states, events, n);
    RunKeepsSound(states, events, n + 1);
    StepKeepsView(states[n], events[n], states[n + 1], p);
  }

  // ---------------------------------------------------------------- marked frames and owned frames

  ghost predicate HasOwner(s: State, f: int) {
    exists p :: p in s.spaces && f in s.spaces[p]
  }

  /** Every marked frame belongs to a live process. */
  ghost predicate Exact(s: State) {
    forall f :: 0 <= f < |s.frames| && s.frames[f] ==> HasOwner(s, f)
  }

  /** A frame that is marked and belongs to nobody stays so: no later event gives it back. */
  lemma LostStaysLost(s: State, e: Event, s': State, f: int)
    requires Sound(s) && Happens(s, e, s')
    requires 0 <= f < |s.frames| && s.frames[f] && !HasOwner(s, f)
    ensures f < |s'.frames| && s'.frames[f] && !HasOwner(s', f)
  {
    if e.Exited? || e.Executed? {
      assert f !in s.spaces[e.pid];
    }
    forall p | p in s'.spaces
      ensures f !in s'.spaces[p]
    {
      assert p in s.spaces ==> f !in s.spaces[p];
    }
  }

  lemma AbandonedFrameIsLost(s: State, parent: int, taken: seq<int>, s': State)
    requires Sound(s) && Happens(s, ForkAbandoned(parent, taken), s')
    ensures !Exact(s')
  {
    assert Owns(s, s.spaces[parent]);
    var f := taken[0];
    assert f in taken;
    forall p | p in s.spaces
      ensures f !in s.spaces[p]
    {
      assert Owns(s, s.spaces[p]);
    }
    assert !HasOwner(s', f);
  }

  /** New frames for one process leave no marked frame without an owner. */
  lemma GrantKeepsExact(s: State, bits: seq<bool>, s': State, p: int, taken: seq<int>)
    requires Exact(s) && |bits| == |s.frames| && TakenFrom(bits, s'.frames, taken) && s'.spaces == s.spaces[p := taken]
    requires forall f :: 0 <= f < |bits| && bits[f] ==> s.frames[f] && (p in s.spaces ==> f !in s.spaces[p])
    ensures Exact(s')
  {
    forall f | 0 <= f < |s'.frames| && s'.frames[f]
      ensures HasOwner(s', f)
    {
      if f in taken {
        assert f in s'.spaces[p];
      } else {
        assert HasOwner(s, f);
        var q :| q in s.spaces && f in s.spaces[q];
        assert q != p && f in s'.spaces[q];
      }
    }
  }

  lemma ExitKeepsExact(s: State, p: int, s': State)
    requires Exact(s) && Leaves(s, p, s')
    ensures Exact(s')
  {
    forall f | 0 <= f < |s'.frames| && s'.frames[f]
      ensures HasOwner(s', f)
    {
      assert HasOwner(s, f);
      var q :| q in s.spaces && f in s.spaces[q];
      assert q in s'.spaces && f in s'.spaces[q];
    }
  }

  /** Exactness survives every event but an abandoned fork. */
  lemma ExactKept(s: State, e: Event, s': State)
    requires Sound(s) && Happens(s, e, s') && Exact(s) && !e.ForkAbandoned?
    ensures Exact(s')
  {
    match e
    case Started(pid, prog, taken) => GrantKeepsExact(s, s.frames, s', pid, taken);
    case Forked(parent, child, taken) => GrantKeepsExact(s, s.frames, s', child, taken);
    case Executed(pid, prog, taken) => GrantKeepsExact(s, Released(s.frames, s.spaces[pid]), s', pid, taken);
    case Exited(pid) => ExitKeepsExact(s, pid, s');
    case Stored(_, _, _) => assert forall f :: HasOwner(s', f) <==> HasOwner(s, f);
    case _ =>
  }

  lemma {:induction false} RunLosesNothing(states: seq<State>, events: seq<Event>, n: nat)
    requires Run(states, events) && n < |states|
    requires forall k :: 0 <= k < n ==> !events[k].ForkAbandoned?
    ensures Exact(states[n])
  {
    if n > 0 {
      RunLosesNothing(states, events, n - 1);
      RunKeepsSound(states, events, n - 1);
      ExactKept(states[n - 1], events[n - 1], states[n]);
    }
  }

  lemma {:induction false} RunLoses(states: seq<State>, events: seq<Event>, k: nat, n: nat)
    requires Run(states, events) && k < n < |states| && events[k].ForkAbandoned?
    ensures !Exact(states[n])
  {
    RunKeepsSound(states, events, n - 1);
    if n == k + 1 {
      AbandonedFrameIsLost(states[k], events[k].parent, events[k].taken, states[n]);
    } else {
      RunLoses(states, events, k, n - 1);
      var f :| 0 <= f < |states[n - 1].frames| && states[n - 1].frames[f] && !HasOwner(states[n - 1], f);
      LostStaysLost(states[n - 1], events[n - 1], states[n], f);
    }
  }

  /** The marked frames are exactly the frames of live processes if and only if no fork so far ran out of process
      identifiers after it had copied its parent. */
  lemma ExactWhen(states: seq<State>, events: seq<Event>, n: nat)
    requires Run(states, events) && n < |states|
    ensures Exact(states[n]) <==> forall k :: 0 <= k < n ==> !events[k].ForkAbandoned?
  {
    if k :| 0 <= k < n && events[k].ForkAbandoned? {
      RunLoses(states, events, k, n);
    } else {
      RunLosesNothing(states, events, n);
    }
  }
}
