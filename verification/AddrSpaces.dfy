// The address space of userprog/addrspace.cc over the frames kept by userprog/memorymanager.cc, proved against the
// views and the loading function of Paging.
module AddrSpaces {
  import opened Basics
  import opened Words
  import opened BitMaps
  import opened Paging
  import opened Programs
  import opened Processes

  datatype Entry = Entry(virtualPage: nat, physicalPage: int, valid: bool, use: bool, dirty: bool, readOnly: bool)

  function FramesOf(table: seq<Entry>): (frames: seq<int>)
    ensures |frames| == |table|
  {
    seq(|table|, i requires 0 <= i < |table| => table[i].physicalPage)
  }

  predicate AllValid(table: seq<Entry>) {
    forall i :: 0 <= i < |table| ==> table[i].valid
  }

  /** The frame bit map behind its lock; a call returns with the lock released. */
  class MemoryManager {
    const virtMem: BitMap

    ghost predicate Valid() {
      virtMem.Valid()
    }

    ghost function Bits(): seq<bool>
      requires Valid()
      reads virtMem.words
    {
      virtMem.Bits()
    }

    constructor (numTotalPages: nat)
      ensures Valid() && fresh(virtMem) && fresh(virtMem.words) && Bits() == seq(numTotalPages, _ => false)
    {
      virtMem := new BitMap(numTotalPages);
    }

    method GetPage() returns (page: int)
      requires Valid()
      modifies virtMem.words
      ensures page == -1 <==> ClearSet(old(Bits())) == {}
      ensures page == -1 ==> Bits() == old(Bits())
      ensures page != -1 ==> FirstClear(old(Bits()), page) && Bits() == old(Bits())[page := true]
    {
      page := virtMem.Find();
    }

    method ClearPage(page: nat)
      requires Valid() && page < |Bits()|
      modifies virtMem.words
      ensures Bits() == old(Bits())[page := false]
    {
      virtMem.Clear(page);
    }

    method GetFree() returns (n: nat)
      requires Valid()
      ensures n == |ClearSet(Bits())|
    {
      n := virtMem.NumClear();
    }
  }

  /** A page table under construction: its frames were taken first fit, only they changed, and they hold `view`. */
  ghost predicate Building(bits: seq<bool>, bits': seq<bool>, mem: seq<Byte>, mem': seq<Byte>, frames: seq<int>,
                           view: seq<Byte>) {
    TakenFrom(bits, bits', frames) && Filled(mem, mem', frames, view)
  }

  /** One more page: the next clear frame, filled with the next page of the view. */
  lemma BuildPage(bits: seq<bool>, bits': seq<bool>, mem: seq<Byte>, mem': seq<Byte>, frames: seq<int>, view: seq<Byte>,
                  f: int, page: seq<Byte>)
    requires Building(bits, bits', mem, mem', frames, view) && FirstClear(bits', f) && |page| == PAGE_SIZE
    requires |mem| == PAGE_SIZE * |bits|
    ensures 0 <= f * PAGE_SIZE <= |mem'| - PAGE_SIZE
    ensures Building(bits, bits'[f := true], mem, Patched(mem', f * PAGE_SIZE, page), frames + [f], view + page)
  {
    TakeAnother(bits, bits', frames, f);
    AppendPage(mem', frames, f, page);
    OnlyFramesMore(mem, mem', frames, f);
    OnlyFramesTransitive(mem, mem', Patched(mem', f * PAGE_SIZE, page), frames + [f]);
  }

  lemma MarkedApart(bits: seq<bool>, bits': seq<bool>, taken: seq<int>, frames: seq<int>)
    requires TakenFrom(bits, bits', taken) && Marked(bits, frames)
    ensures Apart(frames, taken)
  {
  }

  ghost predicate Marked(bits: seq<bool>, frames: seq<int>) {
    forall i :: 0 <= i < |frames| ==> 0 <= frames[i] < |bits| && bits[frames[i]]
  }

  /** While a copy is being built the original still reads as before. */
  lemma CopiedPage(bits: seq<bool>, bits': seq<bool>, mem: seq<Byte>, mem': seq<Byte>, taken: seq<int>, view: seq<Byte>,
                   frames: seq<int>, i: nat)
    requires i < |frames| && InMemory(frames, mem) && view == View(mem, frames)
    requires Building(bits, bits', mem, mem', taken, view[..PAGE_SIZE * i]) && Marked(bits, frames)
    ensures 0 <= frames[i] && frames[i] * PAGE_SIZE + PAGE_SIZE <= |mem'|
    ensures view[..PAGE_SIZE * i] + mem'[frames[i] * PAGE_SIZE..frames[i] * PAGE_SIZE + PAGE_SIZE] ==
            view[..PAGE_SIZE * (i + 1)]
  {
    MarkedApart(bits, bits', taken, frames);
    ApartKeepsView(mem, mem', taken, frames);
    PageOfView(mem', frames, i);
  }

  /** Giving frames back makes that many more clear. */
  lemma {:induction false} ReleasedCount(bits: seq<bool>, frames: seq<int>)
    requires Marked(bits, frames) && Distinct(frames)
    ensures |ClearSet(Released(bits, frames))| == |ClearSet(bits)| + |frames|
  {
    if frames == [] {
      assert Released(bits, frames) == bits;
    } else {
      var rest, f := frames[..|frames| - 1], frames[|frames| - 1];
      ReleasedCount(bits, rest);
      assert frames == rest + [f];
      assert f !in rest;
      TakeOne(Released(bits, frames), f);
      assert Released(bits, frames)[f := true] == Released(bits, rest);
    }
  }

  /** The rest of the loop turns mem into done. */
  ghost predicate LoadsTo(mem: seq<Byte>, frames: seq<int>, a: nat, bytes: seq<Byte>, done: seq<Byte>) {
    Loadable(frames, mem, a, |bytes|) && Loaded(mem, frames, a, bytes) == done
  }

  lemma LoadedUnfolds(mem: seq<Byte>, frames: seq<int>, a: nat, bytes: seq<Byte>, done: seq<Byte>)
    returns (next: seq<Byte>)
    requires LoadsTo(mem, frames, a, bytes, done) && bytes != []
    ensures
      var n := ChunkSize(a, |bytes|);
      && 0 < n <= |bytes| && a < PAGE_SIZE * |frames| && 0 <= Phys(frames, a) && Phys(frames, a) + n <= |mem|
      && next == Patched(mem, Phys(frames, a), bytes[..n]) && LoadsTo(next, frames, a + n, bytes[n..], done)
  {
    LoadableChunk(frames, mem, a, |bytes|);
    next := Patched(mem, Phys(frames, a), bytes[..ChunkSize(a, |bytes|)]);
  }

  /** Wherever first fit puts the program, loading it writes nothing outside main memory. */
  ghost predicate WouldLoad(bits: seq<bool>, mem: seq<Byte>, prog: Program) {
    forall bits', taken :: TakenFrom(bits, bits', taken) && |taken| == NumPages(prog) ==>
      ProgramLoadable(prog, taken, mem)
  }

  class AddrSpace {
    var pageTable: seq<Entry>

    ghost function Frames(): seq<int>
      reads this
    {
      FramesOf(pageTable)
    }

    /** AddrSpace(num): a page table that is filled in afterwards. */
    constructor Blank()
      ensures pageTable == []
    {
      pageTable := [];
    }

    /** One turn of the loops that build a page table.  A frame is clear, so GetPage does not answer -1. */
    method AddPage(like: Entry, page: seq<Byte>, memory: array<Byte>, manager: MemoryManager,
                   ghost bits: seq<bool>, ghost mem: seq<Byte>, ghost view: seq<Byte>)
      requires manager.Valid() && |page| == PAGE_SIZE && |mem| == PAGE_SIZE * |bits| && ClearSet(manager.Bits()) != {}
      requires Building(bits, manager.Bits(), mem, memory[..], Frames(), view)
      modifies this, memory, manager.virtMem.words
      ensures |ClearSet(manager.Bits())| == |ClearSet(old(manager.Bits()))| - 1
      ensures exists f :: pageTable == old(pageTable) + [like.(physicalPage := f)]
      ensures Building(bits, manager.Bits(), mem, memory[..], Frames(), view + page)
    {
      ghost var bits', mem', frames := manager.Bits(), memory[..], Frames();
      var f := manager.GetPage();
      TakeOne(bits', f);
      BuildPage(bits, bits', mem, mem', frames, view, f, page);
      pageTable := pageTable + [like.(physicalPage := f)];
      Overwrite(page, memory, f * PAGE_SIZE);
      assert Frames() == frames + [f];
    }

    /** Takes the first n clear frames and zeroes them; the caller has made sure that there are that many. */
    method InitializePageTable(n: nat, memory: array<Byte>, manager: MemoryManager)
      requires manager.Valid() && memory.Length == PAGE_SIZE * |manager.Bits()| && n <= |ClearSet(manager.Bits())|
      modifies this, memory, manager.virtMem.words
      ensures |pageTable| == n && AllValid(pageTable)
      ensures Building(old(manager.Bits()), manager.Bits(), old(memory[..]), memory[..], Frames(), Zeros(PAGE_SIZE * n))
    {
      pageTable := [];
      ghost var bits, mem := manager.Bits(), memory[..];
      for i := 0 to n
        invariant |pageTable| == i && AllValid(pageTable)
        invariant |ClearSet(manager.Bits())| >= n - i
        invariant Building(bits, manager.Bits(), mem, memory[..], Frames(), Zeros(PAGE_SIZE * i))
      {
        var like := Entry(i, 0, true, false, false, false);
        AddPage(like, Zeros(PAGE_SIZE), memory, manager, bits, mem, Zeros(PAGE_SIZE * i));
        assert Zeros(PAGE_SIZE * i) + Zeros(PAGE_SIZE) == Zeros(PAGE_SIZE * (i + 1));
      }
    }

    /** A copy of the space in frames of its own, or null when there are not enough. */
    method Copy(memory: array<Byte>, manager: MemoryManager) returns (r: AddrSpace?)
      requires manager.Valid() && memory.Length == PAGE_SIZE * |manager.Bits()|
      requires Marked(manager.Bits(), Frames()) && InMemory(Frames(), memory[..])
      modifies memory, manager.virtMem.words
      ensures r == null <==> |pageTable| > |ClearSet(old(manager.Bits()))|
      ensures r == null ==> manager.Bits() == old(manager.Bits()) && memory[..] == old(memory[..])
      ensures r != null ==>
                && fresh(r) && |r.pageTable| == |pageTable|
                && (forall i :: 0 <= i < |pageTable| ==>
                      r.pageTable[i] == pageTable[i].(physicalPage := r.pageTable[i].physicalPage))
                && Building(old(manager.Bits()), manager.Bits(), old(memory[..]), memory[..], r.Frames(),
                            View(old(memory[..]), Frames()))
    {
      var free := manager.GetFree();
      if |pageTable| > free {
        return null;
      }
      r := new AddrSpace.Blank();
      CopyPages(r, memory, manager);
    }

    /** The loop of Copy. */
    method CopyPages(copy: AddrSpace, memory: array<Byte>, manager: MemoryManager)
      requires manager.Valid() && memory.Length == PAGE_SIZE * |manager.Bits()| && copy != this && copy.pageTable == []
      requires Marked(manager.Bits(), Frames()) && InMemory(Frames(), memory[..])
      requires |pageTable| <= |ClearSet(manager.Bits())|
      modifies copy, memory, manager.virtMem.words
      ensures |copy.pageTable| == |pageTable|
      ensures forall k :: 0 <= k < |pageTable| ==>
                copy.pageTable[k] == pageTable[k].(physicalPage := copy.pageTable[k].physicalPage)
      ensures Building(old(manager.Bits()), manager.Bits(), old(memory[..]), memory[..], copy.Frames(),
                       View(old(memory[..]), Frames()))
    {
      ghost var bits, mem, view := manager.Bits(), memory[..], View(memory[..], Frames());
      for i := 0 to |pageTable|
        invariant |copy.pageTable| == i
        invariant forall k :: 0 <= k < i ==>
                    copy.pageTable[k] == pageTable[k].(physicalPage := copy.pageTable[k].physicalPage)
        invariant |ClearSet(manager.Bits())| >= |pageTable| - i
        invariant Building(bits, manager.Bits(), mem, memory[..], copy.Frames(), view[..PAGE_SIZE * i])
      {
        CopyPage(copy, i, memory, manager, bits, mem, view);
      }
      assert view[..PAGE_SIZE * |pageTable|] == view;
    }

    /** One turn of the loop of Copy. */
    method CopyPage(copy: AddrSpace, i: nat, memory: array<Byte>, manager: MemoryManager,
                    ghost bits: seq<bool>, ghost mem: seq<Byte>, ghost view: seq<Byte>)
      requires manager.Valid() && |mem| == PAGE_SIZE * |bits| && copy != this && i < |pageTable|
      requires Marked(bits, Frames()) && InMemory(Frames(), mem) && ClearSet(manager.Bits()) != {}
      requires view == View(mem, Frames())
      requires Building(bits, manager.Bits(), mem, memory[..], copy.Frames(), view[..PAGE_SIZE * i])
      modifies copy, memory, manager.virtMem.words
      ensures |ClearSet(manager.Bits())| == |ClearSet(old(manager.Bits()))| - 1
      ensures exists f :: copy.pageTable == old(copy.pageTable) + [pageTable[i].(physicalPage := f)]
      ensures Building(bits, manager.Bits(), mem, memory[..], copy.Frames(), view[..PAGE_SIZE * (i + 1)])
    {
      CopiedPage(bits, manager.Bits(), mem, memory[..], copy.Frames(), view, Frames(), i);
      var from := pageTable[i].physicalPage * PAGE_SIZE;
      copy.AddPage(pageTable[i], memory[from..from + PAGE_SIZE], memory, manager, bits, mem, view[..PAGE_SIZE * i]);
    }

    method ReleasePhysicalMemory(manager: MemoryManager)
      requires manager.Valid() && Marked(manager.Bits(), Frames())
      modifies manager.virtMem.words
      ensures manager.Bits() == Released(old(manager.Bits()), Frames())
    {
      ghost var bits, frames := manager.Bits(), Frames();
      for i := 0 to |pageTable|
        invariant manager.Bits() == Released(bits, frames[..i])
      {
        assert pageTable[i].physicalPage == frames[i];
        manager.ClearPage(pageTable[i].physicalPage);
        assert frames[..i + 1] == frames[..i] + [frames[i]];
      }
      assert frames[..|pageTable|] == frames;
    }

    /** The physical address, or -1 for an address the space does not have; a translated page is marked as used. */
    method Translate(a: int) returns (pa: int)
      requires forall i :: 0 <= i < |pageTable| ==> pageTable[i].physicalPage >= 0
      modifies this
      ensures pa == -1 <==> !(0 <= a < PAGE_SIZE * |old(pageTable)| && old(pageTable)[a / PAGE_SIZE].valid)
      ensures pa == -1 ==> pageTable == old(pageTable)
      ensures pa != -1 ==> pa == Phys(FramesOf(old(pageTable)), a)
                           && pageTable == old(pageTable)[a / PAGE_SIZE := old(pageTable)[a / PAGE_SIZE].(use := true)]
      ensures Frames() == old(Frames()) && (AllValid(old(pageTable)) ==> AllValid(pageTable))
    {
      if a < 0 {
        return -1;
      }
      var pageNumber := a / PAGE_SIZE;
      var offset := a % PAGE_SIZE;
      if pageNumber >= |pageTable| {
        return -1;
      }
      if !pageTable[pageNumber].valid {
        return -1;
      }
      pa := pageTable[pageNumber].physicalPage * PAGE_SIZE + offset;
      pageTable := pageTable[pageNumber := pageTable[pageNumber].(use := true)];
    }

    /** Copies one chunk to where its first address is. */
    method CopyChunk(a: nat, chunk: seq<Byte>, memory: array<Byte>)
      requires AllValid(pageTable) && InMemory(Frames(), memory[..]) && a < PAGE_SIZE * |pageTable|
      requires 0 <= Phys(Frames(), a) && Phys(Frames(), a) + |chunk| <= memory.Length
      modifies this, memory
      ensures Frames() == old(Frames()) && AllValid(pageTable)
      ensures memory[..] == Patched(old(memory[..]), Phys(Frames(), a), chunk)
    {
      assert forall i :: 0 <= i < |pageTable| ==> pageTable[i].physicalPage == Frames()[i];
      var pa := Translate(a);
      assert pa >= 0;
      Overwrite(chunk, memory, pa);
    }

    /** One turn of the loading loop. */
    method ReadChunk(a: nat, bytes: seq<Byte>, memory: array<Byte>, ghost done: seq<Byte>) returns (size: nat)
      requires AllValid(pageTable) && bytes != [] && LoadsTo(memory[..], Frames(), a, bytes, done)
      modifies this, memory
      ensures Frames() == old(Frames()) && AllValid(pageTable) && 0 < size <= |bytes|
      ensures LoadsTo(memory[..], Frames(), a + size, bytes[size..], done)
    {
      size := if |bytes| < PAGE_SIZE then |bytes| else PAGE_SIZE - a % PAGE_SIZE;
      ghost var next := LoadedUnfolds(memory[..], Frames(), a, bytes, done);
      CopyChunk(a, bytes[..size], memory);
      assert memory[..] == next;
    }

    /** The loading loop; `buffer` holds what ReadAt delivered of the segment. */
    method ReadFile(a: nat, buffer: seq<Byte>, memory: array<Byte>)
      requires AllValid(pageTable) && Loadable(Frames(), memory[..], a, |buffer|)
      modifies this, memory
      ensures Frames() == old(Frames()) && AllValid(pageTable)
      ensures memory[..] == Loaded(old(memory[..]), Frames(), a, buffer)
    {
      var at, left := a, buffer;
      ghost var done := Loaded(memory[..], Frames(), a, buffer);
      while left != []
        invariant Frames() == old(Frames()) && AllValid(pageTable) && at >= 0
        invariant LoadsTo(memory[..], Frames(), at, left, done)
        decreases |left|
      {
        var size := ReadChunk(at, left, memory, done);
        left, at := left[size..], at + size;
      }
    }

    /** A segment is loaded only if it has bytes. */
    method LoadSegment(g: Segment, memory: array<Byte>)
      requires AllValid(pageTable) && SegmentLoadable(g, Frames(), memory[..])
      modifies this, memory
      ensures AllValid(pageTable) && Frames() == old(Frames())
      ensures memory[..] == SegmentLoaded(old(memory[..]), Frames(), g)
    {
      if |g.bytes| > 0 {
        ReadFile(g.at, g.bytes, memory);
      }
    }

    /** Both segments, one after the other, into a space that was just zeroed. */
    method LoadSegments(prog: Program, memory: array<Byte>, ghost mem: seq<Byte>)
      requires AllValid(pageTable) && ProgramLoadable(prog, Frames(), mem) && memory[..] == Zeroed(mem, Frames())
      modifies this, memory
      ensures AllValid(pageTable) && Frames() == old(Frames())
      ensures memory[..] == ProgramLoaded(mem, Frames(), prog)
    {
      LoadableAnywhere(prog.code, Frames(), mem, memory[..]);
      LoadSegment(prog.code, memory);
      LoadableAnywhere(prog.data, Frames(), mem, memory[..]);
      LoadSegment(prog.data, memory);
    }

    /** A page table for the program and the program behind it. */
    method LoadProgram(prog: Program, memory: array<Byte>, manager: MemoryManager)
      requires manager.Valid() && memory.Length == PAGE_SIZE * |manager.Bits()|
      requires NumPages(prog) <= |ClearSet(manager.Bits())| && WouldLoad(manager.Bits(), memory[..], prog)
      modifies this, memory, manager.virtMem.words
      ensures AllValid(pageTable) && |pageTable| == NumPages(prog)
      ensures TakenFrom(old(manager.Bits()), manager.Bits(), Frames())
      ensures ProgramLoadable(prog, Frames(), old(memory[..]))
      ensures memory[..] == ProgramLoaded(old(memory[..]), Frames(), prog)
    {
      ghost var bits, mem := manager.Bits(), memory[..];
      InitializePageTable(NumPages(prog), memory, manager);
      assert TakenFrom(bits, manager.Bits(), Frames());
      FilledIsZeroed(mem, memory[..], Frames());
      LoadSegments(prog, memory, mem);
    }

    /** AddrSpace(executable); the source asserts that there are enough frames. */
    constructor Load(prog: Program, memory: array<Byte>, manager: MemoryManager)
      requires manager.Valid() && memory.Length == PAGE_SIZE * |manager.Bits()|
      requires NumPages(prog) <= |ClearSet(manager.Bits())| && WouldLoad(manager.Bits(), memory[..], prog)
      modifies memory, manager.virtMem.words
      ensures AllValid(pageTable) && |pageTable| == NumPages(prog)
      ensures TakenFrom(old(manager.Bits()), manager.Bits(), Frames())
      ensures ProgramLoadable(prog, Frames(), old(memory[..]))
      ensures memory[..] == ProgramLoaded(old(memory[..]), Frames(), prog)
    {
      pageTable := [];
      new;
      LoadProgram(prog, memory, manager);
    }

    /** Replace after the executable was opened: refuses by the unsigned comparison, or gives the frames back and loads
        the program into newly taken ones. */
    method Replace(prog: Program, memory: array<Byte>, manager: MemoryManager) returns (ok: bool)
      requires manager.Valid() && memory.Length == PAGE_SIZE * |manager.Bits()|
      requires Marked(manager.Bits(), Frames()) && Distinct(Frames()) && AllValid(pageTable)
      requires !ExecRefuses(|pageTable|, NumPages(prog), |ClearSet(manager.Bits())|) ==>
                 WouldLoad(Released(manager.Bits(), Frames()), memory[..], prog)
      requires |pageTable| < 0x8000_0000 && NumPages(prog) < 0x8000_0000 && |ClearSet(manager.Bits())| < 0x8000_0000
      modifies this, memory, manager.virtMem.words
      ensures ok <==> !ExecRefuses(|old(pageTable)|, NumPages(prog), |ClearSet(old(manager.Bits()))|)
      ensures !ok ==> pageTable == old(pageTable) && memory[..] == old(memory[..])
      ensures !ok ==> manager.Bits() == old(manager.Bits())
      ensures AllValid(pageTable)
      ensures ok ==> |pageTable| == NumPages(prog)
                     && TakenFrom(Released(old(manager.Bits()), old(Frames())), manager.Bits(), Frames())
                     && ProgramLoadable(prog, Frames(), old(memory[..]))
                     && memory[..] == ProgramLoaded(old(memory[..]), Frames(), prog)
    {
      var free := manager.GetFree();
      if (NumPages(prog) - |pageTable|) % 0x1_0000_0000 > free {
        return false;
      }
      ExecRefusesWhen(|pageTable|, NumPages(prog), free);
      ReleasedCount(manager.Bits(), Frames());
      ReleasePhysicalMemory(manager);
      assert WouldLoad(manager.Bits(), memory[..], prog);
      LoadProgram(prog, memory, manager);
      return true;
    }
  }
}
