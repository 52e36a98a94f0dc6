// Executables and what loading one makes of main memory (the constructor and Replace of userprog/addrspace.cc).
module Programs {
  import opened Basics
  import opened Words
  import opened Paging

  datatype Segment = Segment(at: int, bytes: seq<Byte>)

  /** An executable: its code and initialised data, and the size of its uninitialised data. */
  datatype Program = Program(code: Segment, data: Segment, bss: nat)

  /** The fewest pages that hold code, data and a stack of 1024 bytes. */
  function NumPages(p: Program): (n: nat)
    ensures n > 0
    ensures 128 * (n - 1) < |p.code.bytes| + |p.data.bytes| + p.bss + 1024 <= 128 * n
  {
    DivRoundUp(|p.code.bytes| + |p.data.bytes| + p.bss + USER_STACK_SIZE, PAGE_SIZE)
  }

  predicate Covers(g: Segment, a: int) {
    g.at <= a < g.at + |g.bytes|
  }

  /** The flat memory image: data bytes, code bytes, zero elsewhere. */
  function ImageOf(p: Program): (bytes: seq<Byte>)
    ensures |bytes| == PAGE_SIZE * NumPages(p)
  {
    seq(PAGE_SIZE * NumPages(p), a =>
      if Covers(p.data, a) then p.data.bytes[a - p.data.at]
      else if Covers(p.code, a) then p.code.bytes[a - p.code.at]
      else 0)
  }

  // ---------------------------------------------------------------- what the loader does

  /** The segment lies in the address space; an empty segment is not loaded at all. */
  predicate InSpace(g: Segment, pages: nat) {
    |g.bytes| == 0 || (0 <= g.at && g.at + |g.bytes| <= PAGE_SIZE * pages)
  }

  /** Loading the segment writes nothing outside main memory. */
  predicate SegmentLoadable(g: Segment, frames: seq<int>, mem: seq<Byte>) {
    |g.bytes| == 0 || (0 <= g.at && Loadable(frames, mem, g.at, |g.bytes|))
  }

  predicate ProgramLoadable(p: Program, frames: seq<int>, mem: seq<Byte>) {
    && |frames| == NumPages(p) && InMemory(frames, mem)
    && SegmentLoadable(p.code, frames, mem) && SegmentLoadable(p.data, frames, mem)
  }

  function Zeros(n: nat): (z: seq<Byte>)
    ensures |z| == n
  {
    seq<Byte>(n, _ => 0)
  }

  function Zeroed(mem: seq<Byte>, frames: seq<int>): (mem': seq<Byte>)
    ensures |mem'| == |mem|
  {
    seq(|mem|, x requires 0 <= x < |mem| => if x / PAGE_SIZE in frames then 0 else mem[x])
  }

  ghost function SegmentLoaded(mem: seq<Byte>, frames: seq<int>, g: Segment): (mem': seq<Byte>)
    requires SegmentLoadable(g, frames, mem)
    ensures |mem'| == |mem|
  {
    if g.bytes == [] then mem else Loaded(mem, frames, g.at, g.bytes)
  }

  /** Only the size of main memory matters for what can be loaded. */
  lemma LoadableAnywhere(g: Segment, frames: seq<int>, mem: seq<Byte>, mem': seq<Byte>)
    requires SegmentLoadable(g, frames, mem) && |mem'| == |mem|
    ensures SegmentLoadable(g, frames, mem')
  {
  }

  /** Main memory after the program was loaded into the frames. */
  ghost function ProgramLoaded(mem: seq<Byte>, frames: seq<int>, p: Program): (mem': seq<Byte>)
    requires ProgramLoadable(p, frames, mem)
    ensures |mem'| == |mem|
  {
    var blank := Zeroed(mem, frames);
    LoadableAnywhere(p.code, frames, mem, blank);
    var coded := SegmentLoaded(blank, frames, p.code);
    LoadableAnywhere(p.data, frames, mem, coded);
    SegmentLoaded(coded, frames, p.data)
  }

  // ---------------------------------------------------------------- when the image is right

  /** A space in frames `taken` now holds `view`, and no other frame changed. */
  ghost predicate Filled(mem: seq<Byte>, mem': seq<Byte>, taken: seq<int>, view: seq<Byte>) {
    OnlyFrames(mem, mem', taken) && InMemory(taken, mem') && View(mem', taken) == view
  }

  /** The segment crosses a page boundary only between frames that follow each other, or has a page of bytes. */
  predicate SegmentWell(g: Segment, frames: seq<int>)
    requires InSpace(g, |frames|)
  {
    |g.bytes| == 0 || LoadsWell(frames, g.at, |g.bytes|)
  }

  predicate ProgramWell(p: Program, frames: seq<int>)
    requires InSpace(p.code, |frames|) && InSpace(p.data, |frames|)
  {
    SegmentWell(p.code, frames) && SegmentWell(p.data, frames)
  }

  lemma ZeroedFilled(mem: seq<Byte>, frames: seq<int>)
    requires InMemory(frames, mem)
    ensures Filled(mem, Zeroed(mem, frames), frames, Zeros(PAGE_SIZE * |frames|))
  {
    var mem' := Zeroed(mem, frames);
    assert InMemory(frames, mem');
    forall a | 0 <= a < PAGE_SIZE * |frames|
      ensures ByteAt(mem', frames, a) == 0
    {
      PhysInMemory(frames, mem, a);
    }
  }

  lemma FilledIsZeroed(mem: seq<Byte>, mem': seq<Byte>, frames: seq<int>)
    requires InMemory(frames, mem) && Filled(mem, mem', frames, Zeros(PAGE_SIZE * |frames|))
    ensures mem' == Zeroed(mem, frames)
  {
    ZeroedFilled(mem, frames);
    var blank := Zeroed(mem, frames);
    SameViewWhen(blank, mem', frames);
    forall x | 0 <= x < |mem|
      ensures mem'[x] == blank[x]
    {
    }
  }

  /** The view with a segment put in place. */
  ghost function WithSegment(view: seq<Byte>, g: Segment): (r: seq<Byte>)
    requires g.bytes != [] ==> 0 <= g.at && g.at + |g.bytes| <= |view|
    ensures |r| == |view|
  {
    if g.bytes == [] then view else Patched(view, g.at, g.bytes)
  }

  lemma SegmentFilled(mem: seq<Byte>, mem': seq<Byte>, frames: seq<int>, view: seq<Byte>, g: Segment)
    requires Distinct(frames) && Filled(mem, mem', frames, view)
    requires SegmentLoadable(g, frames, mem') && SegmentWell(g, frames)
    ensures Filled(mem, SegmentLoaded(mem', frames, g), frames, WithSegment(view, g))
  {
    if g.bytes != [] {
      LoadedWell(mem', frames, g.at, g.bytes);
      OnlyFramesTransitive(mem, mem', Loaded(mem', frames, g.at, g.bytes), frames);
    }
  }

  lemma ImageLoaded(p: Program)
    requires InSpace(p.code, NumPages(p)) && InSpace(p.data, NumPages(p))
    ensures WithSegment(WithSegment(Zeros(PAGE_SIZE * NumPages(p)), p.code), p.data) == ImageOf(p)
  {
  }

  /** A program whose segments load well is seen as its flat image, and no other frame changes. */
  lemma ProgramFilled(mem: seq<Byte>, frames: seq<int>, p: Program)
    requires ProgramLoadable(p, frames, mem) && Distinct(frames) && ProgramWell(p, frames)
    ensures Filled(mem, ProgramLoaded(mem, frames, p), frames, ImageOf(p))
  {
    var blank, view := Zeroed(mem, frames), Zeros(PAGE_SIZE * |frames|);
    ZeroedFilled(mem, frames);
    LoadableAnywhere(p.code, frames, mem, blank);
    SegmentFilled(mem, blank, frames, view, p.code);
    var coded := SegmentLoaded(blank, frames, p.code);
    LoadableAnywhere(p.data, frames, mem, coded);
    SegmentFilled(mem, coded, frames, WithSegment(view, p.code), p.data);
    ImageLoaded(p);
  }

  // ---------------------------------------------------------------- what it does to other frames

  /** The byte that the segment leaves at a physical address outside the frames of its space. */
  function SegmentStray(g: Segment, frames: seq<int>, x: int): Option<Byte>
    requires InSpace(g, |frames|)
  {
    if |g.bytes| > 0 && Strays(frames, g.at, |g.bytes|, x) then Some(g.bytes[x - Phys(frames, g.at)]) else None
  }

  /** The data segment is loaded last. */
  function StrayByte(p: Program, frames: seq<int>, x: int): Option<Byte>
    requires InSpace(p.code, |frames|) && InSpace(p.data, |frames|)
  {
    var last := SegmentStray(p.data, frames, x);
    if last.Some? then last else SegmentStray(p.code, frames, x)
  }

  function Or(o: Option<Byte>, b: Byte): Byte {
    if o.Some? then o.value else b
  }

  /** The first byte past the boundary of a data segment that crosses. */
  lemma DataStrays(p: Program, frames: seq<int>)
    requires InSpace(p.code, |frames|) && InSpace(p.data, |frames|)
    requires |p.data.bytes| > 0 && Crosses(p.data.at, |p.data.bytes|)
    ensures
      var x := (frames[p.data.at / PAGE_SIZE] + 1) * PAGE_SIZE;
      StrayByte(p, frames, x) == Some(p.data.bytes[PAGE_SIZE - p.data.at % PAGE_SIZE])
  {
  }

  lemma SegmentOutside(mem: seq<Byte>, frames: seq<int>, g: Segment, x: int)
    requires SegmentLoadable(g, frames, mem) && Distinct(frames) && 0 <= x < |mem| && x / PAGE_SIZE !in frames
    ensures InSpace(g, |frames|)
    ensures SegmentLoaded(mem, frames, g)[x] == Or(SegmentStray(g, frames, x), mem[x])
  {
    if g.bytes != [] {
      LoadedOutside(mem, frames, g.at, g.bytes, x);
    }
  }

  /** Outside the frames of the space, loading a program changes exactly the bytes onto which it strays. */
  lemma ProgramOutside(mem: seq<Byte>, frames: seq<int>, p: Program, x: int)
    requires ProgramLoadable(p, frames, mem) && Distinct(frames) && 0 <= x < |mem| && x / PAGE_SIZE !in frames
    ensures ProgramLoaded(mem, frames, p)[x] == Or(StrayByte(p, frames, x), mem[x])
  {
    var blank := Zeroed(mem, frames);
    LoadableAnywhere(p.code, frames, mem, blank);
    SegmentOutside(blank, frames, p.code, x);
    var coded := SegmentLoaded(blank, frames, p.code);
    LoadableAnywhere(p.data, frames, mem, coded);
    SegmentOutside(coded, frames, p.data, x);
  }

  /** A program that loads well strays only within its own frames. */
  lemma WellStraysNowhere(p: Program, frames: seq<int>, x: int)
    requires InSpace(p.code, |frames|) && InSpace(p.data, |frames|) && ProgramWell(p, frames)
    requires x / PAGE_SIZE !in frames
    ensures StrayByte(p, frames, x).None?
  {
    SegmentWellStays(p.code, frames, x);
    SegmentWellStays(p.data, frames, x);
  }

  lemma SegmentWellStays(g: Segment, frames: seq<int>, x: int)
    requires InSpace(g, |frames|) && SegmentWell(g, frames) && x / PAGE_SIZE !in frames
    ensures SegmentStray(g, frames, x).None?
  {
    if |g.bytes| > 0 && Crosses(g.at, |g.bytes|) {
      NextFrameHolds(frames, g.at, |g.bytes|, x);
      assert frames[g.at / PAGE_SIZE + 1] in frames;
    }
  }

  /** A segment strays into the frame behind the one it starts in. */
  lemma NextFrameHolds(frames: seq<int>, a: nat, size: nat, x: int)
    requires a + size <= PAGE_SIZE * |frames|
    ensures Strays(frames, a, size, x) ==> x / PAGE_SIZE == frames[a / PAGE_SIZE] + 1
  {
    if Strays(frames, a, size, x) {
      var f := frames[a / PAGE_SIZE];
      assert (f + 1) * PAGE_SIZE <= x < (f + 1) * PAGE_SIZE + PAGE_SIZE;
    }
  }
}
