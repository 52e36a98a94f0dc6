// Main memory seen through a page table: the translation and the loading loop of userprog/addrspace.cc on values.  A
// page table is the sequence of the frames of its pages; the view of a space is what its program reads at each virtual
// address.
module Paging {
  import opened Basics
  import opened Words

  const PAGE_SIZE := 128
  const USER_STACK_SIZE := 1024

  // ---------------------------------------------------------------- translation and views

  predicate InMemory(frames: seq<int>, mem: seq<Byte>) {
    forall i :: 0 <= i < |frames| ==> 0 <= frames[i] && frames[i] * PAGE_SIZE + PAGE_SIZE <= |mem|
  }

  /** The physical address of a virtual address of the space. */
  function Phys(frames: seq<int>, a: nat): int
    requires a < PAGE_SIZE * |frames|
  {
    frames[a / PAGE_SIZE] * PAGE_SIZE + a % PAGE_SIZE
  }

  lemma PhysInMemory(frames: seq<int>, mem: seq<Byte>, a: nat)
    requires a < PAGE_SIZE * |frames| && InMemory(frames, mem)
    ensures 0 <= Phys(frames, a) < |mem| && Phys(frames, a) / PAGE_SIZE == frames[a / PAGE_SIZE]
    ensures Phys(frames, a) % PAGE_SIZE == a % PAGE_SIZE
  {
  }

  function ByteAt(mem: seq<Byte>, frames: seq<int>, a: nat): Byte
    requires a < PAGE_SIZE * |frames| && InMemory(frames, mem)
  {
    PhysInMemory(frames, mem, a);
    mem[Phys(frames, a)]
  }

  /** What the program of the space reads, address by address. */
  function View(mem: seq<Byte>, frames: seq<int>): (bytes: seq<Byte>)
    requires InMemory(frames, mem)
    ensures |bytes| == PAGE_SIZE * |frames|
  {
    seq(PAGE_SIZE * |frames|, a requires 0 <= a < PAGE_SIZE * |frames| => ByteAt(mem, frames, a))
  }

  /** No byte outside these frames differs. */
  ghost predicate OnlyFrames(mem: seq<Byte>, mem': seq<Byte>, frames: seq<int>) {
    |mem'| == |mem| && forall k :: 0 <= k < |mem| && mem'[k] != mem[k] ==> k / PAGE_SIZE in frames
  }

  predicate Apart(xs: seq<int>, ys: seq<int>) {
    forall i, j :: 0 <= i < |xs| && 0 <= j < |ys| ==> xs[i] != ys[j]
  }

  /** A space that shares no frame with the bytes that change sees no change. */
  lemma ApartKeepsView(mem: seq<Byte>, mem': seq<Byte>, touched: seq<int>, frames: seq<int>)
    requires OnlyFrames(mem, mem', touched) && InMemory(frames, mem) && Apart(frames, touched)
    ensures InMemory(frames, mem') && View(mem', frames) == View(mem, frames)
  {
    assert InMemory(frames, mem');
    forall a | 0 <= a < PAGE_SIZE * |frames|
      ensures ByteAt(mem', frames, a) == ByteAt(mem, frames, a)
    {
      PhysInMemory(frames, mem, a);
    }
  }

  // ---------------------------------------------------------------- runs of bytes through a page table

  /** The run of bytes lies in one page. */
  predicate InOnePage(a: nat, n: nat) {
    a % PAGE_SIZE + n <= PAGE_SIZE
  }

  /** Writing a run that lies in one page, at the translation of its first address, writes it into the view. */
  lemma PatchOnePage(mem: seq<Byte>, frames: seq<int>, a: nat, patch: seq<Byte>)
    requires InMemory(frames, mem) && Distinct(frames)
    requires 0 < |patch| && a + |patch| <= PAGE_SIZE * |frames| && InOnePage(a, |patch|)
    ensures 0 <= Phys(frames, a) && Phys(frames, a) + |patch| <= |mem|
    ensures Seen(mem, Patched(mem, Phys(frames, a), patch), frames, a, patch)
  {
    PhysInMemory(frames, mem, a);
    var pa := Phys(frames, a);
    var mem' := Patched(mem, pa, patch);
    assert InMemory(frames, mem');
    forall b | 0 <= b < PAGE_SIZE * |frames|
      ensures ByteAt(mem', frames, b) == Patched(View(mem, frames), a, patch)[b]
    {
      PhysInMemory(frames, mem, b);
      if a <= b < a + |patch| {
        assert Phys(frames, b) == pa + (b - a);
      } else {
        OutsideRun(mem, frames, a, |patch|, b);
      }
    }
    forall k | 0 <= k < |mem| && mem'[k] != mem[k]
      ensures k / PAGE_SIZE in frames
    {
      assert pa <= k < pa + |patch|;
      assert k / PAGE_SIZE == frames[a / PAGE_SIZE];
    }
  }

  lemma OutsideRun(mem: seq<Byte>, frames: seq<int>, a: nat, n: nat, b: nat)
    requires InMemory(frames, mem) && Distinct(frames)
    requires 0 < n && a + n <= PAGE_SIZE * |frames| && InOnePage(a, n)
    requires b < PAGE_SIZE * |frames| && !(a <= b < a + n)
    ensures !(Phys(frames, a) <= Phys(frames, b) < Phys(frames, a) + n)
  {
    PhysInMemory(frames, mem, a);
    PhysInMemory(frames, mem, b);
  }

  // ---------------------------------------------------------------- loading a segment

  /** The size of the next chunk in the loop of ReadFile. */
  function ChunkSize(a: nat, left: nat): nat {
    if left < PAGE_SIZE then left else PAGE_SIZE - a % PAGE_SIZE
  }

  /** Every chunk of the loop stays in the page it starts in. */
  predicate ChunksFit(a: nat, left: nat)
    decreases left
  {
    left == 0 || (InOnePage(a, ChunkSize(a, left)) && ChunksFit(a + ChunkSize(a, left), left - ChunkSize(a, left)))
  }

  /** The loop loads page by page exactly when the segment has a whole page of bytes or crosses no page boundary. */
  lemma {:induction false} ChunksFitWhen(a: nat, size: nat)
    ensures ChunksFit(a, size) <==> size >= PAGE_SIZE || InOnePage(a, size)
    decreases size
  {
    if size >= PAGE_SIZE {
      ChunksFitWhen(a + ChunkSize(a, size), size - ChunkSize(a, size));
    }
  }

  /** A segment shorter than a page that lies in two pages: its only chunk runs on past the page it starts in. */
  predicate Crosses(a: nat, size: nat) {
    size < PAGE_SIZE && !InOnePage(a, size)
  }

  /** The segment lies in the space and no chunk of the loop runs past the end of main memory. */
  predicate Loadable(frames: seq<int>, mem: seq<Byte>, a: nat, size: nat) {
    && InMemory(frames, mem) && a + size <= PAGE_SIZE * |frames|
    && (Crosses(a, size) ==> Phys(frames, a) + size <= |mem|)
  }

  /** Every chunk of the loop is copied to a place inside main memory. */
  predicate ChunksInside(frames: seq<int>, memorySize: nat, a: nat, left: nat)
    requires a + left <= PAGE_SIZE * |frames|
    decreases left
  {
    left == 0 ||
    (var n := ChunkSize(a, left);
     0 <= Phys(frames, a) && Phys(frames, a) + n <= memorySize && ChunksInside(frames, memorySize, a + n, left - n))
  }

  /** Loadable is exactly the absence of writes outside main memory. */
  lemma {:induction false} LoadableWhen(frames: seq<int>, mem: seq<Byte>, a: nat, size: nat)
    requires InMemory(frames, mem) && a + size <= PAGE_SIZE * |frames|
    ensures Loadable(frames, mem, a, size) <==> ChunksInside(frames, |mem|, a, size)
    decreases size
  {
    if size > 0 {
      PhysInMemory(frames, mem, a);
      var n := ChunkSize(a, size);
      LoadableWhen(frames, mem, a + n, size - n);
      assert size > n ==> (a + n) % PAGE_SIZE == 0 && !Crosses(a + n, size - n);
    }
  }

  /** A segment that crosses from a page in the last frame of main memory is written past the end of main memory. */
  lemma LastFrameOverruns(frames: seq<int>, mem: seq<Byte>, a: nat, size: nat)
    requires InMemory(frames, mem) && a + size <= PAGE_SIZE * |frames| && Crosses(a, size)
    requires frames[a / PAGE_SIZE] * PAGE_SIZE + PAGE_SIZE == |mem|
    ensures !ChunksInside(frames, |mem|, a, size)
  {
    LoadableWhen(frames, mem, a, size);
  }

  lemma LoadableChunk(frames: seq<int>, mem: seq<Byte>, a: nat, size: nat)
    requires Loadable(frames, mem, a, size) && size > 0
    ensures
      var n := ChunkSize(a, size);
      && 0 < n <= size && 0 <= Phys(frames, a) && Phys(frames, a) + n <= |mem|
      && (size > n ==> ChunksFit(a, size)) && Loadable(frames, mem, a + n, size - n)
  {
    PhysInMemory(frames, mem, a);
    ChunksFitWhen(a, size);
  }

  /** Main memory after the loop of ReadFile. */
  ghost function Loaded(mem: seq<Byte>, frames: seq<int>, a: nat, bytes: seq<Byte>): (mem': seq<Byte>)
    requires Loadable(frames, mem, a, |bytes|)
    ensures |mem'| == |mem|
    decreases |bytes|
  {
    if bytes == [] then mem else
      LoadableChunk(frames, mem, a, |bytes|);
      var n := ChunkSize(a, |bytes|);
      var mid := Patched(mem, Phys(frames, a), bytes[..n]);
      assert InMemory(frames, mid);
      Loaded(mid, frames, a + n, bytes[n..])
  }

  lemma PatchTwice(bytes: seq<Byte>, a: nat, patch: seq<Byte>, n: nat)
    requires n <= |patch| && a + |patch| <= |bytes|
    ensures Patched(Patched(bytes, a, patch[..n]), a + n, patch[n..]) == Patched(bytes, a, patch)
  {
  }

  lemma OnlyFramesTransitive(m0: seq<Byte>, m1: seq<Byte>, m2: seq<Byte>, frames: seq<int>)
    requires OnlyFrames(m0, m1, frames) && OnlyFrames(m1, m2, frames)
    ensures OnlyFrames(m0, m2, frames)
  {
    forall k | 0 <= k < |m0| && m2[k] != m0[k]
      ensures k / PAGE_SIZE in frames
    {
      assert m1[k] != m0[k] || m2[k] != m1[k];
    }
  }

  /** mem' is mem with the bytes put into the view at address a, and no other frame touched. */
  ghost predicate Seen(mem: seq<Byte>, mem': seq<Byte>, frames: seq<int>, a: nat, bytes: seq<Byte>)
    requires InMemory(frames, mem) && a + |bytes| <= PAGE_SIZE * |frames|
  {
    && OnlyFrames(mem, mem', frames) && InMemory(frames, mem')
    && View(mem', frames) == Patched(View(mem, frames), a, bytes)
  }

  lemma SeenInTurn(m0: seq<Byte>, m1: seq<Byte>, m2: seq<Byte>, frames: seq<int>, a: nat, bytes: seq<Byte>, n: nat)
    requires InMemory(frames, m0) && n <= |bytes| && a + |bytes| <= PAGE_SIZE * |frames|
    requires Seen(m0, m1, frames, a, bytes[..n]) && Seen(m1, m2, frames, a + n, bytes[n..])
    ensures Seen(m0, m2, frames, a, bytes)
  {
    PatchTwice(View(m0, frames), a, bytes, n);
    OnlyFramesTransitive(m0, m1, m2, frames);
  }

  lemma SeenNothing(mem: seq<Byte>, frames: seq<int>, a: nat)
    requires InMemory(frames, mem) && a <= PAGE_SIZE * |frames|
    ensures Seen(mem, mem, frames, a, [])
  {
    assert Patched(View(mem, frames), a, []) == View(mem, frames);
  }

  /** One turn of the loop. */
  lemma ChunkSeen(mem: seq<Byte>, frames: seq<int>, a: nat, bytes: seq<Byte>) returns (n: nat, mid: seq<Byte>)
    requires Loadable(frames, mem, a, |bytes|) && Distinct(frames) && ChunksFit(a, |bytes|) && bytes != []
    ensures 0 < n <= |bytes| && Seen(mem, mid, frames, a, bytes[..n])
    ensures Loadable(frames, mid, a + n, |bytes| - n) && ChunksFit(a + n, |bytes| - n)
    ensures Loaded(mem, frames, a, bytes) == Loaded(mid, frames, a + n, bytes[n..])
  {
    LoadableChunk(frames, mem, a, |bytes|);
    n := ChunkSize(a, |bytes|);
    mid := Patched(mem, Phys(frames, a), bytes[..n]);
    PatchOnePage(mem, frames, a, bytes[..n]);
  }

  /** A segment whose chunks fit is seen through the page table exactly where it belongs, whatever the frames. */
  lemma {:induction false} LoadedView(mem: seq<Byte>, frames: seq<int>, a: nat, bytes: seq<Byte>)
    requires Loadable(frames, mem, a, |bytes|) && Distinct(frames) && ChunksFit(a, |bytes|)
    ensures Seen(mem, Loaded(mem, frames, a, bytes), frames, a, bytes)
    decreases |bytes|
  {
    if bytes == [] {
      SeenNothing(mem, frames, a);
    } else {
      var n, mid := ChunkSeen(mem, frames, a, bytes);
      var rest := bytes[n..];
      LoadedView(mid, frames, a + n, rest);
      SeenInTurn(mem, mid, Loaded(mid, frames, a + n, rest), frames, a, bytes, n);
    }
  }

  // ---------------------------------------------------------------- segments that cross a page boundary

  /** Such a segment is one run of bytes in main memory. */
  lemma CrossingLoad(mem: seq<Byte>, frames: seq<int>, a: nat, bytes: seq<Byte>)
    requires Loadable(frames, mem, a, |bytes|) && Crosses(a, |bytes|)
    ensures 0 <= Phys(frames, a) && Phys(frames, a) + |bytes| <= |mem|
    ensures Loaded(mem, frames, a, bytes) == Patched(mem, Phys(frames, a), bytes)
    ensures InMemory(frames, Loaded(mem, frames, a, bytes))
  {
    LoadableChunk(frames, mem, a, |bytes|);
    assert ChunkSize(a, |bytes|) == |bytes| && bytes[..|bytes|] == bytes;
    assert InMemory(frames, Patched(mem, Phys(frames, a), bytes));
  }

  /** Its pages are in frames that follow each other, or it does not cross. */
  predicate LoadsWell(frames: seq<int>, a: nat, size: nat)
    requires a + size <= PAGE_SIZE * |frames|
  {
    Crosses(a, size) ==> frames[a / PAGE_SIZE + 1] == frames[a / PAGE_SIZE] + 1
  }

  /** The two parts of a segment that crosses between frames that follow each other. */
  lemma AdjacentParts(frames: seq<int>, a: nat, size: nat)
    requires a + size <= PAGE_SIZE * |frames| && Crosses(a, size) && LoadsWell(frames, a, size)
    ensures
      var k := PAGE_SIZE - a % PAGE_SIZE;
      && 0 < k < size && InOnePage(a, k) && InOnePage(a + k, size - k) && Phys(frames, a + k) == Phys(frames, a) + k
  {
    var k := PAGE_SIZE - a % PAGE_SIZE;
    assert a + k == (a / PAGE_SIZE + 1) * PAGE_SIZE;
  }

  /** Two pages in frames that follow each other are one run in main memory. */
  lemma AdjacentLoad(mem: seq<Byte>, frames: seq<int>, a: nat, bytes: seq<Byte>)
    requires Loadable(frames, mem, a, |bytes|) && Distinct(frames)
    requires Crosses(a, |bytes|) && LoadsWell(frames, a, |bytes|)
    ensures Seen(mem, Loaded(mem, frames, a, bytes), frames, a, bytes)
  {
    CrossingLoad(mem, frames, a, bytes);
    AdjacentParts(frames, a, |bytes|);
    AdjacentPatch(mem, frames, a, bytes, PAGE_SIZE - a % PAGE_SIZE);
  }

  lemma PatchAt(mem: seq<Byte>, frames: seq<int>, a: nat, pa: int, part: seq<Byte>) returns (mem': seq<Byte>)
    requires InMemory(frames, mem) && Distinct(frames)
    requires 0 < |part| && a + |part| <= PAGE_SIZE * |frames| && InOnePage(a, |part|) && pa == Phys(frames, a)
    ensures 0 <= pa && pa + |part| <= |mem| && mem' == Patched(mem, pa, part)
    ensures Seen(mem, mem', frames, a, part)
  {
    PatchOnePage(mem, frames, a, part);
    mem' := Patched(mem, pa, part);
  }

  lemma AdjacentPatch(mem: seq<Byte>, frames: seq<int>, a: nat, bytes: seq<Byte>, k: nat)
    requires InMemory(frames, mem) && Distinct(frames) && a + |bytes| <= PAGE_SIZE * |frames| && 0 < k < |bytes|
    requires InOnePage(a, k) && InOnePage(a + k, |bytes| - k) && Phys(frames, a + k) == Phys(frames, a) + k
    requires 0 <= Phys(frames, a) && Phys(frames, a) + |bytes| <= |mem|
    ensures Seen(mem, Patched(mem, Phys(frames, a), bytes), frames, a, bytes)
  {
    var pa := Phys(frames, a);
    var mid := PatchAt(mem, frames, a, pa, bytes[..k]);
    var mem' := PatchAt(mid, frames, a + k, pa + k, bytes[k..]);
    PatchTwice(mem, pa, bytes, k);
    SeenInTurn(mem, mid, mem', frames, a, bytes, k);
  }

  /** Otherwise the bytes past the page boundary reach some other page and never the one meant. */
  lemma UnfitLoad(mem: seq<Byte>, frames: seq<int>, a: nat, bytes: seq<Byte>)
    requires Loadable(frames, mem, a, |bytes|) && Distinct(frames) && !LoadsWell(frames, a, |bytes|)
    ensures
      var mem', next, k := Loaded(mem, frames, a, bytes), (a / PAGE_SIZE + 1) * PAGE_SIZE, PAGE_SIZE - a % PAGE_SIZE;
      && InMemory(frames, mem') && ByteAt(mem', frames, next) == ByteAt(mem, frames, next)
      && mem'[(frames[a / PAGE_SIZE] + 1) * PAGE_SIZE] == bytes[k]
  {
    CrossingLoad(mem, frames, a, bytes);
    PhysInMemory(frames, mem, a);
    PhysInMemory(frames, mem, (a / PAGE_SIZE + 1) * PAGE_SIZE);
  }

  /** The loop puts a segment where it belongs and touches no other frame, if it crosses only between frames that follow
      each other. */
  lemma LoadedWell(mem: seq<Byte>, frames: seq<int>, a: nat, bytes: seq<Byte>)
    requires Loadable(frames, mem, a, |bytes|) && Distinct(frames) && LoadsWell(frames, a, |bytes|)
    ensures Seen(mem, Loaded(mem, frames, a, bytes), frames, a, bytes)
  {
    ChunksFitWhen(a, |bytes|);
    if Crosses(a, |bytes|) {
      AdjacentLoad(mem, frames, a, bytes);
    } else {
      LoadedView(mem, frames, a, bytes);
    }
  }

  /** The segment is right in the view, whatever was in memory and whatever the segment holds. */
  ghost predicate LoadsRight(frames: seq<int>, a: nat, size: nat, memorySize: nat) {
    forall mem: seq<Byte>, bytes: seq<Byte> ::
      |mem| == memorySize && |bytes| == size && Loadable(frames, mem, a, size) ==>
        InMemory(frames, Loaded(mem, frames, a, bytes)) &&
        View(Loaded(mem, frames, a, bytes), frames) == Patched(View(mem, frames), a, bytes)
  }

  /** Two contents that show that a segment is not loaded right. */
  lemma UnfitIsWrong(frames: seq<int>, a: nat, size: nat, mem: seq<Byte>)
    requires Loadable(frames, mem, a, size) && Distinct(frames) && !LoadsWell(frames, a, size)
    requires forall k :: 0 <= k < |mem| ==> mem[k] == 0
    ensures !LoadsRight(frames, a, size, |mem|)
  {
    var bytes: seq<Byte> := seq<Byte>(size, _ => 1);
    UnfitLoad(mem, frames, a, bytes);
    var next := (a / PAGE_SIZE + 1) * PAGE_SIZE;
    var mem' := Loaded(mem, frames, a, bytes);
    PhysInMemory(frames, mem, next);
    assert View(mem', frames)[next] == 0;
    assert Patched(View(mem, frames), a, bytes)[next] == 1;
    assert View(mem', frames) != Patched(View(mem, frames), a, bytes);
  }

  /** For every page table: the loop is right for all contents if and only if the segment has a whole page of bytes, or
      lies in one page, or its two pages are in frames that follow each other. */
  lemma LoadsRightWhen(frames: seq<int>, a: nat, size: nat, memorySize: nat)
    requires Distinct(frames) && a + size <= PAGE_SIZE * |frames|
    requires forall i :: 0 <= i < |frames| ==> 0 <= frames[i] && frames[i] * PAGE_SIZE + PAGE_SIZE <= memorySize
    requires Crosses(a, size) ==> Phys(frames, a) + size <= memorySize
    ensures LoadsRight(frames, a, size, memorySize) <==>
            size >= PAGE_SIZE || InOnePage(a, size) || frames[a / PAGE_SIZE + 1] == frames[a / PAGE_SIZE] + 1
  {
    if LoadsWell(frames, a, size) {
      forall mem: seq<Byte>, bytes: seq<Byte> | |mem| == memorySize && |bytes| == size && Loadable(frames, mem, a, size)
        ensures InMemory(frames, Loaded(mem, frames, a, bytes))
        ensures View(Loaded(mem, frames, a, bytes), frames) == Patched(View(mem, frames), a, bytes)
      {
        LoadedWell(mem, frames, a, bytes);
      }
    } else {
      UnfitIsWrong(frames, a, size, seq<Byte>(memorySize, _ => 0));
    }
  }

  // ---------------------------------------------------------------- what loading does to other frames

  /** Physical address x is behind the frame in which the crossing segment starts, and the segment reaches it. */
  predicate Strays(frames: seq<int>, a: nat, size: nat, x: int)
    requires a + size <= PAGE_SIZE * |frames|
  {
    Crosses(a, size) && (frames[a / PAGE_SIZE] + 1) * PAGE_SIZE <= x < Phys(frames, a) + size
  }

  lemma BehindFrame(f: int, x: int)
    requires f * PAGE_SIZE <= x && x / PAGE_SIZE != f
    ensures (f + 1) * PAGE_SIZE <= x
  {
  }

  /** What became of byte x of main memory, outside the frames of the space. */
  ghost predicate StrayedOnly(mem: seq<Byte>, mem': seq<Byte>, frames: seq<int>, a: nat, bytes: seq<Byte>, x: int)
    requires a + |bytes| <= PAGE_SIZE * |frames| && 0 <= x < |mem|
  {
    && |mem'| == |mem|
    && (Strays(frames, a, |bytes|, x) ==>
          0 <= x - Phys(frames, a) < |bytes| && mem'[x] == bytes[x - Phys(frames, a)])
    && (!Strays(frames, a, |bytes|, x) ==> mem'[x] == mem[x])
  }

  lemma PatchedOutside(mem: seq<Byte>, frames: seq<int>, a: nat, bytes: seq<Byte>, x: int)
    requires InMemory(frames, mem) && a + |bytes| <= PAGE_SIZE * |frames| && Crosses(a, |bytes|)
    requires 0 <= Phys(frames, a) && Phys(frames, a) + |bytes| <= |mem|
    requires 0 <= x < |mem| && x / PAGE_SIZE != frames[a / PAGE_SIZE]
    ensures StrayedOnly(mem, Patched(mem, Phys(frames, a), bytes), frames, a, bytes, x)
  {
    PhysInMemory(frames, mem, a);
    if Phys(frames, a) <= x {
      BehindFrame(frames[a / PAGE_SIZE], x);
    }
  }

  lemma UncrossedOutside(mem: seq<Byte>, frames: seq<int>, a: nat, bytes: seq<Byte>, x: int)
    requires Loadable(frames, mem, a, |bytes|) && Distinct(frames) && !Crosses(a, |bytes|)
    requires 0 <= x < |mem| && x / PAGE_SIZE !in frames
    ensures Loaded(mem, frames, a, bytes)[x] == mem[x]
  {
    ChunksFitWhen(a, |bytes|);
    LoadedView(mem, frames, a, bytes);
  }

  /** Outside the frames of the space, loading changes exactly the bytes onto which the segment strays. */
  lemma LoadedOutside(mem: seq<Byte>, frames: seq<int>, a: nat, bytes: seq<Byte>, x: int)
    requires Loadable(frames, mem, a, |bytes|) && Distinct(frames) && 0 <= x < |mem| && x / PAGE_SIZE !in frames
    ensures StrayedOnly(mem, Loaded(mem, frames, a, bytes), frames, a, bytes, x)
  {
    if Crosses(a, |bytes|) {
      CrossingLoad(mem, frames, a, bytes);
      PatchedOutside(mem, frames, a, bytes, x);
    } else {
      UncrossedOutside(mem, frames, a, bytes, x);
    }
  }

  lemma FrameStart(frames: seq<int>, mem: seq<Byte>, f: int)
    requires InMemory(frames, mem) && f in frames
    ensures 0 <= f * PAGE_SIZE < |mem| && f * PAGE_SIZE / PAGE_SIZE == f
  {
  }

  /** A space sees the same exactly when all the bytes of its frames are the same. */
  lemma SameViewWhen(mem: seq<Byte>, mem': seq<Byte>, frames: seq<int>)
    requires InMemory(frames, mem) && |mem'| == |mem|
    ensures InMemory(frames, mem')
    ensures View(mem', frames) == View(mem, frames) <==>
            forall x :: 0 <= x < |mem| && x / PAGE_SIZE in frames ==> mem'[x] == mem[x]
  {
    assert InMemory(frames, mem');
    if View(mem', frames) == View(mem, frames) {
      forall x | 0 <= x < |mem| && x / PAGE_SIZE in frames
        ensures mem'[x] == mem[x]
      {
        var i :| 0 <= i < |frames| && frames[i] == x / PAGE_SIZE;
        var a := i * PAGE_SIZE + x % PAGE_SIZE;
        assert Phys(frames, a) == x;
        assert View(mem', frames)[a] == ByteAt(mem', frames, a) && View(mem, frames)[a] == ByteAt(mem, frames, a);
      }
    } else {
      var a :| 0 <= a < PAGE_SIZE * |frames| && View(mem', frames)[a] != View(mem, frames)[a];
      PhysInMemory(frames, mem, a);
      assert mem'[Phys(frames, a)] != mem[Phys(frames, a)];
    }
  }

  // ---------------------------------------------------------------- building a space page by page

  lemma PageOfView(mem: seq<Byte>, frames: seq<int>, i: nat)
    requires InMemory(frames, mem) && i < |frames|
    ensures View(mem, frames)[PAGE_SIZE * i..PAGE_SIZE * i + PAGE_SIZE] ==
            mem[frames[i] * PAGE_SIZE..frames[i] * PAGE_SIZE + PAGE_SIZE]
  {
  }

  /** Filling one more frame adds a page to the view. */
  lemma AppendPage(mem: seq<Byte>, frames: seq<int>, f: int, page: seq<Byte>)
    requires InMemory(frames + [f], mem) && f !in frames && |page| == PAGE_SIZE
    ensures InMemory(frames, mem) && 0 <= f * PAGE_SIZE <= |mem| - PAGE_SIZE
    ensures
      var mem' := Patched(mem, f * PAGE_SIZE, page);
      && InMemory(frames + [f], mem') && View(mem', frames + [f]) == View(mem, frames) + page
      && OnlyFrames(mem, mem', frames + [f])
  {
    var more := frames + [f];
    assert more[|frames|] == f;
    assert forall i :: 0 <= i < |frames| ==> more[i] == frames[i];
    var mem' := Patched(mem, f * PAGE_SIZE, page);
    assert InMemory(more, mem');
    forall a | 0 <= a < PAGE_SIZE * |more|
      ensures ByteAt(mem', more, a) == (View(mem, frames) + page)[a]
    {
      PhysInMemory(more, mem', a);
      if a < PAGE_SIZE * |frames| {
        PhysInMemory(frames, mem, a);
        assert frames[a / PAGE_SIZE] in frames;
      }
    }
  }

  lemma OnlyFramesMore(mem: seq<Byte>, mem': seq<Byte>, frames: seq<int>, f: int)
    requires OnlyFrames(mem, mem', frames)
    ensures OnlyFrames(mem, mem', frames + [f])
  {
  }
}
