// The timing of the simulated disk (machine/disk.cc): one sector passes under the head per rotation time, the head
// moves one track per seek time, and a track buffer keeps what has passed since the head reached the track.
module DiskTiming {
  import opened Files

  const SECTORS_PER_TRACK := 32
  const ROTATION_TIME := 500
  const SEEK_TIME := 500

  // ---------------------------------------------------------------- the source's computations

  function Track(sector: nat): nat {
    sector / SECTORS_PER_TRACK
  }

  function Abs(x: int): nat {
    if x < 0 then -x else x
  }

  function SeekFor(lastSector: nat, newSector: nat): nat {
    Abs(Track(newSector) - Track(lastSector)) * SEEK_TIME
  }

  /** From the end of the seek to the next sector boundary. */
  function RotationAfter(now: nat, seek: nat): nat {
    var over := (now + seek) % ROTATION_TIME;
    if over > 0 then ROTATION_TIME - over else 0
  }

  /** The first sector boundary after the seek. */
  function TimeAfter(now: nat, lastSector: nat, newSector: nat): nat {
    var seek := SeekFor(lastSector, newSector);
    now + seek + RotationAfter(now, seek)
  }

  function ModuloDiff(to: nat, from: nat): nat {
    (to % SECTORS_PER_TRACK - from % SECTORS_PER_TRACK + SECTORS_PER_TRACK) % SECTORS_PER_TRACK
  }

  /** Division that rounds toward zero. */
  function Quotient(x: int, y: nat): int
    requires y > 0
  {
    if x < 0 then -(-x / y) else x / y
  }

  /** The test that lets a read be served from the track buffer. */
  predicate Buffered(now: nat, lastSector: nat, bufferInit: nat, newSector: nat) {
    && SeekFor(lastSector, newSector) == 0
    && Quotient(TimeAfter(now, lastSector, newSector) - bufferInit, ROTATION_TIME) >
       ModuloDiff(newSector, bufferInit / ROTATION_TIME)
  }

  function UnbufferedLatency(now: nat, lastSector: nat, newSector: nat): nat {
    var seek := SeekFor(lastSector, newSector);
    var after := TimeAfter(now, lastSector, newSector);
    seek + (RotationAfter(now, seek) + ModuloDiff(newSector, after / ROTATION_TIME) * ROTATION_TIME) + ROTATION_TIME
  }

  function Latency(now: nat, lastSector: nat, bufferInit: nat, newSector: nat, writing: bool): nat {
    if !writing && Buffered(now, lastSector, bufferInit, newSector) then ROTATION_TIME
    else UnbufferedLatency(now, lastSector, newSector)
  }

  function BufferInitAfter(now: nat, lastSector: nat, bufferInit: nat, newSector: nat): nat {
    if SeekFor(lastSector, newSector) != 0 then TimeAfter(now, lastSector, newSector) else bufferInit
  }

  // ---------------------------------------------------------------- what the platter does

  /** At boundary time t the head starts to pass this sector of its track; one rotation time later it has passed it. */
  predicate StartsAt(t: nat, sector: nat) {
    t % 500 == 0 && t / 500 % 32 == sector % 32
  }

  /** Staying on a track of 32 sectors takes no seek, each track further takes 500, and back takes as long as there. */
  lemma SeekPerTrack(lastSector: nat, newSector: nat)
    ensures lastSector / 32 == newSector / 32 ==> SeekFor(lastSector, newSector) == 0
    ensures lastSector <= newSector ==> SeekFor(lastSector, newSector + 32) == SeekFor(lastSector, newSector) + 500
    ensures SeekFor(lastSector, newSector) == SeekFor(newSector, lastSector)
  {
    assert (newSector + 32) / 32 == newSector / 32 + 1;
  }

  lemma DiffReaches(k: nat, sector: nat)
    ensures
      var d := ModuloDiff(sector, k);
      d < SECTORS_PER_TRACK && (k + d) % SECTORS_PER_TRACK == sector % SECTORS_PER_TRACK
  {
  }

  /** No smaller distance reaches the sector. */
  lemma DiffIsLeast(k: nat, sector: nat, e: nat)
    requires (k + e) % SECTORS_PER_TRACK == sector % SECTORS_PER_TRACK
    ensures ModuloDiff(sector, k) <= e
  {
  }

  lemma TimeAfterIsBoundary(now: nat, lastSector: nat, newSector: nat)
    ensures
      var seek, after := SeekFor(lastSector, newSector), TimeAfter(now, lastSector, newSector);
      after % ROTATION_TIME == 0 && now + seek <= after < now + seek + ROTATION_TIME
  {
  }

  /** A request that is not served from the buffer completes when the head has just passed the target sector, for the
      first time after the seek, and so within one revolution of the first boundary. */
  lemma UnbufferedCompletion(now: nat, lastSector: nat, newSector: nat)
    ensures
      var after := TimeAfter(now, lastSector, newSector);
      var start := now + UnbufferedLatency(now, lastSector, newSector) - ROTATION_TIME;
      && after <= start < after + SECTORS_PER_TRACK * ROTATION_TIME && StartsAt(start, newSector)
      && forall t: nat :: after <= t && StartsAt(t, newSector) ==> start <= t
  {
    TimeAfterIsBoundary(now, lastSector, newSector);
    var after := TimeAfter(now, lastSector, newSector);
    var k := after / ROTATION_TIME;
    DiffReaches(k, newSector);
    var d := ModuloDiff(newSector, k);
    var start: nat := after + d * ROTATION_TIME;
    assert start / ROTATION_TIME == k + d;
    forall t: nat | after <= t && StartsAt(t, newSector)
      ensures start <= t
    {
      DiffIsLeast(k, newSector, t / ROTATION_TIME - k);
    }
  }

  /** The buffer test is exact: it succeeds if and only if the head is on the right track and has passed the
      whole sector since the buffer was started, before the next boundary. */
  lemma BufferedWhenPassed(now: nat, lastSector: nat, bufferInit: nat, newSector: nat)
    requires bufferInit % ROTATION_TIME == 0
    ensures Buffered(now, lastSector, bufferInit, newSector) <==>
            && Track(newSector) == Track(lastSector)
            && exists t: nat :: bufferInit <= t && t + ROTATION_TIME <= TimeAfter(now, lastSector, newSector)
                                && StartsAt(t, newSector)
  {
    TimeAfterIsBoundary(now, lastSector, newSector);
    var after := TimeAfter(now, lastSector, newSector);
    var k, n := bufferInit / ROTATION_TIME, after / ROTATION_TIME;
    DiffReaches(k, newSector);
    var first: nat := bufferInit + ModuloDiff(newSector, k) * ROTATION_TIME;
    assert first / ROTATION_TIME == k + ModuloDiff(newSector, k) && StartsAt(first, newSector);
    forall t: nat | bufferInit <= t && StartsAt(t, newSector)
      ensures first <= t
    {
      DiffIsLeast(k, newSector, t / ROTATION_TIME - k);
    }
    QuotientOfBoundaries(bufferInit, after);
  }

  lemma QuotientOfBoundaries(x: nat, y: nat)
    requires x % ROTATION_TIME == 0 && y % ROTATION_TIME == 0
    ensures Quotient(y - x, ROTATION_TIME) == y / ROTATION_TIME - x / ROTATION_TIME
  {
  }

  /** Every request takes at least the transfer time, and the track buffer never makes one slower. */
  lemma BufferNeverSlower(now: nat, lastSector: nat, bufferInit: nat, newSector: nat, writing: bool)
    ensures ROTATION_TIME <= Latency(now, lastSector, bufferInit, newSector, writing)
                          <= UnbufferedLatency(now, lastSector, newSector)
  {
  }

  // ---------------------------------------------------------------- the disk object

  class Disk {
    var image: Image
    var active: bool
    var lastSector: nat
    var bufferInit: nat

    /** The buffer was started on a sector boundary. */
    ghost predicate Valid()
      reads this
    {
      lastSector < NUM_SECTORS && bufferInit % ROTATION_TIME == 0
    }

    constructor (contents: Image)
      ensures Valid() && image == contents && !active && lastSector == 0 && bufferInit == 0
    {
      image, active, lastSector, bufferInit := contents, false, 0, 0;
    }

    method ReadRequest(sector: nat, now: nat) returns (data: Sector, ticks: nat)
      requires Valid() && !active && sector < NUM_SECTORS
      modifies this
      ensures Valid() && active && image == old(image) && data == image[sector] && lastSector == sector
      ensures ticks == Latency(now, old(lastSector), old(bufferInit), sector, false)
      ensures bufferInit == BufferInitAfter(now, old(lastSector), old(bufferInit), sector)
    {
      ticks := ComputeLatency(sector, false, now);
      data := image[sector];
      active := true;
      UpdateLast(sector, now);
    }

    method WriteRequest(sector: nat, data: Sector, now: nat) returns (ticks: nat)
      requires Valid() && !active && sector < NUM_SECTORS
      modifies this
      ensures Valid() && active && image == old(image)[sector := data] && lastSector == sector
      ensures ticks == Latency(now, old(lastSector), old(bufferInit), sector, true)
      ensures bufferInit == BufferInitAfter(now, old(lastSector), old(bufferInit), sector)
    {
      ticks := ComputeLatency(sector, true, now);
      image := image[sector := data];
      active := true;
      UpdateLast(sector, now);
    }

    method HandleInterrupt()
      requires Valid()
      modifies this`active
      ensures Valid() && !active
    {
      active := false;
    }

    /** The completion time follows from the position of the platter alone. */
    method ComputeLatency(sector: nat, writing: bool, now: nat) returns (ticks: nat)
      requires Valid()
      ensures ticks == Latency(now, lastSector, bufferInit, sector, writing)
      ensures (writing || Track(sector) != Track(lastSector)) ==> StartsAt(now + ticks - ROTATION_TIME, sector)
    {
      var seek := SeekFor(lastSector, sector);
      var rotation := RotationAfter(now, seek);
      var after := now + seek + rotation;
      UnbufferedCompletion(now, lastSector, sector);
      var passed := Quotient(after - bufferInit, ROTATION_TIME);
      if !writing && seek == 0 && passed > ModuloDiff(sector, bufferInit / ROTATION_TIME) {
        return ROTATION_TIME;
      }
      rotation := rotation + ModuloDiff(sector, after / ROTATION_TIME) * ROTATION_TIME;
      return seek + rotation + ROTATION_TIME;
    }

    method UpdateLast(sector: nat, now: nat)
      requires Valid() && sector < NUM_SECTORS
      modifies this`bufferInit, this`lastSector
      ensures Valid() && lastSector == sector
      ensures bufferInit == BufferInitAfter(now, old(lastSector), old(bufferInit), sector)
    {
      TimeAfterIsBoundary(now, lastSector, sector);
      var seek := SeekFor(lastSector, sector);
      if seek != 0 {
        bufferInit := now + seek + RotationAfter(now, seek);
      }
      lastSector := sector;
    }
  }

  // ---------------------------------------------------------------- runs of requests

  datatype Request = Request(now: nat, sector: nat)

  datatype Head = Head(lastSector: nat, bufferInit: nat)

  function HeadAfter(rs: seq<Request>): (h: Head)
    ensures h.bufferInit % ROTATION_TIME == 0
  {
    if rs == [] then Head(0, 0) else
      var h, r := HeadAfter(rs[..|rs| - 1]), rs[|rs| - 1];
      TimeAfterIsBoundary(r.now, h.lastSector, r.sector);
      Head(r.sector, BufferInitAfter(r.now, h.lastSector, h.bufferInit, r.sector))
  }

  /** The m-th request brought the head to the track it has not left since, and the buffer was started on its arrival
      there (0 stands for the start of the run). */
  ghost predicate StayedSince(rs: seq<Request>, m: nat) {
    && m <= |rs| && (forall k :: m <= k < |rs| ==> Track(rs[k].sector) == Track(HeadAfter(rs).lastSector))
    && HeadAfter(rs).bufferInit == Arrival(rs[..m])
    && Track(HeadAfter(rs[..m]).lastSector) == Track(HeadAfter(rs).lastSector)
  }

  /** When the last request of the run has the head on its track, on a sector boundary. */
  function Arrival(rs: seq<Request>): nat {
    if rs == [] then 0 else
      TimeAfter(rs[|rs| - 1].now, HeadAfter(rs[..|rs| - 1]).lastSector, rs[|rs| - 1].sector)
  }

  lemma {:induction false} BufferSinceArrival(rs: seq<Request>) returns (m: nat)
    ensures StayedSince(rs, m)
  {
    m := |rs|;
    assert rs[..m] == rs;
    if rs != [] {
      var n := |rs| - 1;
      var before := rs[..n];
      if SeekFor(HeadAfter(before).lastSector, rs[n].sector) == 0 {
        m := BufferSinceArrival(before);
        assert rs[..m] == before[..m];
        assert forall k :: m <= k < n ==> rs[k] == before[k];
      }
    }
  }
}
