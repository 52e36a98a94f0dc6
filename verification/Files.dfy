// Files on a sector disk: the header of filesys/filehdr.cc, which lists the scattered sectors of a file, and the
// unaligned reads and writes of filesys/openfile.cc, specified against the flat byte contents of the file.
module Files {
  import opened Words
  import opened BitMaps

  const SECTOR_SIZE := 128
  const NUM_SECTORS := 1024
  const NUM_DIRECT := 30
  const MAX_FILE_SIZE := 3840

  type Sector = s: seq<Byte> | |s| == SECTOR_SIZE witness seq(SECTOR_SIZE, _ => 0)

  /** The contents of the whole disk. */
  type Image = d: seq<Sector> | |d| == NUM_SECTORS witness seq<Sector>(NUM_SECTORS, _ => BlankSector())

  function BlankSector(): Sector {
    seq(SECTOR_SIZE, _ => 0)
  }

  // ---------------------------------------------------------------- headers as values

  datatype Header = Header(numBytes: Int32, numSectors: Int32, dataSectors: seq<Int32>)

  /** What every header of an existing file satisfies: sector numbers are in range and pairwise distinct. */
  predicate GoodHeader(h: Header) {
    && |h.dataSectors| == NUM_DIRECT
    && 0 <= h.numBytes <= MAX_FILE_SIZE
    && h.numSectors == DivRoundUp(h.numBytes, SECTOR_SIZE)
    && (forall i :: 0 <= i < h.numSectors ==> 0 <= h.dataSectors[i] < NUM_SECTORS)
    && (forall i, j :: 0 <= i < j < h.numSectors ==> h.dataSectors[i] != h.dataSectors[j])
  }

  type FileMap = h: Header | GoodHeader(h) witness Header(0, 0, seq(NUM_DIRECT, _ => 0))

  /** The sectors that hold the bytes of the file. */
  function Data(h: FileMap): seq<int> {
    h.dataSectors[..h.numSectors]
  }

  /** A header fills one sector exactly: two counts and NUM_DIRECT sector numbers. */
  function EncodeHeader(h: Header): Sector
    requires |h.dataSectors| == NUM_DIRECT
  {
    IntsBytes([h.numBytes, h.numSectors] + h.dataSectors)
  }

  function DecodeHeader(s: Sector): (h: Header)
    ensures |h.dataSectors| == NUM_DIRECT
  {
    var ints := BytesInts(s);
    Header(ints[0], ints[1], ints[2..])
  }

  lemma HeaderRoundTrip(h: Header)
    requires |h.dataSectors| == NUM_DIRECT
    ensures DecodeHeader(EncodeHeader(h)) == h
  {
    IntsRoundTrip([h.numBytes, h.numSectors] + h.dataSectors);
  }

  /** The flat contents of a file: byte k sits in the data sector with index k / SECTOR_SIZE. */
  ghost function Flat(d: Image, h: FileMap): (bytes: seq<Byte>)
    ensures |bytes| == h.numBytes
  {
    seq(h.numBytes, k requires 0 <= k < h.numBytes => d[h.dataSectors[k / SECTOR_SIZE]][k % SECTOR_SIZE])
  }

  /** How many bytes a request moves: the most that was asked for and that lies inside the file. */
  function Clipped(length: nat, numBytes: int, position: nat): (n: nat)
    ensures n > 0 ==> position + n <= length && n <= numBytes
    ensures n < numBytes ==> position + n >= length
  {
    if numBytes <= 0 || position >= length then 0
    else if position + numBytes > length then length - position
    else numBytes
  }

  /** Sectors outside `data` are the same in both images. */
  ghost predicate SameOutside(d: Image, d': Image, data: seq<int>) {
    forall s :: 0 <= s < NUM_SECTORS && s !in data ==> d'[s] == d[s]
  }

  /** A file whose sectors were not touched keeps its contents. */
  lemma FlatFrame(d: Image, d': Image, h: FileMap, data: seq<int>)
    requires SameOutside(d, d', data)
    requires forall s :: s in Data(h) ==> s !in data
    ensures Flat(d', h) == Flat(d, h)
  {
    forall k | 0 <= k < h.numBytes
      ensures d'[h.dataSectors[k / SECTOR_SIZE]] == d[h.dataSectors[k / SECTOR_SIZE]]
    {
      assert h.dataSectors[k / SECTOR_SIZE] == Data(h)[k / SECTOR_SIZE];
    }
  }

  // ---------------------------------------------------------------- the disk and memory copies

  /** The synchronous view of the disk: a request returns when the whole sector has been moved. */
  class SynchDisk {
    var image: Image

    constructor (contents: Image)
      ensures image == contents
    {
      image := contents;
    }

    method ReadSector(sector: int, buf: array<Byte>, at: nat)
      requires 0 <= sector < NUM_SECTORS && at + SECTOR_SIZE <= buf.Length
      modifies buf
      ensures buf[at..at + SECTOR_SIZE] == image[sector]
      ensures forall i :: 0 <= i < buf.Length && !(at <= i < at + SECTOR_SIZE) ==> buf[i] == old(buf[i])
    {
      CopyBytes(image[sector], buf, at);
    }

    method WriteSector(sector: int, data: seq<Byte>)
      requires 0 <= sector < NUM_SECTORS && |data| == SECTOR_SIZE
      modifies this
      ensures image == old(image)[sector := data]
    {
      image := image[sector := data];
    }
  }

  // ---------------------------------------------------------------- allocation of the data sectors

  class FileHeader {
    var numBytes: Int32
    var numSectors: Int32
    var dataSectors: seq<Int32>

    ghost function View(): Header
      reads this
    {
      Header(numBytes, numSectors, dataSectors)
    }

    /** A header object before it is filled in: the words it holds are arbitrary. */
    constructor (garbage: Header)
      requires |garbage.dataSectors| == NUM_DIRECT
      ensures View() == garbage
    {
      numBytes, numSectors, dataSectors := garbage.numBytes, garbage.numSectors, garbage.dataSectors;
    }

    method Allocate(freeMap: BitMap, fileSize: nat) returns (ok: bool)
      requires freeMap.Valid() && freeMap.numBits == NUM_SECTORS
      requires fileSize <= MAX_FILE_SIZE && |dataSectors| == NUM_DIRECT
      modifies this, freeMap.words
      ensures |dataSectors| == NUM_DIRECT
      ensures ok <==> |ClearSet(old(freeMap.Bits()))| >= DivRoundUp(fileSize, SECTOR_SIZE)
      ensures !ok ==> freeMap.Bits() == old(freeMap.Bits())
      ensures ok ==> GoodHeader(View()) && numBytes == fileSize && 128 * (numSectors - 1) < fileSize <= 128 * numSectors
      ensures ok ==> TakenFrom(old(freeMap.Bits()), freeMap.Bits(), Data(View()))
    {
      numBytes := fileSize;
      numSectors := DivRoundUp(fileSize, SECTOR_SIZE);
      var clear := freeMap.NumClear();
      if clear < numSectors {
        return false;
      }
      TakeSectors(freeMap, clear);
      return true;
    }

    /** The loop of Allocate. */
    method TakeSectors(freeMap: BitMap, ghost clear: nat)
      requires freeMap.Valid() && freeMap.numBits == NUM_SECTORS
      requires |dataSectors| == NUM_DIRECT && 0 <= numSectors <= NUM_DIRECT
      requires numSectors <= clear == |ClearSet(freeMap.Bits())|
      modifies this`dataSectors, freeMap.words
      ensures |dataSectors| == NUM_DIRECT
      ensures TakenFrom(old(freeMap.Bits()), freeMap.Bits(), dataSectors[..numSectors])
    {
      var i := 0;
      while i < numSectors
        invariant 0 <= i <= numSectors && |dataSectors| == NUM_DIRECT
        invariant TakenFrom(old(freeMap.Bits()), freeMap.Bits(), dataSectors[..i])
        invariant |ClearSet(freeMap.Bits())| == clear - i
      {
        ghost var before, taken := freeMap.Bits(), dataSectors[..i];
        var sector := freeMap.Find();
        TakeOne(before, sector);
        TakeAnother(old(freeMap.Bits()), before, taken, sector);
        dataSectors := dataSectors[i := sector];
        assert dataSectors[..i + 1] == taken + [sector];
        i := i + 1;
      }
    }

    /** The source asserts that each sector it frees is marked; the assertion below is that check. */
    method Deallocate(freeMap: BitMap)
      requires freeMap.Valid() && freeMap.numBits == NUM_SECTORS && GoodHeader(View())
      requires forall s :: s in Data(View()) ==> freeMap.Bits()[s]
      modifies freeMap.words
      ensures forall s :: 0 <= s < NUM_SECTORS ==>
                freeMap.Bits()[s] == (old(freeMap.Bits())[s] && s !in Data(View()))
    {
      ghost var data := Data(View());
      for i := 0 to numSectors
        invariant forall s :: 0 <= s < NUM_SECTORS ==>
                    freeMap.Bits()[s] == (old(freeMap.Bits())[s] && s !in data[..i])
      {
        assert data[..i + 1] == data[..i] + [data[i]];
        var marked := freeMap.Test(dataSectors[i]);
        assert marked;
        freeMap.Clear(dataSectors[i]);
      }
      assert data[..numSectors] == data;
    }

    method FetchFrom(disk: SynchDisk, sector: int)
      requires 0 <= sector < NUM_SECTORS
      modifies this
      ensures View() == DecodeHeader(disk.image[sector])
    {
      var buf := new Byte[SECTOR_SIZE];
      disk.ReadSector(sector, buf, 0);
      assert buf[..] == disk.image[sector];
      var h := DecodeHeader(buf[..]);
      numBytes, numSectors, dataSectors := h.numBytes, h.numSectors, h.dataSectors;
    }

    method WriteBack(disk: SynchDisk, sector: int)
      requires 0 <= sector < NUM_SECTORS && |dataSectors| == NUM_DIRECT
      modifies disk
      ensures disk.image == old(disk.image)[sector := EncodeHeader(View())]
    {
      disk.WriteSector(sector, EncodeHeader(Header(numBytes, numSectors, dataSectors)));
    }
  }

  /** The data sector holding a byte of the file. */
  function ByteToSector(h: FileMap, offset: nat): (s: int)
    requires offset < h.numSectors * SECTOR_SIZE
    ensures 0 <= s < NUM_SECTORS && s in Data(h)
  {
    assert h.dataSectors[offset / SECTOR_SIZE] == Data(h)[offset / SECTOR_SIZE];
    h.dataSectors[offset / SECTOR_SIZE]
  }

  /** The bytes are the contents of the data sectors from index firstSector on. */
  ghost predicate HoldsSectors(bytes: seq<Byte>, d: Image, h: FileMap, firstSector: nat) {
    firstSector + |bytes| / SECTOR_SIZE <= h.numSectors && |bytes| % SECTOR_SIZE == 0 &&
    forall k :: 0 <= k < |bytes| ==> bytes[k] == d[h.dataSectors[firstSector + k / SECTOR_SIZE]][k % SECTOR_SIZE]
  }

  /** The sectors that a request overlaps. */
  lemma SectorSpan(h: FileMap, position: nat, n: nat)
    requires 0 < n && position + n <= h.numBytes
    ensures
      var first, last := position / SECTOR_SIZE, (position + n - 1) / SECTOR_SIZE;
      && first <= last < h.numSectors && first * SECTOR_SIZE <= position
      && position + n <= first * SECTOR_SIZE + (1 + last - first) * SECTOR_SIZE
  {
  }

  lemma FetchedByte(d: Image, h: FileMap, buf: seq<Byte>, firstSector: nat, p: nat)
    requires HoldsSectors(buf, d, h, firstSector) && p < h.numBytes
    requires firstSector * SECTOR_SIZE <= p < firstSector * SECTOR_SIZE + |buf|
    ensures buf[p - firstSector * SECTOR_SIZE] == Flat(d, h)[p]
  {
    OffsetInSectors(p, firstSector);
  }

  /** The part of the buffer that belongs to a request is that part of the file. */
  lemma FetchedSlice(d: Image, h: FileMap, buf: seq<Byte>, firstSector: nat, position: nat, n: nat)
    requires HoldsSectors(buf, d, h, firstSector) && position + n <= h.numBytes
    requires firstSector * SECTOR_SIZE <= position && position + n <= firstSector * SECTOR_SIZE + |buf|
    ensures
      var start := position - firstSector * SECTOR_SIZE;
      buf[start..start + n] == Flat(d, h)[position..position + n]
  {
    var start := position - firstSector * SECTOR_SIZE;
    var got, wanted := buf[start..start + n], Flat(d, h)[position..position + n];
    forall k | 0 <= k < n
      ensures got[k] == wanted[k]
    {
      FetchedByte(d, h, buf, firstSector, position + k);
    }
  }

  // ---------------------------------------------------------------- open files

  /** The header is brought into memory when the file is opened and does not change while it is open. */
  class OpenFile {
    const disk: SynchDisk
    const hdr: FileMap
    var seekPosition: nat

    constructor (disk: SynchDisk, sector: int)
      requires 0 <= sector < NUM_SECTORS && GoodHeader(DecodeHeader(disk.image[sector]))
      ensures this.disk == disk && hdr == DecodeHeader(disk.image[sector]) && seekPosition == 0
    {
      var header := new FileHeader(Header(0, 0, seq(NUM_DIRECT, _ => 0)));
      header.FetchFrom(disk, sector);
      this.disk := disk;
      this.hdr := Header(header.numBytes, header.numSectors, header.dataSectors);
      seekPosition := 0;
    }

    /** Reads into `into` from index `at` on; only the clipped range of the file is delivered. */
    method ReadAt(into: array<Byte>, at: nat, numBytes: int, position: nat) returns (n: nat)
      requires at + Clipped(hdr.numBytes, numBytes, position) <= into.Length
      modifies into
      ensures n == Clipped(hdr.numBytes, numBytes, position)
      ensures n > 0 ==> into[at..at + n] == Flat(disk.image, hdr)[position..position + n]
      ensures forall i :: 0 <= i < into.Length && !(at <= i < at + n) ==> into[i] == old(into[i])
    {
      var fileLength := hdr.numBytes;
      if numBytes <= 0 || position >= fileLength {
        return 0;
      }
      n := if position + numBytes > fileLength then fileLength - position else numBytes;
      var bytes := FetchRange(position, n);
      CopyBytes(bytes, into, at);
    }

    /** The part of ReadAt that is left when the request is clipped. */
    method FetchRange(position: nat, n: nat) returns (bytes: seq<Byte>)
      requires 0 < n && position + n <= hdr.numBytes
      ensures bytes == Flat(disk.image, hdr)[position..position + n]
    {
      var firstSector := position / SECTOR_SIZE;
      var lastSector := (position + n - 1) / SECTOR_SIZE;
      SectorSpan(hdr, position, n);
      var buf := FetchSectors(firstSector, lastSector);
      var start := position - firstSector * SECTOR_SIZE;
      FetchedSlice(disk.image, hdr, buf, firstSector, position, n);
      bytes := buf[start..start + n];
    }

    /** The loop of ReadAt: all the full and partial sectors of a request, one after the other. */
    method FetchSectors(firstSector: nat, lastSector: nat) returns (bytes: seq<Byte>)
      requires firstSector <= lastSector < hdr.numSectors
      ensures |bytes| == (1 + lastSector - firstSector) * SECTOR_SIZE
      ensures HoldsSectors(bytes, disk.image, hdr, firstSector)
    {
      var buf := new Byte[(1 + lastSector - firstSector) * SECTOR_SIZE];
      var i := firstSector;
      while i <= lastSector
        invariant firstSector <= i <= lastSector + 1
        invariant forall k :: 0 <= k < (i - firstSector) * SECTOR_SIZE ==>
                    buf[k] == disk.image[hdr.dataSectors[firstSector + k / SECTOR_SIZE]][k % SECTOR_SIZE]
      {
        var at := (i - firstSector) * SECTOR_SIZE;
        disk.ReadSector(ByteToSector(hdr, i * SECTOR_SIZE), buf, at);
        assert forall k :: at <= k < at + SECTOR_SIZE ==> buf[k] == buf[at..at + SECTOR_SIZE][k - at];
        i := i + 1;
      }
      bytes := buf[..];
    }

    /** Overwrites the clipped range of the file and nothing else, whatever the alignment. */
    method WriteAt(from: seq<Byte>, numBytes: int, position: nat) returns (n: nat)
      requires Clipped(hdr.numBytes, numBytes, position) <= |from|
      modifies disk
      ensures n == Clipped(hdr.numBytes, numBytes, position)
      ensures n == 0 ==> disk.image == old(disk.image)
      ensures n > 0 ==> Flat(disk.image, hdr) == Patched(Flat(old(disk.image), hdr), position, from[..n])
      ensures SameOutside(old(disk.image), disk.image, Data(hdr))
    {
      var fileLength := hdr.numBytes;
      if numBytes <= 0 || position >= fileLength {
        return 0;
      }
      n := if position + numBytes > fileLength then fileLength - position else numBytes;
      StoreRange(from[..n], position);
    }

    /** The part of WriteAt that is left when the request is clipped. */
    method StoreRange(patch: seq<Byte>, position: nat)
      requires |patch| > 0 && position + |patch| <= hdr.numBytes
      modifies disk
      ensures Flat(disk.image, hdr) == Patched(Flat(old(disk.image), hdr), position, patch)
      ensures SameOutside(old(disk.image), disk.image, Data(hdr))
    {
      var firstSector, buf := MergeSectors(patch, position);
      FlushSectors(Pieces(buf), firstSector);
      FlushedContents(old(disk.image), disk.image, hdr, buf, firstSector,
                      Patched(Flat(old(disk.image), hdr), position, patch));
    }

    /** The buffer of a write: the sectors to be written back, from index firstSector on, with the new bytes in
        place. */
    method MergeSectors(patch: seq<Byte>, position: nat) returns (firstSector: nat, bytes: seq<Byte>)
      requires |patch| > 0 && position + |patch| <= hdr.numBytes
      ensures |bytes| % SECTOR_SIZE == 0 && firstSector + |bytes| / SECTOR_SIZE <= hdr.numSectors
      ensures firstSector * SECTOR_SIZE <= position && position + |patch| <= firstSector * SECTOR_SIZE + |bytes|
      ensures BufferHolds(bytes, Patched(Flat(disk.image, hdr), position, patch), firstSector)
    {
      var n := |patch|;
      firstSector := position / SECTOR_SIZE;
      var lastSector := (position + n - 1) / SECTOR_SIZE;
      var buf := new Byte[(1 + lastSector - firstSector) * SECTOR_SIZE];
      FetchEdges(buf, firstSector, lastSector, position, n);
      ghost var edges := buf[..];
      CopyBytes(patch, buf, position - firstSector * SECTOR_SIZE);
      bytes := buf[..];
      MergedBuffer(edges, bytes, Flat(disk.image, hdr), patch, position, firstSector);
    }

    /** Brings in the first and the last sector of a write where they are to be modified only in part. */
    method FetchEdges(buf: array<Byte>, firstSector: nat, lastSector: nat, position: nat, n: nat)
      requires n > 0 && position + n <= hdr.numBytes
      requires firstSector == position / SECTOR_SIZE && lastSector == (position + n - 1) / SECTOR_SIZE
      requires buf.Length == (1 + lastSector - firstSector) * SECTOR_SIZE
      modifies buf
      ensures EdgesHold(buf[..], Flat(disk.image, hdr), position, n, firstSector)
    {
      var firstAligned := position == firstSector * SECTOR_SIZE;
      var lastAligned := position + n == (lastSector + 1) * SECTOR_SIZE;
      if !firstAligned {
        ReadSectorInto(buf, firstSector, firstSector, 0);
      }
      if !lastAligned && (firstSector != lastSector || firstAligned) {
        ReadSectorInto(buf, lastSector, firstSector, (lastSector - firstSector) * SECTOR_SIZE);
      }
    }

    /** Brings the bytes of one data sector, as far as they belong to the file, to their place in the buffer. */
    method ReadSectorInto(buf: array<Byte>, sector: nat, ghost firstSector: nat, at: nat)
      requires firstSector <= sector < hdr.numSectors && at == (sector - firstSector) * SECTOR_SIZE
      requires at + SECTOR_SIZE <= buf.Length
      modifies buf
      ensures forall k :: at <= k < at + SECTOR_SIZE && firstSector * SECTOR_SIZE + k < hdr.numBytes ==>
                buf[k] == Flat(disk.image, hdr)[firstSector * SECTOR_SIZE + k]
      ensures forall k :: 0 <= k < buf.Length && !(at <= k < at + SECTOR_SIZE) ==> buf[k] == old(buf[k])
    {
      var read := ReadAt(buf, at, SECTOR_SIZE, sector * SECTOR_SIZE);
      SliceRun(buf[..], Flat(disk.image, hdr), at, at + read, firstSector);
    }

    /** The write-back loop of WriteAt. */
    method FlushSectors(pieces: seq<Sector>, firstSector: nat)
      requires firstSector + |pieces| <= hdr.numSectors
      modifies disk
      ensures SameOutside(old(disk.image), disk.image, Data(hdr))
      ensures Flushed(old(disk.image), disk.image, hdr, pieces, firstSector)
    {
      for i := 0 to |pieces|
        invariant SameOutside(old(disk.image), disk.image, Data(hdr))
        invariant Flushed(old(disk.image), disk.image, hdr, pieces[..i], firstSector)
      {
        disk.WriteSector(ByteToSector(hdr, (firstSector + i) * SECTOR_SIZE), pieces[i]);
      }
      assert pieces[..|pieces|] == pieces;
    }

    method Seek(position: nat)
      modifies this
      ensures seekPosition == position
    {
      seekPosition := position;
    }

    method Read(into: array<Byte>, numBytes: int) returns (n: nat)
      requires Clipped(hdr.numBytes, numBytes, seekPosition) <= into.Length
      modifies this, into
      ensures n == Clipped(hdr.numBytes, numBytes, old(seekPosition)) && seekPosition == old(seekPosition) + n
      ensures n > 0 ==> into[..n] == Flat(disk.image, hdr)[old(seekPosition)..seekPosition]
    {
      n := ReadAt(into, 0, numBytes, seekPosition);
      seekPosition := seekPosition + n;
    }

    method Write(from: seq<Byte>, numBytes: int) returns (n: nat)
      requires Clipped(hdr.numBytes, numBytes, seekPosition) <= |from|
      modifies this, disk
      ensures n == Clipped(hdr.numBytes, numBytes, old(seekPosition)) && seekPosition == old(seekPosition) + n
      ensures n > 0 ==> Flat(disk.image, hdr) == Patched(Flat(old(disk.image), hdr), old(seekPosition), from[..n])
      ensures SameOutside(old(disk.image), disk.image, Data(hdr))
    {
      n := WriteAt(from, numBytes, seekPosition);
      seekPosition := seekPosition + n;
    }
  }

  // ---------------------------------------------------------------- the buffer of a write

  /** The buffer holds the bytes of the file around the n bytes to be written at `position`. */
  ghost predicate EdgesHold(buf: seq<Byte>, flat: seq<Byte>, position: nat, n: nat, firstSector: nat) {
    forall k ::
      && 0 <= k < |buf| && firstSector * SECTOR_SIZE + k < |flat|
      && !(position <= firstSector * SECTOR_SIZE + k < position + n) ==>
        buf[k] == flat[firstSector * SECTOR_SIZE + k]
  }

  lemma SliceRun(buf: seq<Byte>, flat: seq<Byte>, lo: nat, hi: nat, firstSector: nat)
    requires lo <= hi <= |buf| && firstSector * SECTOR_SIZE + hi <= |flat|
    requires buf[lo..hi] == flat[firstSector * SECTOR_SIZE + lo..firstSector * SECTOR_SIZE + hi]
    ensures forall k :: lo <= k < hi ==> buf[k] == flat[firstSector * SECTOR_SIZE + k]
  {
    forall k | lo <= k < hi
      ensures buf[k] == flat[firstSector * SECTOR_SIZE + k]
    {
      assert buf[lo..hi][k - lo] == flat[firstSector * SECTOR_SIZE + lo..firstSector * SECTOR_SIZE + hi][k - lo];
    }
  }

  /** Every byte of the buffer that lies inside the file is the byte wanted there. */
  ghost predicate BufferHolds(buf: seq<Byte>, wanted: seq<Byte>, firstSector: nat) {
    forall k :: 0 <= k < |buf| && firstSector * SECTOR_SIZE + k < |wanted| ==>
      buf[k] == wanted[firstSector * SECTOR_SIZE + k]
  }

  /** The data sectors from index firstSector on hold the pieces, the others what they held. */
  ghost predicate Flushed(d: Image, d': Image, h: FileMap, pieces: seq<Sector>, firstSector: nat) {
    forall j :: 0 <= j < h.numSectors ==>
      d'[h.dataSectors[j]] ==
      if firstSector <= j < firstSector + |pieces| then pieces[j - firstSector] else d[h.dataSectors[j]]
  }

  /** A buffer cut into sectors. */
  function Pieces(buf: seq<Byte>): (pieces: seq<Sector>)
    requires |buf| % SECTOR_SIZE == 0
    ensures |pieces| == |buf| / SECTOR_SIZE
    ensures forall k :: 0 <= k < |buf| ==> pieces[k / SECTOR_SIZE][k % SECTOR_SIZE] == buf[k]
  {
    seq<Sector>(|buf| / SECTOR_SIZE, i requires 0 <= i < |buf| / SECTOR_SIZE =>
      buf[SECTOR_SIZE * i..SECTOR_SIZE * i + SECTOR_SIZE])
  }

  lemma MergedBuffer(edges: seq<Byte>, buf: seq<Byte>, flat: seq<Byte>, patch: seq<Byte>, position: nat,
                     firstSector: nat)
    requires |edges| == |buf| && position + |patch| <= |flat| && firstSector * SECTOR_SIZE <= position
    requires EdgesHold(edges, flat, position, |patch|, firstSector)
    requires
      var start := position - firstSector * SECTOR_SIZE;
      && start + |patch| <= |buf|
      && buf[start..start + |patch|] == patch
      && forall k :: 0 <= k < |buf| && !(start <= k < start + |patch|) ==> buf[k] == edges[k]
    ensures BufferHolds(buf, Patched(flat, position, patch), firstSector)
  {
    var start := position - firstSector * SECTOR_SIZE;
    assert forall k :: start <= k < start + |patch| ==> buf[k] == buf[start..start + |patch|][k - start];
  }

  lemma OffsetInSectors(p: int, firstSector: int)
    ensures (p - firstSector * SECTOR_SIZE) / SECTOR_SIZE == p / SECTOR_SIZE - firstSector
    ensures (p - firstSector * SECTOR_SIZE) % SECTOR_SIZE == p % SECTOR_SIZE
  {
  }

  lemma FlushedByte(d: Image, d': Image, h: FileMap, buf: seq<Byte>, firstSector: nat, p: nat)
    requires |buf| % SECTOR_SIZE == 0 && Flushed(d, d', h, Pieces(buf), firstSector) && p < h.numBytes
    ensures Flat(d', h)[p] ==
            if 0 <= p - firstSector * SECTOR_SIZE < |buf| then buf[p - firstSector * SECTOR_SIZE] else Flat(d, h)[p]
  {
    var k := p - firstSector * SECTOR_SIZE;
    OffsetInSectors(p, firstSector);
    if 0 <= k < |buf| {
      assert Pieces(buf)[k / SECTOR_SIZE][k % SECTOR_SIZE] == buf[k];
    }
  }

  /** Flushing a buffer that holds the wanted bytes gives the file the wanted contents. */
  lemma FlushedContents(d: Image, d': Image, h: FileMap, buf: seq<Byte>, firstSector: nat, wanted: seq<Byte>)
    requires |buf| % SECTOR_SIZE == 0 && Flushed(d, d', h, Pieces(buf), firstSector)
    requires |wanted| == h.numBytes && BufferHolds(buf, wanted, firstSector)
    requires forall p :: 0 <= p < |wanted| && !(firstSector * SECTOR_SIZE <= p < firstSector * SECTOR_SIZE + |buf|) ==>
               wanted[p] == Flat(d, h)[p]
    ensures Flat(d', h) == wanted
  {
    forall p | 0 <= p < h.numBytes
      ensures Flat(d', h)[p] == wanted[p]
    {
      FlushedByte(d, d', h, buf, firstSector, p);
    }
  }
}
