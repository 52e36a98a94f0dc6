// The calls of filesys/filesys.cc as the kernel executes them: directory and free map are fetched from their files,
// changed in memory, and flushed back sector by sector.  Each call is proved to be a step of FileSystems.
module FileSystemCalls {
  import opened Basics
  import opened Words
  import opened BitMaps
  import opened Files
  import opened Directories
  import opened FileSystems

  // ---------------------------------------------------------------- what the flushes add up to

  /** Taking the lowest clear sector for the header and then the data sectors is one first-fit allocation. */
  lemma TakeHeaderFirst(bits: seq<bool>, sector: int, bits': seq<bool>, data: seq<int>)
    requires 0 <= sector < |bits| && !bits[sector] && forall s :: 0 <= s < sector ==> bits[s]
    requires TakenFrom(bits[sector := true], bits', data)
    ensures TakenFrom(bits, bits', [sector] + data)
  {
    var all := [sector] + data;
    forall i | 0 <= i < |all|
      ensures 0 <= all[i] < |bits| && !bits[all[i]] && (i > 0 ==> all[i] == data[i - 1] && all[i] != sector)
    {
    }
    forall i, s | 0 <= i < |all| && 0 <= s < all[i]
      ensures bits[s] || s in all[..i]
    {
      if i > 0 {
        assert all[..i] == [sector] + data[..i - 1];
        assert bits[sector := true][s] || s in data[..i - 1];
      }
    }
  }

  lemma CreateFlushed(d: Image, d1: Image, d2: Image, d3: Image, name: seq<Byte>, size: nat, slot: int, sector: int,
                      h: FileMap, table: Table, bits: seq<bool>)
    requires SoundDisk(d) && h.numBytes == size
    requires AddedAt(View(d).table, table, slot, name, sector)
    requires 0 <= sector < NUM_SECTORS && TakenFrom(View(d).bits, bits, [sector] + Data(h))
    requires d1 == d[sector := EncodeHeader(h)]
    requires SameOutside(d1, d2, Data(Headers(d)[1])) && DecodeTable(Flat(d2, Headers(d)[1])) == table
    requires SameOutside(d2, d3, Data(Headers(d)[0])) && StoredBits(Flat(d3, Headers(d)[0])) == bits
    ensures SystemHeaders(Headers(d3)) && Headers(d3)[0] == Headers(d)[0] && Headers(d3)[1] == Headers(d)[1]
    ensures Created(View(d), View(d3), name, size, slot, sector)
    ensures SameOutside(d, d3, [sector] + SystemData(View(d)))
  {
    var v := View(d);
    SystemApart(v);
    assert ([sector] + Data(h))[0] == sector;
    assert sector !in SystemData(v) && sector != 0 && sector != 1 by {
      InBlock(v, -1, sector);
      assert !Owned(v, sector);
    }
    forall s | 0 <= s < NUM_SECTORS && s !in SystemData(v)
      ensures d3[s] == if s == sector then EncodeHeader(h) else d[s]
    {
    }
    HeaderRoundTrip(h);
    FlatFrame(d2, d3, v.headers[1], Data(v.headers[0]));
  }

  lemma RemoveFlushed(d: Image, d1: Image, d2: Image, name: seq<Byte>, i: int, table: Table, bits: seq<bool>)
    requires SoundDisk(d) && 0 <= i < NUM_DIR_ENTRIES && Matches(View(d).table, i, name)
    requires table == View(d).table[i := View(d).table[i].(inUse := false)]
    requires |bits| == NUM_SECTORS
    requires forall s :: 0 <= s < NUM_SECTORS ==> bits[s] == (View(d).bits[s] && s !in Block(View(d), i))
    requires SameOutside(d, d1, Data(Headers(d)[0])) && StoredBits(Flat(d1, Headers(d)[0])) == bits
    requires SameOutside(d1, d2, Data(Headers(d)[1])) && DecodeTable(Flat(d2, Headers(d)[1])) == table
    ensures SystemHeaders(Headers(d2)) && Headers(d2)[0] == Headers(d)[0] && Headers(d2)[1] == Headers(d)[1]
    ensures Removed(View(d), View(d2), name, i)
    ensures SameOutside(d, d2, SystemData(View(d)))
  {
    var v := View(d);
    SystemApart(v);
    forall s | 0 <= s < NUM_SECTORS && s !in SystemData(v)
      ensures d2[s] == d[s]
    {
    }
    FlatFrame(d1, d2, v.headers[0], Data(v.headers[1]));
  }

  /** A completed WriteAt through a handle to an existing file is a write step. */
  lemma WriteAtIsStep(d: Image, d': Image, i: int, position: nat, patch: seq<Byte>)
    requires SoundDisk(d) && 0 <= i < NUM_DIR_ENTRIES && View(d).table[i].inUse
    requires position + |patch| <= HeaderOf(d, i).numBytes
    requires SameOutside(d, d', Data(HeaderOf(d, i)))
    requires Flat(d', HeaderOf(d, i)) == Patched(Flat(d, HeaderOf(d, i)), position, patch)
    ensures Step(d, d') && SoundDisk(d')
  {
    assert WriteStep(d, d', i, position, patch);
    StepKeepsSound(d, d');
  }

  // ---------------------------------------------------------------- the calls

  /** The sector holds the header of a file of that size in those data sectors. */
  ghost predicate PlannedHeader(s: Sector, size: nat, data: seq<int>) {
    var h := DecodeHeader(s);
    s == EncodeHeader(h) && GoodHeader(h) && h.numBytes == size && Data(h) == data
  }

  class FileSystem {
    const disk: SynchDisk
    const freeMapFile: OpenFile
    const directoryFile: OpenFile

    /** Both system files are open on this disk. */
    ghost predicate Wired()
    {
      && freeMapFile.disk == disk && directoryFile.disk == disk
      && freeMapFile.hdr.numBytes == FREE_MAP_FILE_SIZE && directoryFile.hdr.numBytes == DIRECTORY_FILE_SIZE
    }

    ghost predicate Valid()
      reads disk
    {
      && Wired() && SoundDisk(disk.image)
      && freeMapFile.hdr == Headers(disk.image)[0] && directoryFile.hdr == Headers(disk.image)[1]
    }

    method FetchFreeMap() returns (m: BitMap)
      requires Wired()
      ensures fresh(m) && fresh(m.words) && m.Valid() && m.numBits == NUM_SECTORS
      ensures m.Bits() == StoredBits(Flat(disk.image, freeMapFile.hdr))
    {
      m := new BitMap(NUM_SECTORS);
      var buf := new Byte[FREE_MAP_FILE_SIZE];
      var n := freeMapFile.ReadAt(buf, 0, FREE_MAP_FILE_SIZE, 0);
      assert buf[..] == buf[0..FREE_MAP_FILE_SIZE] == Flat(disk.image, freeMapFile.hdr);
      var ws := BytesWords(buf[..]);
      forall i | 0 <= i < m.words.Length {
        m.words[i] := ws[i];
      }
      assert m.words[..] == ws;
    }

    method StoreFreeMap(m: BitMap)
      requires Wired() && m.Valid() && m.numBits == NUM_SECTORS
      modifies disk
      ensures SameOutside(old(disk.image), disk.image, Data(freeMapFile.hdr))
      ensures StoredBits(Flat(disk.image, freeMapFile.hdr)) == m.Bits()
    {
      var bytes := WordsBytes(m.words[..]);
      var n := freeMapFile.WriteAt(bytes, FREE_MAP_FILE_SIZE, 0);
      assert Flat(disk.image, freeMapFile.hdr) == bytes;
      WordsRoundTrip(m.words[..]);
    }

    method FetchDirectory() returns (dir: Directory)
      requires Wired()
      ensures fresh(dir) && dir.table == DecodeTable(Flat(disk.image, directoryFile.hdr))
    {
      dir := new Directory(seq(NUM_DIR_ENTRIES, _ => Entry(false, 0, seq(NAME_SIZE, _ => 0))));
      var buf := new Byte[DIRECTORY_FILE_SIZE];
      var n := directoryFile.ReadAt(buf, 0, DIRECTORY_FILE_SIZE, 0);
      assert buf[..] == buf[0..DIRECTORY_FILE_SIZE] == Flat(disk.image, directoryFile.hdr);
      dir.table := DecodeTable(buf[..]);
    }

    method StoreDirectory(dir: Directory)
      requires Wired()
      modifies disk
      ensures SameOutside(old(disk.image), disk.image, Data(directoryFile.hdr))
      ensures DecodeTable(Flat(disk.image, directoryFile.hdr)) == dir.table
    {
      var bytes := EncodeTable(dir.table);
      var n := directoryFile.WriteAt(bytes, DIRECTORY_FILE_SIZE, 0);
      assert Flat(disk.image, directoryFile.hdr) == bytes;
      TableRoundTrip(dir.table);
    }

    /** Succeeds exactly when it can; a failed call leaves the disk as it was. */
    method Create(name: seq<Byte>, initialSize: nat) returns (success: bool)
      requires Valid() && initialSize <= MAX_FILE_SIZE
      modifies disk
      ensures Valid()
      ensures CreateStep(old(disk.image), disk.image, name, initialSize, success)
    {
      ghost var d := disk.image;
      var directory := FetchDirectory();
      var index := directory.FindIndex(name);
      if index != -1 {
        return false;
      }
      var freeMap := FetchFreeMap();
      ghost var slot;
      var sector, hdr;
      success, sector, hdr, slot := Reserve(directory, freeMap, name, initialSize);
      if !success {
        return;
      }
      hdr.WriteBack(disk, sector);
      ghost var d1 := disk.image;
      StoreDirectory(directory);
      ghost var d2 := disk.image;
      StoreFreeMap(freeMap);
      CreateFlushed(d, d1, d2, disk.image, name, initialSize, slot, sector, hdr.View(), directory.table,
                    freeMap.Bits());
      CreateKeepsSound(View(d), View(disk.image), name, initialSize, slot, sector);
    }

    /** The part of Create that works on the copies in memory: a header sector, a directory slot, the data sectors. */
    method Reserve(directory: Directory, freeMap: BitMap, name: seq<Byte>, size: nat)
      returns (success: bool, sector: int, hdr: FileHeader, ghost slot: int)
      requires freeMap.Valid() && freeMap.numBits == NUM_SECTORS && size <= MAX_FILE_SIZE
      requires !Present(directory.table, name)
      modifies directory, freeMap.words
      ensures success <==> HasFreeSlot(old(directory.table))
                           && |ClearSet(old(freeMap.Bits()))| >= 1 + DivRoundUp(size, SECTOR_SIZE)
      ensures success ==>
                0 <= sector < NUM_SECTORS && AddedAt(old(directory.table), directory.table, slot, name, sector)
      ensures success ==> GoodHeader(hdr.View()) && hdr.numBytes == size
                          && TakenFrom(old(freeMap.Bits()), freeMap.Bits(), [sector] + Data(hdr.View()))
    {
      ghost var bits := freeMap.Bits();
      slot := -1;
      hdr := new FileHeader(Header(0, 0, seq(NUM_DIRECT, _ => 0)));
      sector := freeMap.Find();
      if sector == -1 {
        return false, sector, hdr, slot;
      }
      TakeOne(bits, sector);
      var added := directory.Add(name, sector);
      if !added {
        return false, sector, hdr, slot;
      }
      slot :| AddedAt(old(directory.table), directory.table, slot, name, sector);
      success := hdr.Allocate(freeMap, size);
      if success {
        TakeHeaderFirst(bits, sector, freeMap.Bits(), Data(hdr.View()));
      }
    }

    /** The handle of an existing file carries the header of the entry with that name. */
    method Open(name: seq<Byte>) returns (file: OpenFile?)
      requires Valid()
      ensures file == null <==> !Present(View(disk.image).table, name)
      ensures file != null ==> fresh(file) && file.disk == disk && file.seekPosition == 0
      ensures file != null ==>
                exists i :: 0 <= i < NUM_DIR_ENTRIES && Matches(View(disk.image).table, i, name)
                            && file.hdr == HeaderOf(disk.image, i)
    {
      var directory := FetchDirectory();
      var index := directory.FindIndex(name);
      if index == -1 {
        return null;
      }
      file := new OpenFile(disk, directory.table[index].sector);
    }

    /** Succeeds exactly when the name is there, and gives back every sector of the file. */
    method Remove(name: seq<Byte>) returns (success: bool)
      requires Valid()
      modifies disk
      ensures Valid()
      ensures RemoveStep(old(disk.image), disk.image, name, success)
    {
      ghost var d := disk.image;
      var directory := FetchDirectory();
      var index := directory.FindIndex(name);
      if index == -1 {
        return false;
      }
      var freeMap := FreeSectors(directory.table[index].sector, index);
      var removed := directory.Remove(name);
      ghost var i :| 0 <= i < NUM_DIR_ENTRIES && Matches(View(d).table, i, name)
                     && directory.table == View(d).table[i := View(d).table[i].(inUse := false)];
      OnlyMatch(View(d).table, name, i, index);
      StoreFreeMap(freeMap);
      ghost var d1 := disk.image;
      StoreDirectory(directory);
      RemoveFlushed(d, d1, disk.image, name, index, directory.table, freeMap.Bits());
      RemoveKeepsSound(View(d), View(disk.image), name, index);
      return true;
    }

    /** The middle of Remove: a copy of the free map in which the sectors of one file are given back. */
    method FreeSectors(sector: int, ghost index: int) returns (freeMap: BitMap)
      requires Valid() && 0 <= index < NUM_DIR_ENTRIES
      requires View(disk.image).table[index].inUse && sector == View(disk.image).table[index].sector
      ensures fresh(freeMap) && fresh(freeMap.words) && freeMap.Valid() && freeMap.numBits == NUM_SECTORS
      ensures forall s :: 0 <= s < NUM_SECTORS ==>
                freeMap.Bits()[s] == (View(disk.image).bits[s] && s !in Block(View(disk.image), index))
    {
      var fileHdr := new FileHeader(Header(0, 0, seq(NUM_DIRECT, _ => 0)));
      fileHdr.FetchFrom(disk, sector);
      freeMap := FetchFreeMap();
      OwnMarked(View(disk.image), index);
      fileHdr.Deallocate(freeMap);
      freeMap.Clear(sector);
    }

    /** Formats a disk, whatever it held: the two allocations that the source asserts cannot fail. */
    constructor Format(disk: SynchDisk)
      modifies disk
      ensures Valid() && this.disk == disk && FormattedDisk(disk.image)
    {
      var freeMap := PrepareDisk(disk);
      ghost var d := disk.image;
      var directory := new Directory(seq(NUM_DIR_ENTRIES, _ => Entry(false, 0, seq(NAME_SIZE, _ => 0))));
      this.disk := disk;
      freeMapFile := new OpenFile(disk, FREE_MAP_SECTOR);
      directoryFile := new OpenFile(disk, DIRECTORY_SECTOR);
      new;
      StoreFreeMap(freeMap);
      ghost var d1 := disk.image;
      StoreDirectory(directory);
      FormatFlushed(d, d1, disk.image, freeMapFile.hdr, directoryFile.hdr, directory.table, freeMap.Bits());
      FormattedIsSound(disk.image);
    }

    /** The headers of the two system files are planned and written. */
    static method PrepareDisk(disk: SynchDisk) returns (freeMap: BitMap)
      modifies disk
      ensures fresh(freeMap) && fresh(freeMap.words) && freeMap.Valid() && freeMap.numBits == NUM_SECTORS
      ensures forall s :: 0 <= s < NUM_SECTORS ==> (freeMap.Bits()[s] <==> s < 5)
      ensures PlannedHeader(disk.image[FREE_MAP_SECTOR], FREE_MAP_FILE_SIZE, [2])
      ensures PlannedHeader(disk.image[DIRECTORY_SECTOR], DIRECTORY_FILE_SIZE, [3, 4])
    {
      freeMap := new BitMap(NUM_SECTORS);
      var mapHdr := new FileHeader(Header(0, 0, seq(NUM_DIRECT, _ => 0)));
      var dirHdr := new FileHeader(Header(0, 0, seq(NUM_DIRECT, _ => 0)));
      PlanFormat(freeMap, mapHdr, dirHdr);
      HeaderRoundTrip(mapHdr.View());
      HeaderRoundTrip(dirHdr.View());
      mapHdr.WriteBack(disk, FREE_MAP_SECTOR);
      dirHdr.WriteBack(disk, DIRECTORY_SECTOR);
    }

    /** Marks the two header sectors and allocates the data sectors of the two system files. */
    static method PlanFormat(freeMap: BitMap, mapHdr: FileHeader, dirHdr: FileHeader)
      requires freeMap.Valid() && freeMap.numBits == NUM_SECTORS && freeMap.Bits() == seq(NUM_SECTORS, _ => false)
      requires mapHdr != dirHdr && |mapHdr.dataSectors| == NUM_DIRECT && |dirHdr.dataSectors| == NUM_DIRECT
      modifies freeMap.words, mapHdr, dirHdr
      ensures GoodHeader(mapHdr.View()) && mapHdr.numBytes == FREE_MAP_FILE_SIZE && Data(mapHdr.View()) == [2]
      ensures GoodHeader(dirHdr.View()) && dirHdr.numBytes == DIRECTORY_FILE_SIZE && Data(dirHdr.View()) == [3, 4]
      ensures forall s :: 0 <= s < NUM_SECTORS ==> (freeMap.Bits()[s] <==> s < 5)
    {
      freeMap.Mark(FREE_MAP_SECTOR);
      freeMap.Mark(DIRECTORY_SECTOR);
      ghost var bits := freeMap.Bits();
      SubsetSize({2}, ClearSet(bits));
      var ok := mapHdr.Allocate(freeMap, FREE_MAP_FILE_SIZE);
      assert ok;
      NextSectors(bits, freeMap.Bits(), Data(mapHdr.View()), 2);
      ghost var bits' := freeMap.Bits();
      SubsetSize({3, 4}, ClearSet(bits'));
      ok := dirHdr.Allocate(freeMap, DIRECTORY_FILE_SIZE);
      assert ok;
      NextSectors(bits', freeMap.Bits(), Data(dirHdr.View()), 3);
    }

    /** Mounts a disk that holds a file system. */
    constructor Mount(disk: SynchDisk)
      requires SoundDisk(disk.image)
      ensures Valid() && this.disk == disk
    {
      this.disk := disk;
      freeMapFile := new OpenFile(disk, FREE_MAP_SECTOR);
      directoryFile := new OpenFile(disk, DIRECTORY_SECTOR);
    }
  }

  lemma LowestFirst(bits: seq<bool>, bits': seq<bool>, data: seq<int>, i: int, s: int)
    requires TakenFrom(bits, bits', data) && 0 <= i < |data|
    requires 0 <= s < |bits| && !bits[s] && s !in data[..i]
    ensures data[i] <= s
  {
  }

  /** On a disk whose first k sectors are taken, first fit takes the next n. */
  lemma NextSectors(bits: seq<bool>, bits': seq<bool>, data: seq<int>, k: nat)
    requires TakenFrom(bits, bits', data)
    requires forall s :: 0 <= s < |bits| ==> (bits[s] <==> s < k)
    ensures forall i :: 0 <= i < |data| ==> data[i] == k + i
    ensures forall s :: 0 <= s < |bits| ==> (bits'[s] <==> s < k + |data|)
  {
    for i := 0 to |data|
      invariant forall j :: 0 <= j < i ==> data[j] == k + j
    {
      forall s | k <= s < k + i
        ensures s in data[..i]
      {
        assert data[..i][s - k] == s;
      }
      assert data[i] !in data[..i] && k + i !in data[..i];
      if k + i < |bits| {
        LowestFirst(bits, bits', data, i, k + i);
      }
    }
    forall s | 0 <= s < |bits|
      ensures s in data <==> k <= s < k + |data|
    {
      if k <= s < k + |data| {
        assert data[s - k] == s;
      }
    }
  }

  /** The image after both headers, the free map and the empty directory were written. */
  lemma FormatFlushed(d: Image, d1: Image, d2: Image, mapHdr: FileMap, dirHdr: FileMap, table: Table, bits: seq<bool>)
    requires Data(mapHdr) == [2] && mapHdr.numBytes == FREE_MAP_FILE_SIZE
    requires Data(dirHdr) == [3, 4] && dirHdr.numBytes == DIRECTORY_FILE_SIZE
    requires d[0] == EncodeHeader(mapHdr) && d[1] == EncodeHeader(dirHdr)
    requires SameOutside(d, d1, Data(mapHdr)) && StoredBits(Flat(d1, mapHdr)) == bits
    requires SameOutside(d1, d2, Data(dirHdr)) && DecodeTable(Flat(d2, dirHdr)) == table
    requires forall i :: 0 <= i < NUM_DIR_ENTRIES ==> !table[i].inUse
    requires |bits| == NUM_SECTORS && forall s :: 0 <= s < NUM_SECTORS ==> (bits[s] <==> s < 5)
    ensures Headers(d2)[0] == mapHdr && Headers(d2)[1] == dirHdr && FormattedDisk(d2)
  {
    HeaderRoundTrip(mapHdr);
    HeaderRoundTrip(dirHdr);
    assert d2[0] == d1[0] == d[0] && d2[1] == d1[1] == d[1];
    FlatFrame(d1, d2, mapHdr, Data(dirHdr));
  }

  /** The assertion in Deallocate holds: what an entry owns is marked. */
  lemma OwnMarked(v: Layout, i: int)
    requires Sound(v) && 0 <= i < NUM_DIR_ENTRIES && v.table[i].inUse
    ensures forall s :: s in Data(v.headers[v.table[i].sector]) ==> v.bits[s]
    ensures forall s :: s in Block(v, i) <==> s == v.table[i].sector || s in Data(v.headers[v.table[i].sector])
  {
    forall s | s in Data(v.headers[v.table[i].sector])
      ensures v.bits[s]
    {
      InBlock(v, i, s);
      assert Owned(v, s);
    }
    forall s
      ensures s in Block(v, i) <==> s == v.table[i].sector || s in Data(v.headers[v.table[i].sector])
    {
      InBlock(v, i, s);
    }
  }
}
