// The Nachos file system of filesys/filesys.cc.  The free map and the directory are themselves files on the disk, so
// the whole state is the disk image; a layout is what that image says when it is read the way the kernel reads it.
module FileSystems {
  import opened Basics
  import opened Words
  import opened BitMaps
  import opened Files
  import opened Directories

  const FREE_MAP_SECTOR := 0
  const DIRECTORY_SECTOR := 1
  const FREE_MAP_FILE_SIZE := 128

  // ---------------------------------------------------------------- what an image says

  datatype Layout = Layout(headers: seq<Header>, table: Table, bits: seq<bool>)

  ghost predicate SystemHeaders(headers: seq<Header>) {
    && |headers| == NUM_SECTORS
    && GoodHeader(headers[0]) && headers[0].numBytes == FREE_MAP_FILE_SIZE
    && GoodHeader(headers[1]) && headers[1].numBytes == DIRECTORY_FILE_SIZE
  }

  ghost function Headers(d: Image): (hs: seq<Header>)
    ensures |hs| == NUM_SECTORS
  {
    seq(NUM_SECTORS, s requires 0 <= s < NUM_SECTORS => DecodeHeader(d[s]))
  }

  /** The bits recorded in the contents of the free map file. */
  ghost function StoredBits(bytes: seq<Byte>): (bits: seq<bool>)
    requires |bytes| == FREE_MAP_FILE_SIZE
    ensures |bits| == NUM_SECTORS
  {
    BitsOf(BytesWords(bytes), NUM_SECTORS)
  }

  ghost function View(d: Image): Layout
    requires SystemHeaders(Headers(d))
  {
    var hs := Headers(d);
    Layout(hs, DecodeTable(Flat(d, hs[1])), StoredBits(Flat(d, hs[0])))
  }

  // ---------------------------------------------------------------- the global invariant

  /** Every header that the layout relies on is sound. */
  ghost predicate Named(v: Layout) {
    && SystemHeaders(v.headers) && |v.bits| == NUM_SECTORS
    && forall i :: 0 <= i < NUM_DIR_ENTRIES && v.table[i].inUse ==>
         0 <= v.table[i].sector < NUM_SECTORS && GoodHeader(v.headers[v.table[i].sector])
  }

  /** The sectors held by directory entry i, or, for i == -1, by the file system itself. */
  ghost function Block(v: Layout, i: int): seq<int>
    requires Named(v) && -1 <= i < NUM_DIR_ENTRIES
  {
    if i == -1 then [0, 1] + Data(v.headers[0]) + Data(v.headers[1])
    else if v.table[i].inUse then [v.table[i].sector] + Data(v.headers[v.table[i].sector])
    else []
  }

  ghost predicate Owned(v: Layout, s: int)
    requires Named(v)
  {
    exists i :: -1 <= i < NUM_DIR_ENTRIES && s in Block(v, i)
  }

  /** Sectors are owned at most once, the free map marks exactly the owned ones, and names are unique. */
  ghost predicate Sound(v: Layout) {
    && Named(v)
    && UniqueNames(v.table)
    && (forall i :: -1 <= i < NUM_DIR_ENTRIES ==> Distinct(Block(v, i)))
    && (forall i, j, s :: -1 <= i < j < NUM_DIR_ENTRIES && s in Block(v, i) ==> s !in Block(v, j))
    && (forall s :: 0 <= s < NUM_SECTORS ==> (v.bits[s] <==> Owned(v, s)))
  }

  ghost predicate SoundDisk(d: Image) {
    SystemHeaders(Headers(d)) && Sound(View(d))
  }

  // ---------------------------------------------------------------- the operations as relations

  /** The sectors of the two files that the file system keeps for itself. */
  ghost function SystemData(v: Layout): seq<int>
    requires SystemHeaders(v.headers)
  {
    Data(v.headers[0]) + Data(v.headers[1])
  }

  ghost predicate CanCreate(v: Layout, name: seq<Byte>, size: nat) {
    && !Present(v.table, name)
    && HasFreeSlot(v.table)
    && |ClearSet(v.bits)| >= 1 + DivRoundUp(size, SECTOR_SIZE)
  }

  /** The layout after a file of `size` bytes was entered at `slot` with its header in `sector`. */
  ghost predicate Created(v: Layout, v': Layout, name: seq<Byte>, size: nat, slot: int, sector: int)
    requires SystemHeaders(v.headers) && SystemHeaders(v'.headers)
  {
    && AddedAt(v.table, v'.table, slot, name, sector)
    && 0 <= sector < NUM_SECTORS
    && GoodHeader(v'.headers[sector]) && v'.headers[sector].numBytes == size
    && TakenFrom(v.bits, v'.bits, [sector] + Data(v'.headers[sector]))
    && (forall s :: 0 <= s < NUM_SECTORS && s != sector && s !in SystemData(v) ==> v'.headers[s] == v.headers[s])
  }

  ghost predicate CreateStep(d: Image, d': Image, name: seq<Byte>, size: nat, ok: bool)
    requires SystemHeaders(Headers(d))
  {
    && (ok <==> CanCreate(View(d), name, size))
    && (!ok ==> d' == d)
    && (ok ==> SystemHeaders(Headers(d')) && exists slot, sector ::
                 Created(View(d), View(d'), name, size, slot, sector)
                 && SameOutside(d, d', [sector] + SystemData(View(d))))
  }

  /** The layout after entry i was removed. */
  ghost predicate Removed(v: Layout, v': Layout, name: seq<Byte>, i: int)
    requires Named(v) && SystemHeaders(v'.headers)
  {
    && 0 <= i < NUM_DIR_ENTRIES && Matches(v.table, i, name)
    && v'.table == v.table[i := v.table[i].(inUse := false)]
    && |v'.bits| == NUM_SECTORS
    && (forall s :: 0 <= s < NUM_SECTORS ==> v'.bits[s] == (v.bits[s] && s !in Block(v, i)))
    && (forall s :: 0 <= s < NUM_SECTORS && s !in SystemData(v) ==> v'.headers[s] == v.headers[s])
  }

  ghost predicate RemoveStep(d: Image, d': Image, name: seq<Byte>, ok: bool)
    requires SystemHeaders(Headers(d)) && Named(View(d))
  {
    && (ok <==> Present(View(d).table, name))
    && (!ok ==> d' == d)
    && (ok ==> SystemHeaders(Headers(d')) && (exists i :: Removed(View(d), View(d'), name, i))
               && SameOutside(d, d', SystemData(View(d))))
  }

  /** Bytes were written through a handle to the file of entry i. */
  ghost predicate WriteStep(d: Image, d': Image, i: int, position: nat, patch: seq<Byte>)
    requires SystemHeaders(Headers(d)) && Named(View(d))
  {
    && 0 <= i < NUM_DIR_ENTRIES && View(d).table[i].inUse
    && var h := View(d).headers[View(d).table[i].sector];
       && position + |patch| <= h.numBytes
       && SameOutside(d, d', Data(h))
       && Flat(d', h) == Patched(Flat(d, h), position, patch)
  }

  // ---------------------------------------------------------------- frames

  /** Headers and blocks stay the same when the sectors that hold them do. */
  lemma HeadersFrame(d: Image, d': Image, changed: seq<int>)
    requires SameOutside(d, d', changed)
    ensures forall s :: 0 <= s < NUM_SECTORS && s !in changed ==> Headers(d')[s] == Headers(d)[s]
  {
  }

  lemma InBlock(v: Layout, i: int, s: int)
    requires Named(v) && -1 <= i < NUM_DIR_ENTRIES
    ensures s in Block(v, i) <==>
            if i == -1 then s == 0 || s == 1 || s in Data(v.headers[0]) || s in Data(v.headers[1])
            else v.table[i].inUse && (s == v.table[i].sector || s in Data(v.headers[v.table[i].sector]))
  {
  }

  /** The fixed header sectors hold no data, and no file touches the sectors of the file system. */
  lemma SystemApart(v: Layout)
    requires Sound(v)
    ensures 0 !in SystemData(v) && 1 !in SystemData(v)
    ensures forall s :: s in Data(v.headers[0]) ==> s !in Data(v.headers[1])
    ensures forall i, s :: 0 <= i < NUM_DIR_ENTRIES && s in Block(v, i) ==> s !in SystemData(v) && s != 0 && s != 1
  {
    var block, bm, dir := Block(v, -1), Data(v.headers[0]), Data(v.headers[1]);
    assert block[0] == 0 && block[1] == 1;
    forall a | 0 <= a < |bm|
      ensures block[2 + a] == bm[a] && bm[a] != 0 && bm[a] != 1
    {
    }
    forall a | 0 <= a < |dir|
      ensures block[2 + |bm| + a] == dir[a] && dir[a] != 0 && dir[a] != 1 && dir[a] !in bm
    {
    }
    forall i, s | 0 <= i < NUM_DIR_ENTRIES && s in Block(v, i)
      ensures s !in SystemData(v) && s != 0 && s != 1
    {
      assert s !in Block(v, -1);
      InBlock(v, -1, s);
    }
  }

  /** A block none of whose headers changed is the same block. */
  lemma BlockFrame(v: Layout, v': Layout, i: int)
    requires Sound(v) && Named(v') && -1 <= i < NUM_DIR_ENTRIES
    requires i >= 0 ==> v'.table[i] == v.table[i]
    requires v'.headers[0] == v.headers[0] && v'.headers[1] == v.headers[1]
    requires i >= 0 && v.table[i].inUse ==> v'.headers[v.table[i].sector] == v.headers[v.table[i].sector]
    ensures Block(v', i) == Block(v, i)
  {
  }

  /** The header sector of a file is in its block, hence owned, marked and apart from the system's sectors. */
  lemma HeaderSectorOwned(v: Layout, i: int)
    requires Sound(v) && 0 <= i < NUM_DIR_ENTRIES && v.table[i].inUse
    ensures v.table[i].sector !in SystemData(v) && v.table[i].sector != 0 && v.table[i].sector != 1
    ensures v.bits[v.table[i].sector]
  {
    SystemApart(v);
    InBlock(v, i, v.table[i].sector);
    assert Owned(v, v.table[i].sector);
  }

  // ---------------------------------------------------------------- the invariant is kept

  lemma CreateKeepsNamed(v: Layout, v': Layout, name: seq<Byte>, size: nat, slot: int, sector: int)
    requires Sound(v) && SystemHeaders(v'.headers) && |v'.bits| == NUM_SECTORS
    requires Created(v, v', name, size, slot, sector)
    ensures Named(v') && v'.headers[0] == v.headers[0] && v'.headers[1] == v.headers[1]
    ensures forall i :: -1 <= i < NUM_DIR_ENTRIES && i != slot ==> Block(v', i) == Block(v, i)
    ensures Block(v', slot) == [sector] + Data(v'.headers[sector]) && Block(v, slot) == []
  {
    SystemApart(v);
    var block := [sector] + Data(v'.headers[sector]);
    assert block[0] == sector;
    InBlock(v, -1, 0);
    InBlock(v, -1, 1);
    assert Owned(v, 0) && Owned(v, 1);
    forall i | 0 <= i < NUM_DIR_ENTRIES && v.table[i].inUse
      ensures v'.headers[v.table[i].sector] == v.headers[v.table[i].sector]
    {
      HeaderSectorOwned(v, i);
    }
    forall i | -1 <= i < NUM_DIR_ENTRIES && i != slot
      ensures Block(v', i) == Block(v, i)
    {
      BlockFrame(v, v', i);
    }
  }

  lemma CreateKeepsSound(v: Layout, v': Layout, name: seq<Byte>, size: nat, slot: int, sector: int)
    requires Sound(v) && SystemHeaders(v'.headers) && |v'.bits| == NUM_SECTORS
    requires Created(v, v', name, size, slot, sector) && !Present(v.table, name)
    ensures Sound(v')
  {
    CreateKeepsNamed(v, v', name, size, slot, sector);
    var block := [sector] + Data(v'.headers[sector]);
    forall i, s | -1 <= i < NUM_DIR_ENTRIES && i != slot && s in Block(v', i)
      ensures s !in block
    {
      assert Owned(v, s);
    }
    forall s | 0 <= s < NUM_SECTORS
      ensures v'.bits[s] <==> Owned(v', s)
    {
      if v.bits[s] {
        var i :| -1 <= i < NUM_DIR_ENTRIES && s in Block(v, i);
        assert s in Block(v', i);
      } else if s in block {
        assert s in Block(v', slot);
      } else {
        assert forall i :: -1 <= i < NUM_DIR_ENTRIES && i != slot ==> s !in Block(v, i) by { assert !Owned(v, s); }
        assert !Owned(v', s);
      }
    }
    forall i, j | 0 <= i < j < NUM_DIR_ENTRIES && v'.table[i].inUse && v'.table[j].inUse
      ensures Key(v'.table[i].name) != Key(v'.table[j].name)
    {
      assert i != slot ==> !Matches(v.table, i, name);
      assert j != slot ==> !Matches(v.table, j, name);
    }
  }

  lemma RemoveKeepsNamed(v: Layout, v': Layout, name: seq<Byte>, slot: int)
    requires Sound(v) && SystemHeaders(v'.headers) && Removed(v, v', name, slot)
    ensures Named(v') && v'.headers[0] == v.headers[0] && v'.headers[1] == v.headers[1]
    ensures forall i :: -1 <= i < NUM_DIR_ENTRIES && i != slot ==> Block(v', i) == Block(v, i)
    ensures Block(v', slot) == []
  {
    SystemApart(v);
    forall i | 0 <= i < NUM_DIR_ENTRIES && v.table[i].inUse
      ensures v'.headers[v.table[i].sector] == v.headers[v.table[i].sector]
    {
      HeaderSectorOwned(v, i);
    }
    forall i | -1 <= i < NUM_DIR_ENTRIES && i != slot
      ensures Block(v', i) == Block(v, i)
    {
      BlockFrame(v, v', i);
    }
  }

  lemma RemoveKeepsSound(v: Layout, v': Layout, name: seq<Byte>, slot: int)
    requires Sound(v) && SystemHeaders(v'.headers) && Removed(v, v', name, slot)
    ensures Sound(v')
  {
    RemoveKeepsNamed(v, v', name, slot);
    forall s | 0 <= s < NUM_SECTORS
      ensures v'.bits[s] <==> Owned(v', s)
    {
      if v'.bits[s] {
        var i :| -1 <= i < NUM_DIR_ENTRIES && s in Block(v, i);
        assert s in Block(v', i);
      } else if Owned(v', s) {
        var i :| -1 <= i < NUM_DIR_ENTRIES && s in Block(v', i);
        assert s in Block(v, i) && s !in Block(v, slot);
        assert Owned(v, s);
      }
    }
  }

  lemma HeaderApart(v: Layout, i: int, j: int)
    requires Sound(v) && 0 <= i < NUM_DIR_ENTRIES && v.table[i].inUse && 0 <= j < NUM_DIR_ENTRIES && v.table[j].inUse
    ensures v.table[j].sector !in Data(v.headers[v.table[i].sector])
  {
    var sector, data := v.table[j].sector, Data(v.headers[v.table[i].sector]);
    InBlock(v, j, sector);
    if j == i {
      assert Block(v, i)[0] == sector && forall a :: 0 <= a < |data| ==> data[a] == Block(v, i)[a + 1];
    } else if sector in data {
      InBlock(v, i, sector);
    }
  }

  /** The data of a file holds no header and none of the sectors of the file system. */
  lemma DataApart(v: Layout, i: int)
    requires Sound(v) && 0 <= i < NUM_DIR_ENTRIES && v.table[i].inUse
    ensures
      var data := Data(v.headers[v.table[i].sector]);
      && 0 !in data && 1 !in data
      && (forall s :: s in SystemData(v) ==> s !in data)
      && (forall s :: s in data ==> s in Block(v, i))
      && (forall j :: 0 <= j < NUM_DIR_ENTRIES && v.table[j].inUse ==> v.table[j].sector !in data)
  {
    var sector := v.table[i].sector;
    var data := Data(v.headers[sector]);
    SystemApart(v);
    forall s | s in data
      ensures s in Block(v, i)
    {
      InBlock(v, i, s);
    }
    forall j | 0 <= j < NUM_DIR_ENTRIES && v.table[j].inUse
      ensures v.table[j].sector !in data
    {
      HeaderApart(v, i, j);
    }
  }

  /** The sectors that nobody owns. */
  ghost function Unowned(v: Layout): set<int>
    requires Named(v)
  {
    set s | 0 <= s < NUM_SECTORS && !Owned(v, s)
  }

  lemma EnoughSectors(size: nat, free: nat)
    ensures free >= 1 + DivRoundUp(size, SECTOR_SIZE) <==> size <= 128 * (free - 1)
  {
  }

  /** Create succeeds if and only if no file has that name, one of ten directory entries is unused, and the sectors that
      nobody owns hold a header and the bytes asked for. */
  lemma CreatesWhen(v: Layout, name: seq<Byte>, size: nat)
    requires Sound(v)
    ensures CanCreate(v, name, size) <==>
            && (forall i :: 0 <= i < 10 && v.table[i].inUse ==> Key(v.table[i].name) != Key(name))
            && (exists i :: 0 <= i < 10 && !v.table[i].inUse)
            && size <= 128 * (|Unowned(v)| - 1)
  {
    EnoughSectors(size, |ClearSet(v.bits)|);
    assert Unowned(v) == ClearSet(v.bits);
    if Present(v.table, name) {
      var i :| 0 <= i < NUM_DIR_ENTRIES && Matches(v.table, i, name);
      assert v.table[i].inUse;
    } else {
      assert forall i :: 0 <= i < 10 && v.table[i].inUse ==> !Matches(v.table, i, name);
    }
  }

  /** After it the name stands for a file of that many bytes. */
  lemma CreatedFile(v: Layout, v': Layout, name: seq<Byte>, size: nat, slot: int, sector: int)
    requires SystemHeaders(v.headers) && SystemHeaders(v'.headers) && Created(v, v', name, size, slot, sector)
    ensures exists i :: 0 <= i < 10 && v'.table[i].inUse && Key(v'.table[i].name) == Key(name)
                        && 0 <= v'.table[i].sector < NUM_SECTORS && v'.headers[v'.table[i].sector].numBytes == size
  {
    assert v'.table[slot].inUse;
  }

  lemma SameBlocksKeepSound(v: Layout, v': Layout)
    requires Sound(v) && Named(v') && v'.table == v.table && v'.bits == v.bits
    requires forall i :: -1 <= i < NUM_DIR_ENTRIES ==> Block(v', i) == Block(v, i)
    ensures Sound(v')
  {
    forall s | 0 <= s < NUM_SECTORS
      ensures Owned(v', s) <==> Owned(v, s)
    {
      if Owned(v, s) {
        var j :| -1 <= j < NUM_DIR_ENTRIES && s in Block(v, j);
        assert s in Block(v', j);
      }
    }
  }

  /** A write changes no header, no directory entry and no bit of the free map. */
  lemma WriteKeepsLayout(d: Image, d': Image, i: int, position: nat, patch: seq<Byte>)
    requires SoundDisk(d) && WriteStep(d, d', i, position, patch)
    ensures SoundDisk(d')
    ensures View(d').table == View(d).table && View(d').bits == View(d).bits
    ensures forall j :: -1 <= j < NUM_DIR_ENTRIES ==> Block(View(d'), j) == Block(View(d), j)
    ensures View(d').headers[View(d).table[i].sector] == View(d).headers[View(d).table[i].sector]
  {
    var v := View(d);
    var data := Data(v.headers[v.table[i].sector]);
    DataApart(v, i);
    HeadersFrame(d, d', data);
    FlatFrame(d, d', v.headers[0], data);
    FlatFrame(d, d', v.headers[1], data);
    var v' := View(d');
    forall j | -1 <= j < NUM_DIR_ENTRIES
      ensures Block(v', j) == Block(v, j)
    {
      BlockFrame(v, v', j);
    }
    SameBlocksKeepSound(v, v');
  }

  // ---------------------------------------------------------------- the other files

  /** The file of entry j. */
  ghost function HeaderOf(d: Image, j: int): FileMap
    requires SystemHeaders(Headers(d)) && Named(View(d)) && 0 <= j < NUM_DIR_ENTRIES && View(d).table[j].inUse
  {
    View(d).headers[View(d).table[j].sector]
  }

  /** Entry j names the same file, at the same place, with the same bytes. */
  ghost predicate SameFile(d: Image, d': Image, j: int)
    requires SoundDisk(d) && SoundDisk(d') && 0 <= j < NUM_DIR_ENTRIES
  {
    && View(d').table[j] == View(d).table[j]
    && (View(d).table[j].inUse ==>
          HeaderOf(d', j) == HeaderOf(d, j) && Flat(d', HeaderOf(d', j)) == Flat(d, HeaderOf(d, j)))
  }

  lemma OutsideKeepsFile(d: Image, d': Image, j: int, changed: seq<int>)
    requires SoundDisk(d) && SoundDisk(d') && 0 <= j < NUM_DIR_ENTRIES && View(d').table[j] == View(d).table[j]
    requires SameOutside(d, d', changed)
    requires forall s :: s in Block(View(d), j) ==> s !in changed
    ensures SameFile(d, d', j)
  {
    if View(d).table[j].inUse {
      var v := View(d);
      InBlock(v, j, v.table[j].sector);
      HeadersFrame(d, d', changed);
      forall s | s in Data(HeaderOf(d, j))
        ensures s !in changed
      {
        InBlock(v, j, s);
      }
      FlatFrame(d, d', HeaderOf(d, j), changed);
    }
  }

  /** Creating a file leaves every other file alone, byte for byte. */
  lemma CreateKeepsOthers(d: Image, d': Image, name: seq<Byte>, size: nat, slot: int, sector: int, j: int)
    requires SoundDisk(d) && SoundDisk(d') && Created(View(d), View(d'), name, size, slot, sector)
    requires SameOutside(d, d', [sector] + SystemData(View(d)))
    requires 0 <= j < NUM_DIR_ENTRIES && j != slot
    ensures SameFile(d, d', j)
  {
    var v := View(d);
    SystemApart(v);
    assert ([sector] + Data(View(d').headers[sector]))[0] == sector;
    forall s | s in Block(v, j)
      ensures s !in [sector] + SystemData(v)
    {
      assert Owned(v, s);
      InBlock(v, j, s);
    }
    OutsideKeepsFile(d, d', j, [sector] + SystemData(v));
  }

  /** Removing a file leaves every other file alone. */
  lemma RemoveKeepsOthers(d: Image, d': Image, name: seq<Byte>, slot: int, j: int)
    requires SoundDisk(d) && SoundDisk(d') && Removed(View(d), View(d'), name, slot)
    requires SameOutside(d, d', SystemData(View(d)))
    requires 0 <= j < NUM_DIR_ENTRIES && j != slot
    ensures SameFile(d, d', j)
  {
    SystemApart(View(d));
    OutsideKeepsFile(d, d', j, SystemData(View(d)));
  }

  /** Writing to one file changes no byte of any other, and puts exactly the patch into that one. */
  lemma WriteKeepsOthers(d: Image, d': Image, i: int, position: nat, patch: seq<Byte>, j: int)
    requires SoundDisk(d) && WriteStep(d, d', i, position, patch)
    requires 0 <= j < NUM_DIR_ENTRIES
    ensures SoundDisk(d') && View(d').table == View(d).table
    ensures j != i ==> SameFile(d, d', j)
    ensures j == i ==> Flat(d', HeaderOf(d', i)) == Patched(Flat(d, HeaderOf(d, i)), position, patch)
  {
    WriteKeepsLayout(d, d', i, position, patch);
    if j != i {
      var v := View(d);
      var data := Data(HeaderOf(d, i));
      forall s | s in Block(v, j)
        ensures s !in data
      {
        InBlock(v, i, s);
      }
      OutsideKeepsFile(d, d', j, data);
    }
  }

  // ---------------------------------------------------------------- create, then remove

  /** Which names are in the directory, and where their headers are. */
  ghost predicate NamedAt(t: Table, key: seq<Byte>, sector: int) {
    exists i :: 0 <= i < NUM_DIR_ENTRIES && t[i].inUse && Key(t[i].name) == key && t[i].sector == sector
  }

  /** The entry found under a name that was just entered is the new one. */
  lemma OnlyMatch(t: Table, name: seq<Byte>, i: int, j: int)
    requires UniqueNames(t) && 0 <= i < NUM_DIR_ENTRIES && 0 <= j < NUM_DIR_ENTRIES
    requires Matches(t, i, name) && Matches(t, j, name)
    ensures i == j
  {
  }

  lemma CreateThenRemoveLayout(v0: Layout, v1: Layout, v2: Layout, name: seq<Byte>, size: nat, slot: int, sector: int)
    requires Sound(v0) && SystemHeaders(v1.headers) && |v1.bits| == NUM_SECTORS
    requires Created(v0, v1, name, size, slot, sector)
    requires Named(v1) && SystemHeaders(v2.headers) && Removed(v1, v2, name, slot)
    ensures v2.bits == v0.bits
    ensures forall key, sector :: NamedAt(v2.table, key, sector) <==> NamedAt(v0.table, key, sector)
  {
    CreateKeepsNamed(v0, v1, name, size, slot, sector);
    assert forall s :: 0 <= s < NUM_SECTORS ==> v2.bits[s] == v0.bits[s];
    assert forall j :: 0 <= j < NUM_DIR_ENTRIES && j != slot ==> v2.table[j] == v0.table[j];
    forall key, s
      ensures NamedAt(v2.table, key, s) <==> NamedAt(v0.table, key, s)
    {
      if NamedAt(v0.table, key, s) {
        var j :| 0 <= j < NUM_DIR_ENTRIES && v0.table[j].inUse && Key(v0.table[j].name) == key
                 && v0.table[j].sector == s;
        assert v2.table[j] == v0.table[j];
      }
      if NamedAt(v2.table, key, s) {
        var j :| 0 <= j < NUM_DIR_ENTRIES && v2.table[j].inUse && Key(v2.table[j].name) == key
                 && v2.table[j].sector == s;
        assert v2.table[j] == v0.table[j];
      }
    }
  }

  /** Removing a file that was just created restores the free map and the mapping from names to header sectors. */
  lemma CreateThenRemove(d0: Image, d1: Image, d2: Image, name: seq<Byte>, size: nat, removed: bool)
    requires SoundDisk(d0) && CreateStep(d0, d1, name, size, true)
    requires SoundDisk(d1) && RemoveStep(d1, d2, name, removed)
    ensures removed && SoundDisk(d2)
    ensures View(d2).bits == View(d0).bits
    ensures forall key, sector :: NamedAt(View(d2).table, key, sector) <==> NamedAt(View(d0).table, key, sector)
    ensures forall j :: 0 <= j < NUM_DIR_ENTRIES && View(d0).table[j].inUse ==> SameFile(d0, d2, j)
  {
    var slot, sector :| Created(View(d0), View(d1), name, size, slot, sector)
                        && SameOutside(d0, d1, [sector] + SystemData(View(d0)));
    assert Matches(View(d1).table, slot, name);
    var i :| Removed(View(d1), View(d2), name, i);
    OnlyMatch(View(d1).table, name, i, slot);
    RemoveKeepsSound(View(d1), View(d2), name, slot);
    CreateThenRemoveLayout(View(d0), View(d1), View(d2), name, size, slot, sector);
    forall j | 0 <= j < NUM_DIR_ENTRIES && View(d0).table[j].inUse
      ensures SameFile(d0, d2, j)
    {
      CreateKeepsOthers(d0, d1, name, size, slot, sector, j);
      RemoveKeepsOthers(d1, d2, name, slot, j);
    }
  }

  // ---------------------------------------------------------------- whole runs

  /** One call of the file system, successful or not. */
  ghost predicate Step(d: Image, d': Image)
    requires SoundDisk(d)
  {
    || (exists name, size: nat, ok :: size <= MAX_FILE_SIZE && CreateStep(d, d', name, size, ok))
    || (exists name, ok :: RemoveStep(d, d', name, ok))
    || (exists i, position: nat, patch :: WriteStep(d, d', i, position, patch))
  }

  lemma StepKeepsSound(d: Image, d': Image)
    requires SoundDisk(d) && Step(d, d')
    ensures SoundDisk(d')
  {
    if name, size: nat, ok :| CreateStep(d, d', name, size, ok) {
      if ok {
        var slot, sector :| Created(View(d), View(d'), name, size, slot, sector);
        CreateKeepsSound(View(d), View(d'), name, size, slot, sector);
      }
    } else if name, ok :| RemoveStep(d, d', name, ok) {
      if ok {
        var slot :| Removed(View(d), View(d'), name, slot);
        RemoveKeepsSound(View(d), View(d'), name, slot);
      }
    } else {
      var i, position: nat, patch :| WriteStep(d, d', i, position, patch);
      WriteKeepsLayout(d, d', i, position, patch);
    }
  }

  /** A run: the image after each call, from a freshly formatted disk on. */
  ghost predicate Run(images: seq<Image>)
  {
    |images| > 0 && FormattedDisk(images[0]) &&
    forall k :: 0 <= k < |images| - 1 && SoundDisk(images[k]) ==> Step(images[k], images[k + 1])
  }

  /** What formatting leaves behind: an empty directory and the five sectors of the file system marked. */
  ghost predicate FormattedDisk(d: Image) {
    && SystemHeaders(Headers(d))
    && Data(Headers(d)[0]) == [2] && Data(Headers(d)[1]) == [3, 4]
    && (forall i :: 0 <= i < NUM_DIR_ENTRIES ==> !View(d).table[i].inUse)
    && (forall s :: 0 <= s < NUM_SECTORS ==> (View(d).bits[s] <==> s < 5))
  }

  lemma FormattedLayoutIsSound(v: Layout)
    requires SystemHeaders(v.headers) && |v.bits| == NUM_SECTORS
    requires Data(v.headers[0]) == [2] && Data(v.headers[1]) == [3, 4]
    requires forall i :: 0 <= i < NUM_DIR_ENTRIES ==> !v.table[i].inUse
    requires forall s :: 0 <= s < NUM_SECTORS ==> (v.bits[s] <==> s < 5)
    ensures Sound(v)
  {
    var block := Block(v, -1);
    assert block == [0, 1, 2, 3, 4];
    forall s | 0 <= s < NUM_SECTORS
      ensures v.bits[s] <==> Owned(v, s)
    {
      assert s < 5 ==> block[s] == s;
    }
  }

  lemma FormattedIsSound(d: Image)
    requires FormattedDisk(d)
    ensures SoundDisk(d)
  {
    FormattedLayoutIsSound(View(d));
  }

  /** Over every sequence of calls, sectors are owned at most once and the free map marks exactly the owned ones. */
  lemma {:induction false} RunKeepsSound(images: seq<Image>, k: nat)
    requires Run(images) && k < |images|
    ensures SoundDisk(images[k])
  {
    if k == 0 {
      FormattedIsSound(images[0]);
    } else {
      RunKeepsSound(images, k - 1);
      StepKeepsSound(images[k - 1], images[k]);
    }
  }
}
