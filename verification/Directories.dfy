// The directory of filesys/directory.cc: a table of fixed-length entries, looked up by the first nine characters of a
// file name, and its byte image in the directory file.
module Directories {
  import opened Words

  const NUM_DIR_ENTRIES := 10
  const FILE_NAME_MAX_LEN := 9
  const NAME_SIZE := 10
  const ENTRY_SIZE := 20
  const DIRECTORY_FILE_SIZE := 200

  // ---------------------------------------------------------------- bounded C strings

  /** The character of a C string at index i; the string ends with a zero character. */
  function CharAt(s: seq<Byte>, i: nat): Byte {
    if i < |s| then s[i] else 0
  }

  /** The characters of a C string from index i, cut at its end or at nine characters. */
  function KeyFrom(s: seq<Byte>, i: nat): (r: seq<Byte>)
    requires i <= FILE_NAME_MAX_LEN
    ensures |r| <= FILE_NAME_MAX_LEN - i
    decreases FILE_NAME_MAX_LEN - i
  {
    if i == FILE_NAME_MAX_LEN || CharAt(s, i) == 0 then [] else [CharAt(s, i)] + KeyFrom(s, i + 1)
  }

  /** What the file system compares of a name. */
  function Key(s: seq<Byte>): seq<Byte> {
    KeyFrom(s, 0)
  }

  /** `strncmp(a, b, 9) == 0`, looking at characters from index i on. */
  predicate StrnEqual(a: seq<Byte>, b: seq<Byte>, i: nat)
    requires i <= FILE_NAME_MAX_LEN
    decreases FILE_NAME_MAX_LEN - i
  {
    if i == FILE_NAME_MAX_LEN then true
    else if CharAt(a, i) != CharAt(b, i) then false
    else if CharAt(a, i) == 0 then true
    else StrnEqual(a, b, i + 1)
  }

  lemma {:induction false} StrnEqualIsKeyEqual(a: seq<Byte>, b: seq<Byte>, i: nat)
    requires i <= FILE_NAME_MAX_LEN
    ensures StrnEqual(a, b, i) <==> KeyFrom(a, i) == KeyFrom(b, i)
    decreases FILE_NAME_MAX_LEN - i
  {
    if i < FILE_NAME_MAX_LEN && CharAt(a, i) == CharAt(b, i) != 0 {
      StrnEqualIsKeyEqual(a, b, i + 1);
      assert KeyFrom(a, i)[1..] == KeyFrom(a, i + 1) && KeyFrom(b, i)[1..] == KeyFrom(b, i + 1);
    } else if i < FILE_NAME_MAX_LEN && CharAt(a, i) != 0 && CharAt(b, i) != 0 {
      assert KeyFrom(a, i)[0] == CharAt(a, i) && KeyFrom(b, i)[0] == CharAt(b, i);
    }
  }

  predicate SameName(a: seq<Byte>, b: seq<Byte>) {
    StrnEqual(a, b, 0)
  }

  lemma SameNameIsKeyEqual(a: seq<Byte>, b: seq<Byte>)
    ensures SameName(a, b) <==> Key(a) == Key(b)
  {
    StrnEqualIsKeyEqual(a, b, 0);
  }

  /** Character i after `strncpy(dst, src, 9)`: the string, then zeros up to nine characters; the tenth is untouched. */
  function StrnCopy(dst: seq<Byte>, src: seq<Byte>): (r: seq<Byte>)
    requires |dst| == NAME_SIZE
    ensures |r| == NAME_SIZE
  {
    seq(NAME_SIZE, i requires 0 <= i < NAME_SIZE =>
      if i == FILE_NAME_MAX_LEN then dst[FILE_NAME_MAX_LEN] else CharAt(Key(src), i))
  }

  lemma {:induction false} KeyHasNoZero(s: seq<Byte>, i: nat)
    requires i <= FILE_NAME_MAX_LEN
    ensures forall k :: 0 <= k < |KeyFrom(s, i)| ==> KeyFrom(s, i)[k] != 0
    decreases FILE_NAME_MAX_LEN - i
  {
    if i < FILE_NAME_MAX_LEN && CharAt(s, i) != 0 {
      KeyHasNoZero(s, i + 1);
    }
  }

  /** A string that consists of `key` and zeros from index i on has that key. */
  lemma {:induction false} KeyOfPrefix(key: seq<Byte>, t: seq<Byte>, i: nat)
    requires i + |key| <= FILE_NAME_MAX_LEN && |t| == NAME_SIZE && forall k :: 0 <= k < |key| ==> key[k] != 0
    requires forall k :: i <= k < FILE_NAME_MAX_LEN ==> t[k] == CharAt(key, k - i)
    ensures KeyFrom(t, i) == key
    decreases |key|
  {
    if key != [] {
      var rest := key[1..];
      forall k | i + 1 <= k < FILE_NAME_MAX_LEN
        ensures t[k] == CharAt(rest, k - (i + 1))
      {
        assert t[k] == CharAt(key, k - i);
      }
      KeyOfPrefix(rest, t, i + 1);
      assert t[i] == key[0] && key == [key[0]] + rest;
    }
  }

  /** A stored name is found again by exactly the names that share its first nine characters. */
  lemma StrnCopyKeepsKey(dst: seq<Byte>, src: seq<Byte>)
    requires |dst| == NAME_SIZE
    ensures Key(StrnCopy(dst, src)) == Key(src)
  {
    KeyHasNoZero(src, 0);
    KeyOfPrefix(Key(src), StrnCopy(dst, src), 0);
  }

  // ---------------------------------------------------------------- entries and their byte image

  datatype Entry = Entry(inUse: bool, sector: Int32, name: seq<Byte>)

  type Table = t: seq<Entry> |
      |t| == NUM_DIR_ENTRIES && forall i :: 0 <= i < NUM_DIR_ENTRIES ==> |t[i].name| == NAME_SIZE
    witness seq(NUM_DIR_ENTRIES, _ => Entry(false, 0, seq(NAME_SIZE, _ => 0)))

  /** A flag padded to a word, a sector number, ten characters and two bytes of padding. */
  function EncodeEntry(e: Entry): (b: seq<Byte>)
    requires |e.name| == NAME_SIZE
    ensures |b| == ENTRY_SIZE
  {
    [if e.inUse then 1 else 0, 0, 0, 0] + IntBytes(e.sector) + e.name + [0, 0]
  }

  function DecodeEntry(b: seq<Byte>): (e: Entry)
    requires |b| == ENTRY_SIZE
    ensures |e.name| == NAME_SIZE
  {
    Entry(b[0] != 0, BytesInt(b[4..8]), b[8..18])
  }

  lemma EntryRoundTrip(e: Entry)
    requires |e.name| == NAME_SIZE
    ensures DecodeEntry(EncodeEntry(e)) == e
  {
    var b := EncodeEntry(e);
    assert b[4..8] == IntBytes(e.sector);
    assert b[8..18] == e.name;
    IntRoundTrip(e.sector);
  }

  function EncodeTable(t: Table): (b: seq<Byte>)
    ensures |b| == DIRECTORY_FILE_SIZE
  {
    seq(DIRECTORY_FILE_SIZE, i requires 0 <= i < DIRECTORY_FILE_SIZE => EncodeEntry(t[i / ENTRY_SIZE])[i % ENTRY_SIZE])
  }

  function DecodeTable(b: seq<Byte>): Table
    requires |b| == DIRECTORY_FILE_SIZE
  {
    seq(NUM_DIR_ENTRIES, i requires 0 <= i < NUM_DIR_ENTRIES =>
      DecodeEntry(b[ENTRY_SIZE * i..ENTRY_SIZE * i + ENTRY_SIZE]))
  }

  lemma EncodedEntry(t: Table, i: nat)
    requires i < NUM_DIR_ENTRIES
    ensures EncodeTable(t)[ENTRY_SIZE * i..ENTRY_SIZE * i + ENTRY_SIZE] == EncodeEntry(t[i])
  {
    forall k | 0 <= k < ENTRY_SIZE
      ensures EncodeTable(t)[ENTRY_SIZE * i + k] == EncodeEntry(t[i])[k]
    {
      assert (ENTRY_SIZE * i + k) / ENTRY_SIZE == i && (ENTRY_SIZE * i + k) % ENTRY_SIZE == k;
    }
  }

  lemma TableRoundTrip(t: Table)
    ensures DecodeTable(EncodeTable(t)) == t
  {
    var b := EncodeTable(t);
    forall i | 0 <= i < NUM_DIR_ENTRIES
      ensures DecodeEntry(b[ENTRY_SIZE * i..ENTRY_SIZE * i + ENTRY_SIZE]) == t[i]
    {
      EncodedEntry(t, i);
      EntryRoundTrip(t[i]);
    }
  }

  // ---------------------------------------------------------------- lookup

  /** Entry i is in use under a name that agrees with `name` on nine characters. */
  predicate Matches(t: Table, i: int, name: seq<Byte>)
    requires 0 <= i < NUM_DIR_ENTRIES
  {
    t[i].inUse && Key(t[i].name) == Key(name)
  }

  ghost predicate FirstMatch(t: Table, i: int, name: seq<Byte>) {
    0 <= i < NUM_DIR_ENTRIES && Matches(t, i, name) && forall k :: 0 <= k < i ==> !Matches(t, k, name)
  }

  ghost predicate Present(t: Table, name: seq<Byte>) {
    exists i :: 0 <= i < NUM_DIR_ENTRIES && Matches(t, i, name)
  }

  ghost predicate HasFreeSlot(t: Table) {
    exists i :: 0 <= i < NUM_DIR_ENTRIES && !t[i].inUse
  }

  /** No two entries in use agree on nine characters. */
  ghost predicate UniqueNames(t: Table) {
    forall i, j :: 0 <= i < j < NUM_DIR_ENTRIES && t[i].inUse && t[j].inUse ==> Key(t[i].name) != Key(t[j].name)
  }

  /** Entry `slot` becomes the first free one, taken for `name` and `sector`; the others stay. */
  ghost predicate AddedAt(t: Table, t': Table, slot: int, name: seq<Byte>, sector: int) {
    && 0 <= slot < NUM_DIR_ENTRIES && !t[slot].inUse && (forall i :: 0 <= i < slot ==> t[i].inUse)
    && t'[slot].inUse && t'[slot].sector == sector && Key(t'[slot].name) == Key(name)
    && (forall i :: 0 <= i < NUM_DIR_ENTRIES && i != slot ==> t'[i] == t[i])
  }

  class Directory {
    var table: Table

    constructor (garbage: Table)
      ensures forall i :: 0 <= i < NUM_DIR_ENTRIES ==> !table[i].inUse
    {
      table := seq(NUM_DIR_ENTRIES, i requires 0 <= i < NUM_DIR_ENTRIES => garbage[i].(inUse := false));
    }

    method FindIndex(name: seq<Byte>) returns (r: int)
      ensures -1 <= r < NUM_DIR_ENTRIES
      ensures r == -1 <==> !Present(table, name)
      ensures r >= 0 ==> Matches(table, r, name) && forall i :: 0 <= i < r ==> !Matches(table, i, name)
    {
      for i := 0 to NUM_DIR_ENTRIES
        invariant forall k :: 0 <= k < i ==> !Matches(table, k, name)
      {
        SameNameIsKeyEqual(table[i].name, name);
        if table[i].inUse && SameName(table[i].name, name) {
          assert Matches(table, i, name);
          return i;
        }
      }
      return -1;
    }

    method Find(name: seq<Byte>) returns (sector: int)
      ensures !Present(table, name) ==> sector == -1
      ensures Present(table, name) ==> exists i :: FirstMatch(table, i, name) && sector == table[i].sector
    {
      var i := FindIndex(name);
      sector := if i != -1 then table[i].sector else -1;
    }

    /** Fails, changing nothing, exactly when the name is there already or the table is full. */
    method Add(name: seq<Byte>, newSector: Int32) returns (ok: bool)
      modifies this
      ensures ok <==> !Present(old(table), name) && HasFreeSlot(old(table))
      ensures !ok ==> table == old(table)
      ensures ok ==> exists slot :: AddedAt(old(table), table, slot, name, newSector)
    {
      var index := FindIndex(name);
      if index != -1 {
        return false;
      }
      for i := 0 to NUM_DIR_ENTRIES
        invariant table == old(table)
        invariant forall k :: 0 <= k < i ==> table[k].inUse
      {
        if !table[i].inUse {
          StrnCopyKeepsKey(table[i].name, name);
          table := table[i := Entry(true, newSector, StrnCopy(table[i].name, name))];
          assert AddedAt(old(table), table, i, name, newSector);
          return true;
        }
      }
      return false;
    }

    method Remove(name: seq<Byte>) returns (ok: bool)
      modifies this
      ensures ok <==> Present(old(table), name)
      ensures !ok ==> table == old(table)
      ensures ok ==> exists i :: FirstMatch(old(table), i, name)
                                 && table == old(table)[i := old(table)[i].(inUse := false)]
    {
      var i := FindIndex(name);
      if i == -1 {
        return false;
      }
      table := table[i := table[i].(inUse := false)];
      return true;
    }
  }
}
