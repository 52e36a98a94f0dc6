// The bitmap of userprog/bitmap.cc: an array of 32-bit words in which bit i % 32 of word i / 32 says whether item i is
// taken.  It keeps the free sectors of the disk and the free frames of main memory.
module BitMaps {
  import opened Words

  const BITS_IN_WORD := 32

  /** The first n bits held by an array of words. */
  function BitsOf(ws: seq<Word>, n: nat): (bits: seq<bool>)
    requires n <= 32 * |ws|
    ensures |bits| == n
  {
    seq(n, i requires 0 <= i < n => TestBit(ws[i / 32], i % 32))
  }

  /** The items that are not taken. */
  ghost function ClearSet(bits: seq<bool>): set<int>
  {
    set i | 0 <= i < |bits| && !bits[i]
  }

  lemma ClearSetOfPrefix(bits: seq<bool>, i: nat)
    requires i < |bits|
    ensures ClearSet(bits[..i + 1]) == if bits[i] then ClearSet(bits[..i]) else ClearSet(bits[..i]) + {i}
  {
  }

  lemma TakeOne(bits: seq<bool>, i: nat)
    requires i < |bits| && !bits[i]
    ensures |ClearSet(bits[i := true])| == |ClearSet(bits)| - 1
  {
    assert ClearSet(bits[i := true]) == ClearSet(bits) - {i};
  }

  /** `data` was taken from the clear items of `bits`, each the lowest clear one at its turn, leaving `bits'`. */
  ghost predicate TakenFrom(bits: seq<bool>, bits': seq<bool>, data: seq<int>) {
    && |bits'| == |bits|
    && (forall i :: 0 <= i < |data| ==> 0 <= data[i] < |bits| && !bits[data[i]])
    && (forall i, j :: 0 <= i < j < |data| ==> data[i] != data[j])
    && (forall i, s :: 0 <= i < |data| && 0 <= s < data[i] ==> bits[s] || s in data[..i])
    && (forall s :: 0 <= s < |bits| ==> bits'[s] == (bits[s] || s in data))
  }

  lemma TakeAnother(bits: seq<bool>, mid: seq<bool>, data: seq<int>, s: int)
    requires TakenFrom(bits, mid, data)
    requires 0 <= s < |mid| && !mid[s] && forall j :: 0 <= j < s ==> mid[j]
    ensures TakenFrom(bits, mid[s := true], data + [s])
  {
    var more := data + [s];
    forall i, j | 0 <= i < |more| && 0 <= j < more[i]
      ensures bits[j] || j in more[..i]
    {
      if i < |data| {
        assert more[..i] == data[..i];
      } else {
        assert more[..i] == data;
      }
    }
  }

  /** Rewriting one word of the array rewrites the item it is meant for and no other. */
  lemma WriteBit(ws: seq<Word>, n: nat, which: nat, w: Word, value: bool)
    requires which < n <= 32 * |ws|
    requires w == if value then OrMask(ws[which / 32], which % 32) else AndNotMask(ws[which / 32], which % 32)
    ensures BitsOf(ws[which / 32 := w], n) == BitsOf(ws, n)[which := value]
  {
    forall i | 0 <= i < n && i / 32 == which / 32
      ensures TestBit(w, i % 32) == if i == which then value else TestBit(ws[i / 32], i % 32)
    {
      BitUpdates(ws[which / 32], which % 32, i % 32);
    }
  }

  class BitMap {
    const numBits: nat
    const words: array<Word>

    ghost predicate Valid() {
      words.Length == DivRoundUp(numBits, BITS_IN_WORD)
    }

    ghost function Bits(): (bits: seq<bool>)
      requires Valid()
      reads words
    {
      BitsOf(words[..], numBits)
    }

    constructor (nitems: nat)
      ensures Valid() && fresh(words) && numBits == nitems
      ensures Bits() == seq(nitems, _ => false)
    {
      numBits := nitems;
      words := new Word[DivRoundUp(nitems, BITS_IN_WORD)];
      new;
      for i := 0 to numBits
        invariant Valid() && fresh(words)
        invariant forall k :: 0 <= k < i ==> !Bits()[k]
      {
        Clear(i);
      }
    }

    method Mark(which: nat)
      requires Valid() && which < numBits
      modifies words
      ensures Bits() == old(Bits())[which := true]
    {
      MasksFit(words[which / BITS_IN_WORD], which % BITS_IN_WORD);
      WriteBit(words[..], numBits, which, OrMask(words[which / 32], which % 32), true);
      words[which / BITS_IN_WORD] := OrMask(words[which / BITS_IN_WORD], which % BITS_IN_WORD);
      assert words[..] == old(words[..])[which / 32 := words[which / 32]];
    }

    method Clear(which: nat)
      requires Valid() && which < numBits
      modifies words
      ensures Bits() == old(Bits())[which := false]
    {
      MasksFit(words[which / BITS_IN_WORD], which % BITS_IN_WORD);
      WriteBit(words[..], numBits, which, AndNotMask(words[which / 32], which % 32), false);
      words[which / BITS_IN_WORD] := AndNotMask(words[which / BITS_IN_WORD], which % BITS_IN_WORD);
      assert words[..] == old(words[..])[which / 32 := words[which / 32]];
    }

    method Test(which: nat) returns (r: bool)
      requires Valid() && which < numBits
      ensures r == Bits()[which]
    {
      r := TestBit(words[which / BITS_IN_WORD], which % BITS_IN_WORD);
    }

    /** Takes the first clear item, or answers -1 and changes nothing when every item is taken. */
    method Find() returns (r: int)
      requires Valid()
      modifies words
      ensures -1 <= r < numBits
      ensures r == -1 <==> ClearSet(old(Bits())) == {}
      ensures r == -1 ==> Bits() == old(Bits())
      ensures r >= 0 ==> !old(Bits())[r] && Bits() == old(Bits())[r := true]
      ensures forall j :: 0 <= j < r ==> old(Bits())[j]
    {
      for i := 0 to numBits
        invariant Bits() == old(Bits())
        invariant forall j :: 0 <= j < i ==> Bits()[j]
      {
        var taken := Test(i);
        if !taken {
          assert i in ClearSet(Bits());
          Mark(i);
          return i;
        }
      }
      return -1;
    }

    method NumClear() returns (count: nat)
      requires Valid()
      ensures count == |ClearSet(Bits())|
    {
      count := 0;
      for i := 0 to numBits
        invariant count == |ClearSet(Bits()[..i])|
      {
        ClearSetOfPrefix(Bits(), i);
        var taken := Test(i);
        if !taken {
          count := count + 1;
        }
      }
      assert Bits()[..numBits] == Bits();
    }
  }
}
