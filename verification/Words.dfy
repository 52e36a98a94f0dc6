// Machine words and the little-endian byte images in which the kernel stores them on disk.
module Words {

  type Byte = x: int | 0 <= x < 256

  /** The range of a C `int` on the machines Nachos runs on. */
  type Int32 = x: int | -0x8000_0000 <= x < 0x8000_0000

  /** `divRoundUp` of utility.h, for non-negative operands. */
  function DivRoundUp(n: nat, s: nat): nat
    requires s > 0
  {
    n / s + (if n % s > 0 then 1 else 0)
  }

  // ---------------------------------------------------------------- signed words as bytes

  function IntBytes(v: Int32): (b: seq<Byte>)
    ensures |b| == 4
  {
    var u := if v < 0 then v + 0x1_0000_0000 else v;
    [u % 256, u / 256 % 256, u / 65536 % 256, u / 16777216]
  }

  function BytesInt(b: seq<Byte>): Int32
    requires |b| == 4
  {
    var b0: int, b1: int, b2: int, b3: int := b[0], b[1], b[2], b[3];
    var u := b0 + 256 * b1 + 65536 * b2 + 16777216 * b3;
    if u < 0x8000_0000 then u else u - 0x1_0000_0000
  }

  lemma IntRoundTrip(v: Int32)
    ensures BytesInt(IntBytes(v)) == v
  {
    var u := if v < 0 then v + 0x1_0000_0000 else v;
    assert u / 256 / 256 == u / 65536 && u / 65536 / 256 == u / 16777216;
  }

  /** The byte image of an array of signed words. */
  function IntsBytes(ints: seq<Int32>): (b: seq<Byte>)
    ensures |b| == 4 * |ints|
  {
    seq(4 * |ints|, i requires 0 <= i < 4 * |ints| => IntBytes(ints[i / 4])[i % 4])
  }

  function BytesInts(b: seq<Byte>): (ints: seq<Int32>)
    requires |b| % 4 == 0
    ensures |ints| == |b| / 4
  {
    seq(|b| / 4, i requires 0 <= i < |b| / 4 => BytesInt(b[4 * i..4 * i + 4]))
  }

  lemma IntsRoundTrip(ints: seq<Int32>)
    ensures BytesInts(IntsBytes(ints)) == ints
  {
    var b := IntsBytes(ints);
    forall i | 0 <= i < |ints|
      ensures BytesInt(b[4 * i..4 * i + 4]) == ints[i]
    {
      forall k | 0 <= k < 4
        ensures b[4 * i + k] == IntBytes(ints[i])[k]
      {
        assert (4 * i + k) / 4 == i && (4 * i + k) % 4 == k;
      }
      assert b[4 * i..4 * i + 4] == IntBytes(ints[i]);
      IntRoundTrip(ints[i]);
    }
  }

  // ---------------------------------------------------------------- unsigned words as bytes

  /** An `unsigned int`. */
  type Word = x: int | 0 <= x < 0x1_0000_0000

  function WordBytes(w: Word): (b: seq<Byte>)
    ensures |b| == 4
  {
    [w % 256, w / 256 % 256, w / 65536 % 256, w / 16777216]
  }

  function BytesWord(b: seq<Byte>): Word
    requires |b| == 4
  {
    var b0: int, b1: int, b2: int, b3: int := b[0], b[1], b[2], b[3];
    b0 + 256 * b1 + 65536 * b2 + 16777216 * b3
  }

  lemma WordRoundTrip(w: Word)
    ensures BytesWord(WordBytes(w)) == w
  {
    assert w / 256 / 256 == w / 65536 && w / 65536 / 256 == w / 16777216;
  }

  /** The byte image of an array of unsigned words. */
  function WordsBytes(ws: seq<Word>): (b: seq<Byte>)
    ensures |b| == 4 * |ws|
  {
    seq(4 * |ws|, i requires 0 <= i < 4 * |ws| => WordBytes(ws[i / 4])[i % 4])
  }

  function BytesWords(b: seq<Byte>): (ws: seq<Word>)
    requires |b| % 4 == 0
    ensures |ws| == |b| / 4
  {
    seq(|b| / 4, i requires 0 <= i < |b| / 4 => BytesWord(b[4 * i..4 * i + 4]))
  }

  lemma WordsRoundTrip(ws: seq<Word>)
    ensures BytesWords(WordsBytes(ws)) == ws
  {
    var b := WordsBytes(ws);
    forall i | 0 <= i < |ws|
      ensures BytesWord(b[4 * i..4 * i + 4]) == ws[i]
    {
      forall k | 0 <= k < 4
        ensures b[4 * i + k] == WordBytes(ws[i])[k]
      {
        assert (4 * i + k) / 4 == i && (4 * i + k) % 4 == k;
      }
      assert b[4 * i..4 * i + 4] == WordBytes(ws[i]);
      WordRoundTrip(ws[i]);
    }
  }

  // ---------------------------------------------------------------- single bits

  function Pow2(n: nat): nat {
    if n == 0 then 1 else 2 * Pow2(n - 1)
  }

  lemma {:induction false} Pow2Sum(m: nat, n: nat)
    ensures Pow2(m + n) == Pow2(m) * Pow2(n)
  {
    if m > 0 {
      Pow2Sum(m - 1, n);
      assert Pow2(m + n) == 2 * Pow2(m - 1 + n);
    }
  }

  lemma Pow2Of32()
    ensures Pow2(32) == 0x1_0000_0000
  {
    Pow2Sum(2, 2);
    Pow2Sum(4, 4);
    Pow2Sum(8, 8);
    Pow2Sum(16, 16);
  }

  /** `w & (1 << k)` is non-zero. */
  predicate TestBit(w: nat, k: nat) {
    if k == 0 then w % 2 == 1 else TestBit(w / 2, k - 1)
  }

  /** `w | (1 << k)`, one binary digit at a time. */
  function OrMask(w: nat, k: nat): nat {
    if k == 0 then w / 2 * 2 + 1 else OrMask(w / 2, k - 1) * 2 + w % 2
  }

  /** `w & ~(1 << k)`, one binary digit at a time. */
  function AndNotMask(w: nat, k: nat): nat {
    if k == 0 then w / 2 * 2 else AndNotMask(w / 2, k - 1) * 2 + w % 2
  }

  /** The two updates set and clear digit k by adding and taking away 2^k, and nothing when it is set or clear
      already. */
  lemma {:induction false} MasksAreDigits(w: nat, k: nat)
    ensures OrMask(w, k) == if TestBit(w, k) then w else w + Pow2(k)
    ensures AndNotMask(w, k) == if TestBit(w, k) then w - Pow2(k) else w
  {
    if k > 0 {
      MasksAreDigits(w / 2, k - 1);
    }
  }

  lemma HalfOf(x: nat, digit: nat)
    requires digit < 2
    ensures (x * 2 + digit) / 2 == x && (x * 2 + digit) % 2 == digit
  {
  }

  /** Digit j of a number split into its last digit and the rest. */
  lemma TestSplit(x: nat, digit: nat, j: nat)
    requires digit < 2
    ensures TestBit(x * 2 + digit, j) == if j == 0 then digit == 1 else TestBit(x, j - 1)
  {
    HalfOf(x, digit);
  }

  /** Or-ing a mask in sets that bit and no other; and-ing its complement clears that bit and no other. */
  lemma {:induction false} BitUpdates(w: nat, k: nat, j: nat)
    ensures TestBit(OrMask(w, k), j) == (j == k || TestBit(w, j))
    ensures TestBit(AndNotMask(w, k), j) == (j != k && TestBit(w, j))
  {
    TestSplit(w / 2, w % 2, j);
    if k == 0 {
      TestSplit(w / 2, 1, j);
      TestSplit(w / 2, 0, j);
    } else {
      TestSplit(OrMask(w / 2, k - 1), w % 2, j);
      TestSplit(AndNotMask(w / 2, k - 1), w % 2, j);
      if j > 0 {
        BitUpdates(w / 2, k - 1, j - 1);
      }
    }
  }

  lemma {:induction false} MasksStayInWord(w: nat, k: nat, n: nat)
    requires k < n && w < Pow2(n)
    ensures OrMask(w, k) < Pow2(n) && AndNotMask(w, k) < Pow2(n)
  {
    if k > 0 {
      MasksStayInWord(w / 2, k - 1, n - 1);
    }
  }

  /** Both updates of a 32-bit word give a 32-bit word. */
  lemma MasksFit(w: Word, k: nat)
    requires k < 32
    ensures OrMask(w, k) < 0x1_0000_0000 && AndNotMask(w, k) < 0x1_0000_0000
  {
    Pow2Of32();
    MasksStayInWord(w, k, 32);
  }

  // ---------------------------------------------------------------- runs of bytes

  /** Bytes with a run of bytes replaced. */
  ghost function Patched(bytes: seq<Byte>, position: nat, patch: seq<Byte>): (r: seq<Byte>)
    requires position + |patch| <= |bytes|
    ensures |r| == |bytes|
  {
    bytes[..position] + patch + bytes[position + |patch|..]
  }

  /** `bcopy` into a buffer. */
  method CopyBytes(src: seq<Byte>, dst: array<Byte>, at: nat)
    requires at + |src| <= dst.Length
    modifies dst
    ensures dst[at..at + |src|] == src
    ensures forall i :: 0 <= i < dst.Length && !(at <= i < at + |src|) ==> dst[i] == old(dst[i])
  {
    forall i | 0 <= i < |src| {
      dst[at + i] := src[i];
    }
  }

  /** `bcopy` into a buffer, said of the whole buffer. */
  method Overwrite(src: seq<Byte>, dst: array<Byte>, at: nat)
    requires at + |src| <= dst.Length
    modifies dst
    ensures dst[..] == Patched(old(dst[..]), at, src)
  {
    CopyBytes(src, dst, at);
    assert dst[..] == dst[..at] + dst[at..at + |src|] + dst[at + |src|..];
  }
}
