// The double-length multiplication of machine/mipssim.cc: a shift-and-add loop over 32-bit words with an arithmetic
// right shift and an early exit.
module Multiplication {
  import opened Words

  const TWO32 := 0x1_0000_0000
  const TWO64 := 0x1_0000_0000_0000_0000

  /** The word read as an unsigned number. */
  function Unsigned(v: Int32): Word {
    if v < 0 then v + TWO32 else v
  }

  function Pair(hi: Word, lo: Word): int {
    hi * TWO32 + lo
  }

  /** Negation in 32 bits: the most negative number stays as it is. */
  function Negated(v: Int32): Int32 {
    if v == -0x8000_0000 then v else -v
  }

  /** lo += bLo, the carry, hi += bHi. */
  lemma AddPair(hi: Word, lo: Word, bHi: Word, bLo: Word)
    requires Pair(hi, lo) + Pair(bHi, bLo) < TWO64
    ensures
      var lo' := (lo + bLo) % TWO32;
      var carry := if lo' < bLo then 1 else 0;
      hi + carry + bHi < TWO32 && Pair(hi + carry + bHi, lo') == Pair(hi, lo) + Pair(bHi, bLo)
  {
    assert (lo + bLo) % TWO32 == if lo + bLo < TWO32 then lo + bLo else lo + bLo - TWO32;
  }

  /** bHi <<= 1 with the top bit of bLo, then bLo <<= 1. */
  lemma ShiftPair(bHi: Word, bLo: Word)
    requires bHi < 0x8000_0000
    ensures
      var top := if bLo >= 0x8000_0000 then 1 else 0;
      bHi * 2 + top < TWO32 && Pair(bHi * 2 + top, bLo * 2 % TWO32) == 2 * Pair(bHi, bLo)
  {
    assert bLo * 2 % TWO32 == if bLo >= 0x8000_0000 then bLo * 2 - TWO32 else bLo * 2;
  }

  /** ~hi, ~lo, lo++ with its carry. */
  lemma NegatePair(hi: Word, lo: Word)
    ensures
      var lo' := (TWO32 - 1 - lo + 1) % TWO32;
      var hi' := if lo' == 0 then (TWO32 - 1 - hi + 1) % TWO32 else TWO32 - 1 - hi;
      Pair(hi', lo') == (-Pair(hi, lo)) % TWO64
  {
    var n := Pair(hi, lo);
    assert (-n) % TWO64 == if n == 0 then 0 else TWO64 - n;
  }

  // ---------------------------------------------------------------- products and shifts

  /** Multiplication as repeated addition. */
  function Mul(x: nat, y: nat): nat {
    if x == 0 then 0 else y + Mul(x - 1, y)
  }

  lemma {:induction false} MulIsProduct(x: nat, y: nat)
    ensures Mul(x, y) == x * y
  {
    if x > 0 {
      MulIsProduct(x - 1, y);
    }
  }

  lemma {:induction false} MulSum(x: nat, x': nat, y: nat)
    ensures Mul(x + x', y) == Mul(x, y) + Mul(x', y)
  {
    if x > 0 {
      MulSum(x - 1, x', y);
    }
  }

  lemma {:induction false} MulBound(x: nat, y: nat)
    requires y < TWO32
    ensures Mul(x, y) <= x * (TWO32 - 1)
  {
    if x > 0 {
      MulBound(x - 1, y);
    }
  }

  lemma {:induction false} MulSumRight(x: nat, y: nat, y': nat)
    ensures Mul(x, y + y') == Mul(x, y) + Mul(x, y')
  {
    if x > 0 {
      MulSumRight(x - 1, y, y');
    }
  }

  lemma {:induction false} MulOnes(x: nat)
    ensures Mul(x, 0) == 0 && Mul(x, 1) == x
  {
    if x > 0 {
      MulOnes(x - 1);
    }
  }

  /** x shifted left by i places. */
  function Shl(x: nat, i: nat): nat {
    Mul(Pow2(i), x)
  }

  lemma ShlNone(x: nat)
    ensures Shl(x, 0) == x
  {
    assert Pow2(0) == 1 && Mul(1, x) == x + Mul(0, x);
  }

  lemma ShlMore(x: nat, i: nat)
    ensures Shl(x, i + 1) == 2 * Shl(x, i)
  {
    MulSum(Pow2(i), Pow2(i), x);
  }

  lemma {:induction false} Pow2Grows(m: nat, n: nat)
    requires m <= n
    ensures 1 <= Pow2(m) <= Pow2(n)
  {
    if m > 0 {
      Pow2Grows(m - 1, n - 1);
    } else if n > 0 {
      Pow2Grows(0, n - 1);
    }
  }

  // ---------------------------------------------------------------- the loop

  /** Before bit number i is looked at: `done` is the part of the multiplier already accounted for, `rest` holds
      the bits still to come, and `a` is what the arithmetic shifts have left. */
  ghost predicate Progress(uA: nat, a: int, done: nat, rest: nat, i: nat)
    requires i <= 32
  {
    uA == done + Shl(rest, i) && rest < Pow2(32 - i) && (a == rest || a == rest - Pow2(32 - i))
  }

  lemma ShlHalf(rest: nat, i: nat)
    ensures Shl(rest, i) == Shl(rest / 2, i + 1) + (if rest % 2 == 1 then Pow2(i) else 0)
  {
    var h, m := rest / 2, Pow2(i);
    assert rest == h + h + rest % 2;
    MulSumRight(m, h + h, rest % 2);
    MulSumRight(m, h, h);
    ShlMore(h, i);
    MulOnes(m);
  }

  /** Halving, with the sign bit shifted in again for a negative number. */
  lemma HalfWithSign(a: int, rest: nat, half: nat)
    requires rest < 2 * half && (a == rest || a == rest - 2 * half)
    ensures a % 2 == rest % 2 && rest / 2 < half && (a / 2 == rest / 2 || a / 2 == rest / 2 - half)
  {
  }

  /** The arithmetic shift drops the bit just looked at. */
  lemma NextBit(uA: nat, a: int, done: nat, rest: nat, i: nat)
    requires i < 32 && Progress(uA, a, done, rest, i)
    ensures a % 2 == rest % 2
    ensures Progress(uA, a / 2, if a % 2 == 1 then done + Pow2(i) else done, rest / 2, i + 1)
  {
    assert Pow2(32 - i) == 2 * Pow2(31 - i);
    HalfWithSign(a, rest, Pow2(31 - i));
    ShlHalf(rest, i);
  }

  /** Adding the shifted multiplicand for a one bit stays within 64 bits and accounts for that bit. */
  lemma OneBit(uA: nat, a: int, done: nat, rest: nat, i: nat, b: nat)
    requires i < 32 && Progress(uA, a, done, rest, i) && rest % 2 == 1 && uA < TWO32 && b < TWO32
    ensures Mul(done, b) + Shl(b, i) == Mul(done + Pow2(i), b) < TWO64
    ensures a == 1 ==> uA == done + Pow2(i)
  {
    MulSum(done, Pow2(i), b);
    MulSumRight(Pow2(i), rest - 1, 1);
    MulOnes(Pow2(i));
    MulBound(done + Pow2(i), b);
  }

  lemma SmallPowers(i: nat)
    requires i <= 30
    ensures 1 <= Pow2(i) && 2 * Pow2(i) == Pow2(i + 1) <= 0x8000_0000
  {
    Pow2Of32();
    assert 2 * Pow2(31) == Pow2(32);
    Pow2Grows(i + 1, 31);
    Pow2Grows(i, 31);
  }

  method AddIn(hi0: Word, lo0: Word, bHi: Word, bLo: Word) returns (hi: Word, lo: Word)
    requires Pair(hi0, lo0) + Pair(bHi, bLo) < TWO64
    ensures Pair(hi, lo) == Pair(hi0, lo0) + Pair(bHi, bLo)
  {
    AddPair(hi0, lo0, bHi, bLo);
    lo := (lo0 + bLo) % TWO32;
    hi := hi0;
    if lo < bLo {
      hi := hi + 1;
    }
    hi := hi + bHi;
  }

  /** The shift of the pair; a bit shifted out at the top is lost. */
  method ShiftLeft(hi0: Word, lo0: Word) returns (hi: Word, lo: Word)
    ensures hi0 < 0x8000_0000 ==> Pair(hi, lo) == 2 * Pair(hi0, lo0) && hi <= 2 * hi0 + 1
  {
    if hi0 < 0x8000_0000 {
      ShiftPair(hi0, lo0);
    }
    hi := hi0 * 2 % TWO32;
    if lo0 >= 0x8000_0000 {
      hi := hi + 1;
    }
    lo := lo0 * 2 % TWO32;
  }

  /** The loop: the exact product of two unsigned words. */
  method ShiftAdd(a0: Int32, b: Word) returns (hi: Word, lo: Word)
    ensures Pair(hi, lo) == Mul(Unsigned(a0), b)
  {
    var a: int, bLo: Word, bHi: Word := a0, b, 0;
    hi, lo := 0, 0;
    ghost var uA: nat, done: nat, rest: nat := Unsigned(a0), 0, Unsigned(a0);
    Pow2Of32();
    ShlNone(uA);
    ShlNone(b);
    for i := 0 to 32
      invariant Progress(uA, a, done, rest, i) && Pair(hi, lo) == Mul(done, b)
      invariant i < 32 ==> Pair(bHi, bLo) == Shl(b, i) && bHi < Pow2(i)
    {
      NextBit(uA, a, done, rest, i);
      if a % 2 == 1 {
        OneBit(uA, a, done, rest, i, b);
        hi, lo := AddIn(hi, lo, bHi, bLo);
        done := done + Pow2(i);
        if a == 0 || a == 1 {
          return;
        }
      }
      if i < 31 {
        SmallPowers(i);
        ShlMore(b, i);
      }
      bHi, bLo := ShiftLeft(bHi, bLo);
      rest := rest / 2;
      a := a / 2;
    }
    MulOnes(Pow2(32));
  }

  /** The product modulo 2^64, signed or unsigned, for all operands. */
  method Mult(a0: Int32, b0: Int32, signedArith: bool) returns (hi: Word, lo: Word)
    ensures Pair(hi, lo) == (if signedArith then a0 * b0 else Unsigned(a0) * Unsigned(b0)) % TWO64
  {
    if a0 == 0 || b0 == 0 {
      return 0, 0;
    }
    var a, b, negative := a0, b0, false;
    if signedArith {
      if a < 0 {
        negative := !negative;
        a := Negated(a);
      }
      if b < 0 {
        negative := !negative;
        b := Negated(b);
      }
    }
    hi, lo := ShiftAdd(a, Unsigned(b));
    MulIsProduct(Unsigned(a), Unsigned(b));
    if negative {
      hi, lo := NegateResult(hi, lo);
    }
    SignRule(a0, b0, signedArith, a, b, negative);
  }

  method NegateResult(hi0: Word, lo0: Word) returns (hi: Word, lo: Word)
    ensures Pair(hi, lo) == (-Pair(hi0, lo0)) % TWO64
  {
    NegatePair(hi0, lo0);
    hi := TWO32 - 1 - hi0;
    lo := TWO32 - 1 - lo0;
    lo := (lo + 1) % TWO32;
    if lo == 0 {
      hi := (hi + 1) % TWO32;
    }
  }

  /** The magnitudes and the sign give back the product. */
  lemma SignRule(a0: Int32, b0: Int32, signedArith: bool, a: Int32, b: Int32, negative: bool)
    requires a == (if signedArith && a0 < 0 then Negated(a0) else a0)
    requires b == (if signedArith && b0 < 0 then Negated(b0) else b0)
    requires negative == (signedArith && ((a0 < 0) != (b0 < 0)))
    ensures
      var product, magnitude := if signedArith then a0 * b0 else Unsigned(a0) * Unsigned(b0), Unsigned(a) * Unsigned(b);
      0 <= magnitude < TWO64 && product == (if negative then -magnitude else magnitude)
  {
    OneWordProduct(Unsigned(a), Unsigned(b));
  }

  lemma OneWordProduct(x: Word, y: Word)
    ensures 0 <= x * y < TWO64
  {
    MulIsProduct(x, y);
    MulBound(x, y);
  }
}
