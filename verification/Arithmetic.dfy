// What the arithmetic, logic, shift, compare and branch instructions of machine/mipssim.cc compute, with the registers
// unsigned as they are declared there, against the MIPS architecture that they simulate.
module Arithmetic {
  import opened Basics
  import opened Words
  import opened Machines
  import opened Instructions

  // ---------------------------------------------------------------- bits of words

  datatype BitOp = AndBits | OrBits | XorBits | NorBits

  predicate OnBits(op: BitOp, x: bool, y: bool) {
    match op
    case AndBits => x && y
    case OrBits => x || y
    case XorBits => x != y
    case NorBits => !x && !y
  }

  /** The operation on the low n binary digits. */
  function Digits(op: BitOp, x: nat, y: nat, n: nat): nat {
    if n == 0 then 0 else Digits(op, x / 2, y / 2, n - 1) * 2 + One(OnBits(op, x % 2 == 1, y % 2 == 1))
  }

  lemma {:induction false} DigitsFit(op: BitOp, x: nat, y: nat, n: nat)
    ensures Digits(op, x, y, n) < Pow2(n)
  {
    if n > 0 {
      DigitsFit(op, x / 2, y / 2, n - 1);
    }
  }

  lemma {:induction false} DigitsAt(op: BitOp, x: nat, y: nat, n: nat, k: nat)
    requires k < n
    ensures TestBit(Digits(op, x, y, n), k) == OnBits(op, TestBit(x, k), TestBit(y, k))
  {
    TestSplit(Digits(op, x / 2, y / 2, n - 1), One(OnBits(op, x % 2 == 1, y % 2 == 1)), k);
    if k > 0 {
      DigitsAt(op, x / 2, y / 2, n - 1, k - 1);
    }
  }

  function Bitwise(op: BitOp, x: Word, y: Word): Word {
    Pow2Of32();
    DigitsFit(op, x, y, 32);
    Digits(op, x, y, 32)
  }

  /** Bit by bit. */
  lemma BitwiseAt(op: BitOp, x: Word, y: Word, k: nat)
    requires k < 32
    ensures TestBit(Bitwise(op, x, y), k) == OnBits(op, TestBit(x, k), TestBit(y, k))
  {
    DigitsAt(op, x, y, 32, k);
  }

  /** A number is told by its digits. */
  lemma {:induction false} SameDigits(x: nat, y: nat, n: nat)
    requires x < Pow2(n) && y < Pow2(n) && forall k :: 0 <= k < n ==> TestBit(x, k) == TestBit(y, k)
    ensures x == y
  {
    if n > 0 {
      assert TestBit(x, 0) == TestBit(y, 0);
      forall k | 0 <= k < n - 1
        ensures TestBit(x / 2, k) == TestBit(y / 2, k)
      {
        assert TestBit(x, k + 1) == TestBit(y, k + 1);
      }
      SameDigits(x / 2, y / 2, n - 1);
    }
  }

  // ---------------------------------------------------------------- the simulator

  predicate Negative(w: Word) {
    w >= 0x8000_0000
  }

  /** `w << s`. */
  function ShiftLeft(w: Word, s: nat): Word {
    Wrap(w * Pow2(s))
  }

  lemma {:induction false} Pow2Positive(s: nat)
    ensures Pow2(s) > 0
  {
    if s > 0 {
      Pow2Positive(s - 1);
    }
  }

  /** `w >> s` of an unsigned word. */
  function ShiftRight(w: Word, s: nat): Word {
    Pow2Positive(s);
    DivideBounds(w, Pow2(s));
    w / Pow2(s)
  }

  /** `w >> s` of a signed word. */
  function ShiftRightSigned(w: Word, s: nat): Word {
    Pow2Positive(s);
    Wrap(Signed(w) / Pow2(s))
  }

  /** What the simulator computes; OR looks at one register twice, comparisons are unsigned, SRA shifts an unsigned word
      and SRL a signed one. */
  function Computed(op: Op, rs: Word, rt: Word, extra: int): Word {
    match op
    case ADD => Wrap(rs + rt)
    case ADDU => Wrap(rs + rt)
    case ADDI => Wrap(rs + extra)
    case ADDIU => Wrap(rs + extra)
    case SUB => Wrap(rs - rt)
    case SUBU => Wrap(rs - rt)
    case AND => Bitwise(AndBits, rs, rt)
    case ANDI => Bitwise(AndBits, rs, extra % 65536)
    case OR => Bitwise(OrBits, rs, rs)
    case ORI => Bitwise(OrBits, rs, extra % 65536)
    case XOR => Bitwise(XorBits, rs, rt)
    case XORI => Bitwise(XorBits, rs, extra % 65536)
    case NOR => Bitwise(NorBits, rs, rt)
    case LUI => Wrap(extra * 65536)
    case SLL => ShiftLeft(rt, extra % 32)
    case SLLV => ShiftLeft(rt, rs % 32)
    case SRA => ShiftRight(rt, extra % 32)
    case SRAV => ShiftRight(rt, rs % 32)
    case SRL => ShiftRightSigned(rt, extra % 32)
    case SRLV => ShiftRightSigned(rt, rs % 32)
    case SLT => One(rs < rt)
    case SLTU => One(rs < rt)
    case SLTI => One(rs < Wrap(extra))
    case SLTIU => One(rs < Wrap(extra))
    case _ => 0
  }

  /** The overflow tests compare sign bits. */
  predicate Overflows(op: Op, rs: Word, rt: Word, extra: int) {
    match op
    case ADD => Negative(rs) == Negative(rt) && Negative(rs) != Negative(Wrap(rs + rt))
    case ADDI => Negative(rs) == Negative(Wrap(extra)) && Negative(Wrap(extra)) != Negative(Wrap(rs + extra))
    case SUB => Negative(rs) != Negative(rt) && Negative(rs) != Negative(Wrap(rs - rt))
    case _ => false
  }

  predicate Taken(op: Op, rs: Word, rt: Word) {
    match op
    case BEQ => rs == rt
    case BNE => rs != rt
    case BGEZ => !Negative(rs)
    case BGEZAL => !Negative(rs)
    case BLTZ => Negative(rs)
    case BLTZAL => Negative(rs)
    case BGTZ => rs > 0
    case BLEZ => rs <= 0
    case _ => false
  }

  function Simulator(): Alu {
    Alu(Computed, Overflows, Taken)
  }

  // ---------------------------------------------------------------- the architecture

  /** What the instruction is to compute: signed words where the manual says so. */
  function Architected(op: Op, rs: Word, rt: Word, extra: int): Word {
    match op
    case ADD => Wrap(Signed(rs) + Signed(rt))
    case ADDU => Wrap(Signed(rs) + Signed(rt))
    case ADDI => Wrap(Signed(rs) + extra)
    case ADDIU => Wrap(Signed(rs) + extra)
    case SUB => Wrap(Signed(rs) - Signed(rt))
    case SUBU => Wrap(Signed(rs) - Signed(rt))
    case AND => Bitwise(AndBits, rs, rt)
    case ANDI => Bitwise(AndBits, rs, extra % 65536)
    case OR => Bitwise(OrBits, rs, rt)
    case ORI => Bitwise(OrBits, rs, extra % 65536)
    case XOR => Bitwise(XorBits, rs, rt)
    case XORI => Bitwise(XorBits, rs, extra % 65536)
    case NOR => Bitwise(NorBits, rs, rt)
    case LUI => extra % 65536 * 65536
    case SLL => Wrap(rt * Pow2(extra % 32))
    case SLLV => Wrap(rt * Pow2(rs % 32))
    case SRA => ShiftRightSigned(rt, extra % 32)
    case SRAV => ShiftRightSigned(rt, rs % 32)
    case SRL => ShiftRight(rt, extra % 32)
    case SRLV => ShiftRight(rt, rs % 32)
    case SLT => One(Signed(rs) < Signed(rt))
    case SLTI => One(Signed(rs) < extra)
    case SLTU => One(rs < rt)
    case SLTIU => One(rs < Wrap(extra))
    case _ => 0
  }

  predicate ArchitectedOverflow(op: Op, rs: Word, rt: Word, extra: int) {
    match op
    case ADD => !(-0x8000_0000 <= Signed(rs) + Signed(rt) < 0x8000_0000)
    case ADDI => !(-0x8000_0000 <= Signed(rs) + extra < 0x8000_0000)
    case SUB => !(-0x8000_0000 <= Signed(rs) - Signed(rt) < 0x8000_0000)
    case _ => false
  }

  predicate ArchitectedBranch(op: Op, rs: Word, rt: Word) {
    match op
    case BEQ => Signed(rs) == Signed(rt)
    case BNE => Signed(rs) != Signed(rt)
    case BGEZ => Signed(rs) >= 0
    case BGEZAL => Signed(rs) >= 0
    case BLTZ => Signed(rs) < 0
    case BLTZAL => Signed(rs) < 0
    case BGTZ => Signed(rs) > 0
    case BLEZ => Signed(rs) <= 0
    case _ => false
  }

  /** An immediate, sign-extended by the decoder. */
  predicate Immediate(extra: int) {
    -0x8000 <= extra < 0x8000
  }

  // ---------------------------------------------------------------- where they agree

  lemma WrapSame(x: int, y: int, k: int)
    requires x == y + k * 0x1_0000_0000
    ensures Wrap(x) == Wrap(y)
  {
  }

  lemma SignedWraps(w: Word, x: int)
    ensures Wrap(Signed(w) + x) == Wrap(w + x)
  {
    WrapSame(Signed(w) + x, w + x, if w < 0x8000_0000 then 0 else -1);
  }

  lemma SumsAgree(op: Op, rs: Word, rt: Word, extra: int)
    requires op.ADD? || op.ADDU? || op.ADDI? || op.ADDIU? || op.SUB? || op.SUBU?
    ensures Computed(op, rs, rt, extra) == Architected(op, rs, rt, extra)
  {
    if op.ADDI? || op.ADDIU? {
      SignedWraps(rs, extra);
    } else if op.ADD? || op.ADDU? {
      SignedWraps(rs, Signed(rt));
      SignedWraps(rt, rs);
    } else {
      var t: int := Signed(rt);
      SignedWraps(rs, -t);
      WrapSame(rs - t, rs - rt, if rt < 0x8000_0000 then 0 else 1);
    }
  }

  /** The overflow tests are exact. */
  lemma OverflowIsExact(op: Op, rs: Word, rt: Word, extra: int)
    requires Immediate(extra)
    ensures Overflows(op, rs, rt, extra) == ArchitectedOverflow(op, rs, rt, extra)
  {
    match op
    case ADD =>
    case ADDI =>
    case SUB =>
    case _ =>
  }

  /** A conditional branch goes the right way if and only if it is not a test for greater than zero, or for less than or
      equal, of a negative register. */
  lemma BranchesRightWhen(op: Op, rs: Word, rt: Word)
    requires IsBranch(op)
    ensures Taken(op, rs, rt) == ArchitectedBranch(op, rs, rt) <==> !((op.BGTZ? || op.BLEZ?) && Negative(rs))
  {
  }

  /** Every bit of y is a bit of x. */
  predicate Includes(x: Word, y: Word) {
    forall k :: 0 <= k < 32 && TestBit(y, k) ==> TestBit(x, k)
  }

  lemma OrRightWhen(rs: Word, rt: Word)
    ensures Bitwise(OrBits, rs, rs) == Bitwise(OrBits, rs, rt) <==> Includes(rs, rt)
  {
    Pow2Of32();
    var x, y := Bitwise(OrBits, rs, rs), Bitwise(OrBits, rs, rt);
    forall k | 0 <= k < 32
      ensures TestBit(x, k) == TestBit(rs, k) && TestBit(y, k) == (TestBit(rs, k) || TestBit(rt, k))
    {
      BitwiseAt(OrBits, rs, rs, k);
      BitwiseAt(OrBits, rs, rt, k);
    }
    if Includes(rs, rt) {
      SameDigits(x, y, 32);
    } else {
      var k :| 0 <= k < 32 && TestBit(rt, k) && !TestBit(rs, k);
      assert TestBit(x, k) != TestBit(y, k);
    }
  }

  lemma ShiftBorrows(w: int, high: nat, low: nat)
    requires low > 0
    ensures (w - high * low) / low == w / low - high
  {
    var q, m := w / low, w % low;
    assert w - high * low == (q - high) * low + m;
    QuotientIs(w - high * low, low, q - high, m);
  }

  lemma QuotientIs(x: int, y: nat, q: int, m: int)
    requires y > 0 && x == q * y + m && 0 <= m < y
    ensures x / y == q
  {
    var d := x / y - q;
    assert x / y * y == d * y + q * y;
    MultipleGrows(d, y);
  }

  lemma MultipleGrows(d: int, y: int)
    requires y > 0
    ensures d > 0 ==> d * y >= y
    ensures d < 0 ==> d * y <= -y
  {
    if d > 0 {
      AtLeastOnce(y, d);
    } else if d < 0 {
      AtLeastOnce(y, -d);
    }
  }

  lemma ShiftsAgreeWhen(w: Word, s: nat)
    requires s < 32
    ensures ShiftRight(w, s) == ShiftRightSigned(w, s) <==> !Negative(w) || s == 0
  {
    Pow2Positive(s);
    Pow2Positive(32 - s);
    DivideBounds(w, Pow2(s));
    if Negative(w) {
      Pow2Of32();
      Pow2Sum(32 - s, s);
      ShiftBorrows(w, Pow2(32 - s), Pow2(s));
      var q, high := w / Pow2(s), Pow2(32 - s);
      assert Signed(w) / Pow2(s) == q - high;
      if s == 0 {
        WrapSame(q - high, q, -1);
      } else {
        HighHalf(s);
        assert Wrap(q - high) != q;
      }
    }
  }

  lemma {:induction false} Pow2Grows(m: nat, n: nat)
    requires m <= n
    ensures 0 < Pow2(m) <= Pow2(n)
  {
    if m < n {
      Pow2Grows(m, n - 1);
    } else {
      Pow2Positive(m);
    }
  }

  lemma HighHalf(s: nat)
    requires 0 < s <= 32
    ensures 0 < Pow2(32 - s) <= 0x8000_0000
  {
    Pow2Of32();
    Pow2Grows(32 - s, 31);
  }

  /** When an instruction computes what the architecture says: OR only if the second register has no bit that the first
      one lacks, signed comparisons only of operands of the same sign, right shifts only of words that are not negative
      or by nothing, everything else always. */
  predicate RightWhen(op: Op, rs: Word, rt: Word, extra: int) {
    match op
    case OR => Includes(rs, rt)
    case SLT => Negative(rs) == Negative(rt)
    case SLTI => Negative(rs) == (extra < 0)
    case SRA => !Negative(rt) || extra % 32 == 0
    case SRL => !Negative(rt) || extra % 32 == 0
    case SRAV => !Negative(rt) || rs % 32 == 0
    case SRLV => !Negative(rt) || rs % 32 == 0
    case _ => true
  }

  lemma ComparesRightWhen(op: Op, rs: Word, rt: Word, extra: int)
    requires Immediate(extra) && (op.SLT? || op.SLTI?)
    ensures Computed(op, rs, rt, extra) == Architected(op, rs, rt, extra) <==> RightWhen(op, rs, rt, extra)
  {
    assert Wrap(extra) == if extra < 0 then extra + 0x1_0000_0000 else extra;
  }

  lemma UpperImmediate(extra: int)
    requires Immediate(extra)
    ensures Wrap(extra * 65536) == extra % 65536 * 65536
  {
    WrapSame(extra * 65536, extra % 65536 * 65536, if extra < 0 then -1 else 0);
  }

  lemma ShiftsRightWhen(op: Op, rs: Word, rt: Word, extra: int)
    requires op.SRA? || op.SRL? || op.SRAV? || op.SRLV?
    ensures Computed(op, rs, rt, extra) == Architected(op, rs, rt, extra) <==> RightWhen(op, rs, rt, extra)
  {
    ShiftsAgreeWhen(rt, extra % 32);
    ShiftsAgreeWhen(rt, rs % 32);
  }

  lemma ComputesRightWhen(op: Op, rs: Word, rt: Word, extra: int)
    requires Immediate(extra)
    ensures Computed(op, rs, rt, extra) == Architected(op, rs, rt, extra) <==> RightWhen(op, rs, rt, extra)
  {
    if op.OR? {
      OrRightWhen(rs, rt);
    } else if op.SRA? || op.SRL? || op.SRAV? || op.SRLV? {
      ShiftsRightWhen(op, rs, rt, extra);
    } else if op.SLT? || op.SLTI? {
      ComparesRightWhen(op, rs, rt, extra);
    } else if op.ADD? || op.ADDU? || op.ADDI? || op.ADDIU? || op.SUB? || op.SUBU? {
      SumsAgree(op, rs, rt, extra);
    } else if op.LUI? {
      UpperImmediate(extra);
    }
  }

  // ---------------------------------------------------------------- division

  function Abs(x: int): nat {
    if x < 0 then -x else x
  }

  /** The quotient of signed numbers, rounded towards zero. */
  function Quotient(x: int, y: int): int
    requires y != 0
  {
    if (x < 0) == (y < 0) then Abs(x) / Abs(y) else -(Abs(x) / Abs(y))
  }

  /** What it leaves, with the sign of the dividend. */
  function Rest(x: int, y: int): int
    requires y != 0
  {
    if x < 0 then -(Abs(x) % Abs(y)) else Abs(x) % Abs(y)
  }

  lemma QuotientAndRest(x: int, y: int)
    requires y != 0
    ensures x == Quotient(x, y) * y + Rest(x, y) && Abs(Rest(x, y)) < Abs(y)
  {
    DivideBounds(Abs(x), Abs(y));
    var q, m := Abs(x) / Abs(y), Abs(x) % Abs(y);
    assert Abs(x) == q * Abs(y) + m;
    assert q * (-y) == -(q * y) && (-q) * y == -(q * y);
  }

  /** DIV leaves the quotient and the rest of the signed numbers. */
  predicate DividesRight(rs: Word, rt: Word)
    requires rt != 0
  {
    && LoAfter(DIV, rs, rt, 0) == Wrap(Quotient(Signed(rs), Signed(rt)))
    && HiAfter(DIV, rs, rt, 0) == Wrap(Rest(Signed(rs), Signed(rt)))
  }

  lemma LowQuotient(x: nat, y: nat)
    requires y > 0
    ensures x < y ==> x / y == 0 && x % y == x
    ensures y <= x < 2 * y ==> x / y == 1 && x % y == x - y
    ensures y <= x ==> 1 <= x / y <= x
    ensures y >= 2 ==> 2 * (x / y) <= x
  {
    DivideBounds(x, y);
    var q := x / y;
    MultipleGrows(q - 1, y);
    MultipleGrows(q, y);
    if y >= 2 {
      AtLeastOnce(q, y - 1);
      assert q * y == q + q * (y - 1);
    }
    if x < y {
      assert q == 0;
    } else if x < 2 * y {
      assert (q - 1) * y == q * y - y;
      assert q == 1;
    }
  }

  lemma DivideByNegative(rs: Word, rt: Word)
    requires Negative(rt)
    ensures DividesRight(rs, rt) <==> if Negative(rs) then rs == rt else rs < 0x1_0000_0000 - rt
  {
    var x, y := Abs(Signed(rs)), Abs(Signed(rt));
    LowQuotient(rs, rt);
    LowQuotient(x, y);
    assert LoAfter(DIV, rs, rt, 0) == if rs < rt then 0 else 1;
  }

  lemma WrapNegated(q: int)
    requires 0 <= q <= 0x8000_0000
    ensures Wrap(-q) == if q == 0 then 0 else 0x1_0000_0000 - q
  {
  }

  lemma DivideByOne(rs: Word)
    requires Negative(rs)
    ensures DividesRight(rs, 1)
  {
    WrapNegated(0x1_0000_0000 - rs);
  }

  lemma DivideNegative(rs: Word, rt: Word)
    requires Negative(rs) && !Negative(rt) && rt >= 2
    ensures !DividesRight(rs, rt)
  {
    var x := 0x1_0000_0000 - rs;
    LowQuotient(rs, rt);
    LowQuotient(x, rt);
    WrapNegated(x / rt);
    assert 0 < LoAfter(DIV, rs, rt, 0) < 0x8000_0000;
  }

  /** DIV divides the unsigned contents of the registers.  That is the signed quotient and rest if and only if neither
      operand is negative, or they are equal, or a dividend that is not negative is less than the size of a negative
      divisor, or a negative dividend is divided by one. */
  lemma DividesRightWhen(rs: Word, rt: Word)
    requires rt != 0
    ensures DividesRight(rs, rt) <==>
            || (!Negative(rs) && !Negative(rt))
            || rs == rt
            || (!Negative(rs) && Negative(rt) && rs < 0x1_0000_0000 - rt)
            || (Negative(rs) && rt == 1)
  {
    DivideBounds(rs, rt);
    if Negative(rt) {
      DivideByNegative(rs, rt);
    } else if Negative(rs) && rt == 1 {
      DivideByOne(rs);
    } else if Negative(rs) {
      DivideNegative(rs, rt);
    }
  }

  /** Inputs for which an instruction goes wrong: 1 or 2, -1 less than 0, -2 shifted right by 1. */
  predicate Example(op: Op, rs: Word, rt: Word, extra: int) {
    || (op.OR? && rs == 1 && rt == 2)
    || ((op.SLT? || op.SLTI?) && rs == 0xffff_ffff && rt == 0 && extra == 0)
    || ((op.SRA? || op.SRL?) && rt == 0xffff_fffe && extra == 1)
    || ((op.SRAV? || op.SRLV?) && rt == 0xffff_fffe && rs == 1)
  }

  lemma WrongResult(op: Op, rs: Word, rt: Word, extra: int)
    requires Example(op, rs, rt, extra) && Immediate(extra)
    ensures Computed(op, rs, rt, extra) != Architected(op, rs, rt, extra)
  {
    if op.OR? {
      assert TestBit(rt, 1) && !TestBit(rs, 1);
    }
    ComputesRightWhen(op, rs, rt, extra);
  }

  /** -4 is taken to be greater than 0, and -4 divided by 2 is not -2. */
  lemma WrongBranchAndQuotient(rs: Word, rt: Word)
    requires rs == 0xffff_fffc && rt == 2
    ensures Taken(BGTZ, rs, 0) && !ArchitectedBranch(BGTZ, rs, 0)
    ensures !Taken(BLEZ, rs, 0) && ArchitectedBranch(BLEZ, rs, 0)
    ensures !DividesRight(rs, rt)
  {
    DividesRightWhen(rs, rt);
  }
}
