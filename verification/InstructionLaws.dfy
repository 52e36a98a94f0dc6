// What decoding, addressing, loading, storing, jumping and multiplying give, said apart from how they are computed.
module InstructionLaws {
  import opened Basics
  import opened Words
  import opened Paging
  import opened AddrSpaces
  import opened Machines
  import opened Multiplication
  import opened Instructions

  // ---------------------------------------------------------------- the encoding of instructions

  /** Where the MIPS encoding puts an operation: a function code of opcode 0, a condition code of opcode 1, an opcode
      with an immediate, or an opcode with a jump index. */
  datatype Code = Function(f: nat) | Condition(c: nat) | Immediate(i: nat) | Jump(j: nat) | NoCode

  function CodeOf(op: Op): (code: Code)
    ensures code.Function? ==> code.f < 64
    ensures code.Condition? ==> code.c < 32
    ensures code.Immediate? ==> code.i < 64
    ensures code.Jump? ==> code.j < 64
  {
    match op
    case SLL => Function(0x00) case SRL => Function(0x02) case SRA => Function(0x03) case SLLV => Function(0x04)
    case SRLV => Function(0x06) case SRAV => Function(0x07) case JR => Function(0x08) case JALR => Function(0x09)
    case SYSCALL => Function(0x0c) case MFHI => Function(0x10) case MTHI => Function(0x11) case MFLO => Function(0x12)
    case MTLO => Function(0x13) case MULT => Function(0x18) case MULTU => Function(0x19) case DIV => Function(0x1a)
    case DIVU => Function(0x1b) case ADD => Function(0x20) case ADDU => Function(0x21) case SUB => Function(0x22)
    case SUBU => Function(0x23) case AND => Function(0x24) case OR => Function(0x25) case XOR => Function(0x26)
    case NOR => Function(0x27) case SLT => Function(0x2a) case SLTU => Function(0x2b)
    case BLTZ => Condition(0x00) case BGEZ => Condition(0x01) case BLTZAL => Condition(0x10)
    case BGEZAL => Condition(0x11)
    case J => Jump(0x02) case JAL => Jump(0x03)
    case BEQ => Immediate(0x04) case BNE => Immediate(0x05) case BLEZ => Immediate(0x06) case BGTZ => Immediate(0x07)
    case ADDI => Immediate(0x08) case ADDIU => Immediate(0x09) case SLTI => Immediate(0x0a)
    case SLTIU => Immediate(0x0b) case ANDI => Immediate(0x0c) case ORI => Immediate(0x0d) case XORI => Immediate(0x0e)
    case LUI => Immediate(0x0f) case LB => Immediate(0x20) case LH => Immediate(0x21) case LWL => Immediate(0x22)
    case LW => Immediate(0x23) case LBU => Immediate(0x24) case LHU => Immediate(0x25) case LWR => Immediate(0x26)
    case SB => Immediate(0x28) case SH => Immediate(0x29) case SWL => Immediate(0x2a) case SW => Immediate(0x2b)
    case SWR => Immediate(0x2e)
    case UNIMP => NoCode case RES => NoCode case SPECIAL => NoCode case BCOND => NoCode
  }

  /** A word out of its fields. */
  function Fields(code: nat, rs: nat, rt: nat, low: nat): Word
    requires code < 64 && rs < 32 && rt < 32 && low < 65536
  {
    code * 0x400_0000 + rs * 0x20_0000 + rt * 0x1_0000 + low
  }

  lemma FieldsApart(code: nat, rs: nat, rt: nat, low: nat)
    requires code < 64 && rs < 32 && rt < 32 && low < 65536
    ensures
      var w := Fields(code, rs, rt, low);
      w / 0x400_0000 == code && w / 0x20_0000 % 32 == rs && w / 65536 % 32 == rt && w % 65536 == low
  {
    var w := Fields(code, rs, rt, low);
    HighField(w, code, rs * 0x20_0000 + rt * 0x1_0000 + low);
    MiddleField(w, code, rs, rt * 0x1_0000 + low);
    LowerField(w, code * 32 + rs, rt, low);
  }

  lemma HighField(w: int, code: int, rest: int)
    requires w == code * 0x400_0000 + rest && 0 <= rest < 0x400_0000
    ensures w / 0x400_0000 == code
  {
  }

  lemma MiddleField(w: int, code: int, rs: int, rest: int)
    requires w == code * 0x400_0000 + rs * 0x20_0000 + rest && 0 <= rs < 32 && 0 <= rest < 0x20_0000
    ensures w / 0x20_0000 % 32 == rs
  {
    assert w / 0x20_0000 == code * 32 + rs;
  }

  lemma LowerField(w: int, high: int, rt: int, low: int)
    requires w == high * 0x20_0000 + rt * 0x1_0000 + low && 0 <= rt < 32 && 0 <= low < 65536
    ensures w / 65536 % 32 == rt && w % 65536 == low
  {
    assert w / 65536 == high * 32 + rt;
  }

  lemma LastDigits(w: int, q: int, d: int)
    ensures w == q * 64 + d && 0 <= d < 64 ==> w / 64 == q && w % 64 == d
    ensures w == q * 32 + d && 0 <= d < 32 ==> w / 32 == q && w % 32 == d
    ensures w == q * 256 + d && 0 <= d < 256 ==> w / 256 == q && w % 256 == d
  {
  }

  lemma LowFields(w: Word, rd: nat, shift: nat, f: nat)
    requires rd < 32 && shift < 32 && f < 64 && w % 65536 == rd * 2048 + shift * 64 + f
    ensures w / 2048 % 32 == rd && w / 64 % 32 == shift && w % 64 == f
  {
    var high := w / 65536;
    assert w == high * 65536 + w % 65536;
    LastDigits(w, high * 1024 + rd * 32 + shift, f);
    LastDigits(high * 1024 + rd * 32 + shift, high * 32 + rd, shift);
    LastDigits(high * 32 + rd, high, rd);
    assert w / 2048 == w / 64 / 32;
  }

  /** The tables of the simulator have every operation where the encoding puts it. */
  lemma ShiftAndMoveMatches(op: Op)
    requires CodeOf(op).Function? && CodeOf(op).f < 32
    ensures SpecialTable(CodeOf(op).f) == op
  {
  }

  lemma ArithmeticMatches(op: Op)
    requires CodeOf(op).Function? && CodeOf(op).f >= 32
    ensures SpecialTable(CodeOf(op).f) == op
  {
  }

  lemma LoadMatches(op: Op)
    requires IsLoad(op)
    ensures CodeOf(op).Immediate? && OpTable(CodeOf(op).i) == op
  {
  }

  lemma StoreMatches(op: Op)
    requires IsStore(op)
    ensures CodeOf(op).Immediate? && OpTable(CodeOf(op).i) == op
  {
  }

  lemma ImmediateMatches(op: Op)
    requires CodeOf(op).Immediate? && !IsLoad(op) && !IsStore(op)
    ensures OpTable(CodeOf(op).i) == op
  {
  }

  lemma DecodesSpecial(f: nat, rs: nat, rt: nat, rd: nat, shift: nat)
    requires f < 64 && rs < 32 && rt < 32 && rd < 32 && shift < 32
    ensures Decode(Fields(0, rs, rt, rd * 2048 + shift * 64 + f)) == Instruction(SpecialTable(f), rs, rt, rd, shift)
  {
    var low := rd * 2048 + shift * 64 + f;
    FieldsApart(0, rs, rt, low);
    LowFields(Fields(0, rs, rt, low), rd, shift, f);
  }

  /** Three registers and a shift amount. */
  lemma DecodesFunction(op: Op, rs: nat, rt: nat, rd: nat, shift: nat)
    requires CodeOf(op).Function? && rs < 32 && rt < 32 && rd < 32 && shift < 32
    ensures Decode(Fields(0, rs, rt, rd * 2048 + shift * 64 + CodeOf(op).f)) == Instruction(op, rs, rt, rd, shift)
  {
    var f := CodeOf(op).f;
    if f < 32 {
      ShiftAndMoveMatches(op);
    } else {
      ArithmeticMatches(op);
    }
    DecodesSpecial(f, rs, rt, rd, shift);
  }

  lemma SignExtends(w: Word, op: Op, imm: int)
    requires -0x8000 <= imm < 0x8000 && w % 65536 == imm % 65536 && op != SPECIAL && op != J && op != JAL
    ensures Extra(w, op) == imm
  {
  }

  /** An opcode, two registers and an immediate that is sign-extended. */
  lemma DecodesPlain(op: Op, code: nat, rs: nat, rt: nat, imm: int)
    requires code < 64 && rs < 32 && rt < 32 && -0x8000 <= imm < 0x8000
    requires OpTable(code) == op && op != SPECIAL && op != BCOND && op != J && op != JAL
    ensures
      var ins := Decode(Fields(code, rs, rt, imm % 65536));
      ins.op == op && ins.rs == rs && ins.rt == rt && ins.extra == imm
  {
    FieldsApart(code, rs, rt, imm % 65536);
    SignExtends(Fields(code, rs, rt, imm % 65536), op, imm);
  }

  /** Two registers and an immediate that is sign-extended. */
  lemma DecodesImmediate(op: Op, rs: nat, rt: nat, imm: int)
    requires CodeOf(op).Immediate? && rs < 32 && rt < 32 && -0x8000 <= imm < 0x8000
    ensures
      var ins := Decode(Fields(CodeOf(op).i, rs, rt, imm % 65536));
      ins.op == op && ins.rs == rs && ins.rt == rt && ins.extra == imm
  {
    if IsLoad(op) {
      LoadMatches(op);
    } else if IsStore(op) {
      StoreMatches(op);
    } else {
      ImmediateMatches(op);
    }
    DecodesPlain(op, CodeOf(op).i, rs, rt, imm);
  }

  lemma DecodesCondition(op: Op, rs: nat, imm: int)
    requires CodeOf(op).Condition? && rs < 32 && -0x8000 <= imm < 0x8000
    ensures
      var ins := Decode(Fields(1, rs, CodeOf(op).c, imm % 65536));
      ins.op == op && ins.rs == rs && ins.extra == imm
  {
    DecodesBranch(rs, CodeOf(op).c, imm);
  }

  lemma DecodesBranch(rs: nat, c: nat, imm: int)
    requires rs < 32 && c < 32 && -0x8000 <= imm < 0x8000
    ensures
      var ins := Decode(Fields(1, rs, c, imm % 65536));
      && ins.rs == rs && ins.extra == imm
      && ins.op == if c == 0 then BLTZ else if c == 1 then BGEZ else if c == 16 then BLTZAL
                   else if c == 17 then BGEZAL else UNIMP
  {
    FieldsApart(1, rs, c, imm % 65536);
    SignExtends(Fields(1, rs, c, imm % 65536), BCOND, imm);
  }

  lemma DecodesJump(op: Op, index: nat)
    requires CodeOf(op).Jump? && index < 0x400_0000
    ensures
      var ins := Decode(CodeOf(op).j * 0x400_0000 + index);
      ins.op == op && ins.extra == index
  {
    var code := CodeOf(op).j;
    assert OpTable(code) == op;
    HighField(code * 0x400_0000 + index, code, index);
  }

  /** The destination is the field that the format of the instruction names: rd, rt or register 31. */
  lemma DestinationByFormat(ins: Instruction)
    requires HasDestination(ins.op)
    ensures
      match CodeOf(ins.op)
      case Function(_) => Destination(ins) == ins.rd
      case Immediate(_) => Destination(ins) == ins.rt
      case _ => Destination(ins) == 31
  {
  }

  /** Which instructions write a general register when they are done: arithmetic and logic, shifts, comparisons, moves
      from the product registers, and what links. */
  lemma WritesRegisterWhen(op: Op)
    ensures HasDestination(op) <==>
            op in {ADD, ADDI, ADDIU, ADDU, SUB, SUBU, AND, ANDI, OR, ORI, XOR, XORI, NOR, LUI, SLL, SLLV, SRA, SRAV,
                   SRL, SRLV, SLT, SLTI, SLTIU, SLTU, MFHI, MFLO, JAL, JALR, BGEZAL, BLTZAL}
  {
  }

  /** A link is the address behind the delay slot; MFHI and MFLO move; everything else is arithmetic. */
  lemma ResultIs(r: Registers, ins: Instruction, alu: Alu)
    requires Encodes(ins) && HasDestination(ins.op)
    ensures
      var next: int := r[35];
      ResultOf(r, ins, alu) ==
        match CodeOf(ins.op)
        case Condition(_) => (next + 4) % 0x1_0000_0000
        case Jump(_) => (next + 4) % 0x1_0000_0000
        case Function(f) =>
          if f == 9 then (next + 4) % 0x1_0000_0000 else if f == 16 then r[32] else if f == 18 then r[33]
          else alu.value(ins.op, r[ins.rs], r[ins.rt], ins.extra)
        case _ => alu.value(ins.op, r[ins.rs], r[ins.rt], ins.extra)
  {
  }

  // ---------------------------------------------------------------- how instructions end

  /** An instruction that does not touch memory completes unless it is a system call, has no code, or overflows. */
  lemma OtherEndsAs(r: Registers, mem: seq<Byte>, ins: Instruction, env: Env, alu: Alu)
    requires Disciplined(r) && Encodes(ins) && |mem| == env.numFrames * PAGE_SIZE
    requires !IsLoad(ins.op) && !IsStore(ins.op) && !ins.op.SPECIAL? && !ins.op.BCOND?
    ensures
      var e, op := EffectOf(r, mem, ins, env, alu), ins.op;
      if op.SYSCALL? then e == Traps(SyscallException, 0)
      else if op.UNIMP? || op.RES? then e == Traps(IllegalInstrException, 0)
      else if op in {ADD, ADDI, SUB} && alu.overflows(op, r[ins.rs], r[ins.rt], ins.extra)
      then e == Traps(OverflowException, 0)
      else e.Completes? && e.memory == mem
  {
  }

  lemma FourDivides(x: int)
    ensures x % 0x1_0000_0000 % 4 == x % 4
  {
  }

  /** An assertion of the simulator fails if and only if a partial load or store has an address that is not a multiple
      of four. */
  lemma AbortsWhen(r: Registers, mem: seq<Byte>, ins: Instruction, env: Env, alu: Alu)
    requires Disciplined(r) && Encodes(ins) && |mem| == env.numFrames * PAGE_SIZE
    ensures
      var base: int := r[ins.rs];
      EffectOf(r, mem, ins, env, alu).Aborts? <==>
        (ins.op.LWL? || ins.op.LWR? || ins.op.SWL? || ins.op.SWR?) && (base + ins.extra) % 4 != 0
  {
    var base: int := r[ins.rs];
    FourDivides(base + ins.extra);
  }

  /** A load or store traps if and only if its address does not translate for it, and says which address that was; a
      partial store has to be readable first. */
  lemma AccessTrapsWhen(r: Registers, mem: seq<Byte>, ins: Instruction, env: Env, alu: Alu)
    requires Disciplined(r) && Encodes(ins) && |mem| == env.numFrames * PAGE_SIZE
    requires (IsLoad(ins.op) || IsStore(ins.op)) && !EffectOf(r, mem, ins, env, alu).Aborts?
    ensures
      var a, e := Effective(r, ins), EffectOf(r, mem, ins, env, alu);
      var size := if ins.op.LB? || ins.op.LBU? || ins.op.SB? then 1
                  else if ins.op.LH? || ins.op.LHU? || ins.op.SH? then 2 else 4;
      var read := Translated(env.table, env.isTlb, env.numFrames, a, size, false);
      var write := Translated(env.table, env.isTlb, env.numFrames, a, size, true);
      if (IsLoad(ins.op) || ins.op.SWL? || ins.op.SWR?) && read.Raised? then e == Traps(read.exception, a)
      else if IsStore(ins.op) && write.Raised? then e == Traps(write.exception, a)
      else e.Completes?
  {
  }

  /** The instruction is the word at the program counter, in the frame of its page; the fetch traps if and only if the
      counter is not a multiple of four or its page is missing or has no frame. */
  lemma FetchesWord(table: seq<Entry>, numFrames: nat, mem: seq<Byte>, pc: Word)
    requires |mem| == numFrames * PAGE_SIZE
    ensures
      var i, vpn := Fetched(Env(table, false, numFrames), mem, pc), pc / 128;
      if pc % 4 == 0 && vpn < |table| && table[vpn].valid && 0 <= table[vpn].physicalPage < numFrames then
        var pa := table[vpn].physicalPage * 128 + pc % 128;
        0 <= pa && pa + 4 <= |mem| && i == Ok(Decode(BytesWord(mem[pa..pa + 4])))
      else i.Raised?
  {
    TranslatesWhen(table, numFrames, pc, 4, false);
    if Translated(table, false, numFrames, pc, 4, false).Ok? {
      TranslationInFrame(table, false, numFrames, pc, 4, false);
    }
  }

  // ---------------------------------------------------------------- addresses and counters

  /** An address is the sum of base and offset in 32 bits. */
  lemma EffectiveIsSum(r: Registers, ins: Instruction)
    requires Encodes(ins)
    ensures exists k :: Effective(r, ins) == r[ins.rs] + ins.extra + k * 0x1_0000_0000
  {
    var x: int := r[ins.rs];
    var sum := x + ins.extra;
    assert Effective(r, ins) == x + ins.extra + -(sum / 0x1_0000_0000) * 0x1_0000_0000;
  }

  /** A translation succeeds if and only if the address is a multiple of the size, the page has a valid entry, the entry
      may be written if it is, and its frame exists; then it is that frame with the offset of the address, and otherwise
      the exception says the first of these that fails. */
  lemma TranslatesWhen(table: seq<Entry>, numFrames: nat, a: Word, size: int, writing: bool)
    requires AccessSize(size)
    ensures
      var t, vpn := Translated(table, false, numFrames, a, size, writing), a / 128;
      && (t.Ok? <==>
            && a % size == 0 && vpn < |table| && table[vpn].valid && !(writing && table[vpn].readOnly)
            && 0 <= table[vpn].physicalPage < numFrames)
      && (t.Ok? ==> t.value == table[vpn].physicalPage * 128 + a % 128)
      && (t.Raised? ==>
            t.exception == if a % size != 0 || vpn >= |table| then AddressErrorException
                           else if !table[vpn].valid then PageFaultException
                           else if writing && table[vpn].readOnly then ReadOnlyException
                           else BusErrorException)
  {
  }

  /** With a TLB the entry may be any valid one for the page; the first counts. */
  lemma TlbTranslatesWhen(tlb: seq<Entry>, numFrames: nat, a: Word, size: int, writing: bool, i: nat)
    requires AccessSize(size) && i < |tlb| && tlb[i].valid && tlb[i].virtualPage == a / 128
    requires forall k :: 0 <= k < i ==> !(tlb[k].valid && tlb[k].virtualPage == a / 128)
    ensures
      var t := Translated(tlb, true, numFrames, a, size, writing);
      && (t.Ok? <==> a % size == 0 && !(writing && tlb[i].readOnly) && 0 <= tlb[i].physicalPage < numFrames)
      && (t.Ok? ==> t.value == tlb[i].physicalPage * 128 + a % 128)
  {
    assert TlbIndex(tlb, a / 128) == i;
  }

  /** After an instruction the counters have moved on by one place, the last of them to the successor; only a load
      leaves a load pending. */
  lemma CountersAdvance(r: Registers, mem: seq<Byte>, ins: Instruction, env: Env, alu: Alu)
    requires Disciplined(r) && Encodes(ins) && |mem| == env.numFrames * PAGE_SIZE
    requires EffectOf(r, mem, ins, env, alu).Completes?
    ensures
      var r', next: int := EffectOf(r, mem, ins, env, alu).registers, r[35];
      && r'[36] == r[34] && r'[34] == next
      && (!Redirects(ins.op) ==> r'[35] == (next + 4) % 0x1_0000_0000)
      && r'[37] == (if IsLoad(ins.op) then ins.rt else 0)
  {
  }

  /** Multiplication and division leave their two words in the product registers; each move changes one of them. */
  lemma ProductRegisters(r: Registers, mem: seq<Byte>, ins: Instruction, env: Env, alu: Alu)
    requires Disciplined(r) && Encodes(ins) && |mem| == env.numFrames * PAGE_SIZE
    requires ins.op in {MULT, MULTU, DIV, DIVU, MTHI, MTLO}
    ensures EffectOf(r, mem, ins, env, alu).Completes?
    ensures
      var r', rs, rt := EffectOf(r, mem, ins, env, alu).registers, r[ins.rs], r[ins.rt];
      if ins.op.MTHI? then r'[32] == rs && r'[33] == r[33]
      else if ins.op.MTLO? then r'[32] == r[32] && r'[33] == rs
      else r'[32] == HiAfter(ins.op, rs, rt, 0) && r'[33] == LoAfter(ins.op, rs, rt, 0)
  {
  }

  /** No other instruction changes them. */
  lemma ProductsKept(r: Registers, mem: seq<Byte>, ins: Instruction, env: Env, alu: Alu)
    requires Disciplined(r) && Encodes(ins) && |mem| == env.numFrames * PAGE_SIZE
    requires EffectOf(r, mem, ins, env, alu).Completes? && ins.op !in {MULT, MULTU, DIV, DIVU, MTHI, MTLO}
    ensures
      var r' := EffectOf(r, mem, ins, env, alu).registers;
      r'[32] == r[32] && r'[33] == r[33]
  {
  }

  /** A jump stays in the 256 megabytes of its delay slot. */
  lemma JumpsTo(r: Registers, ins: Instruction, alu: Alu)
    requires Encodes(ins) && (ins.op.J? || ins.op.JAL?) && 0 <= ins.extra < 0x400_0000
    ensures
      var target, next: int := Successor(r, ins, alu), r[35];
      && target / 0x1000_0000 == (next + 4) % 0x1_0000_0000 / 0x1000_0000
      && target % 0x1000_0000 == 4 * ins.extra
  {
    var next: int := r[NEXT_PC];
    var high := Wrap(next + 4) / 0x1000_0000;
    assert 0 <= high < 16;
    assert Wrap(high * 0x1000_0000 + ins.extra * 4) == high * 0x1000_0000 + ins.extra * 4;
  }

  /** A branch that is taken goes to its delay slot plus four times the offset. */
  lemma BranchesTo(r: Registers, ins: Instruction, alu: Alu)
    requires Encodes(ins) && IsBranch(ins.op)
    ensures Successor(r, ins, alu) ==
            (r[35] + (if alu.taken(ins.op, AfterLink(r, ins, ins.rs), AfterLink(r, ins, ins.rt)) then 4 * ins.extra
                      else 4)) % 0x1_0000_0000
  {
  }

  /** A jump to a register goes where it points; one that links its own source goes behind its delay slot. */
  lemma JumpsToRegister(r: Registers, ins: Instruction, alu: Alu)
    requires Encodes(ins) && (ins.op.JR? || ins.op.JALR?)
    ensures
      var next: int := r[35];
      Successor(r, ins, alu) ==
        if ins.op.JALR? && ins.rs == ins.rd then (next + 4) % 0x1_0000_0000 else r[ins.rs]
  {
  }

  // ---------------------------------------------------------------- loads and stores

  /** A signed load of a byte gives its number in two's complement, an unsigned one the byte itself. */
  lemma LoadsByte(v: Word, rt: Word)
    ensures
      var b: int, u: int := Signed(LoadedValue(LB, v, rt)), LoadedValue(LBU, v, rt);
      && -0x80 <= b < 0x80 && 0 <= u < 256
      && u == WordBytes(v)[0] && (b == u || b == u - 256)
  {
  }

  /** The same for two bytes; a load of a whole word gives the word. */
  lemma LoadsShort(v: Word, rt: Word)
    ensures LoadedValue(LW, v, rt) == v && LoadedValue(LWL, v, rt) == v
    ensures
      var h: int, u: int := Signed(LoadedValue(LH, v, rt)), LoadedValue(LHU, v, rt);
      && -0x8000 <= h < 0x8000 && 0 <= u < 65536
      && u == FromBytes(LowBytes(v, 2)) && (h == u || h == u - 65536)
  {
    BytesRoundTrip(v, 2);
  }

  lemma BytesOf(b: seq<Byte>)
    requires |b| == 4
    ensures WordBytes(BytesWord(b)) == b
  {
    var b0: int, b1: int, b2: int, b3: int := b[0], b[1], b[2], b[3];
    var w: int := BytesWord(b);
    LastDigits(w, b1 + 256 * b2 + 65536 * b3, b0);
    LastDigits(b1 + 256 * b2 + 65536 * b3, b2 + 256 * b3, b1);
    LastDigits(b2 + 256 * b3, b3, b2);
    assert w / 65536 == w / 256 / 256 && w / 16777216 == w / 65536 / 256;
  }

  /** LWR replaces the low byte of the target by the high byte of the word. */
  lemma LoadsRight(v: Word, rt: Word)
    ensures WordBytes(LoadedValue(LWR, v, rt)) == [WordBytes(v)[3]] + WordBytes(rt)[1..]
  {
    var b := WordBytes(rt);
    WordRoundTrip(rt);
    var b0: int, b1: int, b2: int, b3: int := b[0], b[1], b[2], b[3];
    LastDigits(rt, b1 + 256 * b2 + 65536 * b3, b0);
    BytesOf([WordBytes(v)[3]] + b[1..]);
  }

  /** A store writes the low bytes of its register; SWR writes the low byte behind three that stay. */
  lemma StoresBytes(r: Registers, ins: Instruction, mem: seq<Byte>, pa: int)
    requires Encodes(ins) && IsStore(ins.op) && 0 <= pa && pa + StoreSize(ins.op) <= |mem|
    ensures
      var mem', bytes := StoreResult(r, ins, mem, pa), WordBytes(r[ins.rt]);
      match ins.op
      case SB => mem' == mem[pa := bytes[0]]
      case SH => mem' == mem[pa := bytes[0]][pa + 1 := bytes[1]]
      case SWR => mem' == mem[pa + 3 := bytes[0]]
      case _ => mem' == mem[pa := bytes[0]][pa + 1 := bytes[1]][pa + 2 := bytes[2]][pa + 3 := bytes[3]]
  {
    if ins.op.SWR? {
      StoresRight(mem[pa..pa + 4], r[ins.rt]);
    }
    var size := StoreSize(ins.op);
    assert LowBytes(StoredValue(ins.op, if size == 4 then FromBytes(mem[pa..pa + 4]) else 0, r[ins.rt]), size)
        == if ins.op.SWR? then mem[pa..pa + 3] + [WordBytes(r[ins.rt])[0]] else WordBytes(r[ins.rt])[..size];
  }

  lemma StoresRight(b: seq<Byte>, rt: Word)
    requires |b| == 4
    ensures WordBytes(StoredValue(SWR, FromBytes(b), rt)) == b[..3] + [WordBytes(rt)[0]]
  {
    var b0: int, b1: int, b2: int, b3: int := b[0], b[1], b[2], b[3];
    LowThree(FromBytes(b), b3, b0 + 256 * b1 + 65536 * b2);
    BytesOf(b[..3] + [WordBytes(rt)[0]]);
  }

  lemma LowThree(w: int, high: int, low: int)
    requires w == high * 0x100_0000 + low && 0 <= low < 0x100_0000
    ensures w % 0x100_0000 == low
  {
  }

  // ---------------------------------------------------------------- products

  /** The two product registers together hold the product in 64 bits. */
  lemma ProductInTwoWords(rs: Word, rt: Word, hi: Word, lo: Word)
    ensures HiAfter(MULTU, rs, rt, hi) * 0x1_0000_0000 + LoAfter(MULTU, rs, rt, lo) == rs * rt
    ensures HiAfter(MULT, rs, rt, hi) * 0x1_0000_0000 + LoAfter(MULT, rs, rt, lo)
            == Signed(rs) * Signed(rt) % 0x1_0000_0000_0000_0000
  {
    SplitWord(rs * rt % TWO64);
    SplitWord(Signed(rs) * Signed(rt) % TWO64);
    OneWordProduct(rs, rt);
  }

  lemma SplitWord(x: int)
    ensures x / TWO32 * TWO32 + x % TWO32 == x
  {
  }

  /** DIVU leaves quotient and remainder; nothing is left of a division by zero. */
  lemma QuotientAndRemainder(rs: Word, rt: Word, hi: Word, lo: Word)
    ensures
      var q, m := LoAfter(DIVU, rs, rt, lo), HiAfter(DIVU, rs, rt, hi);
      if rt == 0 then q == 0 && m == 0 else q * rt + m == rs && m < rt
  {
    if rt != 0 {
      DivideBounds(rs, rt);
    }
  }
}
