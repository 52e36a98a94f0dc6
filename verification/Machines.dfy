// The simulated processor: address translation and memory access of machine/translate.cc, traps of
// machine/machine.cc and the instruction discipline of machine/mipssim.cc.  What the arithmetic and logic
// instructions compute, when they overflow and when a branch is taken is a parameter; everything is proved for
// every choice of it.
module Machines {
  import opened Words
  import opened Paging
  import opened AddrSpaces

  // ---------------------------------------------------------------- translation

  datatype Exception =
    | SyscallException | PageFaultException | ReadOnlyException | BusErrorException | AddressErrorException
    | OverflowException | IllegalInstrException

  datatype Result<T> = Ok(value: T) | Raised(exception: Exception)

  predicate AccessSize(size: int) {
    size == 1 || size == 2 || size == 4
  }

  predicate Misaligned(a: Word, size: int) {
    (size == 4 && a % 4 != 0) || (size == 2 && a % 2 != 0)
  }

  /** The first valid entry of a TLB for the page, or its size. */
  function TlbIndex(tlb: seq<Entry>, vpn: nat): (i: nat)
    ensures i <= |tlb| && (i < |tlb| ==> tlb[i].valid && tlb[i].virtualPage == vpn)
    ensures forall k :: 0 <= k < i ==> !(tlb[k].valid && tlb[k].virtualPage == vpn)
  {
    if tlb == [] || (tlb[0].valid && tlb[0].virtualPage == vpn) then 0 else
      var i := 1 + TlbIndex(tlb[1..], vpn);
      assert forall k :: 1 <= k < i ==> tlb[k] == tlb[1..][k - 1];
      i
  }

  /** The index of the entry that translates the page. */
  function EntryFor(table: seq<Entry>, isTlb: bool, vpn: nat): (r: Result<nat>)
    ensures r.Ok? ==> r.value < |table|
  {
    if isTlb then
      if TlbIndex(table, vpn) == |table| then Raised(PageFaultException) else Ok(TlbIndex(table, vpn))
    else if vpn >= |table| then Raised(AddressErrorException)
    else if !table[vpn].valid then Raised(PageFaultException)
    else Ok(vpn)
  }

  function Translated(table: seq<Entry>, isTlb: bool, numFrames: nat, a: Word, size: int, writing: bool): Result<int> {
    if Misaligned(a, size) then Raised(AddressErrorException) else
      var entry := EntryFor(table, isTlb, a / PAGE_SIZE);
      if entry.Raised? then Raised(entry.exception) else
        var e := table[entry.value];
        if e.readOnly && writing then Raised(ReadOnlyException)
        else if !(0 <= e.physicalPage < numFrames) then Raised(BusErrorException)
        else Ok(e.physicalPage * PAGE_SIZE + a % PAGE_SIZE)
  }

  lemma AlignedOffset(a: Word, size: int)
    requires AccessSize(size) && !Misaligned(a, size)
    ensures a % PAGE_SIZE + size <= PAGE_SIZE
  {
  }

  lemma WithinFrame(frame: int, offset: int, size: int, numFrames: int)
    requires 0 <= frame < numFrames && 0 <= offset && 0 < size && offset + size <= PAGE_SIZE
    ensures
      var pa := frame * PAGE_SIZE + offset;
      && 0 <= pa && pa + size <= numFrames * PAGE_SIZE
      && pa / PAGE_SIZE == frame == (pa + size - 1) / PAGE_SIZE && pa % PAGE_SIZE == offset
  {
  }

  /** A successful translation lies in one frame, so the bounds assertion of the source holds. */
  lemma TranslationInFrame(table: seq<Entry>, isTlb: bool, numFrames: nat, a: Word, size: int, writing: bool)
    requires AccessSize(size) && Translated(table, isTlb, numFrames, a, size, writing).Ok?
    ensures
      var pa := Translated(table, isTlb, numFrames, a, size, writing).value;
      && 0 <= pa && pa + size <= numFrames * PAGE_SIZE && pa / PAGE_SIZE == (pa + size - 1) / PAGE_SIZE
      && pa % PAGE_SIZE == a % PAGE_SIZE
  {
    AlignedOffset(a, size);
    var entry := EntryFor(table, isTlb, a / PAGE_SIZE);
    WithinFrame(table[entry.value].physicalPage, a % PAGE_SIZE, size, numFrames);
  }

  // ---------------------------------------------------------------- words of 1, 2 and 4 bytes

  /** The low bytes of a value, as they lie in memory. */
  function LowBytes(v: Word, size: int): (b: seq<Byte>)
    requires AccessSize(size)
    ensures |b| == size
  {
    WordBytes(v)[..size]
  }

  function FromBytes(b: seq<Byte>): Word
    requires AccessSize(|b|)
  {
    if |b| == 1 then b[0] else if |b| == 2 then (var lo: int, hi: int := b[0], b[1]; lo + 256 * hi) else BytesWord(b)
  }

  /** The low bytes of a value as a number. */
  function Low(v: Word, size: int): Word
    requires AccessSize(size)
  {
    if size == 1 then v % 256 else if size == 2 then v % 65536 else v
  }

  lemma Remainder(v: int, q: int, r: int)
    requires v == 65536 * q + r && 0 <= r < 65536
    ensures v % 65536 == r
  {
  }

  lemma TwoBytes(v: int)
    ensures v % 65536 == v % 256 + 256 * (v / 256 % 256)
  {
    var x, y := v % 256, v / 256;
    assert v == 256 * y + x;
    var z, q := y % 256, y / 256;
    assert y == 256 * q + z;
    Remainder(v, q, 256 * z + x);
  }

  lemma ByteRoundTrip(v: Word)
    ensures FromBytes(LowBytes(v, 1)) == Low(v, 1)
  {
  }

  lemma ShortRoundTrip(v: Word)
    ensures FromBytes(LowBytes(v, 2)) == Low(v, 2)
  {
    TwoBytes(v);
    var b := LowBytes(v, 2);
    assert b[0] == v % 256 && b[1] == v / 256 % 256;
  }

  lemma LongRoundTrip(v: Word)
    ensures FromBytes(LowBytes(v, 4)) == Low(v, 4)
  {
    assert WordBytes(v)[..4] == WordBytes(v);
    WordRoundTrip(v);
  }

  lemma BytesRoundTrip(v: Word, size: int)
    requires AccessSize(size)
    ensures FromBytes(LowBytes(v, size)) == Low(v, size)
  {
    if size == 4 {
      LongRoundTrip(v);
    } else if size == 2 {
      ShortRoundTrip(v);
    } else {
      ByteRoundTrip(v);
    }
  }

  /** Only use and dirty bits differ. */
  predicate SameEntries(table: seq<Entry>, table': seq<Entry>) {
    |table'| == |table| &&
    forall i :: 0 <= i < |table| ==> table'[i] == table[i].(use := table'[i].use, dirty := table'[i].dirty)
  }

  lemma SameTranslation(table: seq<Entry>, table': seq<Entry>, isTlb: bool, vpn: nat)
    requires SameEntries(table, table')
    ensures EntryFor(table', isTlb, vpn) == EntryFor(table, isTlb, vpn)
  {
    if isTlb {
      var i, j := TlbIndex(table, vpn), TlbIndex(table', vpn);
      assert i < |table| ==> table'[i].valid && table'[i].virtualPage == vpn;
      assert j < |table| ==> table[j].valid && table[j].virtualPage == vpn;
    }
  }

  lemma SameTranslated(table: seq<Entry>, table': seq<Entry>, isTlb: bool, numFrames: nat, a: Word, size: int,
                       writing: bool)
    requires SameEntries(table, table')
    ensures Translated(table', isTlb, numFrames, a, size, writing) ==
            Translated(table, isTlb, numFrames, a, size, writing)
  {
    SameTranslation(table, table', isTlb, a / PAGE_SIZE);
  }

  /** A write that goes through is read back by a read of the same address and size, as the low bytes of the value. */
  lemma WriteThenRead(table: seq<Entry>, table': seq<Entry>, isTlb: bool, mem: seq<Byte>, numFrames: nat, a: Word,
                      size: int, v: Word)
    requires AccessSize(size) && SameEntries(table, table') && |mem| == numFrames * PAGE_SIZE
    requires Translated(table, isTlb, numFrames, a, size, true).Ok?
    ensures
      var t := Translated(table, isTlb, numFrames, a, size, true);
      && Translated(table', isTlb, numFrames, a, size, false) == t
      && 0 <= t.value && t.value + size <= |mem|
      && FromBytes(Patched(mem, t.value, LowBytes(v, size))[t.value..t.value + size]) == Low(v, size)
  {
    SameTranslation(table, table', isTlb, a / PAGE_SIZE);
    TranslationInFrame(table, isTlb, numFrames, a, size, true);
    var pa := Translated(table, isTlb, numFrames, a, size, true).value;
    BytesRoundTrip(v, size);
    assert Patched(mem, pa, LowBytes(v, size))[pa..pa + size] == LowBytes(v, size);
  }

  // ---------------------------------------------------------------- registers

  const NUM_REGS := 40
  const HI := 32
  const LO := 33
  const PC := 34
  const NEXT_PC := 35
  const PREV_PC := 36
  const LOAD := 37
  const LOAD_VALUE := 38
  const BAD_VADDR := 39

  type Registers = r: seq<Word> | |r| == 40 witness seq<Word>(40, _ => 0)

  /** At the start of every instruction. */
  predicate Disciplined(r: Registers) {
    r[0] == 0 && r[LOAD] < 32
  }

  /** The pending load is applied and another one becomes pending. */
  function Delayed(r: Registers, reg: nat, value: Word): Registers
    requires r[LOAD] < 32 && reg < 32
  {
    r[r[LOAD] := r[LOAD_VALUE]][LOAD := reg][LOAD_VALUE := value][0 := 0]
  }

  /** What the exception handler finds: the registers of the start of the instruction with the pending load applied. */
  function Trapped(r: Registers, bad: Word): Registers
    requires Disciplined(r)
  {
    Delayed(r[BAD_VADDR := bad], 0, 0)
  }

  /** A trap changes no program counter and no general register but the target of the pending load. */
  lemma TrapIsRestartable(r: Registers, bad: Word, k: nat)
    requires Disciplined(r) && k < 37
    ensures Disciplined(Trapped(r, bad)) && Trapped(r, bad)[LOAD] == 0 && Trapped(r, bad)[39] == bad
    ensures Trapped(r, bad)[k] == if k == r[LOAD] && k != 0 then r[LOAD_VALUE] else r[k]
  {
  }

  // ---------------------------------------------------------------- decoding

  datatype Op =
    | ADD | ADDI | ADDIU | ADDU | AND | ANDI | BEQ | BGEZ | BGEZAL | BGTZ | BLEZ | BLTZ | BLTZAL | BNE | DIV | DIVU
    | J | JAL | JALR | JR | LB | LBU | LH | LHU | LUI | LW | LWL | LWR | MFHI | MFLO | MTHI | MTLO | MULT | MULTU
    | NOR | OR | ORI | SB | SH | SLL | SLLV | SLT | SLTI | SLTIU | SLTU | SRA | SRAV | SRL | SRLV | SUB | SUBU
    | SW | SWL | SWR | XOR | XORI | SYSCALL | UNIMP | RES
    | SPECIAL | BCOND

  datatype Instruction = Instruction(op: Op, rs: nat, rt: nat, rd: nat, extra: int)

  /** The entry of the opcode table for bits 31..26. */
  function OpTable(code: nat): Op
    requires code < 64
  {
    match code
    case 0 => SPECIAL case 1 => BCOND case 2 => J case 3 => JAL case 4 => BEQ case 5 => BNE case 6 => BLEZ
    case 7 => BGTZ case 8 => ADDI case 9 => ADDIU case 10 => SLTI case 11 => SLTIU case 12 => ANDI
    case 13 => ORI case 14 => XORI case 15 => LUI case 32 => LB case 33 => LH case 34 => LWL case 35 => LW
    case 36 => LBU case 37 => LHU case 38 => LWR case 40 => SB case 41 => SH case 42 => SWL case 43 => SW
    case 46 => SWR
    case _ => if 16 <= code < 20 || 48 <= code < 52 || 56 <= code < 60 then UNIMP else RES
  }

  /** The entry of the table for the function field of a SPECIAL instruction. */
  function SpecialTable(funct: nat): (op: Op)
    requires funct < 64
    ensures op != SPECIAL && op != BCOND
  {
    match funct
    case 0 => SLL case 2 => SRL case 3 => SRA case 4 => SLLV case 6 => SRLV case 7 => SRAV case 8 => JR
    case 9 => JALR case 12 => SYSCALL case 13 => UNIMP case 16 => MFHI case 17 => MTHI case 18 => MFLO
    case 19 => MTLO case 24 => MULT case 25 => MULTU case 26 => DIV case 27 => DIVU case 32 => ADD
    case 33 => ADDU case 34 => SUB case 35 => SUBU case 36 => AND case 37 => OR case 38 => XOR case 39 => NOR
    case 42 => SLT case 43 => SLTU
    case _ => RES
  }

  /** The immediate: sign-extended, a shift amount, or a jump index, by the format of the opcode. */
  function Extra(value: Word, op: Op): int {
    if op == SPECIAL then value / 64 % 32
    else if op == J || op == JAL then value % 0x400_0000
    else if value % 65536 >= 0x8000 then value % 65536 - 65536 else value % 65536
  }

  /** Every word decodes to an operation that the simulator has a case for, so its final assertion is never reached. */
  function Decode(value: Word): (r: Instruction)
    ensures r.rs < 32 && r.rt < 32 && r.rd < 32 && r.op != SPECIAL && r.op != BCOND
  {
    var op := OpTable(value / 0x400_0000);
    var branch := value / 65536 % 32;
    var decoded :=
      if op == SPECIAL then SpecialTable(value % 64)
      else if op == BCOND then
        if branch == 0 then BLTZ else if branch == 1 then BGEZ else if branch == 16 then BLTZAL
        else if branch == 17 then BGEZAL else UNIMP
      else op;
    Instruction(decoded, value / 0x20_0000 % 32, value / 65536 % 32, value / 2048 % 32, Extra(value, op))
  }
}
