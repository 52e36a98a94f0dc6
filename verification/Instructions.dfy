// What one instruction of machine/mipssim.cc does, on values, and what follows for whole runs in which instructions,
// interrupts and the kernel take turns at the registers.  The results of arithmetic and logic instructions, their
// overflows and the branch conditions are a parameter; everything is proved for every choice of it.
module Instructions {
  import opened Basics
  import opened Words
  import opened Paging
  import opened AddrSpaces
  import opened Machines
  import opened Multiplication
  import Processes

  /** The results of the arithmetic and logic instructions, their overflows and the branch conditions, from the
      two source registers and the immediate. */
  datatype Alu = Alu(
    value: (Op, Word, Word, int) -> Word, overflows: (Op, Word, Word, int) -> bool, taken: (Op, Word, Word) -> bool)

  function Wrap(x: int): Word {
    x % 0x1_0000_0000
  }

  /** The address of the instruction behind this one. */
  function Following(pc: Word): Word {
    var x: int := pc;
    Wrap(x + 4)
  }

  function Branched(pc: Word, extra: int): Word {
    var x: int := pc;
    Wrap(x + extra * 4)
  }

  function Signed(w: Word): Int32 {
    if w < 0x8000_0000 then w else w - 0x1_0000_0000
  }

  /** The general register an instruction other than a load writes; 0 for none. */
  function Destination(ins: Instruction): nat {
    match ins.op
    case ADDI => ins.rt case ADDIU => ins.rt case ANDI => ins.rt case LUI => ins.rt case ORI => ins.rt
    case SLTI => ins.rt case SLTIU => ins.rt case XORI => ins.rt
    case BGEZAL => 31 case BLTZAL => 31 case JAL => 31
    case ADD => ins.rd case ADDU => ins.rd case AND => ins.rd case JALR => ins.rd case MFHI => ins.rd
    case MFLO => ins.rd case NOR => ins.rd case OR => ins.rd case SLL => ins.rd case SLLV => ins.rd
    case SLT => ins.rd case SLTU => ins.rd case SRA => ins.rd case SRAV => ins.rd case SRL => ins.rd
    case SRLV => ins.rd case SUB => ins.rd case SUBU => ins.rd case XOR => ins.rd
    case _ => 0
  }

  predicate HasDestination(op: Op) {
    !(IsLoad(op) || IsStore(op) || WritesHiLo(op) || (Redirects(op) && !Links(op)) || op.SYSCALL? || op.UNIMP?
      || op.RES? || op.SPECIAL? || op.BCOND?)
  }

  predicate IsLoad(op: Op) {
    op.LB? || op.LBU? || op.LH? || op.LHU? || op.LW? || op.LWL? || op.LWR?
  }

  predicate IsStore(op: Op) {
    op.SB? || op.SH? || op.SW? || op.SWL? || op.SWR?
  }

  predicate IsBranch(op: Op) {
    op.BEQ? || op.BNE? || op.BGEZ? || op.BGEZAL? || op.BGTZ? || op.BLEZ? || op.BLTZ? || op.BLTZAL?
  }

  predicate Redirects(op: Op) {
    IsBranch(op) || op.J? || op.JAL? || op.JR? || op.JALR?
  }

  predicate MayOverflow(op: Op) {
    op.ADD? || op.ADDI? || op.SUB?
  }

  predicate WritesHiLo(op: Op) {
    op.DIV? || op.DIVU? || op.MULT? || op.MULTU? || op.MTHI? || op.MTLO?
  }

  predicate Links(op: Op) {
    op.JAL? || op.JALR? || op.BGEZAL? || op.BLTZAL?
  }

  /** A register as a branch or jump sees it: the link is written before the source register is looked at. */
  function AfterLink(r: Registers, ins: Instruction, k: nat): Word
    requires k < 32
  {
    if Links(ins.op) && k == Destination(ins) then Following(r[NEXT_PC]) else r[k]
  }

  /** Where execution goes on after the next instruction. */
  function Successor(r: Registers, ins: Instruction, alu: Alu): Word
    requires Encodes(ins)
  {
    var next: Word := r[NEXT_PC];
    if ins.op.J? || ins.op.JAL? then Wrap(Following(next) / 0x1000_0000 * 0x1000_0000 + ins.extra * 4)
    else if ins.op.JR? || ins.op.JALR? then AfterLink(r, ins, ins.rs)
    else if IsBranch(ins.op) && alu.taken(ins.op, AfterLink(r, ins, ins.rs), AfterLink(r, ins, ins.rt)) then
      Branched(next, ins.extra)
    else Following(next)
  }

  /** The exception of an instruction that does not touch memory. */
  function TrapOf(r: Registers, ins: Instruction, alu: Alu): Option<Exception>
    requires Encodes(ins)
  {
    if ins.op.SYSCALL? then Some(SyscallException)
    else if ins.op.UNIMP? || ins.op.RES? then Some(IllegalInstrException)
    else if MayOverflow(ins.op) && alu.overflows(ins.op, r[ins.rs], r[ins.rt], ins.extra) then Some(OverflowException)
    else None
  }

  /** What the destination gets. */
  function ResultOf(r: Registers, ins: Instruction, alu: Alu): Word
    requires Encodes(ins)
  {
    if Links(ins.op) then Following(r[NEXT_PC])
    else if ins.op.MFHI? then r[HI]
    else if ins.op.MFLO? then r[LO]
    else alu.value(ins.op, r[ins.rs], r[ins.rt], ins.extra)
  }

  predicate Encodes(ins: Instruction) {
    ins.rs < 32 && ins.rt < 32 && ins.rd < 32
  }

  /** The address of a load or store. */
  function Effective(r: Registers, ins: Instruction): Word
    requires Encodes(ins)
  {
    Wrap(r[ins.rs] + ins.extra)
  }

  predicate NeedsWordAddress(op: Op) {
    op.LWL? || op.LWR? || op.SWL? || op.SWR?
  }

  function LoadSize(op: Op): int {
    if op.LB? || op.LBU? then 1 else if op.LH? || op.LHU? then 2 else 4
  }

  function StoreSize(op: Op): int {
    if op.SB? then 1 else if op.SH? then 2 else 4
  }

  /** What a load makes of the value it reads; `rt` is the target with the pending load applied. */
  function LoadedValue(op: Op, v: Word, rt: Word): Word {
    if op.LB? then (if v % 256 >= 0x80 then v % 256 + 0xffff_ff00 else v % 256)
    else if op.LBU? then v % 256
    else if op.LH? then (if v % 65536 >= 0x8000 then v % 65536 + 0xffff_0000 else v % 65536)
    else if op.LHU? then v % 65536
    else if op.LWR? then rt / 256 * 256 + v / 0x100_0000
    else v
  }

  lemma AtLeastOnce(q: nat, y: nat)
    requires y > 0
    ensures q <= q * y
  {
    assert q * y == q + q * (y - 1);
  }

  lemma DivideBounds(x: nat, y: nat)
    requires y > 0
    ensures 0 <= x / y <= x && x == x / y * y + x % y && 0 <= x % y < y
  {
    AtLeastOnce(x / y, y);
  }

  /** The high word of the product, the remainder, or what was moved there. */
  function HiAfter(op: Op, rs: Word, rt: Word, hi: Word): Word {
    if op.MULT? then Signed(rs) * Signed(rt) % TWO64 / TWO32
    else if op.MULTU? then rs * rt % TWO64 / TWO32
    else if op.DIV? || op.DIVU? then (if rt == 0 then 0 else DivideBounds(rs, rt); rs % rt)
    else if op.MTHI? then rs
    else hi
  }

  /** The low word of the product, the quotient, or what was moved there. */
  function LoAfter(op: Op, rs: Word, rt: Word, lo: Word): Word {
    if op.MULT? then Signed(rs) * Signed(rt) % TWO64 % TWO32
    else if op.MULTU? then rs * rt % TWO64 % TWO32
    else if op.DIV? || op.DIVU? then (if rt == 0 then 0 else DivideBounds(rs, rt); rs / rt)
    else if op.MTLO? then rs
    else lo
  }

  /** What a partial store makes of the word in memory. */
  function StoredValue(op: Op, word: Word, rt: Word): Word {
    if op.SWR? then word % 0x100_0000 + rt % 256 * 0x100_0000 else rt
  }

  /** The value a load leaves pending. */
  function LoadResult(r: Registers, ins: Instruction, mem: seq<Byte>, pa: int): Word
    requires Encodes(ins) && 0 <= pa && pa + LoadSize(ins.op) <= |mem|
  {
    var rt := if r[LOAD] == ins.rt then r[LOAD_VALUE] else r[ins.rt];
    LoadedValue(ins.op, FromBytes(mem[pa..pa + LoadSize(ins.op)]), rt)
  }

  /** Memory after a store. */
  ghost function StoreResult(r: Registers, ins: Instruction, mem: seq<Byte>, pa: int): seq<Byte>
    requires Encodes(ins) && 0 <= pa && pa + StoreSize(ins.op) <= |mem|
  {
    var size := StoreSize(ins.op);
    var word := if size == 4 then FromBytes(mem[pa..pa + size]) else 0;
    Patched(mem, pa, LowBytes(StoredValue(ins.op, word, r[ins.rt]), size))
  }

  // ---------------------------------------------------------------- one instruction

  /** How addresses are translated: a page table or a TLB, and the number of frames. */
  datatype Env = Env(table: seq<Entry>, isTlb: bool, numFrames: nat)

  function Reach(env: Env, a: Word, size: int, writing: bool): Result<int> {
    Translated(env.table, env.isTlb, env.numFrames, a, size, writing)
  }

  /** Where a load goes. */
  function LoadTarget(r: Registers, ins: Instruction, env: Env): Result<int>
    requires Encodes(ins)
  {
    Reach(env, Effective(r, ins), LoadSize(ins.op), false)
  }

  /** Where a store goes; a partial store reads its word first and may trap there. */
  function StoreTarget(r: Registers, ins: Instruction, env: Env): Result<int>
    requires Encodes(ins)
  {
    var a := Effective(r, ins);
    if NeedsWordAddress(ins.op) && Reach(env, a, 4, false).Raised? then Reach(env, a, 4, false)
    else Reach(env, a, StoreSize(ins.op), true)
  }

  /** The registers when the instruction has done its work and its end is still to come. */
  function Performed(r: Registers, ins: Instruction, alu: Alu): Registers
    requires Encodes(ins)
  {
    var rs, rt := r[ins.rs], r[ins.rt];
    if WritesHiLo(ins.op) then r[HI := HiAfter(ins.op, rs, rt, r[HI])][LO := LoAfter(ins.op, rs, rt, r[LO])]
    else if HasDestination(ins.op) then r[Destination(ins) := ResultOf(r, ins, alu)]
    else r
  }

  /** The end of an instruction: the pending load is applied and the counters advance. */
  function Ended(r: Registers, nextReg: nat, nextValue: Word, pcAfter: Word): Registers
    requires r[LOAD] < 32 && nextReg < 32
  {
    var d := Delayed(r, nextReg, nextValue);
    d[PREV_PC := d[PC]][PC := d[NEXT_PC]][NEXT_PC := pcAfter]
  }

  /** What an instruction does: it completes, it traps with a bad address, or an assertion of the simulator fails. */
  datatype Effect =
    | Completes(registers: Registers, memory: seq<Byte>)
    | Traps(exception: Exception, bad: Word)
    | Aborts

  ghost function LoadEffect(r: Registers, mem: seq<Byte>, ins: Instruction, env: Env): Effect
    requires Disciplined(r) && Encodes(ins) && |mem| == env.numFrames * PAGE_SIZE
  {
    var a, t := Effective(r, ins), LoadTarget(r, ins, env);
    if NeedsWordAddress(ins.op) && a % 4 != 0 then Aborts
    else if t.Raised? then Traps(t.exception, a)
    else
      TranslationInFrame(env.table, env.isTlb, env.numFrames, a, LoadSize(ins.op), false);
      Completes(Ended(r, ins.rt, LoadResult(r, ins, mem, t.value), Following(r[NEXT_PC])), mem)
  }

  ghost function StoreEffect(r: Registers, mem: seq<Byte>, ins: Instruction, env: Env): Effect
    requires Disciplined(r) && Encodes(ins) && |mem| == env.numFrames * PAGE_SIZE
  {
    var a, t := Effective(r, ins), StoreTarget(r, ins, env);
    if NeedsWordAddress(ins.op) && a % 4 != 0 then Aborts
    else if t.Raised? then Traps(t.exception, a)
    else
      TranslationInFrame(env.table, env.isTlb, env.numFrames, a, StoreSize(ins.op), true);
      Completes(Ended(r, 0, 0, Following(r[NEXT_PC])), StoreResult(r, ins, mem, t.value))
  }

  ghost function OtherEffect(r: Registers, mem: seq<Byte>, ins: Instruction, alu: Alu): Effect
    requires Disciplined(r) && Encodes(ins)
  {
    var trap := TrapOf(r, ins, alu);
    if trap.Some? then Traps(trap.value, 0)
    else Completes(Ended(Performed(r, ins, alu), 0, 0, Successor(r, ins, alu)), mem)
  }

  ghost function EffectOf(r: Registers, mem: seq<Byte>, ins: Instruction, env: Env, alu: Alu): Effect
    requires Disciplined(r) && Encodes(ins) && |mem| == env.numFrames * PAGE_SIZE
  {
    if IsLoad(ins.op) then LoadEffect(r, mem, ins, env)
    else if IsStore(ins.op) then StoreEffect(r, mem, ins, env)
    else OtherEffect(r, mem, ins, alu)
  }

  /** The instruction at the program counter. */
  function Fetched(env: Env, mem: seq<Byte>, pc: Word): (i: Result<Instruction>)
    requires |mem| == env.numFrames * PAGE_SIZE
    ensures i.Ok? ==> Encodes(i.value)
  {
    var t := Reach(env, pc, 4, false);
    if t.Raised? then Raised(t.exception) else
      TranslationInFrame(env.table, env.isTlb, env.numFrames, pc, 4, false);
      Ok(Decode(FromBytes(mem[t.value..t.value + 4])))
  }

  /** Fetch, decode and execute. */
  ghost function StepEffect(r: Registers, mem: seq<Byte>, env: Env, alu: Alu): Effect
    requires Disciplined(r) && |mem| == env.numFrames * PAGE_SIZE
  {
    var i := Fetched(env, mem, r[PC]);
    if i.Raised? then Traps(i.exception, r[PC]) else EffectOf(r, mem, i.value, env, alu)
  }

  /** The registers that an instruction leaves to its successor or to the handler of its trap. */
  function RegistersAfter(r: Registers, e: Effect): Registers
    requires Disciplined(r) && !e.Aborts?
  {
    if e.Completes? then e.registers else Trapped(r, e.bad)
  }

  // ---------------------------------------------------------------- what follows for one instruction

  lemma EndedIsDisciplined(r: Registers, nextReg: nat, nextValue: Word, pcAfter: Word)
    requires r[LOAD] < 32 && nextReg < 32
    ensures Disciplined(Ended(r, nextReg, nextValue, pcAfter))
  {
  }

  lemma PerformedKeepsLoad(r: Registers, ins: Instruction, alu: Alu)
    requires Encodes(ins)
    ensures Performed(r, ins, alu)[LOAD] == r[LOAD]
  {
  }

  lemma EffectKeepsDiscipline(r: Registers, mem: seq<Byte>, ins: Instruction, env: Env, alu: Alu)
    requires Disciplined(r) && Encodes(ins) && |mem| == env.numFrames * PAGE_SIZE
    requires EffectOf(r, mem, ins, env, alu).Completes?
    ensures Disciplined(EffectOf(r, mem, ins, env, alu).registers) && |EffectOf(r, mem, ins, env, alu).memory| == |mem|
  {
    if IsLoad(ins.op) {
      TranslationInFrame(env.table, env.isTlb, env.numFrames, Effective(r, ins), LoadSize(ins.op), false);
      EndedIsDisciplined(r, ins.rt, LoadResult(r, ins, mem, LoadTarget(r, ins, env).value), Following(r[NEXT_PC]));
    } else if IsStore(ins.op) {
      EndedIsDisciplined(r, 0, 0, Following(r[NEXT_PC]));
    } else {
      PerformedKeepsLoad(r, ins, alu);
      EndedIsDisciplined(Performed(r, ins, alu), 0, 0, Successor(r, ins, alu));
    }
  }

  /** Whatever is written, register 0 is zero and the load register is below 32 when the next instruction starts. */
  lemma StepKeepsDiscipline(r: Registers, mem: seq<Byte>, env: Env, alu: Alu)
    requires Disciplined(r) && |mem| == env.numFrames * PAGE_SIZE && !StepEffect(r, mem, env, alu).Aborts?
    ensures Disciplined(RegistersAfter(r, StepEffect(r, mem, env, alu)))
    ensures StepEffect(r, mem, env, alu).Completes? ==> |StepEffect(r, mem, env, alu).memory| == |mem|
  {
    var i := Fetched(env, mem, r[PC]);
    if StepEffect(r, mem, env, alu).Completes? {
      EffectKeepsDiscipline(r, mem, i.value, env, alu);
    } else {
      TrapIsRestartable(r, StepEffect(r, mem, env, alu).bad, 0);
    }
  }

  /** After a trap whose handler leaves registers, memory and translation alone, the same instruction is fetched
      again, and a register reads as before except for the target of the load that was pending. */
  lemma TrapRestarts(r: Registers, mem: seq<Byte>, env: Env, alu: Alu, k: nat)
    requires Disciplined(r) && |mem| == env.numFrames * PAGE_SIZE && k < 32
    requires StepEffect(r, mem, env, alu).Traps?
    ensures
      var r' := RegistersAfter(r, StepEffect(r, mem, env, alu));
      && Fetched(env, mem, r'[PC]) == Fetched(env, mem, r[PC]) && r'[NEXT_PC] == r[NEXT_PC]
      && r'[k] == if k == r[LOAD] && k != 0 then r[LOAD_VALUE] else r[k]
  {
    TrapIsRestartable(r, StepEffect(r, mem, env, alu).bad, k);
    TrapIsRestartable(r, StepEffect(r, mem, env, alu).bad, PC);
    TrapIsRestartable(r, StepEffect(r, mem, env, alu).bad, NEXT_PC);
  }

  /** An instruction that completes changes the target of the pending load, its destination and nothing else among the
      general registers; the pending load wins over the destination. */
  lemma CompletedRegisters(r: Registers, mem: seq<Byte>, ins: Instruction, env: Env, alu: Alu, k: nat)
    requires Disciplined(r) && Encodes(ins) && |mem| == env.numFrames * PAGE_SIZE && 0 < k < 32
    requires EffectOf(r, mem, ins, env, alu).Completes?
    ensures EffectOf(r, mem, ins, env, alu).registers[k] ==
            if k == r[LOAD] then r[LOAD_VALUE]
            else if HasDestination(ins.op) && k == Destination(ins) then ResultOf(r, ins, alu)
            else r[k]
  {
  }

  // ---------------------------------------------------------------- interrupts and the delay slot

  /** Before it calls a handler an interrupt has the pending load applied. */
  function Interrupted(r: Registers, times: nat): (r': Registers)
    requires Disciplined(r)
    ensures Disciplined(r')
  {
    if times == 0 then r else Delayed(Interrupted(r, times - 1), 0, 0)
  }

  lemma {:induction false} InterruptedRegister(r: Registers, times: nat, k: nat)
    requires Disciplined(r) && 0 < k < 32
    ensures Interrupted(r, times)[k] == if times > 0 && k == r[LOAD] then r[LOAD_VALUE] else r[k]
    ensures times > 0 ==> Interrupted(r, times)[LOAD] == 0
  {
    if times > 0 {
      InterruptedRegister(r, times - 1, k);
    }
  }

  /** The contents of a register once the load that is pending at the start of an instruction is applied. */
  function Settled(r: Registers, k: nat): Word
    requires k < 32
  {
    if k == r[LOAD] then r[LOAD_VALUE] else r[k]
  }

  /** The instruction after a load finds the old contents of the target if no interrupt fired in between, and the loaded
      value if one did; in the first case the instruction after that finds the loaded value, even if the one in between
      trapped or wrote the same register. */
  lemma LoadDelaySlot(r0: Registers, mem: seq<Byte>, load: Instruction, env: Env, alu: Alu, interrupts: nat,
                      mem': seq<Byte>, next: Instruction, env': Env)
    requires Disciplined(r0) && Encodes(load) && Encodes(next) && IsLoad(load.op) && load.rt != 0
    requires |mem| == env.numFrames * PAGE_SIZE && |mem'| == env'.numFrames * PAGE_SIZE
    requires EffectOf(r0, mem, load, env, alu).Completes?
    ensures
      var r1, t := EffectOf(r0, mem, load, env, alu).registers, LoadTarget(r0, load, env);
      && Disciplined(r1) && t.Ok? && 0 <= t.value && t.value + LoadSize(load.op) <= |mem|
      && var loaded, seen := LoadResult(r0, load, mem, t.value), Interrupted(r1, interrupts);
      && seen[load.rt] == (if interrupts == 0 then Settled(r0, load.rt) else loaded)
      && (interrupts == 0 && !EffectOf(seen, mem', next, env', alu).Aborts? ==>
            RegistersAfter(seen, EffectOf(seen, mem', next, env', alu))[load.rt] == loaded)
  {
    TranslationInFrame(env.table, env.isTlb, env.numFrames, Effective(r0, load), LoadSize(load.op), false);
    var r1, t := EffectOf(r0, mem, load, env, alu).registers, LoadTarget(r0, load, env);
    EndedIsDisciplined(r0, load.rt, LoadResult(r0, load, mem, t.value), Following(r0[NEXT_PC]));
    CompletedRegisters(r0, mem, load, env, alu, load.rt);
    InterruptedRegister(r1, interrupts, load.rt);
    if interrupts == 0 {
      var e := EffectOf(r1, mem', next, env', alu);
      if e.Completes? {
        CompletedRegisters(r1, mem', next, env', alu, load.rt);
      } else if e.Traps? {
        TrapIsRestartable(r1, e.bad, load.rt);
      }
    }
  }

  // ---------------------------------------------------------------- whole runs

  /** Registers, memory, and the registers saved for threads that are not running. */
  datatype Cpu = Cpu(registers: Registers, memory: seq<Byte>, saved: map<int, Registers>)

  datatype Action =
    | Execute(env: Env, alu: Alu)                 // one instruction, completed or trapped, under the current page table
    | Interrupt                                   // a due interrupt applies the pending load
    | KernelWrites(reg: nat, value: Word)         // results and counters written by a system call
    | KernelStores(memory: seq<Byte>)             // memory changed by the kernel: loading, copying
    | InitRegisters(stack: Word)                  // a new program
    | Save(thread: int) | Restore(thread: int)    // a context switch

  /** The kernel writes no other register than the result and the program counters. */
  predicate KernelMayWrite(reg: nat) {
    reg == 2 || reg == PC || reg == NEXT_PC || reg == PREV_PC
  }

  function Zeroes(): Registers {
    seq<Word>(40, _ => 0)
  }

  ghost predicate Enabled(c: Cpu, a: Action) {
    match a
    case Execute(env, alu) =>
      && |c.memory| == env.numFrames * PAGE_SIZE
      && (Disciplined(c.registers) ==> !StepEffect(c.registers, c.memory, env, alu).Aborts?)
    case KernelWrites(reg, _) => KernelMayWrite(reg)
    case KernelStores(memory) => |memory| == |c.memory|
    case Restore(t) => t in c.saved
    case _ => true
  }

  ghost function Next(c: Cpu, a: Action): Cpu
    requires Enabled(c, a) && Disciplined(c.registers)
  {
    match a
    case Execute(env, alu) =>
      var e := StepEffect(c.registers, c.memory, env, alu);
      c.(registers := RegistersAfter(c.registers, e), memory := if e.Completes? then e.memory else c.memory)
    case Interrupt => c.(registers := Delayed(c.registers, 0, 0))
    case KernelWrites(reg, value) => c.(registers := c.registers[reg := value])
    case KernelStores(memory) => c.(memory := memory)
    case InitRegisters(stack) => c.(registers := Zeroes()[NEXT_PC := 4][29 := stack])
    case Save(t) => c.(saved := c.saved[t := c.registers])
    case Restore(t) => c.(registers := c.saved[t])
  }

  ghost predicate AllDisciplined(c: Cpu) {
    Disciplined(c.registers) && forall t :: t in c.saved ==> Disciplined(c.saved[t])
  }

  lemma NextKeepsDiscipline(c: Cpu, a: Action)
    requires AllDisciplined(c) && Enabled(c, a)
    ensures AllDisciplined(Next(c, a)) && |Next(c, a).memory| == |c.memory|
  {
    if a.Execute? {
      StepKeepsDiscipline(c.registers, c.memory, a.env, a.alu);
    }
  }

  ghost predicate Run(cpus: seq<Cpu>, actions: seq<Action>) {
    && |cpus| == |actions| + 1 && cpus[0].registers == Zeroes() && cpus[0].saved == map[]
    && forall n :: 0 <= n < |actions| ==>
         Enabled(cpus[n], actions[n]) && (Disciplined(cpus[n].registers) ==> cpus[n + 1] == Next(cpus[n], actions[n]))
  }

  /** Over any run of instructions, traps, interrupts, system calls and context switches, register 0 is zero and
      the target of the pending load is a general register at every instruction start, for the running thread and
      for all others. */
  lemma {:induction false} RunKeepsDiscipline(cpus: seq<Cpu>, actions: seq<Action>, n: nat)
    requires Run(cpus, actions) && n < |cpus|
    ensures AllDisciplined(cpus[n])
  {
    if n > 0 {
      RunKeepsDiscipline(cpus, actions, n - 1);
      NextKeepsDiscipline(cpus[n - 1], actions[n - 1]);
    }
  }

  // ---------------------------------------------------------------- stores and processes

  /** A store that goes through is exactly the store event of the process whose page table is in use. */
  lemma StoreIsEvent(s: Processes.State, p: int, table: seq<Entry>, a: Word, size: int, v: Word)
    requires Processes.Sound(s) && p in s.spaces && FramesOf(table) == s.spaces[p] && AccessSize(size)
    requires Translated(table, false, |s.frames|, a, size, true).Ok?
    ensures
      var pa := Translated(table, false, |s.frames|, a, size, true).value;
      && 0 <= pa && pa + size <= |s.mem|
      && Processes.Happens(s, Processes.Stored(p, a, LowBytes(v, size)),
                           s.(mem := Patched(s.mem, pa, LowBytes(v, size))))
  {
    TranslationInFrame(table, false, |s.frames|, a, size, true);
    assert FramesOf(table)[a / PAGE_SIZE] == table[a / PAGE_SIZE].physicalPage;
  }
}
