// The Machine object of machine/machine.cc, machine/translate.cc and machine/mipssim.cc: registers and main memory that
// every instruction changes in place, proved to do exactly what Instructions says.
module MachineCalls {
  import opened Basics
  import opened Words
  import opened Paging
  import opened AddrSpaces
  import opened Machines
  import opened Multiplication
  import opened Instructions
  import opened Arithmetic

  datatype Outcome = Done | Trap(exception: Exception) | AssertFails

  /** The outcome and the new registers and memory are those of the effect. */
  ghost predicate Shows(e: Effect, r: Registers, mem: seq<Byte>, o: Outcome, r': Registers, mem': seq<Byte>)
    requires Disciplined(r)
  {
    match e
    case Completes(r1, mem1) => o == Done && r' == r1 && mem' == mem1
    case Traps(exception, bad) => o == Trap(exception) && r' == Trapped(r, bad) && mem' == mem
    case Aborts => o == AssertFails && r' == r && mem' == mem
  }

  lemma PairSplits(hi: Word, lo: Word)
    ensures Pair(hi, lo) / TWO32 == hi && Pair(hi, lo) % TWO32 == lo
  {
  }

  lemma SameReach(env: Env, table: seq<Entry>, a: Word, size: int, writing: bool)
    requires SameEntries(env.table, table)
    ensures Reach(env.(table := table), a, size, writing) == Reach(env, a, size, writing)
  {
    SameTranslated(env.table, table, env.isTlb, env.numFrames, a, size, writing);
  }

  /** Use and dirty bits make no difference to what an instruction does. */
  lemma SameEffect(r: Registers, mem: seq<Byte>, ins: Instruction, env: Env, table: seq<Entry>, alu: Alu)
    requires Disciplined(r) && Encodes(ins) && |mem| == env.numFrames * PAGE_SIZE && SameEntries(env.table, table)
    ensures EffectOf(r, mem, ins, env.(table := table), alu) == EffectOf(r, mem, ins, env, alu)
  {
    var a := Effective(r, ins);
    SameReach(env, table, a, LoadSize(ins.op), false);
    SameReach(env, table, a, StoreSize(ins.op), true);
    SameReach(env, table, a, 4, false);
  }

  /** The value found by reading first is the one that belongs where the store goes. */
  lemma StoreAgrees(r: Registers, ins: Instruction, mem: seq<Byte>, env: Env, a: Word, value: Word)
    requires Encodes(ins) && IsStore(ins.op) && |mem| == env.numFrames * PAGE_SIZE
    requires
      var t := Reach(env, a, 4, false);
      if !NeedsWordAddress(ins.op) then value == StoredValue(ins.op, 0, r[ins.rt])
      else t.Ok? && 0 <= t.value && t.value + 4 <= |mem|
           && value == StoredValue(ins.op, FromBytes(mem[t.value..t.value + 4]), r[ins.rt])
    ensures
      var size := StoreSize(ins.op);
      var t := Reach(env, a, size, true);
      t.Ok? ==> 0 <= t.value && t.value + size <= |mem|
                && StoreResult(r, ins, mem, t.value) == Patched(mem, t.value, LowBytes(value, size))
  {
    var size := StoreSize(ins.op);
    if Reach(env, a, size, true).Ok? {
      TranslationInFrame(env.table, env.isTlb, env.numFrames, a, size, true);
    }
  }

  class Machine {
    const registers: array<Word>
    const mainMemory: array<Byte>
    const numFrames: nat
    var table: seq<Entry>
    var isTlb: bool

    ghost predicate Shape() {
      registers.Length == NUM_REGS && mainMemory.Length == numFrames * PAGE_SIZE
    }

    ghost function Environment(): Env
      reads this
    {
      Env(table, isTlb, numFrames)
    }

    ghost predicate Valid()
      reads registers
    {
      Shape() && Disciplined(registers[..])
    }

    method DelayedLoad(nextReg: nat, nextValue: Word)
      requires Shape() && registers[LOAD] < 32 && nextReg < 32
      modifies registers
      ensures registers[..] == Delayed(old(registers[..]), nextReg, nextValue) && Valid()
    {
      registers[registers[LOAD]] := registers[LOAD_VALUE];
      registers[LOAD] := nextReg;
      registers[LOAD_VALUE] := nextValue;
      registers[0] := 0;
    }

    /** What the handler of the trap finds. */
    method RaiseException(bad: Word)
      requires Valid()
      modifies registers
      ensures registers[..] == Trapped(old(registers[..]), bad) && Valid()
    {
      registers[BAD_VADDR] := bad;
      assert registers[..] == old(registers[..])[BAD_VADDR := bad];
      DelayedLoad(0, 0);
    }

    /** Marks the entry as used, and as changed by a write; where it leads to stays the same. */
    method Translate(a: Word, size: int, writing: bool) returns (r: Result<int>)
      requires AccessSize(size) && Shape()
      modifies this
      ensures r == Translated(old(table), isTlb, numFrames, a, size, writing) && isTlb == old(isTlb)
      ensures r.Raised? ==> table == old(table)
      ensures r.Ok? ==> 0 <= r.value && r.value + size <= mainMemory.Length
      ensures SameEntries(old(table), table)
      ensures r.Ok? ==>
                var k := EntryFor(old(table), isTlb, a / PAGE_SIZE);
                k.Ok? && var e := old(table)[k.value];
                table == old(table)[k.value := e.(use := true, dirty := e.dirty || writing)]
    {
      if (size == 4 && a % 4 != 0) || (size == 2 && a % 2 != 0) {
        return Raised(AddressErrorException);
      }
      var vpn, offset := a / PAGE_SIZE, a % PAGE_SIZE;
      var found := EntryFor(table, isTlb, vpn);
      if found.Raised? {
        return Raised(found.exception);
      }
      var entry := table[found.value];
      if entry.readOnly && writing {
        return Raised(ReadOnlyException);
      }
      if !(0 <= entry.physicalPage < numFrames) {
        return Raised(BusErrorException);
      }
      table := table[found.value := entry.(use := true, dirty := entry.dirty || writing)];
      TranslationInFrame(old(table), isTlb, numFrames, a, size, writing);
      return Ok(entry.physicalPage * PAGE_SIZE + offset);
    }

    method ReadMem(a: Word, size: int) returns (r: Result<Word>)
      requires AccessSize(size) && Valid()
      modifies this, registers
      ensures Valid() && isTlb == old(isTlb) && SameEntries(old(table), table)
      ensures
        var t := Translated(old(table), isTlb, numFrames, a, size, false);
        if t.Raised? then r == Raised(t.exception) && registers[..] == Trapped(old(registers[..]), a)
        else && r.Ok? && registers[..] == old(registers[..]) && 0 <= t.value && t.value + size <= mainMemory.Length
             && r.value == FromBytes(mainMemory[t.value..t.value + size])
    {
      var pa := Translate(a, size, false);
      if pa.Raised? {
        RaiseException(a);
        return Raised(pa.exception);
      }
      return Ok(FromBytes(mainMemory[pa.value..pa.value + size]));
    }

    method WriteMem(a: Word, size: int, value: Word) returns (r: Result<()>)
      requires AccessSize(size) && Valid()
      modifies this, registers, mainMemory
      ensures Valid() && isTlb == old(isTlb) && SameEntries(old(table), table)
      ensures
        var t := Translated(old(table), isTlb, numFrames, a, size, true);
        if t.Raised? then
          && r == Raised(t.exception) && registers[..] == Trapped(old(registers[..]), a)
          && mainMemory[..] == old(mainMemory[..])
        else
          && r.Ok? && registers[..] == old(registers[..]) && 0 <= t.value && t.value + size <= mainMemory.Length
          && mainMemory[..] == Patched(old(mainMemory[..]), t.value, LowBytes(value, size))
    {
      var pa := Translate(a, size, true);
      if pa.Raised? {
        RaiseException(a);
        return Raised(pa.exception);
      }
      Overwrite(LowBytes(value, size), mainMemory, pa.value);
      return Ok(());
    }

    /** Instructions that do not touch memory, up to their end; answers the program counter after the next one.
        It traps exactly when TrapOf says so, and then leaves every register alone. */
    method Operate(ins: Instruction, alu: Alu) returns (r: Result<Word>)
      requires Shape() && Encodes(ins) && !IsLoad(ins.op) && !IsStore(ins.op) && !ins.op.SPECIAL? && !ins.op.BCOND?
      modifies registers
      ensures r == (match TrapOf(old(registers[..]), ins, alu)
                    case Some(e) => Raised(e)
                    case None => Ok(Successor(old(registers[..]), ins, alu)))
      ensures r.Raised? ==> registers[..] == old(registers[..])
      ensures r.Ok? ==> registers[..] == Performed(old(registers[..]), ins, alu)
    {
      var op, rs, rt := ins.op, registers[ins.rs], registers[ins.rt];
      if op.SYSCALL? {
        return Raised(SyscallException);
      } else if op.UNIMP? || op.RES? {
        return Raised(IllegalInstrException);
      } else if MayOverflow(op) && alu.overflows(op, rs, rt, ins.extra) {
        return Raised(OverflowException);
      }
      var pcAfter := Following(registers[NEXT_PC]);
      if WritesHiLo(op) {
        OperateHiLo(op, rs, rt);
      } else if Redirects(op) {
        pcAfter := Redirect(ins, alu);
      } else if op.MFHI? || op.MFLO? {
        registers[ins.rd] := if op.MFHI? then registers[HI] else registers[LO];
      } else {
        registers[Destination(ins)] := alu.value(op, rs, rt, ins.extra);
      }
      return Ok(pcAfter);
    }

    /** Jumps and branches: the link, if any, is written first. */
    method Redirect(ins: Instruction, alu: Alu) returns (pcAfter: Word)
      requires Shape() && Encodes(ins) && Redirects(ins.op)
      modifies registers
      ensures pcAfter == Successor(old(registers[..]), ins, alu)
      ensures registers[..] == Performed(old(registers[..]), ins, alu)
    {
      var op, next := ins.op, registers[NEXT_PC];
      pcAfter := Following(next);
      if op.JALR? {
        registers[ins.rd] := Following(next);
      } else if Links(op) {
        registers[31] := Following(next);
      }
      if op.J? || op.JAL? {
        pcAfter := Wrap(pcAfter / 0x1000_0000 * 0x1000_0000 + ins.extra * 4);
      } else if op.JR? || op.JALR? {
        pcAfter := registers[ins.rs];
      } else if alu.taken(op, registers[ins.rs], registers[ins.rt]) {
        pcAfter := Branched(next, ins.extra);
      }
    }

    /** Multiplication, division and moves to the two product registers. */
    method OperateHiLo(op: Op, rs: Word, rt: Word)
      requires Shape() && WritesHiLo(op)
      modifies registers
      ensures registers[..] == old(registers[..])[HI := HiAfter(op, rs, rt, old(registers[HI]))]
                                                 [LO := LoAfter(op, rs, rt, old(registers[LO]))]
    {
      var hi, lo := HiLo(op, rs, rt, registers[HI], registers[LO]);
      registers[HI] := hi;
      registers[LO] := lo;
    }

    method HiLo(op: Op, rs: Word, rt: Word, hi0: Word, lo0: Word) returns (hi: Word, lo: Word)
      requires WritesHiLo(op)
      ensures hi == HiAfter(op, rs, rt, hi0) && lo == LoAfter(op, rs, rt, lo0)
    {
      hi, lo := hi0, lo0;
      if op.MTHI? {
        hi := rs;
      } else if op.MTLO? {
        lo := rs;
      } else if op.MULT? || op.MULTU? {
        hi, lo := Mult(Signed(rs), Signed(rt), op.MULT?);
        PairSplits(hi, lo);
        assert Unsigned(Signed(rs)) == rs && Unsigned(Signed(rt)) == rt;
      } else if rt == 0 {
        hi, lo := 0, 0;
      } else {
        DivideBounds(rs, rt);
        lo := rs / rt;
        hi := rs % rt;
      }
    }

    /** A load: traps and failed assertions exactly as LoadEffect says, otherwise the value becomes pending. */
    method Load(ins: Instruction) returns (o: Outcome)
      requires Valid() && Encodes(ins) && IsLoad(ins.op)
      modifies this, registers
      ensures Valid()
      ensures Shows(LoadEffect(old(registers[..]), mainMemory[..], ins, old(Environment())), old(registers[..]),
                    mainMemory[..], o, registers[..], mainMemory[..])
    {
      var op, a := ins.op, Wrap(registers[ins.rs] + ins.extra);
      if NeedsWordAddress(op) && a % 4 != 0 {
        return AssertFails;
      }
      var v := LoadAt(ins, a);
      if v.Raised? {
        return Trap(v.exception);
      }
      Complete(ins.rt, v.value, Following(registers[NEXT_PC]));
      return Done;
    }

    method LoadAt(ins: Instruction, a: Word) returns (v: Result<Word>)
      requires Valid() && Encodes(ins) && IsLoad(ins.op) && a == Effective(registers[..], ins)
      modifies this, registers
      ensures Valid()
      ensures
        var t := LoadTarget(old(registers[..]), ins, old(Environment()));
        if t.Raised? then v == Raised(t.exception) && registers[..] == Trapped(old(registers[..]), a)
        else && registers[..] == old(registers[..]) && 0 <= t.value && t.value + LoadSize(ins.op) <= mainMemory.Length
             && v == Ok(LoadResult(registers[..], ins, mainMemory[..], t.value))
    {
      var op := ins.op;
      if ((op.LH? || op.LHU?) && a % 2 != 0) || (op.LW? && a % 4 != 0) {
        RaiseException(a);
        return Raised(AddressErrorException);
      }
      v := ReadMem(a, LoadSize(op));
      if v.Ok? {
        var rt := if registers[LOAD] == ins.rt then registers[LOAD_VALUE] else registers[ins.rt];
        v := Ok(LoadedValue(op, v.value, rt));
      }
    }

    /** A store: traps and failed assertions exactly as StoreEffect says, and a trap changes no byte of memory. */
    method Store(ins: Instruction) returns (o: Outcome)
      requires Valid() && Encodes(ins) && IsStore(ins.op)
      modifies this, registers, mainMemory
      ensures Valid()
      ensures Shows(StoreEffect(old(registers[..]), old(mainMemory[..]), ins, old(Environment())), old(registers[..]),
                    old(mainMemory[..]), o, registers[..], mainMemory[..])
    {
      var a := Wrap(registers[ins.rs] + ins.extra);
      if NeedsWordAddress(ins.op) && a % 4 != 0 {
        return AssertFails;
      }
      o := StoreAt(ins, a);
      if o.Done? {
        Complete(0, 0, Following(registers[NEXT_PC]));
      }
    }

    method StoreAt(ins: Instruction, a: Word) returns (o: Outcome)
      requires Valid() && Encodes(ins) && IsStore(ins.op) && a == Effective(registers[..], ins)
      modifies this, registers, mainMemory
      ensures Valid()
      ensures
        var t := StoreTarget(old(registers[..]), ins, old(Environment()));
        if t.Raised? then
          && o == Trap(t.exception) && registers[..] == Trapped(old(registers[..]), a)
          && mainMemory[..] == old(mainMemory[..])
        else
          && o == Done && registers[..] == old(registers[..])
          && 0 <= t.value && t.value + StoreSize(ins.op) <= mainMemory.Length
          && mainMemory[..] == StoreResult(old(registers[..]), ins, old(mainMemory[..]), t.value)
    {
      ghost var env := Environment();
      var v := ValueToStore(ins, a);
      if v.Raised? {
        return Trap(v.exception);
      }
      SameReach(env, table, a, StoreSize(ins.op), true);
      StoreAgrees(registers[..], ins, mainMemory[..], env, a, v.value);
      var w := WriteMem(a, StoreSize(ins.op), v.value);
      return if w.Raised? then Trap(w.exception) else Done;
    }

    /** The value a store writes; a partial store reads the word first. */
    method ValueToStore(ins: Instruction, a: Word) returns (v: Result<Word>)
      requires Valid() && Encodes(ins) && IsStore(ins.op)
      modifies this, registers
      ensures Valid() && isTlb == old(isTlb) && SameEntries(old(table), table)
      ensures
        var t := Reach(old(Environment()), a, 4, false);
        if !NeedsWordAddress(ins.op) then
          v == Ok(StoredValue(ins.op, 0, registers[ins.rt])) && registers[..] == old(registers[..])
        else if t.Raised? then v == Raised(t.exception) && registers[..] == Trapped(old(registers[..]), a)
        else && 0 <= t.value && t.value + 4 <= mainMemory.Length && registers[..] == old(registers[..])
             && v == Ok(StoredValue(ins.op, FromBytes(mainMemory[t.value..t.value + 4]), registers[ins.rt]))
    {
      var value := registers[ins.rt];
      if !NeedsWordAddress(ins.op) {
        return Ok(value);
      }
      v := ReadMem(a, 4);
      if v.Ok? && ins.op.SWR? {
        value := v.value % 0x100_0000 + value % 256 * 0x100_0000;
      }
      if v.Ok? {
        v := Ok(value);
      }
    }

    /** The part of an instruction that follows its execution. */
    method Complete(nextReg: nat, nextValue: Word, pcAfter: Word)
      requires Shape() && registers[LOAD] < 32 && nextReg < 32
      modifies registers
      ensures Valid() && registers[..] == Ended(old(registers[..]), nextReg, nextValue, pcAfter)
    {
      DelayedLoad(nextReg, nextValue);
      registers[PREV_PC] := registers[PC];
      registers[PC] := registers[NEXT_PC];
      registers[NEXT_PC] := pcAfter;
    }

    method Other(ins: Instruction, alu: Alu) returns (o: Outcome)
      requires Valid() && Encodes(ins) && !IsLoad(ins.op) && !IsStore(ins.op) && !ins.op.SPECIAL? && !ins.op.BCOND?
      modifies registers
      ensures Valid()
      ensures Shows(OtherEffect(old(registers[..]), mainMemory[..], ins, alu), old(registers[..]), mainMemory[..], o,
                    registers[..], mainMemory[..])
    {
      ghost var before := registers[..];
      var r := Operate(ins, alu);
      if r.Raised? {
        RaiseException(0);
        return Trap(r.exception);
      }
      PerformedKeepsLoad(before, ins, alu);
      Complete(0, 0, r.value);
      return Done;
    }

    /** Executes what was fetched. */
    method Execute(ins: Instruction, alu: Alu) returns (o: Outcome)
      requires Valid() && Encodes(ins) && !ins.op.SPECIAL? && !ins.op.BCOND?
      modifies this, registers, mainMemory
      ensures Valid()
      ensures Shows(EffectOf(old(registers[..]), old(mainMemory[..]), ins, old(Environment()), alu), old(registers[..]),
                    old(mainMemory[..]), o, registers[..], mainMemory[..])
    {
      if IsLoad(ins.op) {
        o := Load(ins);
      } else if IsStore(ins.op) {
        o := Store(ins);
      } else {
        o := Other(ins, alu);
      }
    }

    method Fetch() returns (i: Result<Instruction>)
      requires Valid()
      modifies this, registers
      ensures Valid() && isTlb == old(isTlb) && SameEntries(old(table), table)
      ensures i == Fetched(old(Environment()), mainMemory[..], old(registers[PC]))
      ensures i.Raised? ==> registers[..] == Trapped(old(registers[..]), old(registers[PC]))
      ensures i.Ok? ==> registers[..] == old(registers[..]) && !i.value.op.SPECIAL? && !i.value.op.BCOND?
    {
      var raw := ReadMem(registers[PC], 4);
      if raw.Raised? {
        return Raised(raw.exception);
      }
      return Ok(Decode(raw.value));
    }

    /** One instruction: fetched through the page table, decoded and executed, with exactly the effect of StepEffect. */
    method OneInstruction(alu: Alu) returns (o: Outcome)
      requires Valid()
      modifies this, registers, mainMemory
      ensures Valid()
      ensures Shows(StepEffect(old(registers[..]), old(mainMemory[..]), old(Environment()), alu), old(registers[..]),
                    old(mainMemory[..]), o, registers[..], mainMemory[..])
    {
      var fetched := Fetch();
      if fetched.Raised? {
        return Trap(fetched.exception);
      }
      SameEffect(registers[..], mainMemory[..], fetched.value, old(Environment()), table, alu);
      o := Execute(fetched.value, alu);
    }

    /** One instruction with the arithmetic of the simulator. */
    method Simulate() returns (o: Outcome)
      requires Valid()
      modifies this, registers, mainMemory
      ensures Valid()
      ensures Shows(StepEffect(old(registers[..]), old(mainMemory[..]), old(Environment()), Simulator()),
                    old(registers[..]), old(mainMemory[..]), o, registers[..], mainMemory[..])
    {
      o := OneInstruction(Simulator());
    }
  }
}
