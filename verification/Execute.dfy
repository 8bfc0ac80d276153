/** The execution unit (src/cpu/Execute.cpp): the methods that change registers, memory, IT
    state and the exclusive monitor, each against the function that specifies it. */
module Execute {
  import opened Words
  import opened Registers
  import opened Memory
  import opened BusCtrl
  import opened DataPort
  import opened WordAccess
  import opened Cpu
  import opened Alu
  import opened Multiple
  import opened Instruction
  import opened Exclusive
  import It = ItBlock
  import Br = Branch

  // --- data processing ---

  /** PC reads as the instruction address plus 4 in the 32-bit forms. */
  function ReadAdjusted(r: Regs, i: nat): word {
    if i == 15 then Wrap(ReadReg(r, i) + 4) else ReadReg(r, i)
  }

  function WriteResult(r: Regs, rd: nat, o: AluOut): Regs {
    var r' := WriteReg(r, rd, o.result);
    r'.(psr := UpdateFlags(r'.psr, o))
  }

  function Compare(r: Regs, a: word, b: word): Regs {
    r.(psr := UpdateFlags(r.psr, Subs(a, b)))
  }

  /** `execute_data_processing` for the adders, subtractors and compares. */
  function DataProcessing(r: Regs, f: Fields): Regs {
    match f.typ
    case T16_ADD_REG => WriteResult(r, f.rd, Adds(ReadReg(r, f.rn), ReadReg(r, f.rm)))
    case T16_SUB_REG => WriteResult(r, f.rd, Subs(ReadReg(r, f.rn), ReadReg(r, f.rm)))
    case T16_ADC => WriteResult(r, f.rd, Adcs(ReadReg(r, f.rd), ReadReg(r, f.rm), FlagC(r.psr)))
    case T16_SBC => WriteResult(r, f.rd, SbcsT16(ReadReg(r, f.rd), ReadReg(r, f.rm), FlagC(r.psr)))
    case T16_CMP_REG => Compare(r, ReadReg(r, f.rn), ReadReg(r, f.rm))
    case T16_CMP_IMM => Compare(r, ReadReg(r, f.rn), f.imm)
    case _ => r
  }

  /** `apply_shift`: LSL, LSR, ASR and ROR. The two parts of a rotated word share no bit. */
  function ApplyShift(v: word, shiftType: nat, amount: nat): word {
    if amount == 0 then v
    else
      match shiftType
      case 0 => if amount >= 32 then 0 else Wrap(v * Pow2(amount))
      case 1 => if amount >= 32 then 0 else Wrap(v / Pow2(amount))
      case 2 => if amount >= 32 then (if Negative(v) then 0xFFFF_FFFF else 0) else Wrap(Signed(v) / Pow2(amount))
      case 3 =>
        var k := amount % 32;
        if k == 0 then v else Wrap(v / Pow2(k) + v * Pow2(32 - k))
      case _ => v
  }

  /** `execute_t32_data_processing` for ADD, SUB, ADC, SBC and CMP, the second operand shifted. */
  function T32DataProcessing(r: Regs, f: Fields): Regs {
    if f.cond != 0xE && f.cond != 0x0 && !CheckCondition(r.psr, f.cond) then r
    else
      var a, b := ReadAdjusted(r, f.rn), ApplyShift(ReadAdjusted(r, f.rm), f.shiftType, f.shiftAmount);
      match f.typ
      case T32_ADD_REG => WriteT32(r, f.rd, f.setFlags, Adds(a, b))
      case T32_SUB_REG => WriteT32(r, f.rd, f.setFlags, Subs(a, b))
      case T32_ADC_REG => WriteT32(r, f.rd, f.setFlags, Adcs(a, b, FlagC(r.psr)))
      case T32_SBC_REG => WriteT32(r, f.rd, f.setFlags, SbcsT32(a, b, FlagC(r.psr)))
      case T32_CMP_REG => Compare(r, a, b)
      case _ => r
  }

  /** The result, then the flags if the instruction sets them. */
  function WriteT32(r: Regs, rd: nat, setFlags: bool, o: AluOut): Regs {
    var r' := if rd < 16 then WriteReg(r, rd, o.result) else r;
    if setFlags then r'.(psr := UpdateFlags(r'.psr, o)) else r'
  }

  // --- one instruction ---

  predicate IsBranch(t: InstType) {
    t == T16_B || t == T16_B_COND || t == T16_BX || t == T16_BLX || t == T32_B || t == T32_B_COND || t == T32_BL
  }

  predicate IsT16Data(t: InstType) {
    t == T16_ADD_REG || t == T16_SUB_REG || t == T16_ADC || t == T16_SBC || t == T16_CMP_REG || t == T16_CMP_IMM
  }

  predicate IsT32Data(t: InstType) {
    t == T32_ADD_REG || t == T32_SUB_REG || t == T32_ADC_REG || t == T32_SBC_REG || t == T32_CMP_REG
  }

  predicate ListValid(f: Fields) { forall i :: i in f.regList ==> i < 16 }

  predicate IsMultiple(t: InstType) {
    t == T16_PUSH || t == T16_POP || t == T16_STMIA || t == T16_LDMIA
    || t == T32_STMIA || t == T32_STMDB || t == T32_LDMIA || t == T32_LDMDB
  }

  predicate IsExclusive(t: InstType) {
    || t == T32_LDREX || t == T32_LDREXB || t == T32_LDREXH
    || t == T32_STREX || t == T32_STREXB || t == T32_STREXH || t == T32_CLREX
  }

  datatype Machine = Machine(core: Core, monitor: Monitor)

  function MultipleBody(c: Core, f: Fields): Core
    requires ListValid(f) && IsMultiple(f.typ)
  {
    match f.typ
    case T16_PUSH => Push(c, f.regList)
    case T16_POP => Pop(c, f.regList)
    case T16_STMIA => T16Multiple(c, false, f.rn, f.regList)
    case T16_LDMIA => T16Multiple(c, true, f.rn, f.regList)
    case T32_STMIA => T32Multiple(c, false, IncrementAfter, f.rn, f.regList)
    case T32_STMDB => T32Multiple(c, false, DecrementBefore, f.rn, f.regList)
    case T32_LDMIA => T32Multiple(c, true, IncrementAfter, f.rn, f.regList)
    case T32_LDMDB => T32Multiple(c, true, DecrementBefore, f.rn, f.regList)
  }

  function ExclusiveBody(s: Machine, f: Fields): Machine
    requires IsExclusive(f.typ)
  {
    match f.typ
    case T32_LDREX => LoadBody(s, f, 4)
    case T32_LDREXB => LoadBody(s, f, 1)
    case T32_LDREXH => LoadBody(s, f, 2)
    case T32_STREX => StoreBody(s, f, 4)
    case T32_STREXB => StoreBody(s, f, 1)
    case T32_STREXH => StoreBody(s, f, 2)
    case T32_CLREX => s.(monitor := MonitorStep(s.monitor, ClearEx))
  }

  function LoadBody(s: Machine, f: Fields, size: nat): Machine
    requires AccessSize(size)
  {
    var (c, m) := LoadExclusive(s.core, s.monitor, f.rd, f.rn, f.imm, size);
    Machine(c, m)
  }

  function StoreBody(s: Machine, f: Fields, size: nat): Machine
    requires AccessSize(size)
  {
    var (c, m) := StoreExclusive(s.core, s.monitor, f.rd, f.rn, f.rm, f.imm, size);
    Machine(c, m)
  }

  /** `execute_exception`: SVC pends its exception and ends the IT block. */
  function RequestSvc(c: Core): Core {
    c.(regs := c.regs.(it := ClearIt(c.regs.it)), pend := c.pend.(svc := true))
  }

  /** The instruction proper, once the IT gate has let it through. */
  function Body(s: Machine, f: Fields): Machine
    requires ListValid(f)
  {
    var c := s.core;
    if IsBranch(f.typ) then s.(core := Br.ExecuteBranch(c, f).0)
    else if IsT16Data(f.typ) then s.(core := c.(regs := DataProcessing(c.regs, f)))
    else if IsT32Data(f.typ) then s.(core := c.(regs := T32DataProcessing(c.regs, f)))
    else if f.typ == T16_IT then
      s.(core := c.(regs := c.regs.(it := It.BeginBlock(c.regs.it, c.regs.psr, f.cond % 16, f.imm % 16))))
    else if f.typ == T16_SVC then s.(core := RequestSvc(c))
    else if IsMultiple(f.typ) then s.(core := MultipleBody(c, f))
    else if IsExclusive(f.typ) then ExclusiveBody(s, f)
    else s
  }

  /** `execute_instruction`: inside an IT block every instruction but IT advances the block and
      is skipped when its slot's condition fails. */
  function Instruct(s: Machine, f: Fields): Machine
    requires ListValid(f)
  {
    var it := s.core.regs.it;
    if InItBlock(it) && f.typ != T16_IT then
      var s' := s.(core := s.core.(regs := s.core.regs.(it := AdvanceIt(it))));
      if It.GateOpen(it) then Body(s', f) else s'
    else Body(s, f)
  }

  // --- arithmetic and comparisons as instructions ---

  function DataFields(t: InstType, rd: nat, rn: nat, rm: nat): Fields {
    NO_FIELDS.(typ := t, rd := rd, rn := rn, rm := rm)
  }

  /** Two-word numbers in register pairs. */
  function PairValue(r: Regs, lo: nat, hi: nat): nat { ReadReg(r, lo) + TWO32 * ReadReg(r, hi) }

  /** ADD then ADC on register pairs: the 64-bit sum, with its carry in C. The low result may
      not overwrite a high operand. */
  lemma {:induction false} PairAddition(r: Regs, lo: nat, hi: nat, lo2: nat, hi2: nat)
    requires lo < 8 && hi < 8 && lo2 < 8 && hi2 < 8 && lo != hi && lo != hi2
    ensures var r1 := DataProcessing(r, DataFields(T16_ADD_REG, lo, lo, lo2));
            var r2 := DataProcessing(r1, DataFields(T16_ADC, hi, 0, hi2));
            PairValue(r2, lo, hi) + TWO32 * TWO32 * Alu.Bit(FlagC(r2.psr)) ==
            PairValue(r, lo, hi) + PairValue(r, lo2, hi2)
  {
    hide FlagN, FlagZ, FlagC, FlagV, Adcs, Adds;
    var low := Adds(r.gpr[lo], r.gpr[lo2]);
    AddsIsAddWithCarry(r.gpr[lo], r.gpr[lo2]);
    AdcsIsAddWithCarry(r.gpr[lo], r.gpr[lo2], false);
    AdcStepValue(r.gpr[lo], r.gpr[lo2], false);
    AdcStepValue(r.gpr[hi], r.gpr[hi2], low.carry);
  }

  /** SUBS then 32-bit SBCS on register pairs: the 64-bit difference, with C set when there is no
      borrow. */
  lemma {:induction false} PairSubtraction(r: Regs, lo: nat, hi: nat, lo2: nat, hi2: nat)
    requires lo < 8 && hi < 8 && lo2 < 8 && hi2 < 8 && lo != hi && lo != hi2
    ensures var f := DataFields(T32_SUB_REG, lo, lo, lo2).(cond := 0xE, setFlags := true);
            var g := DataFields(T32_SBC_REG, hi, hi, hi2).(cond := 0xE, setFlags := true);
            var r2 := T32DataProcessing(T32DataProcessing(r, f), g);
            PairValue(r2, lo, hi) - TWO32 * TWO32 * Alu.Bit(!FlagC(r2.psr)) ==
            PairValue(r, lo, hi) - PairValue(r, lo2, hi2)
  {
    hide FlagN, FlagZ, FlagC, FlagV, SbcsT32, Subs;
    var low := Subs(r.gpr[lo], r.gpr[lo2]);
    SubsIsAddWithCarry(r.gpr[lo], r.gpr[lo2]);
    SbcsT32IsAddWithCarry(r.gpr[lo], r.gpr[lo2], true);
    SbcStepValue(SbcT32Step, r.gpr[lo], r.gpr[lo2], true);
    SbcStepValue(SbcT32Step, r.gpr[hi], r.gpr[hi2], low.carry);
  }

  /** CMP then an encoded B<cond>: the branch is taken exactly when the comparison the condition
      names holds of the two registers. */
  lemma {:induction false} CompareAndBranch(c: Core, rn: nat, rm: nat, cond: nat, off: int)
    requires cond < 14 && -0x100 <= off < 0x100 && off % 2 == 0
    ensures var a, b := ReadReg(c.regs, rn), ReadReg(c.regs, rm);
            var c1 := c.(regs := DataProcessing(c.regs, DataFields(T16_CMP_REG, 0, rn, rm)));
            var taken := Br.Fetched(c1, EncodeBCond(cond, off)).1;
            && (cond == 0x0 ==> (taken <==> a == b)) && (cond == 0x1 ==> (taken <==> a != b))
            && (cond == 0x2 ==> (taken <==> a >= b)) && (cond == 0x3 ==> (taken <==> a < b))
            && (cond == 0x8 ==> (taken <==> a > b)) && (cond == 0x9 ==> (taken <==> a <= b))
            && (cond == 0xA ==> (taken <==> Signed(a) >= Signed(b)))
            && (cond == 0xB ==> (taken <==> Signed(a) < Signed(b)))
            && (cond == 0xC ==> (taken <==> Signed(a) > Signed(b)))
            && (cond == 0xD ==> (taken <==> Signed(a) <= Signed(b)))
  {
    hide ReadReg, CheckCondition, Br.Fetched, UpdateFlags, Subs, Signed;
    var a, b := ReadReg(c.regs, rn), ReadReg(c.regs, rm);
    var c1 := c.(regs := DataProcessing(c.regs, DataFields(T16_CMP_REG, 0, rn, rm)));
    ConditionsAfterCompare(c.regs.psr, a, b);
    Br.BCondReaches(c1, cond, off);
  }

  /** What the instruction proper reports to its caller: it has set PC itself. */
  predicate BodyMovesPc(c: Core, f: Fields) {
    if IsBranch(f.typ) then Br.ExecuteBranch(c, f).1
    else (f.typ == T16_POP || f.typ == T32_LDMIA || f.typ == T32_LDMDB) && 15 in f.regList
  }

  lemma WhoMovesPc(c: Core, f: Fields)
    ensures IsBranch(f.typ) ==> BodyMovesPc(c, f) == Br.ExecuteBranch(c, f).1
    ensures BodyMovesPc(c, f) ==> IsBranch(f.typ) || IsMultiple(f.typ)
    ensures IsMultiple(f.typ) ==> !IsT16Data(f.typ) && !IsT32Data(f.typ) && !IsExclusive(f.typ)
  {
    hide Br.ExecuteBranch;
  }

  /** The same behind the IT gate. */
  predicate MovesPc(s: Machine, f: Fields) {
    var it := s.core.regs.it;
    if InItBlock(it) && f.typ != T16_IT then
      It.GateOpen(it) && BodyMovesPc(s.core.(regs := s.core.regs.(it := AdvanceIt(it))), f)
    else BodyMovesPc(s.core, f)
  }

  /** PUSH and POP as they stand in memory: fetched, decoded and executed. */
  lemma {:induction false} EncodedPushPop(s: Machine, pushed: RegList, popped: RegList)
    requires forall j :: j in pushed ==> j < 8 || j == 14
    requires forall j :: j in popped ==> j < 8 || j == 15
    ensures var f := Instruction.Decode(EncodePush(pushed));
            ListValid(f) && Body(s, f) == s.(core := Push(s.core, pushed))
    ensures var f := Instruction.Decode(EncodePop(popped));
            ListValid(f) && Body(s, f) == s.(core := Pop(s.core, popped))
  {
    hide Push, Pop, EncodePush, EncodePop, Instruction.Decode;
    PushDecodes(pushed);
    PopDecodes(popped);
  }

  /** The running address of a register-list loop when it ends. */
  function AddressAfter(a: word, l: RegList, i: nat): word
    decreases 16 - i
  {
    if i >= 16 then a else AddressAfter(if i in l then Wrap(a + 4) else a, l, i + 1)
  }

  lemma {:induction false} AddressAfterIs(a: word, l: RegList, i: nat)
    ensures AddressAfter(a, l, i) == Wrap(a + 4 * Count(l, i))
    decreases 16 - i
  {
    hide Wrap;
    WrapWord(a);
    if i < 16 {
      AddressAfterIs(if i in l then Wrap(a + 4) else a, l, i + 1);
      WrapTwice(a + 4, 4 * Count(l, i + 1));
      assert a + 4 + 4 * Count(l, i + 1) == a + 4 * (Count(l, i + 1) + 1);
    }
  }

  class Executor {
    const cpu: CpuCore
    const port: BusPort
    var monitorEnabled: bool
    var monitorAddress: word
    var monitorSize: nat

    ghost predicate Valid()
      reads cpu.port, cpu.port.bus, port, port.bus
    {
      cpu.Valid() && port.Valid() && port.bus == cpu.port.bus && port != cpu.port
    }

    ghost function State(): Core
      reads cpu, cpu.regs, cpu.regs.gpr, cpu.port, cpu.port.bus, cpu.port.bus.memory.data, port
      requires Valid()
    {
      cpu.State()
    }

    ghost function MonitorState(): Monitor
      reads this
    {
      Monitor(monitorEnabled, monitorAddress, monitorSize)
    }

    /** An access of this unit or of the CPU core has escaped the backing store. */
    ghost predicate Wild()
      reads port, cpu.port
    {
      port.wild || cpu.port.wild
    }

    constructor (cpu: CpuCore, port: BusPort)
      requires cpu.Valid() && port.Valid() && port.bus == cpu.port.bus && port != cpu.port
      ensures Valid() && this.cpu == cpu && this.port == port && MonitorState() == OPEN_MONITOR
    {
      this.cpu := cpu;
      this.port := port;
      monitorEnabled, monitorAddress, monitorSize := false, 0, 0;
    }

    method ReadMemory(a: word, size: nat) returns (v: word)
      requires Valid() && AccessSize(size)
      modifies port.Footprint()
      ensures Valid() && (old(port.wild) ==> port.wild)
      ensures !port.wild ==> (port.bus.State(), v) == BusRead(old(port.bus.State()), a, size)
    {
      hide PortRead, BusRead;
      ReadAgrees(port.State(), a, size);
      v := port.ReadMemory(a, size);
    }

    method WriteMemory(a: word, v: word, size: nat)
      requires Valid() && AccessSize(size)
      modifies port.Footprint()
      ensures Valid() && (old(port.wild) ==> port.wild)
      ensures !port.wild ==> port.bus.State() == BusWrite(old(port.bus.State()), a, size, v)
    {
      hide PortWrite, BusWrite;
      WriteAgrees(port.State(), a, size, v);
      port.WriteMemory(a, v, size);
    }

    // --- register lists ---

    method CountRegisters(l: RegList) returns (n: nat)
      ensures n == Count(l, 0)
    {
      n := 0;
      for i := 0 to 16
        invariant n + Count(l, i) == Count(l, 0)
      {
        if i in l {
          n := n + 1;
        }
      }
    }

    /** The store loop over `l`. */
    method StoreList(start: word, l: RegList)
      requires Valid()
      modifies port.Footprint()
      ensures Valid() && (old(port.wild) ==> port.wild)
      ensures !port.wild ==> port.bus.State() == StoreRegs(cpu.regs.State(), old(port.bus.State()), start, l, 0)
    {
      hide BusWrite, Wrap;
      var a: word := start;
      ghost var goal := StoreRegs(cpu.regs.State(), port.bus.State(), start, l, 0);
      for i := 0 to 16
        invariant Valid() && (old(port.wild) ==> port.wild)
        invariant cpu.regs.State() == old(cpu.regs.State())
        invariant !port.wild ==> goal == StoreRegs(cpu.regs.State(), port.bus.State(), a, l, i)
      {
        if i in l {
          var v := cpu.regs.ReadRegister(i);
          WriteMemory(a, v, 4);
          a := Wrap(a + 4);
        }
      }
    }

    /** The load loop over `l`; only registers in `into` are written. */
    method LoadList(start: word, l: RegList, into: set<nat>) returns (a: word)
      requires Valid()
      modifies port.Footprint(), cpu.regs.Footprint()
      ensures Valid() && (old(port.wild) ==> port.wild)
      ensures !port.wild ==>
                (cpu.regs.State(), port.bus.State()) ==
                LoadRegs(old(cpu.regs.State()), old(port.bus.State()), start, l, into, 0)
      ensures a == Wrap(start + 4 * Count(l, 0))
    {
      hide LoadWord, AfterLoad, Wrap, LoadInto, Count;
      a := start;
      ghost var goal := LoadRegs(cpu.regs.State(), port.bus.State(), start, l, into, 0);
      AddressAfterIs(start, l, 0);
      for i := 0 to 16
        invariant Valid() && (old(port.wild) ==> port.wild)
        invariant !port.wild ==> goal == LoadRegs(cpu.regs.State(), port.bus.State(), a, l, into, i)
        invariant AddressAfter(a, l, i) == AddressAfter(start, l, 0)
      {
        if i in l {
          LoadStep(a, i, into);
          a := Wrap(a + 4);
        }
      }
    }

    method LoadStep(a: word, i: nat, into: set<nat>)
      requires Valid()
      modifies port.Footprint(), cpu.regs.Footprint()
      ensures Valid() && (old(port.wild) ==> port.wild)
      ensures !port.wild ==>
                && port.bus.State() == AfterLoad(old(port.bus.State()), a)
                && cpu.regs.State() ==
                   if i in into then LoadInto(old(cpu.regs.State()), i, LoadWord(old(port.bus.State()), a))
                   else old(cpu.regs.State())
    {
      hide BusRead, LoadInto;
      var v := ReadMemory(a, 4);
      if i in into {
        LoadRegister(i, v);
      }
    }

    method LoadRegister(i: nat, v: word)
      requires Valid()
      modifies cpu.regs.Footprint()
      ensures cpu.regs.State() == LoadInto(old(cpu.regs.State()), i, v)
    {
      if i == 15 {
        cpu.regs.pc := ClearBit0(v);
        cpu.regs.it := ClearIt(cpu.regs.it);
      } else {
        cpu.regs.WriteRegister(i, v);
      }
    }

    method ExecuteT32Multiple(load: bool, mode: Mode, rn: nat, l: RegList) returns (pcChanged: bool)
      requires Valid()
      modifies port.Footprint(), cpu.regs.Footprint()
      ensures Valid() && (old(port.wild) ==> port.wild) && pcChanged == (load && 15 in l)
      ensures !port.wild ==> State() == T32Multiple(old(State()), load, mode, rn, l)
    {
      hide LoadRegs, StoreRegs, Count, Wrap, WriteReg, ReadReg, CacheSound, BusController.Configured;
      var address := cpu.regs.ReadRegister(rn);
      var count := CountRegisters(l);
      var treatAsLdmia := load && mode == DecrementBefore && rn == 13 && 15 in l;
      if mode == DecrementBefore && !treatAsLdmia {
        address := Wrap(address - count * 4);
        assert address == Wrap(ReadReg(cpu.regs.State(), rn) - 4 * Count(l, 0));
      }
      if load {
        var _ := LoadList(address, l, ALL_REGS);
      } else {
        StoreList(address, l);
      }
      if mode == IncrementAfter || treatAsLdmia {
        cpu.regs.WriteRegister(rn, Wrap(address + count * 4));
      } else {
        cpu.regs.WriteRegister(rn, address);
      }
      pcChanged := load && 15 in l;
    }

    method ExecuteT16Multiple(load: bool, rn: nat, l: RegList)
      requires Valid()
      modifies port.Footprint(), cpu.regs.Footprint()
      ensures Valid() && (old(port.wild) ==> port.wild)
      ensures !port.wild ==> State() == T16Multiple(old(State()), load, rn, l)
    {
      hide LoadRegs, StoreRegs, Count, Wrap, WriteReg, ReadReg, CacheSound, BusController.Configured;
      var base := cpu.regs.ReadRegister(rn);
      var low := l * LOW_REGS;
      if load {
        var _ := LoadList(base, low, LOW_REGS);
      } else {
        StoreList(base, low);
      }
      if rn !in l {
        var count := CountRegisters(low);
        cpu.regs.WriteRegister(rn, Wrap(base + count * 4));
      }
    }

    method ExecutePush(l: RegList)
      requires Valid()
      modifies port.Footprint(), cpu.regs.Footprint()
      ensures Valid() && (old(port.wild) ==> port.wild)
      ensures !port.wild ==> State() == Push(old(State()), l)
    {
      hide StoreRegs, Count, Wrap, CurrentSp, SetCurrentSp;
      var sp := cpu.regs.GetCurrentSp();
      var count := CountRegisters(l);
      var address := Wrap(sp - count * 4);
      cpu.regs.SetSp(address);
      StoreList(address, l * LOW_AND_LR);
    }

    method ExecutePop(l: RegList) returns (pcChanged: bool)
      requires Valid()
      modifies port.Footprint(), cpu.Footprint()
      ensures Valid() && (old(Wild()) ==> Wild()) && pcChanged == (15 in l)
      ensures !Wild() ==> State() == Pop(old(State()), l)
    {
      hide LoadRegs, Count, Wrap, CurrentSp, SetCurrentSp, PopPc;
      var sp := cpu.regs.GetCurrentSp();
      var a: word := LoadList(sp, l - {15}, LOW_AND_LR);
      if 15 !in l {
        cpu.regs.SetSp(a);
        return false;
      }
      PopPcFrom(a);
      pcChanged := true;
    }

    method PopPcFrom(a: word)
      requires Valid()
      modifies port.Footprint(), cpu.Footprint()
      ensures Valid() && (old(Wild()) ==> Wild())
      ensures !Wild() ==> State() == PopPc(old(State()), a)
    {
      hide BranchToPopped, SetCurrentSp, BusRead;
      var v := ReadMemory(a, 4);
      cpu.regs.SetSp(Wrap(a + 4));
      BranchTo(v);
    }

    /** POP of PC: an exception return for the three magic values, else a branch. */
    method BranchTo(v: word)
      requires Valid()
      modifies cpu.Footprint()
      ensures Valid() && (old(cpu.port.wild) ==> cpu.port.wild)
      ensures !cpu.port.wild ==> State() == BranchToPopped(old(State()), v)
    {
      hide ReturnFrom;
      if v == 0xFFFF_FFF1 || v == 0xFFFF_FFF9 || v == 0xFFFF_FFFD {
        var returned := cpu.TryReturn(v);
        assert returned;
      } else {
        cpu.regs.pc := ClearBit0(v);
      }
      cpu.regs.it := ClearIt(cpu.regs.it);
    }

    // --- flags, conditions and data processing ---

    method UpdateFlagsFrom(o: AluOut)
      requires Valid()
      modifies cpu.regs`psr
      ensures cpu.regs.State() == old(cpu.regs.State()).(psr := UpdateFlags(old(cpu.regs.psr), o))
    {
      cpu.regs.psr := SetN(cpu.regs.psr, Negative(o.result));
      cpu.regs.psr := SetZ(cpu.regs.psr, o.result == 0);
      cpu.regs.psr := SetC(cpu.regs.psr, o.carry);
      cpu.regs.psr := SetV(cpu.regs.psr, o.overflow);
    }

    method ExecuteDataProcessing(f: Fields)
      requires Valid() && IsT16Data(f.typ)
      modifies cpu.regs.Footprint()
      ensures cpu.regs.State() == DataProcessing(old(cpu.regs.State()), f)
    {
      hide UpdateFlags, WriteReg, ReadReg, Adds, Subs, Adcs, SbcsT16, FlagC;
      var op1, op2, out;
      match f.typ {
        case T16_ADD_REG =>
          op1 := cpu.regs.ReadRegister(f.rn);
          op2 := cpu.regs.ReadRegister(f.rm);
          out := Adds(op1, op2);
        case T16_SUB_REG =>
          op1 := cpu.regs.ReadRegister(f.rn);
          op2 := cpu.regs.ReadRegister(f.rm);
          out := Subs(op1, op2);
        case T16_ADC =>
          op1 := cpu.regs.ReadRegister(f.rd);
          op2 := cpu.regs.ReadRegister(f.rm);
          out := Adcs(op1, op2, FlagC(cpu.regs.psr));
        case T16_SBC =>
          op1 := cpu.regs.ReadRegister(f.rd);
          op2 := cpu.regs.ReadRegister(f.rm);
          out := SbcsT16(op1, op2, FlagC(cpu.regs.psr));
        case T16_CMP_REG =>
          op1 := cpu.regs.ReadRegister(f.rn);
          op2 := cpu.regs.ReadRegister(f.rm);
          UpdateFlagsFrom(Subs(op1, op2));
          return;
        case T16_CMP_IMM =>
          op1 := cpu.regs.ReadRegister(f.rn);
          UpdateFlagsFrom(Subs(op1, f.imm));
          return;
      }
      cpu.regs.WriteRegister(f.rd, out.result);
      UpdateFlagsFrom(out);
    }

    method ReadAdjustedRegister(i: nat) returns (v: word)
      requires Valid()
      ensures v == ReadAdjusted(cpu.regs.State(), i)
    {
      v := cpu.regs.ReadRegister(i);
      if i == 15 {
        v := Wrap(v + 4);
      }
    }

    method ExecuteT32DataProcessing(f: Fields)
      requires Valid() && IsT32Data(f.typ)
      modifies cpu.regs.Footprint()
      ensures cpu.regs.State() == T32DataProcessing(old(cpu.regs.State()), f)
    {
      hide UpdateFlags, WriteReg, ReadAdjusted, ApplyShift, CheckCondition, Adds, Subs, Adcs, SbcsT32, FlagC;
      if f.cond != 0xE && f.cond != 0x0 {
        if !CheckCondition(cpu.regs.psr, f.cond) {
          return;
        }
      }
      var operand1 := ReadAdjustedRegister(f.rn);
      var rm := ReadAdjustedRegister(f.rm);
      var operand2 := ApplyShift(rm, f.shiftType, f.shiftAmount);
      var out;
      match f.typ {
        case T32_ADD_REG => out := Adds(operand1, operand2);
        case T32_SUB_REG => out := Subs(operand1, operand2);
        case T32_ADC_REG => out := Adcs(operand1, operand2, FlagC(cpu.regs.psr));
        case T32_SBC_REG => out := SbcsT32(operand1, operand2, FlagC(cpu.regs.psr));
        case T32_CMP_REG =>
          UpdateFlagsFrom(Subs(operand1, operand2));
          return;
      }
      if f.rd < 16 {
        cpu.regs.WriteRegister(f.rd, out.result);
      }
      if f.setFlags {
        UpdateFlagsFrom(out);
      }
    }

    // --- IT and branches ---

    method ExecuteIt(f: Fields)
      requires Valid()
      modifies cpu.regs`it
      ensures cpu.regs.State() ==
              old(cpu.regs.State()).(it := It.BeginBlock(old(cpu.regs.it), old(cpu.regs.psr), f.cond % 16, f.imm % 16))
    {
      hide CheckCondition, ItLength;
      var firstcond := f.cond % 16;
      var mask := f.imm % 16;
      if mask == 0 {
        return;
      }
      cpu.regs.BeginIt(firstcond, mask);
      var result := CheckCondition(cpu.regs.psr, firstcond);
      cpu.regs.it := cpu.regs.it.(condResult := result);
    }

    method ExecuteException()
      requires Valid()
      modifies cpu`svcPending, cpu.regs`it
      ensures State() == RequestSvc(old(State()))
    {
      cpu.RequestSvc();
      cpu.regs.it := ClearIt(cpu.regs.it);
    }

    method ExecuteBranch(f: Fields) returns (pcChanged: bool)
      requires Valid()
      modifies cpu.Footprint()
      ensures Valid() && (old(cpu.port.wild) ==> cpu.port.wild)
      ensures !cpu.port.wild ==> (State(), pcChanged) == Br.ExecuteBranch(old(State()), f)
    {
      hide CheckCondition, Br.Exchange, SetCurrentSp, ClearBit0, Wrap, CacheSound, BusController.Configured;
      if f.typ == T16_B_COND || f.typ == T32_B_COND {
        if !CheckCondition(cpu.regs.psr, f.cond) {
          return false;
        }
      }
      if f.opcode % 0x1_0000 / 0x400 == 0x11 && f.aluOp == 3 {
        BranchExchange(f);
      } else {
        var currentPc := cpu.regs.pc;
        if f.typ == T32_BL || f.aluOp == 1 {
          cpu.regs.WriteRegister(14, Wrap(currentPc + 5));
        }
        cpu.regs.pc := Wrap(currentPc + 4 + f.imm);
        cpu.regs.it := ClearIt(cpu.regs.it);
      }
      pcChanged := true;
    }

    /** BX and BLX. */
    method BranchExchange(f: Fields)
      requires Valid()
      modifies cpu.Footprint()
      ensures Valid() && (old(cpu.port.wild) ==> cpu.port.wild)
      ensures !cpu.port.wild ==> State() == Br.Exchange(old(State()), f)
    {
      hide ReturnFrom, Wrap, ClearBit0, IsExcReturn, SetCurrentSp, CacheSound, BusController.Configured;
      var target := cpu.regs.ReadRegister(f.rm);
      if f.opcode / 0x80 % 2 == 1 {
        cpu.regs.WriteRegister(14, Wrap(cpu.regs.pc + 3));
      }
      var returned := cpu.TryReturn(target);
      if !returned {
        cpu.regs.pc := ClearBit0(target);
      }
      cpu.regs.it := ClearIt(cpu.regs.it);
    }

    // --- exclusive accesses ---

    method ExecuteExclusiveLoad(rd: nat, rn: nat, imm: word, size: nat)
      requires Valid() && AccessSize(size)
      modifies this, port.Footprint(), cpu.regs.Footprint()
      ensures Valid() && (old(port.wild) ==> port.wild)
      ensures !port.wild ==>
                (State(), MonitorState()) == LoadExclusive(old(State()), old(MonitorState()), rd, rn, imm, size)
    {
      hide BusRead, WriteReg, ReadReg, Wrap;
      var address := cpu.regs.ReadRegister(rn);
      if size == 4 {
        address := Wrap(address + imm);
      }
      var value := ReadMemory(address, size);
      monitorEnabled, monitorAddress, monitorSize := true, address, size;
      cpu.regs.WriteRegister(rd, value);
    }

    method ExecuteExclusiveStore(rd: nat, rn: nat, rm: nat, imm: word, size: nat)
      requires Valid() && AccessSize(size)
      modifies this, port.Footprint(), cpu.regs.Footprint()
      ensures Valid() && (old(port.wild) ==> port.wild)
      ensures !port.wild ==>
                (State(), MonitorState()) == StoreExclusive(old(State()), old(MonitorState()), rd, rn, rm, imm, size)
    {
      hide BusWrite, WriteReg, ReadReg, Wrap, CacheSound, BusController.Configured;
      var address := cpu.regs.ReadRegister(rn);
      var value := cpu.regs.ReadRegister(rm);
      if size == 4 {
        address := Wrap(address + imm);
      }
      var status := StoreIfMonitored(address, value, size);
      monitorEnabled, monitorAddress, monitorSize := false, 0, 0;
      cpu.regs.WriteRegister(rd, status);
    }

    /** The store proper: performed, with status 0, only if the monitor holds this access. */
    method StoreIfMonitored(address: word, value: word, size: nat) returns (status: word)
      requires Valid() && AccessSize(size)
      modifies port.Footprint()
      ensures Valid() && (old(port.wild) ==> port.wild)
      ensures status == if Matches(MonitorState(), address, size) then 0 else 1
      ensures var m := old(port.bus.State());
              !port.wild ==> port.bus.State() == if status == 0 then BusWrite(m, address, size, value) else m
    {
      hide BusWrite;
      status := 0;
      if !monitorEnabled || monitorAddress != address || monitorSize != size {
        status := 1;
      } else {
        WriteMemory(address, value, size);
      }
    }

    method ExecuteClrex()
      modifies this
      ensures MonitorState() == MonitorStep(old(MonitorState()), ClearEx)
    {
      monitorEnabled, monitorAddress, monitorSize := false, 0, 0;
    }

    // --- dispatch ---

    /** The gate and the instruction; a skipped instruction leaves PC to the caller. */
    method ExecuteInstruction(f: Fields) returns (pcChanged: bool)
      requires Valid() && ListValid(f)
      modifies this, port.Footprint(), cpu.Footprint()
      ensures Valid() && (old(Wild()) ==> Wild())
      ensures !Wild() ==> Machine(State(), MonitorState()) == Instruct(Machine(old(State()), old(MonitorState())), f)
      ensures !Wild() ==> pcChanged == MovesPc(Machine(old(State()), old(MonitorState())), f)
    {
      hide Body, BodyMovesPc, CurrentItThen, AdvanceIt, CacheSound, BusController.Configured;
      var shouldExecute := true;
      if InItBlock(cpu.regs.it) && f.typ != T16_IT {
        var thenSlot := CurrentItThen(cpu.regs.it);
        var condOk := cpu.regs.it.condResult;
        shouldExecute := if thenSlot then condOk else !condOk;
        cpu.regs.AdvanceItState();
      }
      if !shouldExecute {
        return false;
      }
      pcChanged := Dispatch(f);
    }

    method Dispatch(f: Fields) returns (pcChanged: bool)
      requires Valid() && ListValid(f)
      modifies this, port.Footprint(), cpu.Footprint()
      ensures Valid() && (old(Wild()) ==> Wild())
      ensures !Wild() ==> Machine(State(), MonitorState()) == Body(Machine(old(State()), old(MonitorState())), f)
      ensures !Wild() ==> pcChanged == BodyMovesPc(old(State()), f)
    {
      hide DataProcessing, T32DataProcessing, Br.ExecuteBranch, MultipleBody, ExclusiveBody, It.BeginBlock;
      hide IsT16Data, IsT32Data, IsExclusive, BodyMovesPc;
      WhoMovesPc(cpu.State(), f);
      hide CacheSound, BusController.Configured;
      pcChanged := false;
      if IsBranch(f.typ) {
        pcChanged := ExecuteBranch(f);
      } else if IsT16Data(f.typ) {
        ExecuteDataProcessing(f);
      } else if IsT32Data(f.typ) {
        ExecuteT32DataProcessing(f);
      } else if f.typ == T16_IT {
        ExecuteIt(f);
      } else if f.typ == T16_SVC {
        ExecuteException();
      } else if IsMultiple(f.typ) {
        pcChanged := DispatchMultiple(f);
      } else if IsExclusive(f.typ) {
        DispatchExclusive(f);
      }
    }

    method DispatchMultiple(f: Fields) returns (pcChanged: bool)
      requires Valid() && ListValid(f) && IsMultiple(f.typ)
      modifies port.Footprint(), cpu.Footprint()
      ensures Valid() && (old(Wild()) ==> Wild())
      ensures !Wild() ==> State() == MultipleBody(old(State()), f)
      ensures !Wild() ==> pcChanged == BodyMovesPc(old(State()), f)
    {
      hide CacheSound, BusController.Configured, Br.ExecuteBranch;
      hide Push, Pop, T16Multiple, T32Multiple;
      pcChanged := false;
      match f.typ {
        case T16_PUSH => ExecutePush(f.regList);
        case T16_POP => pcChanged := ExecutePop(f.regList);
        case T16_STMIA => ExecuteT16Multiple(false, f.rn, f.regList);
        case T16_LDMIA => ExecuteT16Multiple(true, f.rn, f.regList);
        case T32_STMIA => pcChanged := ExecuteT32Multiple(false, IncrementAfter, f.rn, f.regList);
        case T32_STMDB => pcChanged := ExecuteT32Multiple(false, DecrementBefore, f.rn, f.regList);
        case T32_LDMIA => pcChanged := ExecuteT32Multiple(true, IncrementAfter, f.rn, f.regList);
        case T32_LDMDB => pcChanged := ExecuteT32Multiple(true, DecrementBefore, f.rn, f.regList);
      }
    }

    method DispatchExclusive(f: Fields)
      requires Valid() && IsExclusive(f.typ)
      modifies this, port.Footprint(), cpu.regs.Footprint()
      ensures Valid() && (old(port.wild) ==> port.wild)
      ensures !port.wild ==>
                Machine(State(), MonitorState()) == ExclusiveBody(Machine(old(State()), old(MonitorState())), f)
    {
      hide LoadExclusive, StoreExclusive;
      match f.typ {
        case T32_LDREX => ExecuteExclusiveLoad(f.rd, f.rn, f.imm, 4);
        case T32_LDREXB => ExecuteExclusiveLoad(f.rd, f.rn, f.imm, 1);
        case T32_LDREXH => ExecuteExclusiveLoad(f.rd, f.rn, f.imm, 2);
        case T32_STREX => ExecuteExclusiveStore(f.rd, f.rn, f.rm, f.imm, 4);
        case T32_STREXB => ExecuteExclusiveStore(f.rd, f.rn, f.rm, f.imm, 1);
        case T32_STREXH => ExecuteExclusiveStore(f.rd, f.rn, f.rm, f.imm, 2);
        case T32_CLREX => ExecuteClrex();
      }
    }
  }
}
