/** What the data-processing instructions compute, in numbers: results, flags and what stays, from the
    encodings of section A7.7 of the ARMv7-M Architecture Reference Manual. */
module Arithmetic {
  import opened Words
  import opened Registers
  import opened Cpu
  import opened Alu
  import opened Instruction
  import opened Execute

  predicate InSignedRange(x: int) { -0x8000_0000 <= x < 0x8000_0000 }

  /** `psr2` is `psr` with the flags of x + y + c: N and Z of the result, C for a carry out of 32 bits,
      V for a signed sum that does not fit. */
  predicate SumFlags(psr: word, psr2: word, x: word, y: word, c: bool) {
    && (FlagN(psr2) <==> Wrap(x + y + Alu.Bit(c)) >= 0x8000_0000) && (FlagZ(psr2) <==> Wrap(x + y + Alu.Bit(c)) == 0)
    && (FlagC(psr2) <==> x + y + Alu.Bit(c) >= TWO32)
    && (FlagV(psr2) <==> !InSignedRange(Signed(x) + Signed(y) + Alu.Bit(c)))
    && psr2 % 0x1000_0000 == psr % 0x1000_0000
  }

  /** The flags of x - y - b except C: N, Z, and V for a signed difference that does not fit. */
  predicate DifferenceSigns(psr: word, psr2: word, x: word, y: word, b: bool) {
    && (FlagN(psr2) <==> Wrap(x - y - Alu.Bit(b)) >= 0x8000_0000) && (FlagZ(psr2) <==> Wrap(x - y - Alu.Bit(b)) == 0)
    && (FlagV(psr2) <==> !InSignedRange(Signed(x) - Signed(y) - Alu.Bit(b)))
    && psr2 % 0x1000_0000 == psr % 0x1000_0000
  }

  /** And C, which is set when there is no borrow. */
  predicate DifferenceFlags(psr: word, psr2: word, x: word, y: word, b: bool) {
    DifferenceSigns(psr, psr2, x, y, b) && (FlagC(psr2) <==> x >= y + Alu.Bit(b))
  }

  // --- the adders ---

  lemma AddsFlags(psr: word, x: word, y: word)
    ensures Adds(x, y).result == Wrap(x + y) && SumFlags(psr, UpdateFlags(psr, Adds(x, y)), x, y, false)
  {
    AddsIsAddWithCarry(x, y);
    SumOf(x, y, false);
    hide FlagN, FlagZ, FlagC, FlagV, Adds, AddWithCarry, Signed, Wrap, UpdateFlags;
  }

  lemma AdcsFlags(psr: word, x: word, y: word, c: bool)
    ensures Adcs(x, y, c).result == Wrap(x + y + Alu.Bit(c)) && SumFlags(psr, UpdateFlags(psr, Adcs(x, y, c)), x, y, c)
  {
    AdcsIsAddWithCarry(x, y, c);
    SumOf(x, y, c);
    hide FlagN, FlagZ, FlagC, FlagV, Adcs, AddWithCarry, Signed, Wrap, UpdateFlags;
  }

  lemma SumOf(x: word, y: word, c: bool)
    ensures var o := AddWithCarry(x, y, c);
            && o.result == Wrap(x + y + Alu.Bit(c)) && (o.carry <==> x + y + Alu.Bit(c) >= TWO32)
            && (o.overflow <==> !InSignedRange(Signed(x) + Signed(y) + Alu.Bit(c)))
  {
  }

  lemma DifferenceOf(x: word, y: word, b: bool)
    ensures var o := AddWithCarry(x, Not(y), !b);
            && o.result == Wrap(x - y - Alu.Bit(b)) && (o.carry <==> x >= y + Alu.Bit(b))
            && (o.overflow <==> !InSignedRange(Signed(x) - Signed(y) - Alu.Bit(b)))
  {
  }

  lemma SubsFlags(psr: word, x: word, y: word)
    ensures Subs(x, y).result == Wrap(x - y) && DifferenceFlags(psr, UpdateFlags(psr, Subs(x, y)), x, y, false)
  {
    SubsIsAddWithCarry(x, y);
    DifferenceOf(x, y, false);
    hide FlagN, FlagZ, FlagC, FlagV, Subs, AddWithCarry, Signed, Wrap, UpdateFlags;
  }

  lemma SbcsT32Flags(psr: word, x: word, y: word, c: bool)
    ensures SbcsT32(x, y, c).result == Wrap(x - y - Alu.Bit(!c))
    ensures DifferenceFlags(psr, UpdateFlags(psr, SbcsT32(x, y, c)), x, y, !c)
  {
    SbcsT32IsAddWithCarry(x, y, c);
    DifferenceOf(x, y, !c);
    hide FlagN, FlagZ, FlagC, FlagV, SbcsT32, AddWithCarry, Signed, Wrap, UpdateFlags;
  }

  lemma SbcsT16Flags(psr: word, x: word, y: word, c: bool)
    ensures SbcsT16(x, y, c).result == Wrap(x - y - Alu.Bit(!c))
    ensures DifferenceSigns(psr, UpdateFlags(psr, SbcsT16(x, y, c)), x, y, !c)
    ensures (FlagC(UpdateFlags(psr, SbcsT16(x, y, c))) <==> x >= y + Alu.Bit(!c)) <==>
            !(x == 0xFFFF_FFFF && y == 0xFFFF_FFFF && !c)
  {
    SbcsT16IsAddWithCarry(x, y, c);
    DifferenceOf(x, y, !c);
    SbcCarryIff(x, y, c);
    hide FlagN, FlagZ, FlagC, FlagV, Signed, SbcsT16, AddWithCarry, Wrap, UpdateFlags;
  }

  lemma SbcCarryIff(x: word, y: word, c: bool)
    ensures (SbcsT16(x, y, c).carry <==> x >= y + Alu.Bit(!c)) <==> !(x == 0xFFFF_FFFF && y == 0xFFFF_FFFF && !c)
  {
  }

  // --- the 16-bit instructions ---

  /** Rd holds x + y + c, the flags are those of this sum, and nothing else changed. */
  ghost predicate Added(r: Regs, q: Regs, rd: nat, x: word, y: word, c: bool)
    requires rd < 8
  {
    && q == r.(gpr := r.gpr[rd := Wrap(x + y + Alu.Bit(c))], psr := q.psr)
    && SumFlags(r.psr, q.psr, x, y, c)
  }

  /** Rd holds x - y - b, the flags but C are those of this difference, and nothing else changed. */
  ghost predicate Subtracted(r: Regs, q: Regs, rd: nat, x: word, y: word, b: bool)
    requires rd < 8
  {
    && q == r.(gpr := r.gpr[rd := Wrap(x - y - Alu.Bit(b))], psr := q.psr)
    && DifferenceSigns(r.psr, q.psr, x, y, b)
  }

  /** Only the flags changed, to those of x - y. */
  ghost predicate Compared(r: Regs, q: Regs, x: word, y: word) {
    q == r.(psr := q.psr) && DifferenceFlags(r.psr, q.psr, x, y, false)
  }

  lemma AddRegs(r: Regs, f: Fields)
    requires f.typ == T16_ADD_REG && f.rd < 8 && f.rn < 8 && f.rm < 8
    ensures Added(r, DataProcessing(r, f), f.rd, r.gpr[f.rn], r.gpr[f.rm], false)
  {
    hide UpdateFlags, Adds, SumFlags, Wrap;
    AddsFlags(r.psr, r.gpr[f.rn], r.gpr[f.rm]);
  }

  lemma AdcRegs(r: Regs, f: Fields)
    requires f.typ == T16_ADC && f.rd < 8 && f.rm < 8
    ensures Added(r, DataProcessing(r, f), f.rd, r.gpr[f.rd], r.gpr[f.rm], FlagC(r.psr))
  {
    hide UpdateFlags, Adcs, SumFlags, Wrap, FlagC;
    AdcsFlags(r.psr, r.gpr[f.rd], r.gpr[f.rm], FlagC(r.psr));
  }

  lemma SubRegs(r: Regs, f: Fields)
    requires f.typ == T16_SUB_REG && f.rd < 8 && f.rn < 8 && f.rm < 8
    ensures var q := DataProcessing(r, f);
            Subtracted(r, q, f.rd, r.gpr[f.rn], r.gpr[f.rm], false) && (FlagC(q.psr) <==> r.gpr[f.rn] >= r.gpr[f.rm])
  {
    hide UpdateFlags, Subs, DifferenceSigns, Wrap, FlagC;
    SubsFlags(r.psr, r.gpr[f.rn], r.gpr[f.rm]);
  }

  /** C is "no borrow" except for 0xFFFFFFFF - 0xFFFFFFFF with C clear. */
  predicate SbcCarry(x: word, y: word, b: bool, carry: bool) {
    (carry <==> x >= y + Alu.Bit(b)) <==> !(x == 0xFFFF_FFFF && y == 0xFFFF_FFFF && b)
  }

  lemma SbcRegs(r: Regs, f: Fields)
    requires f.typ == T16_SBC && f.rd < 8 && f.rm < 8
    ensures var q := DataProcessing(r, f);
            && Subtracted(r, q, f.rd, r.gpr[f.rd], r.gpr[f.rm], !FlagC(r.psr))
            && SbcCarry(r.gpr[f.rd], r.gpr[f.rm], !FlagC(r.psr), FlagC(q.psr))
  {
    hide UpdateFlags, SbcsT16, DifferenceSigns, Wrap, FlagC;
    SbcsT16Flags(r.psr, r.gpr[f.rd], r.gpr[f.rm], FlagC(r.psr));
  }

  lemma CompareRegs(r: Regs, f: Fields)
    requires f.rn < 8 && ((f.typ == T16_CMP_REG && f.rm < 8) || f.typ == T16_CMP_IMM)
    ensures Compared(r, DataProcessing(r, f), r.gpr[f.rn], if f.typ == T16_CMP_IMM then f.imm else r.gpr[f.rm])
  {
    hide UpdateFlags, Subs, DifferenceFlags;
    SubsFlags(r.psr, r.gpr[f.rn], if f.typ == T16_CMP_IMM then f.imm else r.gpr[f.rm]);
  }

  function Executed(s: Machine, i: word): Machine {
    DecodedListInRange(i);
    Body(s, Instruction.Decode(i))
  }

  lemma DecodedBody(s: Machine, i: word)
    ensures var f := Instruction.Decode(i);
            && ListValid(f)
            && (IsT16Data(f.typ) ==> Executed(s, i) == s.(core := s.core.(regs := DataProcessing(s.core.regs, f))))
            && (IsT32Data(f.typ) ==> Executed(s, i) == s.(core := s.core.(regs := T32DataProcessing(s.core.regs, f))))
  {
    hide Instruction.Decode, DataProcessing, T32DataProcessing;
    DecodedListInRange(i);
  }

  ghost predicate RegsOnly(s: Machine, t: Machine) { t == s.(core := s.core.(regs := t.core.regs)) }

  /** ADD rd, rn, rm: the sum of the operands, with its flags; nothing else changes. */
  lemma {:induction false} AddComputes(s: Machine, rd: nat, rn: nat, rm: nat)
    requires rd < 8 && rn < 8 && rm < 8
    ensures var r, t := s.core.regs, Executed(s, EncodeAddSub(false, rd, rn, rm));
            RegsOnly(s, t) && Added(r, t.core.regs, rd, r.gpr[rn], r.gpr[rm], false)
  {
    hide Executed, Instruction.Decode, EncodeAddSub, DataProcessing, Added;
    AddSubDecodes(false, rd, rn, rm);
    DecodedBody(s, EncodeAddSub(false, rd, rn, rm));
    AddRegs(s.core.regs, Instruction.Decode(EncodeAddSub(false, rd, rn, rm)));
  }

  /** ADC rd, rm: rd + rm + C. */
  lemma {:induction false} AdcComputes(s: Machine, rd: nat, rm: nat)
    requires rd < 8 && rm < 8
    ensures var r, t := s.core.regs, Executed(s, EncodeAlu(5, rd, rm));
            RegsOnly(s, t) && Added(r, t.core.regs, rd, r.gpr[rd], r.gpr[rm], FlagC(r.psr))
  {
    hide Executed, Instruction.Decode, EncodeAlu, DataProcessing, Added, FlagC;
    AluDecodes(5, rd, rm);
    DecodedBody(s, EncodeAlu(5, rd, rm));
    AdcRegs(s.core.regs, Instruction.Decode(EncodeAlu(5, rd, rm)));
  }

  /** SUB rd, rn, rm: the second operand taken from the first, with C set when there is no borrow;
      nothing else changes. */
  lemma {:induction false} SubComputes(s: Machine, rd: nat, rn: nat, rm: nat)
    requires rd < 8 && rn < 8 && rm < 8
    ensures var r, t := s.core.regs, Executed(s, EncodeAddSub(true, rd, rn, rm));
            && RegsOnly(s, t) && Subtracted(r, t.core.regs, rd, r.gpr[rn], r.gpr[rm], false)
            && (FlagC(t.core.regs.psr) <==> r.gpr[rn] >= r.gpr[rm])
  {
    hide Executed, Instruction.Decode, EncodeAddSub, DataProcessing, Subtracted, FlagC;
    AddSubDecodes(true, rd, rn, rm);
    DecodedBody(s, EncodeAddSub(true, rd, rn, rm));
    SubRegs(s.core.regs, Instruction.Decode(EncodeAddSub(true, rd, rn, rm)));
  }

  /** SBC rd, rm: rd - rm - !C. */
  lemma {:induction false} SbcComputes(s: Machine, rd: nat, rm: nat)
    requires rd < 8 && rm < 8
    ensures var r, t := s.core.regs, Executed(s, EncodeAlu(6, rd, rm));
            && RegsOnly(s, t) && Subtracted(r, t.core.regs, rd, r.gpr[rd], r.gpr[rm], !FlagC(r.psr))
            && SbcCarry(r.gpr[rd], r.gpr[rm], !FlagC(r.psr), FlagC(t.core.regs.psr))
  {
    hide Executed, Instruction.Decode, EncodeAlu, DataProcessing, Subtracted, FlagC, SbcCarry;
    AluDecodes(6, rd, rm);
    DecodedBody(s, EncodeAlu(6, rd, rm));
    SbcRegs(s.core.regs, Instruction.Decode(EncodeAlu(6, rd, rm)));
  }

  /** CMP rn, rm and CMP rn, #imm: the flags of rn - rm and of rn - imm, and nothing else. */
  lemma {:induction false} CompareComputes(s: Machine, rn: nat, rm: nat)
    requires rn < 8 && rm < 8
    ensures var r, t := s.core.regs, Executed(s, EncodeAlu(10, rn, rm));
            RegsOnly(s, t) && Compared(r, t.core.regs, r.gpr[rn], r.gpr[rm])
  {
    hide Executed, Instruction.Decode, EncodeAlu, DataProcessing, Compared;
    AluDecodes(10, rn, rm);
    DecodedBody(s, EncodeAlu(10, rn, rm));
    CompareRegs(s.core.regs, Instruction.Decode(EncodeAlu(10, rn, rm)));
  }

  lemma {:induction false} CompareImmediateComputes(s: Machine, rn: nat, imm: nat)
    requires rn < 8 && imm < 0x100
    ensures var r, t := s.core.regs, Executed(s, EncodeCmpImm(rn, imm));
            RegsOnly(s, t) && Compared(r, t.core.regs, r.gpr[rn], imm)
  {
    hide Executed, Instruction.Decode, EncodeCmpImm, DataProcessing, Compared;
    CmpImmDecodes(rn, imm);
    DecodedBody(s, EncodeCmpImm(rn, imm));
    CompareRegs(s.core.regs, Instruction.Decode(EncodeCmpImm(rn, imm)));
  }

  // --- the 32-bit instructions ---

  const ADD_OP := 0x8
  const ADC_OP := 0xA
  const SBC_OP := 0xB
  const SUB_OP := 0xD

  /** An operand: PC reads as the address of the instruction plus 4. */
  function Operand(r: Regs, i: nat): word { if i == 15 then Wrap(r.pc + 4) else ReadReg(r, i) }

  function SecondOperand(r: Regs, x: Shifted): word { ApplyShift(Operand(r, x.rm), x.shiftType, x.amount) }

  predicate Borrow(op: nat, r: Regs) { op == SBC_OP && !FlagC(r.psr) }

  predicate CarryIn(op: nat, r: Regs) { op == ADC_OP && FlagC(r.psr) }

  predicate Subtracts(op: nat) { op == SUB_OP || op == SBC_OP }

  /** What the operation makes of its operands. */
  function WideResult(op: nat, r: Regs, a: word, b: word): word {
    if Subtracts(op) then Wrap(a - b - Alu.Bit(Borrow(op, r))) else Wrap(a + b + Alu.Bit(CarryIn(op, r)))
  }

  /** ADD, ADC, SUB and SBC with a shifted register, in 32 bits: the result goes to Rd; the flags change
      if and only if the S bit asks for it, and then they are those of the sum or difference. */
  lemma {:induction false} WideDataComputes(s: Machine, x: Shifted)
    requires Encodable(x) && x.op in {ADD_OP, ADC_OP, SUB_OP, SBC_OP} && x.rd < 15
    ensures var r, t := s.core.regs, Executed(s, EncodeShifted(x));
            var a, b := Operand(r, x.rn), SecondOperand(r, x);
            && RegsOnly(s, t) && t.core.regs == WriteReg(r, x.rd, WideResult(x.op, r, a, b)).(psr := t.core.regs.psr)
            && (!x.setFlags ==> t.core.regs.psr == r.psr)
            && (x.setFlags && Subtracts(x.op) ==> DifferenceFlags(r.psr, t.core.regs.psr, a, b, Borrow(x.op, r)))
            && (x.setFlags && !Subtracts(x.op) ==> SumFlags(r.psr, t.core.regs.psr, a, b, CarryIn(x.op, r)))
  {
    hide Executed, Instruction.Decode, EncodeShifted, SumFlags, DifferenceFlags, FlagC, UpdateFlags, ApplyShift;
    hide Encodable, Adds, Adcs, Subs, SbcsT32, T32DataProcessing, WriteReg, ReadReg, Wrap;
    ShiftedDecodes(x);
    DecodedBody(s, EncodeShifted(x));
    WideRegs(s.core.regs, x, Instruction.Decode(EncodeShifted(x)));
  }

  lemma WideRegs(r: Regs, x: Shifted, f: Fields)
    requires x.op in {ADD_OP, ADC_OP, SUB_OP, SBC_OP} && x.rd < 15
    requires f.typ == ShiftedType(x.op, x.rd, x.setFlags) && f.rn == x.rn && f.rd == x.rd && f.rm == x.rm
    requires f.shiftType == x.shiftType && f.shiftAmount == x.amount && f.setFlags == x.setFlags && f.cond == 0xE
    ensures IsT32Data(f.typ)
    ensures var q := T32DataProcessing(r, f);
            var a, b := Operand(r, x.rn), SecondOperand(r, x);
            && q == WriteReg(r, x.rd, WideResult(x.op, r, a, b)).(psr := q.psr)
            && (!x.setFlags ==> q.psr == r.psr)
            && (x.setFlags && Subtracts(x.op) ==> DifferenceFlags(r.psr, q.psr, a, b, Borrow(x.op, r)))
            && (x.setFlags && !Subtracts(x.op) ==> SumFlags(r.psr, q.psr, a, b, CarryIn(x.op, r)))
  {
    hide SumFlags, DifferenceFlags, FlagC, UpdateFlags, ApplyShift, CheckCondition, Adds, Adcs, Subs, SbcsT32;
    hide WriteReg, Wrap;
    var a, b := Operand(r, x.rn), SecondOperand(r, x);
    assert ReadAdjusted(r, x.rn) == a && ReadAdjusted(r, x.rm) == Operand(r, x.rm);
    hide ReadAdjusted, ReadReg;
    AddsFlags(r.psr, a, b);
    AdcsFlags(r.psr, a, b, FlagC(r.psr));
    SubsFlags(r.psr, a, b);
    SbcsT32Flags(r.psr, a, b, FlagC(r.psr));
    forall v: word ensures WriteReg(r, x.rd, v).psr == r.psr {
      WriteKeepsPsr(r, x.rd, v);
    }
  }

  lemma WriteKeepsPsr(r: Regs, i: nat, v: word)
    ensures WriteReg(r, i, v).psr == r.psr
  {
  }

  /** CMP.W rn, rm with a shift sets the flags of the difference and nothing else. */
  lemma {:induction false} WideCompareComputes(s: Machine, x: Shifted)
    requires Encodable(x) && x.op == SUB_OP && x.rd == 15 && x.setFlags
    ensures var r, t := s.core.regs, Executed(s, EncodeShifted(x));
            RegsOnly(s, t) && Compared(r, t.core.regs, Operand(r, x.rn), SecondOperand(r, x))
  {
    hide Executed, Instruction.Decode, EncodeShifted, DifferenceFlags, SecondOperand, Operand, T32DataProcessing, Subs;
    hide Encodable, UpdateFlags;
    var r, f := s.core.regs, Instruction.Decode(EncodeShifted(x));
    ShiftedDecodes(x);
    DecodedBody(s, EncodeShifted(x));
    WideCompareRegs(r, x, f);
    SubsFlags(r.psr, Operand(r, x.rn), SecondOperand(r, x));
  }

  lemma WideCompareRegs(r: Regs, x: Shifted, f: Fields)
    requires f.typ == T32_CMP_REG && f.rn == x.rn && f.rm == x.rm && f.cond == 0xE
    requires f.shiftType == x.shiftType && f.shiftAmount == x.amount
    ensures T32DataProcessing(r, f) ==
            r.(psr := UpdateFlags(r.psr, Subs(Operand(r, x.rn), SecondOperand(r, x))))
  {
    hide UpdateFlags, ApplyShift, Subs, CheckCondition;
    hide Wrap;
  }
}
