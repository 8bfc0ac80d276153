/** Decoding of the branch instructions, of IT, SVC, PUSH, POP, STM and LDM, of the exclusive accesses, and
    of the adders, subtractors and compares of registers (src/cpu/Instruction.cpp), against the encodings
    of section A7.7 of the ARMv7-M Architecture Reference Manual. */
module Instruction {
  import opened Words

  /** The instruction types the model executes; everything else is `Other`. */
  datatype InstType =
    | T16_B | T16_B_COND | T16_BX | T16_BLX | T32_B | T32_B_COND | T32_BL
    | T16_ADD_REG | T16_SUB_REG | T16_ADC | T16_SBC | T16_CMP_REG | T16_CMP_IMM
    | T32_ADD_REG | T32_SUB_REG | T32_ADC_REG | T32_SBC_REG | T32_CMP_REG
    | T16_IT | T16_SVC
    | T16_PUSH | T16_POP | T16_STMIA | T16_LDMIA
    | T32_STMIA | T32_STMDB | T32_LDMIA | T32_LDMDB
    | T32_LDREX | T32_LDREXB | T32_LDREXH | T32_STREX | T32_STREXB | T32_STREXH | T32_CLREX
    | Other

  datatype Fields = Fields(typ: InstType, opcode: word, rd: nat, rn: nat, rm: nat, imm: word, cond: nat, aluOp: nat,
                           regList: set<nat>, shiftType: nat, shiftAmount: nat, setFlags: bool)

  const NO_FIELDS := Fields(Other, 0, 0, 0, 0, 0, 0, 0, {}, 0, 0, false)

  /** The first halfword of a fetched word, which is its low half, starts 11101, 11110 or 11111. */
  predicate Is32Bit(fetched: word) {
    var top5 := fetched % 0x1_0000 / 0x800;
    top5 == 0x1D || top5 == 0x1E || top5 == 0x1F
  }

  /** `decode`: the 16-bit forms below, and B, B<cond> and BL in 32 bits. The
      first halfword of a 32-bit instruction is the low half of the fetched word. */
  function Decode(fetched: word): Fields {
    var first, second := fetched % 0x1_0000, fetched / 0x1_0000;
    if Is32Bit(fetched) then DecodeT32(first, second) else DecodeT16(first)
  }

  function DecodeT16(i: word): Fields
    requires i < 0x1_0000
  {
    var f := NO_FIELDS.(opcode := i, rd := 0xFF, rn := 0xFF, rm := 0xFF);
    if i / 0x400 == 0x11 then
      var f' := f.(rd := i % 8 + if i / 0x80 % 2 == 1 then 8 else 0,
                   rm := i / 8 % 8 + if i / 0x40 % 2 == 1 then 8 else 0,
                   aluOp := i / 0x100 % 4, cond := 0xE);
      if f'.aluOp == 3 then f'.(typ := if i / 0x80 % 2 == 1 then T16_BLX else T16_BX) else f'
    else if i / 0x1000 == 0xB && i / 0x200 % 4 == 2 then
      var load := i / 0x800 % 2 == 1;
      var extra := if i / 0x100 % 2 == 0 then {} else if load then {15} else {14};
      f.(typ := if load then T16_POP else T16_PUSH, rn := 13, regList := BitsOf(i % 0x100) + extra)
    else if i / 0x100 == 0xDF then f.(typ := T16_SVC, imm := i % 0x100)
    else if i / 0x1000 == 0xD then
      f.(typ := T16_B_COND, cond := i / 0x100 % 16, imm := SignExtend(i % 0x100 * 2, 0x200))
    else if i / 0x800 == 0x1C then
      f.(typ := T16_B, cond := 0xE, imm := SignExtend(i % 0x800 * 2, 0x1000))
    else DecodeData(i)
  }

  /** IT, the register forms of ADD and SUB, CMP with an immediate, ADC, SBC and CMP among the ALU
      operations, and the 16-bit STM and LDM. */
  function DecodeData(i: word): Fields
    requires i < 0x1_0000
  {
    var f := NO_FIELDS.(opcode := i, rd := 0xFF, rn := 0xFF, rm := 0xFF);
    if i / 0x100 == 0xBF && i % 16 != 0 then f.(typ := T16_IT, cond := i / 16 % 16, imm := i % 16)
    else if i / 0x400 == 0x6 then
      f.(typ := if i / 0x200 == 0xC then T16_ADD_REG else T16_SUB_REG,
         rd := i % 8, rn := i / 8 % 8, rm := i / 0x40 % 8, aluOp := if i / 0x200 == 0xC then 1 else 2)
    else if i / 0x800 == 5 then
      f.(typ := T16_CMP_IMM, rd := i / 0x100 % 8, rn := i / 0x100 % 8, imm := i % 0x100, aluOp := 1)
    else if i / 0x400 == 0x10 then
      f.(typ := AluType(i / 0x40 % 16), rd := i % 8, rn := i % 8, rm := i / 8 % 8, aluOp := i / 0x40 % 16)
    else if i / 0x1000 == 0xC then
      f.(typ := if i / 0x800 % 2 == 1 then T16_LDMIA else T16_STMIA, rn := i / 0x100 % 8, regList := BitsOf(i % 0x100))
    else f
  }

  /** The ALU operations among the modelled types. */
  function AluType(op: nat): (t: InstType)
    ensures t != T16_IT
  {
    match op
    case 5 => T16_ADC
    case 6 => T16_SBC
    case 10 => T16_CMP_REG
    case _ => Other
  }

  /** Sign extension of a value below `size`, a power of two, to a word. */
  function SignExtend(v: nat, size: nat): word
    requires v < size && 0 < size < TWO32
  {
    if v < size / 2 then v else Wrap(v - size)
  }

  /** The source's 32-bit instruction word is `first:second`; its bits 31-16 are read from
      `first` here and its bits 15-0 from `second`. */
  function DecodeT32(first: nat, second: nat): Fields
    requires first < 0x1_0000 && second < 0x1_0000
  {
    var f := NO_FIELDS.(opcode := first * 0x1_0000 + second, cond := 0xE);
    if first / 0x800 % 4 == 2 && second / 0x8000 == 1 then DecodeControl(first, second)
    else if first / 0x800 % 4 == 1 && first / 0x200 % 4 == 0 then
      if first / 0x40 % 2 == 0 then DecodeMultiple(first, second) else DecodeExclusive(first, second)
    else if first / 0x800 % 4 == 1 && first / 0x200 % 4 == 1 then DecodeShiftedData(first, second)
    else f
  }

  /** Branches, and CLREX among the system instructions. */
  function DecodeControl(first: nat, second: nat): Fields
    requires first < 0x1_0000 && second < 0x1_0000
  {
    var f := NO_FIELDS.(opcode := first * 0x1_0000 + second, cond := 0xE);
    var op := second / 0x1000 % 8;
    if op / 4 == 0 && op % 2 == 0 then
      if first / 0x80 % 8 != 7
      then f.(typ := T32_B_COND, cond := first / 0x40 % 16, imm := CondBranchImm(first, second))
      else if first == 0xF3BF && second == 0x8F2F then f.(typ := T32_CLREX)
      else f
    else if op / 4 == 0 then f.(typ := T32_B, imm := BranchImm(first, second))
    else if op % 2 == 1 then f.(typ := T32_BL, imm := BranchImm(first, second), aluOp := 1)
    else f
  }

  /** ADD, SUB, ADC, SBC and CMP among the operations on a shifted register. */
  function DecodeShiftedData(first: nat, second: nat): Fields
    requires first < 0x1_0000 && second < 0x1_0000
  {
    var f := NO_FIELDS.(opcode := first * 0x1_0000 + second, cond := 0xE);
    f.(typ := ShiftedType(first / 0x20 % 16, second / 0x100 % 16, first / 0x10 % 2 == 1),
       rn := first % 16, rd := second / 0x100 % 16, rm := second % 16, setFlags := first / 0x10 % 2 == 1,
       shiftType := second / 0x10 % 4, shiftAmount := second / 0x1000 % 8 * 4 + second / 0x40 % 4)
  }

  function ShiftedType(op: nat, rd: nat, setFlags: bool): InstType {
    match op
    case 0x8 => if rd != 15 then T32_ADD_REG else Other
    case 0xA => T32_ADC_REG
    case 0xB => T32_SBC_REG
    case 0xD => if rd != 15 then T32_SUB_REG else if setFlags then T32_CMP_REG else Other
    case _ => Other
  }

  /** STM and LDM: the list is the whole second halfword. */
  function DecodeMultiple(first: nat, second: nat): Fields
    requires first < 0x1_0000 && second < 0x1_0000
  {
    var f := NO_FIELDS.(opcode := first * 0x1_0000 + second, cond := 0xE);
    var mode, load := first / 0x80 % 4, first / 0x10 % 2 == 1;
    if mode != 1 && mode != 2 then f
    else
      f.(typ := if mode == 1 then (if load then T32_LDMIA else T32_STMIA) else (if load then T32_LDMDB else T32_STMDB),
         rn := first % 16, regList := ListOf(second))
  }

  function ListOf(mask: nat): (l: set<nat>)
    requires mask < 0x1_0000
    ensures forall j :: j in l ==> j < 16
  {
    set j | j in BitsOf(mask) && j < 16
  }

  /** LDREX, STREX and their byte and halfword forms. */
  function DecodeExclusive(first: nat, second: nat): Fields
    requires first < 0x1_0000 && second < 0x1_0000
  {
    var f := NO_FIELDS.(opcode := first * 0x1_0000 + second, cond := 0xE);
    var op1, op2, op3 := first / 0x80 % 4, first / 0x10 % 4, second / 0x10 % 16;
    var rn, top := first % 16, second / 0x1000;
    if op1 == 0 && op2 == 0 then
      f.(typ := T32_STREX, rn := rn, rd := second / 0x100 % 16, rm := top, imm := second % 0x100 * 4)
    else if op1 == 0 && op2 == 1 then f.(typ := T32_LDREX, rn := rn, rd := top, imm := second % 0x100 * 4)
    else if op1 == 1 && op2 == 0 && (op3 == 4 || op3 == 5) then
      f.(typ := if op3 == 4 then T32_STREXB else T32_STREXH, rn := rn, rd := second % 16, rm := top)
    else if op1 == 1 && op2 == 1 && (op3 == 4 || op3 == 5) then
      f.(typ := if op3 == 4 then T32_LDREXB else T32_LDREXH, rn := rn, rd := top)
    else f
  }

  /** BL and B.W: S:I1:I2:imm10:imm11:0, sign-extended. */
  function BranchImm(first: nat, second: nat): word {
    var s, j1, j2 := first / 0x400 % 2, second / 0x2000 % 2, second / 0x800 % 2;
    var imm10, imm11 := first % 0x400, second % 0x800;
    var i1 := if j1 == s then 1 else 0;
    var i2 := if j2 == s then 1 else 0;
    SignExtend(s * 0x100_0000 + i1 * 0x80_0000 + i2 * 0x40_0000 + imm10 * 0x1000 + imm11 * 2, 0x200_0000)
  }

  /** `(imm6 << 11) | (imm11 << 1)`: the two fields share bit 11. */
  function OverlappedFields(imm6: nat, imm11: nat): (v: nat)
    requires imm6 < 0x40 && imm11 < 0x800
    ensures v < 0x2_0000
  {
    imm6 * 0x800 + imm11 * 2 - if imm6 % 2 == 1 && imm11 >= 0x400 then 0x800 else 0
  }

  /** B<cond>.W: the source builds a 20-bit value in which imm6 and imm11 overlap. */
  function CondBranchImm(first: nat, second: nat): word {
    var s, j1, j2 := first / 0x400 % 2, second / 0x2000 % 2, second / 0x800 % 2;
    SignExtend(s * 0x8_0000 + j2 * 0x4_0000 + j1 * 0x2_0000 + OverlappedFields(first % 0x40, second % 0x800), 0x10_0000)
  }

  // --- the manual's encodings, as fetched words ---

  function Halves(first: nat, second: nat): word
    requires first < 0x1_0000 && second < 0x1_0000
  {
    second * 0x1_0000 + first
  }

  /** The fields of a 25-bit branch offset. */
  datatype Wide = Wide(s: nat, j1: nat, j2: nat, imm10: nat, imm11: nat)

  predicate WideOffset(off: int) { -0x100_0000 <= off < 0x100_0000 && off % 2 == 0 }

  function WideFields(off: int): (w: Wide)
    requires WideOffset(off)
    ensures w.s < 2 && w.j1 < 2 && w.j2 < 2 && w.imm10 < 0x400 && w.imm11 < 0x800
  {
    var u := if off < 0 then off + 0x200_0000 else off;
    var s, i1, i2 := u / 0x100_0000, u / 0x80_0000 % 2, u / 0x40_0000 % 2;
    Wide(s, if i1 == 1 then s else 1 - s, if i2 == 1 then s else 1 - s, u / 0x1000 % 0x400, u / 2 % 0x800)
  }

  function WideFirst(w: Wide): nat { 0xF000 + w.s * 0x400 + w.imm10 }

  function WideSecond(w: Wide, link: bool): nat {
    (if link then 0xD000 else 0x9000) + w.j1 * 0x2000 + w.j2 * 0x800 + w.imm11
  }

  function WideHalves(off: int, link: bool): word
    requires WideOffset(off)
  {
    Halves(WideFirst(WideFields(off)), WideSecond(WideFields(off), link))
  }

  /** Section A7.7.18, encoding T1. */
  function EncodeBl(off: int): word
    requires WideOffset(off)
  {
    WideHalves(off, true)
  }

  /** Section A7.7.12, encoding T4. */
  function EncodeBWide(off: int): word
    requires WideOffset(off)
  {
    WideHalves(off, false)
  }

  /** Section A7.7.12, encoding T2. */
  function EncodeB(off: int): word
    requires -0x800 <= off < 0x800 && off % 2 == 0
  {
    0xE000 + (if off < 0 then off + 0x1000 else off) / 2
  }

  /** Section A7.7.12, encoding T1. */
  function EncodeBCond(cond: nat, off: int): word
    requires cond < 14 && -0x100 <= off < 0x100 && off % 2 == 0
  {
    0xD000 + cond * 0x100 + (if off < 0 then off + 0x200 else off) / 2
  }

  predicate CondOffset(off: int) { -0x10_0000 <= off < 0x10_0000 && off % 2 == 0 }

  /** The fields of a 21-bit conditional branch offset. */
  datatype Narrow = Narrow(s: nat, j2: nat, j1: nat, imm6: nat, imm11: nat)

  function NarrowFields(off: int): (w: Narrow)
    requires CondOffset(off)
    ensures NarrowInRange(w)
  {
    var u := if off < 0 then off + 0x20_0000 else off;
    Narrow(u / 0x10_0000, u / 0x8_0000 % 2, u / 0x4_0000 % 2, u / 0x1000 % 0x40, u / 2 % 0x800)
  }

  predicate NarrowInRange(w: Narrow) { w.s < 2 && w.j2 < 2 && w.j1 < 2 && w.imm6 < 0x40 && w.imm11 < 0x800 }

  function NarrowFirst(cond: nat, w: Narrow): nat { 0xF000 + w.s * 0x400 + cond * 0x40 + w.imm6 }

  function NarrowSecond(w: Narrow): nat { 0x8000 + w.j1 * 0x2000 + w.j2 * 0x800 + w.imm11 }

  /** Section A7.7.12, encoding T3. */
  function EncodeBCondWide(cond: nat, off: int): word
    requires cond < 14 && CondOffset(off)
  {
    Halves(NarrowFirst(cond, NarrowFields(off)), NarrowSecond(NarrowFields(off)))
  }

  /** Section A7.7.38, encoding T1. */
  function EncodeIt(cond: nat, mask: nat): word
    requires cond < 16 && 0 < mask < 16
  {
    0xBF00 + cond * 16 + mask
  }

  /** Section A7.7.178, encoding T1. */
  function EncodeSvc(imm: nat): word
    requires imm < 0x100
  {
    0xDF00 + imm
  }

  /** Sections A7.7.4 and A7.7.175, encodings T1. */
  function EncodeAddSub(sub: bool, rd: nat, rn: nat, rm: nat): word
    requires rd < 8 && rn < 8 && rm < 8
  {
    (if sub then 0x1A00 else 0x1800) + rm * 0x40 + rn * 8 + rd
  }

  /** Sections A7.7.2, A7.7.125 and A7.7.28, encodings T1: ADC, SBC and CMP by their operation. */
  function EncodeAlu(op: nat, rd: nat, rm: nat): word
    requires op < 16 && rd < 8 && rm < 8
  {
    0x4000 + op * 0x40 + rm * 8 + rd
  }

  /** Section A7.7.20, encoding T1. */
  function EncodeBx(rm: nat): word
    requires rm < 16
  {
    0x4700 + rm * 8
  }

  /** Section A7.7.19, encoding T1. */
  function EncodeBlx(rm: nat): word
    requires rm < 16
  {
    0x4780 + rm * 8
  }

  /** Section A7.7.27, encoding T1. */
  function EncodeCmpImm(rn: nat, imm: nat): word
    requires rn < 8 && imm < 0x100
  {
    0x2800 + rn * 0x100 + imm
  }

  /** The low registers of a list as an eight-bit mask. */
  function LowMask(l: set<nat>): (m: nat)
    ensures m < 0x100
  {
    Bit(l, 0) + 2 * Bit(l, 1) + 4 * Bit(l, 2) + 8 * Bit(l, 3)
    + 16 * Bit(l, 4) + 32 * Bit(l, 5) + 64 * Bit(l, 6) + 128 * Bit(l, 7)
  }

  function Bit(l: set<nat>, i: nat): (b: nat)
    ensures b <= 1
  {
    if i in l then 1 else 0
  }

  /** Section A7.7.101, encoding T1. */
  function EncodePush(l: set<nat>): word {
    0xB400 + 0x100 * Bit(l, 14) + LowMask(l)
  }

  /** Section A7.7.99, encoding T1. */
  function EncodePop(l: set<nat>): word {
    0xBC00 + 0x100 * Bit(l, 15) + LowMask(l)
  }

  /** Sections A7.7.159 and A7.7.41, encodings T1. */
  function EncodeShortMultiple(load: bool, rn: nat, l: set<nat>): word
    requires rn < 8
  {
    (if load then 0xC800 else 0xC000) + rn * 0x100 + LowMask(l)
  }

  // --- decoding inverts encoding ---

  /** Bit i of the mask is set exactly for a listed low register. */
  lemma LowMaskBits(l: set<nat>)
    ensures BitsOf(LowMask(l)) == set i | i in l && i < 8
  {
    hide LowMask, Pow2, Bit;
    forall i: nat | i < 32 ensures (LowMask(l) / Pow2(i)) % 2 == 1 <==> i in l && i < 8 {
      LowMaskBit(l, i);
      BitIs(l, i);
    }
  }

  lemma LowMaskBit(l: set<nat>, i: nat)
    ensures (LowMask(l) / Pow2(i)) % 2 == if i < 8 then Bit(l, i) else 0
  {
    hide LowMask, Pow2, Bit;
    LowMaskDigits(l);
    if i >= 8 {
      PowerAbove8(i);
      SmallQuotient(LowMask(l), Pow2(i));
    } else {
      PowersBelow8();
      assert i == 0 || i == 1 || i == 2 || i == 3 || i == 4 || i == 5 || i == 6 || i == 7;
    }
  }

  lemma SmallQuotient(m: nat, p: nat)
    requires m < p
    ensures m / p == 0
  {
  }

  lemma Halve(b: nat, h: nat)
    requires b <= 1
    ensures (b + 2 * h) / 2 == h && (b + 2 * h) % 2 == b
  {
  }

  lemma Halvings(m: nat)
    ensures m / 4 == m / 2 / 2 && m / 8 == m / 4 / 2 && m / 16 == m / 8 / 2
    ensures m / 32 == m / 16 / 2 && m / 64 == m / 32 / 2 && m / 128 == m / 64 / 2
  {
  }

  lemma LowMaskDigits(l: set<nat>)
    ensures var m := LowMask(l);
            && m / 1 == m && m % 2 == Bit(l, 0) && m / 2 % 2 == Bit(l, 1) && m / 4 % 2 == Bit(l, 2)
            && m / 8 % 2 == Bit(l, 3) && m / 16 % 2 == Bit(l, 4) && m / 32 % 2 == Bit(l, 5)
            && m / 64 % 2 == Bit(l, 6) && m / 128 % 2 == Bit(l, 7)
  {
    hide Bit;
    var h6 := Bit(l, 6) + 2 * Bit(l, 7);
    var h5 := Bit(l, 5) + 2 * h6;
    var h4 := Bit(l, 4) + 2 * h5;
    var h3 := Bit(l, 3) + 2 * h4;
    var h2 := Bit(l, 2) + 2 * h3;
    var h1 := Bit(l, 1) + 2 * h2;
    assert LowMask(l) == Bit(l, 0) + 2 * h1;
    Halvings(LowMask(l));
    Halve(Bit(l, 0), h1);
    Halve(Bit(l, 1), h2);
    Halve(Bit(l, 2), h3);
    Halve(Bit(l, 3), h4);
    Halve(Bit(l, 4), h5);
    Halve(Bit(l, 5), h6);
    Halve(Bit(l, 6), Bit(l, 7));
  }

  lemma PowersBelow8()
    ensures Pow2(0) == 1 && Pow2(1) == 2 && Pow2(2) == 4 && Pow2(3) == 8
    ensures Pow2(4) == 16 && Pow2(5) == 32 && Pow2(6) == 64 && Pow2(7) == 128
  {
    assert Pow2(3) == 8;
    assert Pow2(5) == 32;
  }

  lemma {:induction false} PowerAbove8(i: nat)
    requires i >= 8
    ensures Pow2(i) >= 256
  {
    if i == 8 {
      PowersBelow8();
    } else {
      PowerAbove8(i - 1);
    }
  }

  lemma BitsOfByte(m: word)
    requires m < 0x100
    ensures forall j :: j in BitsOf(m) ==> j < 8
  {
    hide Pow2;
    forall j | j in BitsOf(m) ensures j < 8 {
      if j >= 8 {
        PowerAbove8(j);
        SmallQuotient(m, Pow2(j));
      }
    }
  }

  /** Decoded register lists name r0 to r15. */
  lemma DecodedListInRange(fetched: word)
    ensures forall j :: j in Decode(fetched).regList ==> j < 16
  {
    hide SignExtend, BranchImm, CondBranchImm, BitsOf, Is32Bit, AluType, ShiftedType;
    BitsOfByte(fetched % 0x1_0000 % 0x100);
  }

  /** The fields of a PUSH or POP halfword. */
  lemma StackHalfword(load: bool, extra: nat, m: nat)
    requires extra <= 1 && m < 0x100
    ensures var i := (if load then 0xBC00 else 0xB400) + 0x100 * extra + m;
            && i < 0x1_0000 && i / 0x800 == (if load then 0x17 else 0x16) && i / 0x400 == (if load then 0x2F else 0x2D)
            && i / 0x1000 == 0xB && i / 0x200 % 4 == 2 && i / 0x100 % 2 == extra && i % 0x100 == m
  {
    var i := (if load then 0xBC00 else 0xB400) + 0x100 * extra + m;
    assert i / 0x100 == (if load then 0xBC else 0xB4) + extra;
    assert i / 0x200 == if load then 0x5E else 0x5A;
  }

  /** PUSH and POP decode to the list they were encoded from. */
  lemma {:induction false} PushDecodes(l: set<nat>)
    requires forall j :: j in l ==> j < 8 || j == 14
    ensures var f := Decode(EncodePush(l));
            f.typ == T16_PUSH && f.regList == l && f.rn == 13 && f.opcode == EncodePush(l)
  {
    hide LowMask, Bit, BitsOf, DecodeData, DecodeT32, SignExtend;
    StackHalfword(false, Bit(l, 14), LowMask(l));
    LowMaskBits(l);
    BitIs(l, 14);
    assert l == (set j | j in l && j < 8) + if 14 in l then {14} else {};
  }

  lemma {:induction false} PopDecodes(l: set<nat>)
    requires forall j :: j in l ==> j < 8 || j == 15
    ensures var f := Decode(EncodePop(l));
            f.typ == T16_POP && f.regList == l && f.rn == 13 && f.opcode == EncodePop(l)
  {
    hide LowMask, Bit, BitsOf, DecodeData, DecodeT32, SignExtend;
    StackHalfword(true, Bit(l, 15), LowMask(l));
    LowMaskBits(l);
    BitIs(l, 15);
    assert l == (set j | j in l && j < 8) + if 15 in l then {15} else {};
  }

  /** Halfwords outside the other groups. */
  lemma ReachesData(i: word)
    requires i < 0x1_0000 && i / 0x400 != 0x11 && i / 0x800 < 0x1A && i / 0x1000 != 0xD
    requires i / 0x1000 == 0xB ==> i / 0x200 % 4 != 2
    ensures Decode(i) == DecodeData(i)
  {
    ShortReaches(i);
    hide DecodeData, SignExtend, BitsOf, Decode;
    assert i / 0x1000 == i / 0x100 / 0x10;
  }

  lemma ShortReaches(i: word)
    requires i < 0x1_0000 && i / 0x800 < 0x1D
    ensures Decode(i) == DecodeT16(i)
  {
    hide DecodeT16, DecodeT32;
  }

  lemma ItDecodes(cond: nat, mask: nat)
    requires cond < 16 && 0 < mask < 16
    ensures var f := Decode(EncodeIt(cond, mask));
            f.typ == T16_IT && f.cond == cond && f.imm == mask && f.opcode == EncodeIt(cond, mask)
  {
    hide BitsOf, Decode;
    var i := EncodeIt(cond, mask);
    assert i / 16 == 0xBF0 + cond && i % 16 == mask;
    assert i / 0x100 == 0xBF && i / 0x400 == 0x2F && i / 0x800 == 0x17 && i / 0x1000 == 0xB && i / 0x200 == 0x5F;
    ReachesData(i);
  }

  lemma SvcDecodes(imm: nat)
    requires imm < 0x100
    ensures var f := Decode(EncodeSvc(imm));
            f.typ == T16_SVC && f.imm == imm && f.opcode == EncodeSvc(imm) && f.regList == {}
  {
    hide BitsOf, DecodeData, DecodeT32, SignExtend;
    var i := EncodeSvc(imm);
    assert i / 0x100 == 0xDF && i % 0x100 == imm;
    assert i / 0x400 == 0x37 && i / 0x800 == 0x1B && i / 0x1000 == 0xD;
  }

  /** The fields of an ADD or SUB halfword. */
  lemma AddSubBits(sub: bool, rd: nat, rn: nat, rm: nat)
    requires rd < 8 && rn < 8 && rm < 8
    ensures var i := EncodeAddSub(sub, rd, rn, rm);
            && i < 0x1_0000 && i / 0x100 != 0xBF
            && i / 0x200 == (if sub then 0xD else 0xC) && i / 0x400 == 6 && i / 0x800 == 3 && i / 0x1000 == 1
            && i % 8 == rd && i / 8 % 8 == rn && i / 0x40 % 8 == rm
  {
    var i := EncodeAddSub(sub, rd, rn, rm);
    assert i / 8 == (if sub then 0x340 else 0x300) + rm * 8 + rn;
    assert i / 0x40 == (if sub then 0x68 else 0x60) + rm;
  }

  lemma AddSubDecodes(sub: bool, rd: nat, rn: nat, rm: nat)
    requires rd < 8 && rn < 8 && rm < 8
    ensures var f := Decode(EncodeAddSub(sub, rd, rn, rm));
            && f.typ == (if sub then T16_SUB_REG else T16_ADD_REG) && f.rd == rd && f.rn == rn && f.rm == rm
            && f.regList == {}
  {
    hide BitsOf, Decode, EncodeAddSub;
    AddSubBits(sub, rd, rn, rm);
    ReachesData(EncodeAddSub(sub, rd, rn, rm));
  }

  lemma AluBits(op: nat, rd: nat, rm: nat)
    requires op < 16 && rd < 8 && rm < 8
    ensures var i := EncodeAlu(op, rd, rm);
            && i < 0x1_0000 && i / 0x100 != 0xBF && i / 0x400 == 0x10 && i / 0x800 == 8 && i / 0x1000 == 4
            && i / 0x40 % 16 == op && i / 8 % 8 == rm && i % 8 == rd
  {
    var i := EncodeAlu(op, rd, rm);
    assert i / 8 == 0x800 + op * 8 + rm;
    assert i / 0x40 == 0x100 + op;
  }

  lemma AluDecodes(op: nat, rd: nat, rm: nat)
    requires op < 16 && rd < 8 && rm < 8
    ensures var f := Decode(EncodeAlu(op, rd, rm));
            f.typ == AluType(op) && f.rd == rd && f.rn == rd && f.rm == rm && f.regList == {}
  {
    hide BitsOf, Decode, EncodeAlu, AluType;
    AluBits(op, rd, rm);
    ReachesData(EncodeAlu(op, rd, rm));
  }

  lemma CmpImmDecodes(rn: nat, imm: nat)
    requires rn < 8 && imm < 0x100
    ensures var f := Decode(EncodeCmpImm(rn, imm));
            f.typ == T16_CMP_IMM && f.rn == rn && f.imm == imm && f.regList == {}
  {
    hide BitsOf, Decode;
    var i := EncodeCmpImm(rn, imm);
    assert i / 0x100 == 0x28 + rn && i % 0x100 == imm;
    assert i / 0x400 == 0xA + rn / 4 && i / 0x800 == 5 && i / 0x1000 == 2;
    ReachesData(i);
  }

  lemma {:induction false} ShortMultipleDecodes(load: bool, rn: nat, l: set<nat>)
    requires rn < 8 && forall j :: j in l ==> j < 8
    ensures var f := Decode(EncodeShortMultiple(load, rn, l));
            f.typ == (if load then T16_LDMIA else T16_STMIA) && f.rn == rn && f.regList == l
  {
    hide LowMask, BitsOf, Decode;
    ShortMultipleBits(load, rn, LowMask(l));
    LowMaskBits(l);
    assert l == set i | i in l && i < 8;
    ReachesData(EncodeShortMultiple(load, rn, l));
  }

  lemma ShortMultipleBits(load: bool, rn: nat, m: nat)
    requires rn < 8 && m < 0x100
    ensures var i: nat := (if load then 0xC800 else 0xC000) + rn * 0x100 + m;
            && i < 0x1_0000 && i / 0x100 == (if load then 0xC8 else 0xC0) + rn && i % 0x100 == m
            && i / 0x400 >= 0x30 && i / 0x800 == (if load then 0x19 else 0x18) && i / 0x1000 == 0xC
            && i / 0x100 % 8 == rn
  {
    var i: nat := (if load then 0xC800 else 0xC000) + rn * 0x100 + m;
    assert i / 0x100 == (if load then 0xC8 else 0xC0) + rn;
  }

  // --- 32-bit data processing on a shifted register ---

  /** The operation, its registers and the shift. */
  datatype Shifted = Shifted(op: nat, setFlags: bool, rn: nat, rd: nat, rm: nat, shiftType: nat, amount: nat)

  predicate Encodable(x: Shifted) {
    x.op < 16 && x.rn < 16 && x.rd < 16 && x.rm < 16 && x.shiftType < 4 && x.amount < 32
  }

  /** Sections A7.7.4, A7.7.175, A7.7.2 and A7.7.125, encodings T2 and T3, and A7.7.28 with Rd = 15. */
  function EncodeShifted(x: Shifted): word
    requires Encodable(x)
  {
    Halves(0xEA00 + x.op * 0x20 + (if x.setFlags then 0x10 else 0) + x.rn,
           x.amount / 4 * 0x1000 + x.rd * 0x100 + x.amount % 4 * 0x40 + x.shiftType * 0x10 + x.rm)
  }

  lemma ShiftedFirst(x: Shifted)
    requires Encodable(x)
    ensures var i: nat := 0xEA00 + x.op * 0x20 + (if x.setFlags then 0x10 else 0) + x.rn;
            && i < 0x1_0000 && i / 0x800 == 0x1D && i / 0x200 == 0x75 && i / 0x20 % 16 == x.op
            && i / 0x10 % 2 == (if x.setFlags then 1 else 0) && i % 16 == x.rn
  {
    var i: nat := 0xEA00 + x.op * 0x20 + (if x.setFlags then 0x10 else 0) + x.rn;
    assert i / 0x10 == 0xEA0 + x.op * 2 + if x.setFlags then 1 else 0;
    assert i / 0x20 == 0x750 + x.op;
  }

  lemma ShiftedSecond(x: Shifted)
    requires Encodable(x)
    ensures var i: nat := x.amount / 4 * 0x1000 + x.rd * 0x100 + x.amount % 4 * 0x40 + x.shiftType * 0x10 + x.rm;
            && i < 0x8000 && i / 0x1000 % 8 == x.amount / 4 && i / 0x100 % 16 == x.rd
            && i / 0x40 % 4 == x.amount % 4 && i / 0x10 % 4 == x.shiftType && i % 16 == x.rm
  {
    SecondBits(x.amount / 4, x.rd, x.amount % 4, x.shiftType, x.rm);
  }

  lemma SecondBits(high: nat, rd: nat, low: nat, shiftType: nat, rm: nat)
    requires high < 8 && rd < 16 && low < 4 && shiftType < 4 && rm < 16
    ensures var i: nat := high * 0x1000 + rd * 0x100 + low * 0x40 + shiftType * 0x10 + rm;
            && i < 0x8000 && i / 0x1000 % 8 == high && i / 0x100 % 16 == rd
            && i / 0x40 % 4 == low && i / 0x10 % 4 == shiftType && i % 16 == rm
  {
    var i: nat := high * 0x1000 + rd * 0x100 + low * 0x40 + shiftType * 0x10 + rm;
    assert i / 0x10 == high * 0x100 + rd * 0x10 + low * 4 + shiftType;
    assert i / 0x40 == high * 0x40 + rd * 4 + low;
    assert i / 0x100 == high * 0x10 + rd;
  }

  lemma ShiftedReaches(first: nat, second: nat)
    requires first < 0x1_0000 && second < 0x1_0000 && first / 0x800 == 0x1D && first / 0x200 == 0x75
    ensures Decode(Halves(first, second)) == DecodeShiftedData(first, second)
    ensures Is32Bit(Halves(first, second))
  {
    hide DecodeT16, DecodeMultiple, DecodeExclusive, DecodeShiftedData, DecodeControl;
    HalvesSplit(first, second);
  }

  lemma ShiftedDecodes(x: Shifted)
    requires Encodable(x)
    ensures var f := Decode(EncodeShifted(x));
            && f.typ == ShiftedType(x.op, x.rd, x.setFlags) && f.rn == x.rn && f.rd == x.rd && f.rm == x.rm
            && f.shiftType == x.shiftType && f.shiftAmount == x.amount && f.setFlags == x.setFlags
            && f.cond == 0xE && f.regList == {}
    ensures Is32Bit(EncodeShifted(x))
  {
    hide Decode, Halves, Is32Bit, ShiftedType;
    ShiftedFirst(x);
    ShiftedSecond(x);
    var first: nat := 0xEA00 + x.op * 0x20 + (if x.setFlags then 0x10 else 0) + x.rn;
    var second: nat := x.amount / 4 * 0x1000 + x.rd * 0x100 + x.amount % 4 * 0x40 + x.shiftType * 0x10 + x.rm;
    ShiftedReaches(first, second);
  }

  // --- LDREX, STREX and CLREX ---

  /** Section A7.7.52, encoding T1. */
  function EncodeLdrex(rt: nat, rn: nat, imm: nat): word
    requires rt < 16 && rn < 16 && imm < 0x400 && imm % 4 == 0
  {
    Halves(0xE850 + rn, rt * 0x1000 + 0xF00 + imm / 4)
  }

  /** Section A7.7.167, encoding T1. */
  function EncodeStrex(rd: nat, rt: nat, rn: nat, imm: nat): word
    requires rd < 16 && rt < 16 && rn < 16 && imm < 0x400 && imm % 4 == 0
  {
    Halves(0xE840 + rn, rt * 0x1000 + rd * 0x100 + imm / 4)
  }

  /** Section A7.7.23, encoding T1. */
  const CLREX_WORD: word := 0x8F2F * 0x1_0000 + 0xF3BF

  lemma ExclusiveFirst(store: bool, rn: nat)
    requires rn < 16
    ensures var first: nat := (if store then 0xE840 else 0xE850) + rn;
            && first / 0x800 == 0x1D && first / 0x200 % 4 == 0 && first / 0x40 % 2 == 1 && first / 0x80 % 4 == 0
            && first / 0x10 % 4 == (if store then 0 else 1) && first % 16 == rn
  {
    var first: nat := (if store then 0xE840 else 0xE850) + rn;
    assert first / 0x10 == if store then 0xE84 else 0xE85;
  }

  lemma ExclusiveSecond(a: nat, b: nat, imm: nat)
    requires a < 16 && b < 16 && imm < 0x400 && imm % 4 == 0
    ensures var second: nat := a * 0x1000 + b * 0x100 + imm / 4;
            second < 0x1_0000 && second / 0x1000 == a && second / 0x100 % 16 == b && second % 0x100 * 4 == imm
  {
    var second: nat := a * 0x1000 + b * 0x100 + imm / 4;
    assert second / 0x100 == a * 16 + b;
  }

  lemma DecodeExclusiveHalves(first: nat, second: nat)
    requires first < 0x1_0000 && second < 0x1_0000
    requires first / 0x800 == 0x1D && first / 0x200 % 4 == 0 && first / 0x40 % 2 == 1
    ensures Decode(Halves(first, second)) == DecodeExclusive(first, second)
    ensures Is32Bit(Halves(first, second))
  {
    hide DecodeExclusive, DecodeMultiple, DecodeShiftedData, DecodeT16, DecodeControl;
    HalvesSplit(first, second);
  }

  lemma LdrexDecodes(rt: nat, rn: nat, imm: nat)
    requires rt < 16 && rn < 16 && imm < 0x400 && imm % 4 == 0
    ensures var f := Decode(EncodeLdrex(rt, rn, imm));
            f.typ == T32_LDREX && f.rd == rt && f.rn == rn && f.imm == imm && f.regList == {}
  {
    hide Decode, Halves;
    ExclusiveFirst(false, rn);
    ExclusiveSecond(rt, 15, imm);
    DecodeExclusiveHalves(0xE850 + rn, rt * 0x1000 + 15 * 0x100 + imm / 4);
  }

  lemma StrexDecodes(rd: nat, rt: nat, rn: nat, imm: nat)
    requires rd < 16 && rt < 16 && rn < 16 && imm < 0x400 && imm % 4 == 0
    ensures var f := Decode(EncodeStrex(rd, rt, rn, imm));
            f.typ == T32_STREX && f.rd == rd && f.rm == rt && f.rn == rn && f.imm == imm && f.regList == {}
  {
    hide Decode, Halves;
    ExclusiveFirst(true, rn);
    ExclusiveSecond(rt, rd, imm);
    DecodeExclusiveHalves(0xE840 + rn, rt * 0x1000 + rd * 0x100 + imm / 4);
  }

  /** Sections A7.7.53, A7.7.54, A7.7.168 and A7.7.169: the byte and halfword forms. */
  function EncodeShortExclusive(store: bool, half: bool, rd: nat, rt: nat, rn: nat): word
    requires rd < 16 && rt < 16 && rn < 16
  {
    Halves((if store then 0xE8C0 else 0xE8D0) + rn, rt * 0x1000 + 0xF00 + (if half then 0x50 else 0x40) + rd)
  }

  lemma ShortExclusiveDecodes(store: bool, half: bool, rd: nat, rt: nat, rn: nat)
    requires rd < 16 && rt < 16 && rn < 16
    ensures var f := Decode(EncodeShortExclusive(store, half, rd, rt, rn));
            && f.typ == (if store then (if half then T32_STREXH else T32_STREXB)
                         else if half then T32_LDREXH else T32_LDREXB)
            && f.rn == rn && (if store then f.rd == rd && f.rm == rt else f.rd == rt)
  {
    hide Decode, Halves;
    var first: nat := (if store then 0xE8C0 else 0xE8D0) + rn;
    var second: nat := rt * 0x1000 + 0xF00 + (if half then 0x50 else 0x40) + rd;
    assert first / 0x10 == if store then 0xE8C else 0xE8D;
    assert second / 0x10 == rt * 0x100 + if half then 0xF5 else 0xF4;
    assert second / 0x1000 == rt;
    DecodeExclusiveHalves(first, second);
  }

  // --- 32-bit STM and LDM ---

  /** Sections A7.7.41, A7.7.42, A7.7.159 and A7.7.160, with or without write-back. */
  function EncodeMultiple(down: bool, load: bool, writeBack: bool, rn: nat, mask: nat): word
    requires rn < 16 && mask < 0x1_0000
  {
    Halves((if down then 0xE900 else 0xE880) + (if writeBack then 0x20 else 0) + (if load then 0x10 else 0) + rn, mask)
  }

  /** The decoder drops the write-back bit. */
  lemma MultipleDecodes(down: bool, load: bool, writeBack: bool, rn: nat, mask: nat)
    requires rn < 16 && mask < 0x1_0000
    ensures var f := Decode(EncodeMultiple(down, load, writeBack, rn, mask));
            && f.typ == (if down then (if load then T32_LDMDB else T32_STMDB)
                         else if load then T32_LDMIA else T32_STMIA)
            && f.rn == rn && f.regList == ListOf(mask)
  {
    hide DecodeT16, DecodeExclusive, DecodeShiftedData, DecodeControl, Halves, ListOf;
    var first: nat :=
      (if down then 0xE900 else 0xE880) + (if writeBack then 0x20 else 0) + (if load then 0x10 else 0) + rn;
    assert first / 0x10 == (if down then 0xE90 else 0xE88) + (if writeBack then 2 else 0) + if load then 1 else 0;
    HalvesSplit(first, mask);
  }

  lemma ClrexDecodes()
    ensures Decode(CLREX_WORD).typ == T32_CLREX
  {
    hide DecodeT32, Decode;
    assert Halves(0xF3BF, 0x8F2F) == CLREX_WORD;
    DecodeHalves(0xF3BF, 0x8F2F);
    ClrexHalves(0xF3BF, 0x8F2F);
  }

  lemma ClrexHalves(first: nat, second: nat)
    requires first == 0xF3BF && second == 0x8F2F
    ensures first / 0x800 == 0x1E && DecodeT32(first, second).typ == T32_CLREX
  {
    ClrexBits(first, second);
    ControlReached(first, second);
    hide BranchImm, CondBranchImm, DecodeT32;
  }

  lemma ClrexBits(first: nat, second: nat)
    requires first == 0xF3BF && second == 0x8F2F
    ensures first / 0x800 == 0x1E && first / 0x800 % 4 == 2 && first / 0x80 % 8 == 7
    ensures second / 0x8000 == 1 && second / 0x1000 % 8 == 0
  {
  }

  lemma BitIs(l: set<nat>, i: nat)
    ensures Bit(l, i) == if i in l then 1 else 0
  {
  }

  lemma HalvesSplit(first: nat, second: nat)
    requires first < 0x1_0000 && second < 0x1_0000
    ensures Halves(first, second) % 0x1_0000 == first && Halves(first, second) / 0x1_0000 == second
  {
  }

  predicate WideInRange(w: Wide) { w.s < 2 && w.j1 < 2 && w.j2 < 2 && w.imm10 < 0x400 && w.imm11 < 0x800 }

  lemma WideFirstBits(w: Wide)
    requires WideInRange(w)
    ensures var f := WideFirst(w);
            f < 0x1_0000 && f / 0x800 == 0x1E && f / 0x400 % 2 == w.s && f % 0x400 == w.imm10
  {
    assert WideFirst(w) / 0x400 == 0x3C + w.s;
  }

  lemma WideSecondBits(w: Wide, link: bool)
    requires WideInRange(w)
    ensures var s := WideSecond(w, link);
            && s < 0x1_0000 && s / 0x8000 == 1 && s / 0x1000 % 8 == (if link then 5 else 1) + 2 * w.j1
            && s / 0x2000 % 2 == w.j1 && s / 0x800 % 2 == w.j2 && s % 0x800 == w.imm11
  {
    var s := WideSecond(w, link);
    assert s / 0x1000 == (if link then 0xD else 0x9) + 2 * w.j1;
    assert s / 0x2000 == (if link then 6 else 4) + w.j1;
    assert s / 0x800 == (if link then 0x1A else 0x12) + 4 * w.j1 + w.j2;
  }

  lemma WideQuotients(u: nat)
    ensures u / 0x80_0000 == 2 * (u / 0x100_0000) + u / 0x80_0000 % 2
    ensures u / 0x40_0000 == 2 * (u / 0x80_0000) + u / 0x40_0000 % 2
    ensures u / 0x1000 == 0x400 * (u / 0x40_0000) + u / 0x1000 % 0x400
    ensures u / 2 == 0x800 * (u / 0x1000) + u / 2 % 0x800
  {
  }

  lemma WideValue(off: int)
    requires WideOffset(off)
    ensures var w := WideFields(off);
            var i1, i2 := if w.j1 == w.s then 1 else 0, if w.j2 == w.s then 1 else 0;
            w.s * 0x100_0000 + i1 * 0x80_0000 + i2 * 0x40_0000 + w.imm10 * 0x1000 + w.imm11 * 2
            == if off < 0 then off + 0x200_0000 else off
  {
    var u: nat := if off < 0 then off + 0x200_0000 else off;
    WideQuotients(u);
    var q24, q23, q22, q12, q1 := u / 0x100_0000, u / 0x80_0000, u / 0x40_0000, u / 0x1000, u / 2;
    assert u == 2 * q1;
  }

  /** Assembled from its halfwords, a 32-bit branch reaches the 32-bit decoder. */
  lemma DecodeHalves(first: nat, second: nat)
    requires first < 0x1_0000 && second < 0x1_0000 && first / 0x800 == 0x1E
    ensures Decode(Halves(first, second)) == DecodeT32(first, second)
  {
    hide DecodeT32;
    HalvesSplit(first, second);
  }

  lemma SignExtendWraps(v: nat, size: nat, x: int)
    requires v < size && 0 < size < TWO32 && size % 2 == 0
    requires -(size / 2) <= x < size / 2 && v == if x < 0 then x + size else x
    ensures SignExtend(v, size) == Wrap(x)
  {
  }

  lemma {:induction false} BranchImmOf(off: int, link: bool)
    requires WideOffset(off)
    ensures BranchImm(WideFirst(WideFields(off)), WideSecond(WideFields(off), link)) == Wrap(off)
  {
    hide WideFirst, WideSecond, WideFields, Wrap, SignExtend;
    var w := WideFields(off);
    WideFirstBits(w);
    WideSecondBits(w, link);
    WideValue(off);
    SignExtendWraps(if off < 0 then off + 0x200_0000 else off, 0x200_0000, off);
  }

  /** BL and B.W decode to the offset they were encoded from. */
  lemma {:induction false} WideBranchDecodes(off: int, link: bool)
    requires WideOffset(off)
    ensures var f := Decode(WideHalves(off, link));
            && f.typ == (if link then T32_BL else T32_B) && f.imm == Wrap(off) && f.aluOp == (if link then 1 else 0)
            && f.opcode % 0x1_0000 / 0x400 != 0x11
  {
    hide WideFirst, WideSecond, Halves, WideFields, BranchImm, Decode, Wrap, DecodeT32;
    var w := WideFields(off);
    var first, second := WideFirst(w), WideSecond(w, link);
    WideFirstBits(w);
    WideSecondBits(w, link);
    BranchImmOf(off, link);
    DecodeHalves(first, second);
    WideHalvesDecode(first, second, w.j1, link);
    LowHalfOf(first, second);
  }

  lemma WideHalvesDecode(first: nat, second: nat, j1: nat, link: bool)
    requires first < 0x1_0000 && second < 0x1_0000 && j1 < 2
    requires first / 0x800 == 0x1E && second / 0x8000 == 1
    requires second / 0x1000 % 8 == (if link then 5 else 1) + 2 * j1
    ensures var f := DecodeT32(first, second);
            && f.typ == (if link then T32_BL else T32_B) && f.imm == BranchImm(first, second)
            && f.aluOp == (if link then 1 else 0) && f.opcode == first * 0x1_0000 + second
  {
    hide BranchImm, CondBranchImm;
    ControlReached(first, second);
    hide DecodeT32;
  }

  lemma ControlReached(first: nat, second: nat)
    requires first < 0x1_0000 && second < 0x1_0000 && first / 0x800 == 0x1E && second / 0x8000 == 1
    ensures DecodeT32(first, second) == DecodeControl(first, second)
  {
    hide DecodeControl, DecodeMultiple, DecodeExclusive, DecodeShiftedData;
  }

  lemma LowHalfOf(first: nat, second: nat)
    requires first < 0x1_0000 && 0x8000 <= second < 0x1_0000
    ensures (first * 0x1_0000 + second) % 0x1_0000 / 0x400 != 0x11
  {
  }

  lemma BxDecodes(rm: nat)
    requires rm < 16
    ensures var f := Decode(EncodeBx(rm));
            f.typ == T16_BX && f.rm == rm && f.aluOp == 3 && f.opcode == EncodeBx(rm)
  {
    hide SignExtend, BitsOf, DecodeData, DecodeT32, EncodeBx;
    BxBits(rm);
  }

  lemma BxBits(rm: nat)
    requires rm < 16
    ensures var i := EncodeBx(rm);
            && i < 0x1_0000 && i / 0x80 == 0x8E && i / 0x100 == 0x47 && i / 0x400 == 0x11 && i / 0x800 == 8
            && i % 8 == 0 && i / 8 % 8 == rm % 8 && i / 0x40 % 2 == rm / 8
  {
    var i := EncodeBx(rm);
    assert i / 8 == 0x8E0 + rm && i / 0x40 == 0x11C + rm / 8;
  }

  lemma BlxDecodes(rm: nat)
    requires rm < 16
    ensures var f := Decode(EncodeBlx(rm));
            f.typ == T16_BLX && f.rm == rm && f.aluOp == 3 && f.opcode == EncodeBlx(rm)
  {
    hide SignExtend, BitsOf, DecodeData, DecodeT32, EncodeBlx;
    BlxBits(rm);
  }

  lemma BlxBits(rm: nat)
    requires rm < 16
    ensures var i := EncodeBlx(rm);
            && i < 0x1_0000 && i / 0x80 == 0x8F && i / 0x100 == 0x47 && i / 0x400 == 0x11 && i / 0x800 == 8
            && i % 8 == 0 && i / 8 % 8 == rm % 8 && i / 0x40 % 2 == rm / 8
  {
    var i := EncodeBlx(rm);
    assert i / 8 == 0x8F0 + rm && i / 0x40 == 0x11E + rm / 8;
  }

  lemma ShortBranchDecodes(off: int)
    requires -0x800 <= off < 0x800 && off % 2 == 0
    ensures var f := Decode(EncodeB(off));
            f.typ == T16_B && f.imm == Wrap(off) && f.aluOp == 0 && f.opcode == EncodeB(off)
  {
    hide SignExtend, Wrap, DecodeData, DecodeT32, BitsOf;
    var v: nat := if off < 0 then off + 0x1000 else off;
    var i: nat := 0xE000 + v / 2;
    assert i % 0x800 == v / 2 && i / 0x800 == 0x1C;
    ShortBits(i);
    assert v / 2 * 2 == v;
    SignExtendWraps(v, 0x1000, off);
  }

  lemma {:induction false} ShortCondBranchDecodes(cond: nat, off: int)
    requires cond < 14 && -0x100 <= off < 0x100 && off % 2 == 0
    ensures var f := Decode(EncodeBCond(cond, off));
            && f.typ == T16_B_COND && f.cond == cond && f.imm == Wrap(off)
            && f.aluOp == 0 && f.opcode == EncodeBCond(cond, off)
  {
    hide SignExtend, Wrap, DecodeData, DecodeT32, BitsOf, EncodeBCond, Is32Bit;
    var v: nat := if off < 0 then off + 0x200 else off;
    CondBits(cond, off);
    ShortBits(EncodeBCond(cond, off));
    SignExtendWraps(v, 0x200, off);
  }

  lemma CondBits(cond: nat, off: int)
    requires cond < 14 && -0x100 <= off < 0x100 && off % 2 == 0
    ensures var i := EncodeBCond(cond, off);
            && 0xD000 <= i < 0xDE00 && i / 0x100 == 0xD0 + cond && i / 0x1000 == 0xD && i / 0x100 % 16 == cond
            && i % 0x100 * 2 == if off < 0 then off + 0x200 else off
  {
    var v: nat := if off < 0 then off + 0x200 else off;
    assert EncodeBCond(cond, off) == 0x100 * (0xD0 + cond) + v / 2;
  }

  /** A halfword from 0xD000 to 0xE7FF is one of the two short branch forms. */
  lemma ShortBits(i: nat)
    requires 0xD000 <= i < 0xE800
    ensures i % 0x1_0000 == i && i / 0x400 != 0x11 && !Is32Bit(i)
    ensures i / 0x1000 == 0xD <==> i < 0xE000
    ensures i / 0x800 == 0x1C <==> i >= 0xE000
  {
  }

  // --- B<cond>.W ---

  lemma NarrowQuotients(u: nat)
    ensures u / 0x8_0000 == 2 * (u / 0x10_0000) + u / 0x8_0000 % 2
    ensures u / 0x4_0000 == 2 * (u / 0x8_0000) + u / 0x4_0000 % 2
    ensures u / 0x1000 == 0x40 * (u / 0x4_0000) + u / 0x1000 % 0x40
    ensures u / 2 == 0x800 * (u / 0x1000) + u / 2 % 0x800
  {
  }

  lemma NarrowValue(off: int)
    requires CondOffset(off)
    ensures var w := NarrowFields(off);
            off == w.s * 0x10_0000 + w.j2 * 0x8_0000 + w.j1 * 0x4_0000 + w.imm6 * 0x1000 + w.imm11 * 2 - w.s * 0x20_0000
  {
    var u: nat := if off < 0 then off + 0x20_0000 else off;
    NarrowQuotients(u);
    var q20, q19, q18, q12, q1 := u / 0x10_0000, u / 0x8_0000, u / 0x4_0000, u / 0x1000, u / 2;
    assert u == 2 * q1;
  }

  lemma NarrowFirstBits(cond: nat, w: Narrow)
    requires NarrowInRange(w) && cond < 14
    ensures var f := NarrowFirst(cond, w);
            && f < 0x1_0000 && f / 0x800 == 0x1E && f / 0x400 % 2 == w.s && f / 0x80 % 8 != 7
            && f / 0x40 % 16 == cond && f % 0x40 == w.imm6
  {
    var f := NarrowFirst(cond, w);
    assert f / 0x40 == 0x3C0 + w.s * 0x10 + cond;
    assert f / 0x80 == 0x1E0 + w.s * 8 + cond / 2;
    assert f / 0x400 == 0x3C + w.s;
  }

  lemma NarrowSecondBits(w: Narrow)
    requires NarrowInRange(w)
    ensures var s := NarrowSecond(w);
            && 0x8000 <= s < 0x1_0000 && s / 0x8000 == 1 && s / 0x1000 % 8 == 2 * w.j1
            && s / 0x2000 % 2 == w.j1 && s / 0x800 % 2 == w.j2 && s % 0x800 == w.imm11
  {
    var s := NarrowSecond(w);
    assert s / 0x1000 == 8 + 2 * w.j1;
    assert s / 0x2000 == 4 + w.j1;
    assert s / 0x800 == 0x10 + 4 * w.j1 + w.j2;
  }

  lemma CondImmOf(cond: nat, off: int)
    requires cond < 14 && CondOffset(off)
    ensures CondBranchImm(NarrowFirst(cond, NarrowFields(off)), NarrowSecond(NarrowFields(off))) == Wrap(off)
            <==> -0x800 <= off < 0x1000
  {
    hide NarrowFirst, NarrowSecond, NarrowFields, SignExtend, OverlappedFields, Wrap;
    var w := NarrowFields(off);
    NarrowFirstBits(cond, w);
    NarrowSecondBits(w);
    NarrowValue(off);
    OverlapValue(w.s, w.j2, w.j1, w.imm6, w.imm11, off);
  }

  /** The overlap and the missing bit cost B<cond>.W most of its range: the offset decodes to
      itself exactly when it lies between -2048 and 4094. */
  lemma {:induction false} CondWideBranchDecodes(cond: nat, off: int)
    requires cond < 14 && CondOffset(off)
    ensures var f := Decode(EncodeBCondWide(cond, off));
            && f.typ == T32_B_COND && f.cond == cond && f.aluOp == 0 && f.opcode % 0x1_0000 / 0x400 != 0x11
            && (f.imm == Wrap(off) <==> -0x800 <= off < 0x1000)
  {
    hide Decode, Halves, CondBranchImm, NarrowFirst, NarrowSecond, NarrowFields, Wrap, DecodeT32;
    var w := NarrowFields(off);
    var first, second := NarrowFirst(cond, w), NarrowSecond(w);
    NarrowFirstBits(cond, w);
    NarrowSecondBits(w);
    CondImmOf(cond, off);
    CondDecodeShape(first, second);
    DecodeHalves(first, second);
    LowHalfOf(first, second);
  }

  lemma CondDecodeShape(first: nat, second: nat)
    requires first < 0x1_0000 && second < 0x1_0000
    requires first / 0x800 == 0x1E && first / 0x80 % 8 != 7
    requires second / 0x8000 == 1 && second / 0x1000 % 8 / 4 == 0 && second / 0x1000 % 8 % 2 == 0
    ensures DecodeT32(first, second) ==
            NO_FIELDS.(opcode := first * 0x1_0000 + second, typ := T32_B_COND, cond := first / 0x40 % 16,
                       imm := CondBranchImm(first, second))
  {
    hide CondBranchImm;
  }

  lemma OverlapValue(s: nat, j2: nat, j1: nat, imm6: nat, imm11: nat, off: int)
    requires s < 2 && j1 < 2 && j2 < 2 && imm6 < 0x40 && imm11 < 0x800
    requires off == s * 0x10_0000 + j2 * 0x8_0000 + j1 * 0x4_0000 + imm6 * 0x1000 + imm11 * 2 - s * 0x20_0000
    ensures var v := s * 0x8_0000 + j2 * 0x4_0000 + j1 * 0x2_0000 + OverlappedFields(imm6, imm11);
            SignExtend(v, 0x10_0000) == Wrap(off) <==> -0x800 <= off < 0x1000
  {
    var v := s * 0x8_0000 + j2 * 0x4_0000 + j1 * 0x2_0000 + OverlappedFields(imm6, imm11);
    assert SignExtend(v, 0x10_0000) == Wrap(v - s * 0x10_0000);
    assert Wrap(v - s * 0x10_0000) == Wrap(off) <==> v - s * 0x10_0000 == off;
  }
}
