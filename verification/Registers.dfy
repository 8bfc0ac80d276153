/** The register file: general registers, banked stack pointers, xPSR fields and
    the IT-block state (src/cpu/Registers.h, src/cpu/Registers.cpp). */
module Registers {
  import opened Words

  const GPR_COUNT := 13

  type GprFile = s: seq<word> | |s| == GPR_COUNT witness seq(GPR_COUNT, _ => 0)

  /** IT state: condition, raw mask, block length, index of the current slot and the
      condition result saved by the IT instruction. */
  datatype ItState = ItState(firstcond: nat, mask: nat, len: nat, index: nat, condResult: bool)

  datatype Regs = Regs(gpr: GprFile, lr: word, pc: word, psr: word, control: word,
                       msp: word, psp: word, it: ItState)

  // --- xPSR ---

  type nibble = x: int | 0 <= x < 16

  /** Bits 31-28 of xPSR: N, Z, C, V. */
  function TopNibble(psr: word): nibble { psr / 0x1000_0000 }

  /** The bits of xPSR below the four condition flags. */
  function BelowFlags(psr: word): word { psr % 0x1000_0000 }

  function WithTopNibble(psr: word, t: nibble): (r: word)
    ensures TopNibble(r) == t && BelowFlags(r) == BelowFlags(psr)
  {
    t * 0x1000_0000 + BelowFlags(psr)
  }

  predicate NibbleN(t: nibble) { t >= 8 }
  predicate NibbleZ(t: nibble) { t % 8 >= 4 }
  predicate NibbleC(t: nibble) { t % 4 >= 2 }
  predicate NibbleV(t: nibble) { t % 2 == 1 }

  predicate FlagN(psr: word) { NibbleN(TopNibble(psr)) }
  predicate FlagZ(psr: word) { NibbleZ(TopNibble(psr)) }
  predicate FlagC(psr: word) { NibbleC(TopNibble(psr)) }
  predicate FlagV(psr: word) { NibbleV(TopNibble(psr)) }

  function WithNibbleN(t: nibble, b: bool): (r: nibble)
    ensures NibbleN(r) == b && NibbleZ(r) == NibbleZ(t) && NibbleC(r) == NibbleC(t) && NibbleV(r) == NibbleV(t)
  {
    t % 8 + if b then 8 else 0
  }

  function SetN(psr: word, b: bool): (r: word)
    ensures FlagN(r) == b && FlagZ(r) == FlagZ(psr) && FlagC(r) == FlagC(psr) && FlagV(r) == FlagV(psr)
    ensures BelowFlags(r) == BelowFlags(psr)
  {
    WithTopNibble(psr, WithNibbleN(TopNibble(psr), b))
  }

  function WithNibbleZ(t: nibble, b: bool): (r: nibble)
    ensures NibbleN(r) == NibbleN(t) && NibbleZ(r) == b && NibbleC(r) == NibbleC(t) && NibbleV(r) == NibbleV(t)
  {
    t / 8 * 8 + t % 4 + if b then 4 else 0
  }

  function SetZ(psr: word, b: bool): (r: word)
    ensures FlagN(r) == FlagN(psr) && FlagZ(r) == b && FlagC(r) == FlagC(psr) && FlagV(r) == FlagV(psr)
    ensures BelowFlags(r) == BelowFlags(psr)
  {
    WithTopNibble(psr, WithNibbleZ(TopNibble(psr), b))
  }

  function WithNibbleC(t: nibble, b: bool): (r: nibble)
    ensures NibbleN(r) == NibbleN(t) && NibbleZ(r) == NibbleZ(t) && NibbleC(r) == b && NibbleV(r) == NibbleV(t)
  {
    t / 4 * 4 + t % 2 + if b then 2 else 0
  }

  function SetC(psr: word, b: bool): (r: word)
    ensures FlagN(r) == FlagN(psr) && FlagZ(r) == FlagZ(psr) && FlagC(r) == b && FlagV(r) == FlagV(psr)
    ensures BelowFlags(r) == BelowFlags(psr)
  {
    WithTopNibble(psr, WithNibbleC(TopNibble(psr), b))
  }

  function WithNibbleV(t: nibble, b: bool): (r: nibble)
    ensures NibbleN(r) == NibbleN(t) && NibbleZ(r) == NibbleZ(t) && NibbleC(r) == NibbleC(t) && NibbleV(r) == b
  {
    t / 2 * 2 + if b then 1 else 0
  }

  function SetV(psr: word, b: bool): (r: word)
    ensures FlagN(r) == FlagN(psr) && FlagZ(r) == FlagZ(psr) && FlagC(r) == FlagC(psr) && FlagV(r) == b
    ensures BelowFlags(r) == BelowFlags(psr)
  {
    WithTopNibble(psr, WithNibbleV(TopNibble(psr), b))
  }

  /** N, Z, C and V are bits 31 to 28. */
  lemma FlagsAreBits(psr: word)
    ensures FlagN(psr) <==> psr / 0x8000_0000 % 2 == 1
    ensures FlagZ(psr) <==> psr / 0x4000_0000 % 2 == 1
    ensures FlagC(psr) <==> psr / 0x2000_0000 % 2 == 1
    ensures FlagV(psr) <==> psr / 0x1000_0000 % 2 == 1
  {
    var t := TopNibble(psr);
    assert psr / 0x8000_0000 == t / 8 && psr / 0x4000_0000 == t / 4 && psr / 0x2000_0000 == t / 2;
  }

  /** IPSR, bits 8-0: the number of the exception being handled, 0 in Thread mode. */
  function Ipsr(psr: word): word { psr % 0x200 }

  function SetIpsr(psr: word, n: word): word { psr - psr % 0x200 + n % 0x200 }

  predicate InException(r: Regs) { Ipsr(r.psr) != 0 }

  // --- CONTROL and the banked stack pointer ---

  predicate Spsel(control: word) { (control / 2) % 2 == 1 }

  /** `control &= ~2`, through `set_control`. */
  function ClearSpsel(control: word): (r: word)
    ensures !Spsel(r) && r < 4 && r % 2 == control % 2
  {
    control % 2
  }

  /** `control |= 2`, through `set_control`. */
  function RaiseSpsel(control: word): (r: word)
    ensures Spsel(r) && r < 4 && r % 2 == control % 2
  {
    control % 2 + 2
  }

  function CurrentSp(r: Regs): word {
    if InException(r) then r.msp else if Spsel(r.control) then r.psp else r.msp
  }

  function SetCurrentSp(r: Regs, sp: word): Regs {
    if InException(r) then r.(msp := sp)
    else if Spsel(r.control) then r.(psp := sp)
    else r.(msp := sp)
  }

  // --- register access by number; numbers above 15 read as 0 and ignore writes ---

  function ReadReg(r: Regs, i: nat): word {
    if i < 13 then r.gpr[i]
    else if i == 13 then CurrentSp(r)
    else if i == 14 then r.lr
    else if i == 15 then r.pc
    else 0
  }

  function WriteReg(r: Regs, i: nat, v: word): Regs {
    if i < 13 then r.(gpr := r.gpr[i := v])
    else if i == 13 then SetCurrentSp(r, v)
    else if i == 14 then r.(lr := v)
    else if i == 15 then r.(pc := ClearBit0(v))
    else r
  }

  /** What was written to a register reads back, PC without its bit 0; the other fifteen registers and
      xPSR stay, and numbers above 15 name nothing. */
  lemma WrittenReadsBack(r: Regs, i: nat, v: word)
    ensures var q := WriteReg(r, i, v);
            && (i < 15 ==> ReadReg(q, i) == v) && (i == 15 ==> ReadReg(q, 15) == v - v % 2)
            && (forall j :: 0 <= j < 16 && j != i ==> ReadReg(q, j) == ReadReg(r, j))
            && (i > 15 ==> q == r) && ReadReg(r, 16 + i) == 0
            && q.psr == r.psr && q.control == r.control && q.it == r.it
  {
  }

  // --- IT blocks ---

  const NO_IT := ItState(0, 0, 0, 0, false)

  predicate InItBlock(it: ItState) { it.len > 0 && it.index < it.len }

  /** Block length by mask; the masks 0x5, 0x9, 0xA and 0xB are missing from the
      source's table and give 0. */
  function ItLength(mask: nat): nat {
    match mask
    case 0x8 => 1
    case 0xC => 2
    case 0xE => 3
    case 0xF => 4
    case 0xD => 4
    case 0x4 => 2
    case 0x6 => 3
    case 0x7 => 4
    case 0x2 => 3
    case 0x3 => 4
    case 0x1 => 4
    case _ => 0
  }

  function StartIt(it: ItState, cond: nat, mask: nat): ItState {
    ItState(cond, mask, ItLength(mask), 0, it.condResult)
  }

  function ClearIt(it: ItState): ItState {
    ItState(0, 0, 0, 0, it.condResult)
  }

  function AdvanceIt(it: ItState): ItState {
    if it.len == 0 then it
    else if it.index + 1 >= it.len then ClearIt(it)
    else it.(index := it.index + 1)
  }

  /** Whether the current slot is a Then slot: slot k > 0 compares mask bit 4-k with
      bit 0 of the condition. */
  predicate CurrentItThen(it: ItState) {
    if it.len == 0 || it.index >= it.len || it.index == 0 then true
    else if it.index > 3 then true
    else (it.mask / Pow2(4 - it.index)) % 2 == it.firstcond % 2
  }

  /** The state after construction or `reset`: Thread mode on MSP, Thumb bit set. */
  const RESET_REGS := Regs(seq(GPR_COUNT, _ => 0), 0, 0, 0x0100_0000, 0, 0x2000_1000, 0, NO_IT)

  /** Reset leaves the core in Thread mode on the main stack, with the Thumb bit set, every other bit of
      xPSR and every register but SP clear, and no IT block. */
  lemma ResetState()
    ensures var r := RESET_REGS;
            && r.psr % 0x200 == 0 && r.psr / 0x100_0000 % 2 == 1 && r.psr == 0x100_0000
            && CurrentSp(r) == r.msp == 0x2000_1000 && r.psp == 0 && r.control == 0
            && r.pc == 0 && r.lr == 0 && (forall i :: 0 <= i < 13 ==> r.gpr[i] == 0) && !InItBlock(r.it)
  {
  }

  class RegisterFile {
    const gpr: array<word>
    var lr: word
    var pc: word
    var psr: word
    var control: word
    var msp: word
    var psp: word
    var it: ItState

    ghost predicate Valid() { gpr.Length == GPR_COUNT }

    ghost function Footprint(): set<object> { {this, gpr} }

    ghost function State(): Regs
      reads this, gpr
      requires Valid()
    {
      Regs(gpr[..], lr, pc, psr, control, msp, psp, it)
    }

    /** The source leaves the saved IT condition result uninitialised: whatever `garbage` is. */
    constructor (garbage: bool)
      ensures Valid() && fresh(gpr) && State() == RESET_REGS.(it := NO_IT.(condResult := garbage))
    {
      gpr := new word[GPR_COUNT](_ => 0);
      lr, pc, psr, control := 0, 0, 0x0100_0000, 0;
      msp, psp, it := 0x2000_1000, 0, NO_IT.(condResult := garbage);
      new;
      assert gpr[..] == seq(GPR_COUNT, _ => 0);
    }

    /** `Registers::reset`; the saved IT condition result is not touched. */
    method Reset()
      requires Valid()
      modifies Footprint()
      ensures State() == RESET_REGS.(it := NO_IT.(condResult := old(it.condResult)))
    {
      for i := 0 to GPR_COUNT
        invariant forall k :: 0 <= k < i ==> gpr[k] == 0
        invariant it == old(it)
      {
        gpr[i] := 0;
      }
      lr, pc, psr, control := 0, 0, 0x0100_0000, 0;
      msp, psp, it := 0x2000_1000, 0, ClearIt(it);
      assert gpr[..] == seq(GPR_COUNT, _ => 0);
    }

    method ReadRegister(i: nat) returns (v: word)
      requires Valid()
      ensures v == ReadReg(State(), i)
    {
      if i < 13 {
        v := gpr[i];
      } else if i == 13 {
        v := GetCurrentSp();
      } else if i == 14 {
        v := lr;
      } else if i == 15 {
        v := pc;
      } else {
        v := 0;
      }
    }

    method WriteRegister(i: nat, v: word)
      requires Valid()
      modifies Footprint()
      ensures State() == WriteReg(old(State()), i, v)
    {
      if i < 13 {
        gpr[i] := v;
        assert gpr[..] == old(gpr[..])[i := v];
      } else if i == 13 {
        SetSp(v);
      } else if i == 14 {
        lr := v;
      } else if i == 15 {
        pc := ClearBit0(v);
      }
    }

    method GetCurrentSp() returns (sp: word)
      requires Valid()
      ensures sp == CurrentSp(State())
    {
      if Ipsr(psr) != 0 {
        return msp;
      }
      sp := if Spsel(control) then psp else msp;
    }

    method SetSp(sp: word)
      requires Valid()
      modifies this`msp, this`psp
      ensures State() == SetCurrentSp(old(State()), sp)
    {
      if Ipsr(psr) != 0 {
        msp := sp;
        return;
      }
      if Spsel(control) {
        psp := sp;
      } else {
        msp := sp;
      }
    }

    method BeginIt(cond: nat, mask: nat)
      requires Valid()
      modifies this`it
      ensures State() == old(State()).(it := StartIt(old(it), cond, mask))
    {
      it := it.(mask := mask, firstcond := cond);
      match mask {
        case 0x8 => it := it.(len := 1);
        case 0xC => it := it.(len := 2);
        case 0xE => it := it.(len := 3);
        case 0xF => it := it.(len := 4);
        case 0xD => it := it.(len := 4);
        case 0x4 => it := it.(len := 2);
        case 0x6 => it := it.(len := 3);
        case 0x7 => it := it.(len := 4);
        case 0x2 => it := it.(len := 3);
        case 0x3 => it := it.(len := 4);
        case 0x1 => it := it.(len := 4);
        case _ => it := it.(len := 0);
      }
      it := it.(index := 0);
    }

    method AdvanceItState()
      requires Valid()
      modifies this`it
      ensures State() == old(State()).(it := AdvanceIt(old(it)))
    {
      if it.len == 0 {
        return;
      }
      it := it.(index := it.index + 1);
      if it.index >= it.len {
        it := it.(firstcond := 0, mask := 0, len := 0, index := 0);
      }
    }
  }
}
