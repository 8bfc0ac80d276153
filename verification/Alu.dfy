/** Flag arithmetic: the adders and subtractors of src/cpu/Execute.cpp, condition codes,
    and multi-word arithmetic built from them. The reference is AddWithCarry, section A2.2.1
    of the ARMv7-M Architecture Reference Manual. */
module Alu {
  import opened Words
  import opened Registers

  datatype AluOut = AluOut(result: word, carry: bool, overflow: bool)

  function Bit(b: bool): nat { if b then 1 else 0 }

  // --- as the code computes them ---

  /** `((a ^ r) & (b ^ r)) >> 31` */
  predicate AddOverflow(a: word, b: word, r: word) {
    Negative(a) != Negative(r) && Negative(b) != Negative(r)
  }

  /** `((a ^ b) & (a ^ r)) >> 31` */
  predicate SubOverflow(a: word, b: word, r: word) {
    Negative(a) != Negative(b) && Negative(a) != Negative(r)
  }

  function Adds(a: word, b: word): AluOut {
    var r := Wrap(a + b);
    AluOut(r, r < a, AddOverflow(a, b, r))
  }

  function Subs(a: word, b: word): AluOut {
    var r := Wrap(a - b);
    AluOut(r, a >= b, SubOverflow(a, b, r))
  }

  function Adcs(a: word, b: word, c: bool): AluOut {
    var r := Wrap(a + b + Bit(c));
    AluOut(r, r < a || (r == a && c), AddOverflow(a, b, r))
  }

  function SbcsT16(a: word, b: word, c: bool): AluOut {
    var r := Wrap(a - b - (1 - Bit(c)));
    AluOut(r, a >= b && a >= Wrap(b + (1 - Bit(c))), SubOverflow(a, b, r))
  }

  function SbcsT32(a: word, b: word, c: bool): AluOut {
    var r := Wrap(a - b - (1 - Bit(c)));
    AluOut(r, a >= b && (c || a > b), SubOverflow(a, b, r))
  }

  // --- the architecture's adder ---

  function Not(w: word): word { 0xFFFF_FFFF - w }

  function AddWithCarry(x: word, y: word, c: bool): AluOut {
    var unsignedSum := x + y + Bit(c);
    var signedSum := Signed(x) + Signed(y) + Bit(c);
    var r := Wrap(unsignedSum);
    AluOut(r, r != unsignedSum, Signed(r) != signedSum)
  }

  lemma AddsIsAddWithCarry(a: word, b: word)
    ensures Adds(a, b) == AddWithCarry(a, b, false)
  {
  }

  lemma AdcsIsAddWithCarry(a: word, b: word, c: bool)
    ensures Adcs(a, b, c) == AddWithCarry(a, b, c)
  {
  }

  lemma SubsIsAddWithCarry(a: word, b: word)
    ensures Subs(a, b) == AddWithCarry(a, Not(b), true)
  {
  }

  lemma SbcsT32IsAddWithCarry(a: word, b: word, c: bool)
    ensures SbcsT32(a, b, c) == AddWithCarry(a, Not(b), c)
  {
  }

  /** The 16-bit SBC gets the carry wrong on one input. */
  predicate SbcT16Fails(a: word, b: word, c: bool) {
    a == 0xFFFF_FFFF && b == 0xFFFF_FFFF && !c
  }

  lemma SbcsT16IsAddWithCarry(a: word, b: word, c: bool)
    ensures SbcsT16(a, b, c) == AddWithCarry(a, Not(b), c) <==> !SbcT16Fails(a, b, c)
    ensures SbcsT16(a, b, c).result == AddWithCarry(a, Not(b), c).result
    ensures SbcsT16(a, b, c).overflow == AddWithCarry(a, Not(b), c).overflow
  {
  }

  // --- flags and conditions ---

  function UpdateFlags(psr: word, o: AluOut): (p: word)
    ensures FlagN(p) == Negative(o.result) && FlagZ(p) == (o.result == 0)
    ensures FlagC(p) == o.carry && FlagV(p) == o.overflow
    ensures BelowFlags(p) == BelowFlags(psr)
  {
    SetV(SetC(SetZ(SetN(psr, Negative(o.result)), o.result == 0), o.carry), o.overflow)
  }

  predicate CheckCondition(psr: word, cond: nat) {
    var n, z, c, v := FlagN(psr), FlagZ(psr), FlagC(psr), FlagV(psr);
    match cond
    case 0x0 => z
    case 0x1 => !z
    case 0x2 => c
    case 0x3 => !c
    case 0x4 => n
    case 0x5 => !n
    case 0x6 => v
    case 0x7 => !v
    case 0x8 => c && !z
    case 0x9 => !c || z
    case 0xA => n == v
    case 0xB => n != v
    case 0xC => !z && n == v
    case 0xD => z || n != v
    case 0xE => true
    case 0xF => false
    case _ => true
  }

  /** Flipping bit 0 of a condition negates it, for all sixteen codes. */
  lemma ConditionPairs(psr: word, cond: nat)
    requires cond < 16
    ensures CheckCondition(psr, if cond % 2 == 0 then cond + 1 else cond - 1) == !CheckCondition(psr, cond)
  {
    hide FlagN, FlagZ, FlagC, FlagV;
  }

  /** After CMP, each condition decides the comparison it is named for. */
  lemma {:induction false} ConditionsAfterCompare(psr: word, a: word, b: word)
    ensures var p := UpdateFlags(psr, Subs(a, b));
            && (CheckCondition(p, 0x0) <==> a == b)
            && (CheckCondition(p, 0x1) <==> a != b)
            && (CheckCondition(p, 0x2) <==> a >= b)
            && (CheckCondition(p, 0x3) <==> a < b)
            && (CheckCondition(p, 0x4) <==> Wrap(a - b) >= 0x8000_0000)
            && (CheckCondition(p, 0x5) <==> Wrap(a - b) < 0x8000_0000)
            && (CheckCondition(p, 0x7) <==> -0x8000_0000 <= Signed(a) - Signed(b) < 0x8000_0000)
            && (CheckCondition(p, 0x6) <==> !(-0x8000_0000 <= Signed(a) - Signed(b) < 0x8000_0000))
            && (CheckCondition(p, 0x8) <==> a > b)
            && (CheckCondition(p, 0x9) <==> a <= b)
            && (CheckCondition(p, 0xA) <==> Signed(a) >= Signed(b))
            && (CheckCondition(p, 0xB) <==> Signed(a) < Signed(b))
            && (CheckCondition(p, 0xC) <==> Signed(a) > Signed(b))
            && (CheckCondition(p, 0xD) <==> Signed(a) <= Signed(b))
            && CheckCondition(p, 0xE) && !CheckCondition(p, 0xF)
  {
    hide FlagN, FlagZ, FlagC, FlagV;
    CompareBySign(a, b);
  }

  lemma CompareBySign(a: word, b: word)
    ensures var o := Subs(a, b);
            && (o.result == 0 <==> a == b)
            && (Negative(o.result) == o.overflow <==> Signed(a) >= Signed(b))
            && (o.overflow <==> !(-0x8000_0000 <= Signed(a) - Signed(b) < 0x8000_0000))
  {
  }

  // --- multi-word arithmetic ---

  /** 2^(32 n) */
  function Base(n: nat): (b: nat)
    ensures b >= 1
  {
    if n == 0 then 1 else TWO32 * Base(n - 1)
  }

  /** Unsigned value of an n-word number, least significant word first. */
  function Value(ws: seq<word>): nat {
    if ws == [] then 0 else ws[0] + TWO32 * Value(ws[1..])
  }

  /** Two's-complement value. */
  function SignedValue(ws: seq<word>): int
    requires ws != []
  {
    if |ws| == 1 then Signed(ws[0]) else ws[0] + TWO32 * SignedValue(ws[1..])
  }

  datatype CarryOp = AdcStep | SbcT32Step | SbcT16Step

  function CarryStep(op: CarryOp, a: word, b: word, c: bool): AluOut {
    match op
    case AdcStep => Adcs(a, b, c)
    case SbcT32Step => SbcsT32(a, b, c)
    case SbcT16Step => SbcsT16(a, b, c)
  }

  /** One carry instruction per word, each taking C from xPSR and writing all flags back. */
  function CarryChain(op: CarryOp, psr: word, xs: seq<word>, ys: seq<word>): (r: (word, seq<word>))
    requires |xs| == |ys|
    ensures |r.1| == |xs|
    decreases |xs|
  {
    if xs == [] then (psr, [])
    else
      var o := CarryStep(op, xs[0], ys[0], FlagC(psr));
      var (p, rs) := CarryChain(op, UpdateFlags(psr, o), xs[1..], ys[1..]);
      (p, [o.result] + rs)
  }

  /** ADDS on the first word, then ADCS (or SUBS, then SBCS). */
  function WideOp(op: CarryOp, psr: word, xs: seq<word>, ys: seq<word>): (r: (word, seq<word>))
    requires |xs| == |ys| > 0
    ensures |r.1| == |xs|
  {
    var o := if op == AdcStep then Adds(xs[0], ys[0]) else Subs(xs[0], ys[0]);
    var (p, rs) := CarryChain(op, UpdateFlags(psr, o), xs[1..], ys[1..]);
    (p, [o.result] + rs)
  }

  function Carried(b: bool, n: nat): nat { if b then Base(n) else 0 }

  /** One addition step in numbers. */
  lemma AdcStepValue(a: word, b: word, c: bool)
    ensures var o := Adcs(a, b, c);
            o.result + TWO32 * Bit(o.carry) == a + b + Bit(c)
  {
  }

  /** C after an ADC chain is the carry out of the whole sum. */
  lemma {:induction false} AdcChainAdds(psr: word, xs: seq<word>, ys: seq<word>)
    requires |xs| == |ys|
    ensures var (p, rs) := CarryChain(AdcStep, psr, xs, ys);
            Value(rs) + Carried(FlagC(p), |xs|) == Value(xs) + Value(ys) + Bit(FlagC(psr))
    decreases |xs|
  {
    hide FlagN, FlagZ, FlagC, FlagV, Adcs;
    if xs != [] {
      var o := Adcs(xs[0], ys[0], FlagC(psr));
      AdcStepValue(xs[0], ys[0], FlagC(psr));
      AdcChainAdds(UpdateFlags(psr, o), xs[1..], ys[1..]);
      var (p, rs) := CarryChain(AdcStep, UpdateFlags(psr, o), xs[1..], ys[1..]);
      assert ([o.result] + rs)[1..] == rs;
    }
  }

  /** Whether a step meets the one input the 16-bit SBC gets wrong. */
  predicate BadStep(op: CarryOp, a: word, b: word, c: bool) {
    op == SbcT16Step && SbcT16Fails(a, b, c)
  }

  lemma SbcStepValue(op: CarryOp, a: word, b: word, c: bool)
    requires op != AdcStep
    ensures var o := CarryStep(op, a, b, c);
            o.result - TWO32 * Bit(!o.carry) == a - b - Bit(!c) + if BadStep(op, a, b, c) then TWO32 else 0
  {
  }

  predicate NoBadStep(op: CarryOp, psr: word, xs: seq<word>, ys: seq<word>)
    requires |xs| == |ys|
    decreases |xs|
  {
    xs == []
    || (!BadStep(op, xs[0], ys[0], FlagC(psr))
        && NoBadStep(op, UpdateFlags(psr, CarryStep(op, xs[0], ys[0], FlagC(psr))), xs[1..], ys[1..]))
  }

  /** By how much the lost borrows of bad steps make the result too large. */
  function Excess(op: CarryOp, psr: word, xs: seq<word>, ys: seq<word>): nat
    requires |xs| == |ys|
    decreases |xs|
  {
    if xs == [] then 0
    else
      (if BadStep(op, xs[0], ys[0], FlagC(psr)) then TWO32 else 0)
      + TWO32 * Excess(op, UpdateFlags(psr, CarryStep(op, xs[0], ys[0], FlagC(psr))), xs[1..], ys[1..])
  }

  lemma {:induction false} SbcChainWithExcess(op: CarryOp, psr: word, xs: seq<word>, ys: seq<word>)
    requires |xs| == |ys| && op != AdcStep
    ensures var (p, rs) := CarryChain(op, psr, xs, ys);
            Value(rs) - Carried(!FlagC(p), |xs|) == Value(xs) - Value(ys) - Bit(!FlagC(psr)) + Excess(op, psr, xs, ys)
    decreases |xs|
  {
    hide FlagN, FlagZ, FlagC, FlagV, CarryStep, BadStep, UpdateFlags;
    if xs != [] {
      var o := CarryStep(op, xs[0], ys[0], FlagC(psr));
      SbcStepValue(op, xs[0], ys[0], FlagC(psr));
      SbcChainWithExcess(op, UpdateFlags(psr, o), xs[1..], ys[1..]);
      var (p, rs) := CarryChain(op, UpdateFlags(psr, o), xs[1..], ys[1..]);
      assert ([o.result] + rs)[1..] == rs;
    }
  }

  /** C after an SBC chain says that the whole difference needed no borrow. The 32-bit form
      always achieves this, the 16-bit form exactly when no step meets its bad input. */
  lemma {:induction false} SbcChainSubtracts(op: CarryOp, psr: word, xs: seq<word>, ys: seq<word>)
    requires |xs| == |ys| && op != AdcStep
    ensures var (p, rs) := CarryChain(op, psr, xs, ys);
            Value(rs) - Carried(!FlagC(p), |xs|) == Value(xs) - Value(ys) - Bit(!FlagC(psr))
            <==> NoBadStep(op, psr, xs, ys)
  {
    SbcChainWithExcess(op, psr, xs, ys);
    NoExcessIff(op, psr, xs, ys);
  }

  lemma {:induction false} NoExcessIff(op: CarryOp, psr: word, xs: seq<word>, ys: seq<word>)
    requires |xs| == |ys|
    ensures Excess(op, psr, xs, ys) == 0 <==> NoBadStep(op, psr, xs, ys)
    decreases |xs|
  {
    hide FlagC, CarryStep, BadStep, UpdateFlags;
    if xs != [] {
      NoExcessIff(op, UpdateFlags(psr, CarryStep(op, xs[0], ys[0], FlagC(psr))), xs[1..], ys[1..]);
    }
  }

  lemma {:induction false} T32NeverBad(psr: word, xs: seq<word>, ys: seq<word>)
    requires |xs| == |ys|
    ensures NoBadStep(SbcT32Step, psr, xs, ys)
    decreases |xs|
  {
    if xs != [] {
      T32NeverBad(UpdateFlags(psr, SbcsT32(xs[0], ys[0], FlagC(psr))), xs[1..], ys[1..]);
    }
  }

  /** The signed result an n-word operation should have. */
  function SignedExact(op: CarryOp, c: bool, xs: seq<word>, ys: seq<word>): int
    requires |xs| == |ys| > 0
  {
    if op == AdcStep then SignedValue(xs) + SignedValue(ys) + Bit(c)
    else SignedValue(xs) - SignedValue(ys) - Bit(!c)
  }

  /** Peeling off the low words leaves the equality to the high words and the carry. */
  lemma SignedPeel(op: CarryOp, c: bool, xs: seq<word>, ys: seq<word>, r: word, rs: seq<word>, c1: bool)
    requires |xs| == |ys| == |rs| + 1 && rs != []
    requires op == AdcStep ==> r + TWO32 * Bit(c1) == xs[0] + ys[0] + Bit(c)
    requires op != AdcStep ==> r - TWO32 * Bit(!c1) == xs[0] - ys[0] - Bit(!c)
    ensures SignedValue([r] + rs) == SignedExact(op, c, xs, ys)
            <==> SignedValue(rs) == SignedExact(op, c1, xs[1..], ys[1..])
  {
    assert ([r] + rs)[1..] == rs;
  }

  /** V after the last step of a chain is overflow of the whole signed operation. */
  lemma {:induction false} ChainOverflow(op: CarryOp, psr: word, xs: seq<word>, ys: seq<word>)
    requires |xs| == |ys| > 0 && NoBadStep(op, psr, xs, ys)
    ensures var (p, rs) := CarryChain(op, psr, xs, ys);
            !FlagV(p) <==> SignedValue(rs) == SignedExact(op, FlagC(psr), xs, ys)
    decreases |xs|
  {
    hide FlagN, FlagZ, FlagC, FlagV, CarryStep, BadStep, Signed;
    var c := FlagC(psr);
    var o := CarryStep(op, xs[0], ys[0], c);
    var p1 := UpdateFlags(psr, o);
    var (p, rs) := CarryChain(op, p1, xs[1..], ys[1..]);
    StepOverflow(op, xs[0], ys[0], c);
    if |xs| == 1 {
      assert rs == [] && p == p1 && [o.result] + rs == [o.result];
    } else {
      hide SignedValue, SignedExact;
      ChainOverflow(op, p1, xs[1..], ys[1..]);
      SignedPeel(op, c, xs, ys, o.result, rs, o.carry);
    }
  }

  lemma AdcSignedStep(a: word, b: word, c: bool)
    ensures var o := Adcs(a, b, c);
            !o.overflow <==> Signed(o.result) == Signed(a) + Signed(b) + Bit(c)
  {
  }

  lemma SubOverflowMeaning(a: word, b: word, k: int)
    requires k == 0 || k == 1
    ensures SubOverflow(a, b, Wrap(a - b - k)) <==> Signed(Wrap(a - b - k)) != Signed(a) - Signed(b) - k
  {
    var r := Wrap(a - b - k);
    assert r == a - b - k || r == a - b - k + TWO32;
  }

  lemma SbcSignedStep(op: CarryOp, a: word, b: word, c: bool)
    requires op != AdcStep
    ensures var o := CarryStep(op, a, b, c);
            !o.overflow <==> Signed(o.result) == Signed(a) - Signed(b) - Bit(!c)
  {
    hide Signed, SubOverflow, Wrap;
    SubOverflowMeaning(a, b, Bit(!c));
    assert a - b - (1 - Bit(c)) == a - b - Bit(!c);
  }

  lemma StepOverflow(op: CarryOp, a: word, b: word, c: bool)
    requires !BadStep(op, a, b, c)
    ensures var o := CarryStep(op, a, b, c);
            && (op == AdcStep ==> o.result + TWO32 * Bit(o.carry) == a + b + Bit(c))
            && (op == AdcStep ==> (!o.overflow <==> Signed(o.result) == Signed(a) + Signed(b) + Bit(c)))
            && (op != AdcStep ==> o.result - TWO32 * Bit(!o.carry) == a - b - Bit(!c))
            && (op != AdcStep ==> (!o.overflow <==> Signed(o.result) == Signed(a) - Signed(b) - Bit(!c)))
  {
    hide Adcs, SbcsT16, SbcsT32, Signed;
    if op == AdcStep {
      AdcStepValue(a, b, c);
      AdcSignedStep(a, b, c);
    } else {
      SbcStepValue(op, a, b, c);
      SbcSignedStep(op, a, b, c);
    }
  }

  /** xPSR is its four flags and the bits below them. */
  lemma PsrByParts(p: word, q: word)
    requires FlagN(p) == FlagN(q) && FlagZ(p) == FlagZ(q) && FlagC(p) == FlagC(q) && FlagV(p) == FlagV(q)
    requires BelowFlags(p) == BelowFlags(q)
    ensures p == q
  {
    hide TopNibble;
    NibbleByBits(TopNibble(p), TopNibble(q));
    NibbleAndRest(p);
    NibbleAndRest(q);
  }

  lemma NibbleByBits(t: nibble, u: nibble)
    requires NibbleN(t) == NibbleN(u) && NibbleZ(t) == NibbleZ(u)
    requires NibbleC(t) == NibbleC(u) && NibbleV(t) == NibbleV(u)
    ensures t == u
  {
  }

  lemma NibbleAndRest(p: word)
    ensures p == 0x1000_0000 * TopNibble(p) + BelowFlags(p)
  {
  }

  lemma {:induction false} FlagsAreOverwritten(psr: word, b: bool, o: AluOut)
    ensures UpdateFlags(SetC(psr, b), o) == UpdateFlags(psr, o)
  {
    hide FlagN, FlagZ, FlagC, FlagV, BelowFlags, SetN, SetZ, SetC, SetV;
    PsrByParts(UpdateFlags(SetC(psr, b), o), UpdateFlags(psr, o));
  }

  /** Starting with ADDS is starting the chain with C clear, and SUBS with C set. */
  lemma {:induction false} WideOpIsChain(op: CarryOp, psr: word, xs: seq<word>, ys: seq<word>)
    requires |xs| == |ys| > 0
    ensures var p0 := SetC(psr, op != AdcStep);
            CarryChain(op, p0, xs, ys).1 == WideOp(op, psr, xs, ys).1
            && FlagC(CarryChain(op, p0, xs, ys).0) == FlagC(WideOp(op, psr, xs, ys).0)
            && FlagV(CarryChain(op, p0, xs, ys).0) == FlagV(WideOp(op, psr, xs, ys).0)
            && (NoBadStep(op, p0, xs, ys) <==>
                var o := if op == AdcStep then Adds(xs[0], ys[0]) else Subs(xs[0], ys[0]);
                NoBadStep(op, UpdateFlags(psr, o), xs[1..], ys[1..]))
  {
    hide FlagN, FlagZ, FlagC, FlagV, SetC, SetN, SetZ, SetV;
    var p0 := SetC(psr, op != AdcStep);
    assert FlagC(p0) == (op != AdcStep);
    var o := if op == AdcStep then Adds(xs[0], ys[0]) else Subs(xs[0], ys[0]);
    assert CarryStep(op, xs[0], ys[0], FlagC(p0)) == o;
    FlagsAreOverwritten(psr, op != AdcStep, o);
    assert !BadStep(op, xs[0], ys[0], FlagC(p0));
  }

  /** ADDS and then ADCS on n words give the n-word sum: C is the carry out of it, and V is set
      exactly when the signed sum does not fit. */
  lemma {:induction false} WideAddition(psr: word, xs: seq<word>, ys: seq<word>)
    requires |xs| == |ys| > 0
    ensures var (p, rs) := WideOp(AdcStep, psr, xs, ys);
            && Value(rs) + Carried(FlagC(p), |xs|) == Value(xs) + Value(ys)
            && (!FlagV(p) <==> SignedValue(rs) == SignedValue(xs) + SignedValue(ys))
  {
    hide FlagN, FlagZ, FlagC, FlagV, SetC, CarryChain, WideOp;
    var p0 := SetC(psr, false);
    WideOpIsChain(AdcStep, psr, xs, ys);
    AdcChainAdds(p0, xs, ys);
    AddNeverBad(p0, xs, ys);
    ChainOverflow(AdcStep, p0, xs, ys);
  }

  lemma {:induction false} AddNeverBad(psr: word, xs: seq<word>, ys: seq<word>)
    requires |xs| == |ys|
    ensures NoBadStep(AdcStep, psr, xs, ys)
    decreases |xs|
  {
    if xs != [] {
      AddNeverBad(UpdateFlags(psr, Adcs(xs[0], ys[0], FlagC(psr))), xs[1..], ys[1..]);
    }
  }

  /** SUBS and then 32-bit SBCS on n words give the n-word difference: C is "no borrow" and V is
      set exactly when the signed difference does not fit. */
  lemma {:induction false} WideSubtraction(psr: word, xs: seq<word>, ys: seq<word>)
    requires |xs| == |ys| > 0
    ensures var (p, rs) := WideOp(SbcT32Step, psr, xs, ys);
            && Value(rs) - Carried(!FlagC(p), |xs|) == Value(xs) - Value(ys)
            && (FlagC(p) <==> Value(xs) >= Value(ys))
            && (!FlagV(p) <==> SignedValue(rs) == SignedValue(xs) - SignedValue(ys))
  {
    hide FlagN, FlagZ, FlagC, FlagV, SetC, CarryChain, WideOp;
    var p0 := SetC(psr, true);
    WideOpIsChain(SbcT32Step, psr, xs, ys);
    T32NeverBad(p0, xs, ys);
    SbcChainSubtracts(SbcT32Step, p0, xs, ys);
    ChainOverflow(SbcT32Step, p0, xs, ys);
    ValueBound(WideOp(SbcT32Step, psr, xs, ys).1);
  }

  lemma {:induction false} ValueBound(ws: seq<word>)
    ensures Value(ws) < Base(|ws|)
  {
    if ws != [] {
      ValueBound(ws[1..]);
    }
  }

  /** Word `k` subtracts 0xFFFF_FFFF from 0xFFFF_FFFF while the words below it borrow; `b` is a
      borrow into the lowest word. */
  predicate LostBorrow(xs: seq<word>, ys: seq<word>, b: bool, k: nat)
    requires k < |xs| == |ys|
  {
    xs[k] == 0xFFFF_FFFF && ys[k] == 0xFFFF_FFFF && Value(xs[..k]) < Value(ys[..k]) + Bit(b)
  }

  predicate NoBorrowLost(xs: seq<word>, ys: seq<word>, b: bool)
    requires |xs| == |ys|
  {
    forall k :: 0 <= k < |xs| ==> !LostBorrow(xs, ys, b, k)
  }

  lemma ValuePeels(xs: seq<word>, k: nat)
    requires k < |xs|
    ensures Value(xs[..k + 1]) == xs[0] + TWO32 * Value(xs[1..][..k])
  {
    assert xs[..k + 1][0] == xs[0] && xs[..k + 1][1..] == xs[1..][..k];
  }

  /** The borrow out of the lowest word is the borrow into the rest. */
  lemma LostBorrowPeels(xs: seq<word>, ys: seq<word>, b: bool, k: nat)
    requires k + 1 < |xs| == |ys|
    ensures LostBorrow(xs, ys, b, k + 1) == LostBorrow(xs[1..], ys[1..], xs[0] < ys[0] + Bit(b), k)
  {
    hide Value;
    ValuePeels(xs, k);
    ValuePeels(ys, k);
  }

  /** The steps of a 16-bit SBC chain are all good exactly when no borrow is lost, in terms of
      the operands alone. */
  lemma {:induction false} NoBadStepIff(psr: word, xs: seq<word>, ys: seq<word>)
    requires |xs| == |ys|
    ensures NoBadStep(SbcT16Step, psr, xs, ys) <==> NoBorrowLost(xs, ys, !FlagC(psr))
    decreases |xs|
  {
    hide FlagC, UpdateFlags, LostBorrow, Value;
    if xs != [] {
      var b := !FlagC(psr);
      var p1 := UpdateFlags(psr, SbcsT16(xs[0], ys[0], !b));
      var b1 := xs[0] < ys[0] + Bit(b);
      FirstBorrow(xs, ys, b);
      if LostBorrow(xs, ys, b, 0) {
        assert !NoBorrowLost(xs, ys, b);
      } else {
        assert FlagC(p1) == !b1;
        NoBadStepIff(p1, xs[1..], ys[1..]);
        forall k | 0 <= k < |xs| - 1
          ensures LostBorrow(xs, ys, b, k + 1) == LostBorrow(xs[1..], ys[1..], b1, k)
        {
          LostBorrowPeels(xs, ys, b, k);
        }
        LostBorrowsShift(xs, ys, b, b1);
      }
    }
  }

  lemma LostBorrowsShift(xs: seq<word>, ys: seq<word>, b: bool, b1: bool)
    requires |xs| == |ys| > 0 && !LostBorrow(xs, ys, b, 0)
    requires forall k :: 0 <= k < |xs| - 1 ==> LostBorrow(xs, ys, b, k + 1) == LostBorrow(xs[1..], ys[1..], b1, k)
    ensures NoBorrowLost(xs, ys, b) <==> NoBorrowLost(xs[1..], ys[1..], b1)
  {
    hide LostBorrow;
    if NoBorrowLost(xs[1..], ys[1..], b1) {
      forall k | 0 <= k < |xs| ensures !LostBorrow(xs, ys, b, k) {
        if k > 0 {
          assert LostBorrow(xs, ys, b, (k - 1) + 1) == LostBorrow(xs[1..], ys[1..], b1, k - 1);
        }
      }
    }
    if NoBorrowLost(xs, ys, b) {
      forall k | 0 <= k < |xs[1..]| ensures !LostBorrow(xs[1..], ys[1..], b1, k) {
        assert !LostBorrow(xs, ys, b, k + 1);
      }
    }
  }

  /** The lowest word: a lost borrow is the bad input, and otherwise C tells the borrow. */
  lemma FirstBorrow(xs: seq<word>, ys: seq<word>, b: bool)
    requires |xs| == |ys| > 0
    ensures LostBorrow(xs, ys, b, 0) == SbcT16Fails(xs[0], ys[0], !b)
    ensures !SbcT16Fails(xs[0], ys[0], !b) ==> SbcsT16(xs[0], ys[0], !b).carry == (xs[0] >= ys[0] + Bit(b))
  {
    assert Value(xs[..0]) == 0 && Value(ys[..0]) == 0;
  }

  /** With the 16-bit SBC the n-word difference and its borrow are right exactly when no word
      subtracts 0xFFFF_FFFF from 0xFFFF_FFFF while the words below it borrow. */
  lemma {:induction false} WideSubtractionT16(psr: word, xs: seq<word>, ys: seq<word>)
    requires |xs| == |ys| > 0
    ensures var (p, rs) := WideOp(SbcT16Step, psr, xs, ys);
            Value(rs) - Carried(!FlagC(p), |xs|) == Value(xs) - Value(ys)
            <==> NoBorrowLost(xs, ys, false)
  {
    hide FlagN, FlagZ, FlagC, FlagV, SetC, CarryChain, WideOp, Subs, NoBorrowLost, Value, NoBadStep;
    WideOpIsChain(SbcT16Step, psr, xs, ys);
    SbcChainSubtracts(SbcT16Step, SetC(psr, true), xs, ys);
    NoBadStepIff(SetC(psr, true), xs, ys);
    assert FlagC(SetC(psr, true));
  }

  /** The smallest failure: 0 - 1 in the low word, then 0xFFFF_FFFF - 0xFFFF_FFFF. */
  lemma WideSubtractionT16CanFail(psr: word)
    ensures var xs, ys := [0, 0xFFFF_FFFF], [1, 0xFFFF_FFFF];
            var (p, rs) := WideOp(SbcT16Step, psr, xs, ys);
            Value(rs) - Carried(!FlagC(p), 2) != Value(xs) - Value(ys)
  {
    hide FlagN, FlagZ, FlagC, FlagV, CarryChain, WideOp;
    var xs: seq<word>, ys: seq<word> := [0, 0xFFFF_FFFF], [1, 0xFFFF_FFFF];
    WideSubtractionT16(psr, xs, ys);
    assert Value(xs[..1]) == 0 && Value(ys[..1]) == 1;
    assert LostBorrow(xs, ys, false, 1);
  }
}
