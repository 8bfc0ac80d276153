/** The IT-block machine of src/cpu/Registers.h and Execute::execute_instruction against the
    ITSTATE shift register of section A7.3 of the ARMv7-M Architecture Reference Manual. */
module ItBlock {
  import opened Words
  import opened Registers
  import opened Alu

  /** What happens next, as the IT machine sees it: IT; an instruction that leaves a given xPSR
      behind and is or is not a taken branch; SVC; or an exception that is taken before the next
      instruction and has been returned from, which leaves an IT state of its own behind. */
  datatype Instr = It(cond: nat, mask: nat) | Plain(psr: word) | Branch(psr: word) | Svc | Handled(after: ItState)

  // --- the code ---

  datatype CodeState = CodeState(it: ItState, psr: word)

  /** Whether the gate in front of an instruction lets it execute. */
  predicate GateOpen(it: ItState) {
    !InItBlock(it) || (if CurrentItThen(it) then it.condResult else !it.condResult)
  }

  /** `execute_it`. */
  function BeginBlock(it: ItState, psr: word, cond: nat, mask: nat): ItState {
    if mask == 0 then it else StartIt(it, cond, mask).(condResult := CheckCondition(psr, cond))
  }

  /** One instruction: the new state and whether it was executed. */
  function CodeStep(s: CodeState, i: Instr): (CodeState, bool) {
    match i
    case It(cond, mask) => (s.(it := BeginBlock(s.it, s.psr, cond, mask)), true)
    case Plain(psr) =>
      var it := if InItBlock(s.it) then AdvanceIt(s.it) else s.it;
      if GateOpen(s.it) then (CodeState(it, psr), true) else (s.(it := it), false)
    case Branch(psr) =>
      if GateOpen(s.it) then (CodeState(ClearIt(s.it), psr), true) else (s.(it := AdvanceIt(s.it)), false)
    case Svc =>
      if GateOpen(s.it) then (s.(it := ClearIt(s.it)), true) else (s.(it := AdvanceIt(s.it)), false)
    case Handled(after) => (s.(it := after), true)
  }

  // --- the architecture ---

  /** ITSTATE as its two parts, bits 7-5 and bits 4-0. */
  datatype ItShift = ItShift(base: nat, low: nat)

  const NO_SHIFT := ItShift(0, 0)

  predicate InBlock(t: ItShift) { t.low % 16 != 0 }

  function SlotCond(t: ItShift): nat { 2 * t.base + t.low / 16 }

  function ShiftOnce(t: ItShift): ItShift {
    if t.low % 8 == 0 then NO_SHIFT else t.(low := (2 * t.low) % 32)
  }

  /** `flags` is xPSR at the start of the block. */
  datatype ArchState = ArchState(shift: ItShift, flags: word, psr: word)

  predicate ArchGate(s: ArchState) {
    !InBlock(s.shift) || CheckCondition(s.flags, SlotCond(s.shift))
  }

  /** ITSTATE and xPSR after an instruction whose gate was `open`. An SVC, like every instruction,
      moves on by one slot, and an exception gives ITSTATE back. */
  function Moved(s: ArchState, i: Instr, open: bool): ArchState {
    var next := if InBlock(s.shift) then ShiftOnce(s.shift) else s.shift;
    match i
    case It(cond, mask) => if mask == 0 then s else s.(shift := ItShift(cond / 2, cond % 2 * 16 + mask), flags := s.psr)
    case Plain(psr) => s.(shift := next, psr := if open then psr else s.psr)
    case Branch(psr) => if open then s.(shift := NO_SHIFT, psr := psr) else s.(shift := next)
    case Svc => s.(shift := next)
    case Handled(_) => s
  }

  /** IT itself and the handling of an exception have no gate. */
  predicate Ungated(i: Instr) { i.It? || i.Handled? }

  function ArchStep(s: ArchState, i: Instr): (ArchState, bool) {
    (Moved(s, i, ArchGate(s)), Ungated(i) || ArchGate(s))
  }

  function CodeRun(s: CodeState, code: seq<Instr>): (r: (CodeState, seq<bool>))
    ensures |r.1| == |code|
    decreases |code|
  {
    if code == [] then (s, [])
    else
      var (s', e) := CodeStep(s, code[0]);
      var (s'', es) := CodeRun(s', code[1..]);
      (s'', [e] + es)
  }

  function ArchRun(s: ArchState, code: seq<Instr>): (r: (ArchState, seq<bool>))
    ensures |r.1| == |code|
    decreases |code|
  {
    if code == [] then (s, [])
    else
      var (s', e) := ArchStep(s, code[0]);
      var (s'', es) := ArchRun(s', code[1..]);
      (s'', [e] + es)
  }

  // --- refinement ---

  predicate WellFormed(i: Instr) {
    match i
    case It(cond, mask) => cond < 16 && 0 < mask < 16
    case Handled(after) => !InItBlock(after)
    case _ => true
  }

  /** The masks the source's length table knows. */
  predicate Accepted(mask: nat) { mask !in {0x5, 0x9, 0xA, 0xB} }

  predicate Known(i: Instr) { WellFormed(i) && (i.It? ==> Accepted(i.mask)) }

  /** Bits 4-0 of ITSTATE after `k` slots of a block. */
  function LowAt(cond: nat, mask: nat, k: nat): nat {
    match k
    case 0 => cond % 2 * 16 + mask
    case 1 => 2 * mask
    case 2 => 4 * (mask % 8)
    case 3 => 8 * (mask % 4)
    case _ => 0
  }

  ghost predicate Related(c: CodeState, a: ArchState) {
    && c.psr == a.psr
    && (InItBlock(c.it) <==> InBlock(a.shift))
    && (InItBlock(c.it) ==>
          && c.it.firstcond < 16 && 0 < c.it.mask < 16 && Accepted(c.it.mask)
          && c.it.len == ItLength(c.it.mask)
          && a.shift == ItShift(c.it.firstcond / 2, LowAt(c.it.firstcond, c.it.mask, c.it.index))
          && c.it.condResult == CheckCondition(a.flags, c.it.firstcond))
  }

  lemma LowShifts(cond: nat, mask: nat, k: nat)
    requires cond < 16 && mask < 16 && k < 3
    ensures LowAt(cond, mask, k + 1) == (2 * LowAt(cond, mask, k)) % 32
  {
    match k {
      case 0 => Mod32(2 * (cond % 2 * 16 + mask), cond % 2, 2 * mask);
      case 1 => Mod32(2 * (2 * mask), mask / 8, 4 * (mask % 8));
      case 2 => Mod32(2 * (4 * (mask % 8)), mask % 8 / 4, 8 * (mask % 4));
    }
  }

  lemma Mod32(x: nat, q: nat, r: nat)
    requires x == 32 * q + r && r < 32
    ensures x % 32 == r
  {
  }

  lemma SlotLetter(cond: nat, mask: nat, k: nat)
    requires cond < 16 && mask < 16 && 0 < k < 4
    ensures LowAt(cond, mask, k) / 16 == (mask / Pow2(4 - k)) % 2
  {
    assert Pow2(1) == 2 && Pow2(2) == 4 && Pow2(3) == 8;
  }

  lemma SlotEnd(cond: nat, mask: nat, k: nat)
    requires cond < 16 && 0 < mask < 16 && Accepted(mask) && k < ItLength(mask)
    ensures LowAt(cond, mask, k) < 32 && LowAt(cond, mask, k) % 16 != 0
    ensures LowAt(cond, mask, k) % 8 == 0 <==> k + 1 == ItLength(mask)
  {
  }

  /** The slots of one accepted block: the code's letter is the architecture's condition bit,
      and both machines leave the block after the same slot. */
  lemma SlotAgrees(cond: nat, mask: nat, k: nat, condResult: bool)
    requires cond < 16 && 0 < mask < 16 && Accepted(mask) && k < ItLength(mask)
    ensures var it := ItState(cond, mask, ItLength(mask), k, condResult);
            var low := LowAt(cond, mask, k);
            && low < 32 && low % 16 != 0
            && (CurrentItThen(it) <==> low / 16 == cond % 2)
            && (low % 8 == 0 <==> k + 1 == ItLength(mask))
            && (k + 1 < ItLength(mask) ==> LowAt(cond, mask, k + 1) == (2 * low) % 32)
  {
    SlotEnd(cond, mask, k);
    assert ItLength(mask) <= 4;
    if k == 0 {
      assert LowAt(cond, mask, 0) / 16 == cond % 2;
    } else {
      hide LowAt, ItLength;
      SlotLetter(cond, mask, k);
    }
    if k + 1 < ItLength(mask) {
      LowShifts(cond, mask, k);
    }
  }

  lemma {:induction false} GatesAgree(c: CodeState, a: ArchState)
    requires Related(c, a)
    ensures GateOpen(c.it) == ArchGate(a)
  {
    hide CheckCondition;
    if InItBlock(c.it) {
      SlotAgrees(c.it.firstcond, c.it.mask, c.it.index, c.it.condResult);
      ConditionPairs(a.flags, c.it.firstcond);
    }
  }

  lemma AdvanceAgrees(c: CodeState, a: ArchState)
    requires Related(c, a) && InItBlock(c.it)
    ensures Related(c.(it := AdvanceIt(c.it)), a.(shift := ShiftOnce(a.shift)))
  {
    hide CheckCondition;
    SlotAgrees(c.it.firstcond, c.it.mask, c.it.index, c.it.condResult);
    if c.it.index + 1 < c.it.len {
      SlotAgrees(c.it.firstcond, c.it.mask, c.it.index + 1, c.it.condResult);
    }
  }

  lemma BeginAgrees(c: CodeState, a: ArchState, cond: nat, mask: nat)
    requires c.psr == a.psr && WellFormed(It(cond, mask)) && Accepted(mask)
    ensures forall open :: Related(CodeStep(c, It(cond, mask)).0, Moved(a, It(cond, mask), open))
  {
    hide CheckCondition;
    SlotAgrees(cond, mask, 0, true);
  }

  // --- blocks cut short ---

  /** A block of which the code knows nothing any more: an SVC was executed in it or an exception
      was handled during it, and no IT instruction has come since. */
  predicate CutNext(s: ArchState, i: Instr, cut: bool) {
    !i.It? && (cut || i.Handled? || (i.Svc? && ArchGate(s)))
  }

  /** The architecture with every gate of a block that was cut short forced open. */
  function CutStep(s: ArchState, i: Instr, cut: bool): (ArchState, bool) {
    (Moved(s, i, cut || ArchGate(s)), Ungated(i) || cut || ArchGate(s))
  }

  function CutRun(s: ArchState, code: seq<Instr>, cut: bool): (r: (ArchState, bool, seq<bool>))
    ensures |r.2| == |code|
    decreases |code|
  {
    if code == [] then (s, cut, [])
    else
      var (s', e) := CutStep(s, code[0], cut);
      var (s'', cut', es) := CutRun(s', code[1..], CutNext(s, code[0], cut));
      (s'', cut', [e] + es)
  }

  ghost predicate Agree(c: CodeState, a: ArchState, cut: bool) {
    if cut then c.psr == a.psr && !InItBlock(c.it) else Related(c, a)
  }

  lemma {:induction false} StepIsCutStep(c: CodeState, a: ArchState, i: Instr, cut: bool)
    requires Agree(c, a, cut) && Known(i)
    ensures CodeStep(c, i).1 == CutStep(a, i, cut).1
    ensures Agree(CodeStep(c, i).0, CutStep(a, i, cut).0, CutNext(a, i, cut))
  {
    hide CheckCondition, AdvanceIt, ShiftOnce, CurrentItThen;
    if i.It? {
      BeginAgrees(c, a, i.cond, i.mask);
    } else if !cut {
      GatesAgree(c, a);
      if InItBlock(c.it) {
        AdvanceAgrees(c, a);
      }
    }
  }

  /** Over every instruction sequence whose IT masks the length table knows, with exceptions handled
      anywhere in between, the code is exactly this machine: the shift register on the flags at
      block start, with every gate open in the rest of a block that was cut short. */
  lemma {:induction false} CodeIsCutRun(c: CodeState, a: ArchState, code: seq<Instr>, cut: bool)
    requires Agree(c, a, cut)
    requires forall k :: 0 <= k < |code| ==> Known(code[k])
    ensures CodeRun(c, code).1 == CutRun(a, code, cut).2
    ensures Agree(CodeRun(c, code).0, CutRun(a, code, cut).0, CutRun(a, code, cut).1)
    decreases |code|
  {
    hide CodeStep, CutStep, CutNext, Agree;
    if code != [] {
      StepIsCutStep(c, a, code[0], cut);
      CodeIsCutRun(CodeStep(c, code[0]).0, CutStep(a, code[0], cut).0, code[1..], CutNext(a, code[0], cut));
    }
  }

  /** In the rest of every block that was cut short, each slot's gate is open anyway. */
  predicate CutsHarmless(s: ArchState, code: seq<Instr>, cut: bool)
    decreases |code|
  {
    code == []
    || ((Ungated(code[0]) || (cut ==> ArchGate(s)))
        && CutsHarmless(ArchStep(s, code[0]).0, code[1..], CutNext(s, code[0], cut)))
  }

  lemma {:induction false} CutRunIsArchIff(s: ArchState, code: seq<Instr>, cut: bool)
    ensures CutRun(s, code, cut).2 == ArchRun(s, code).1 <==> CutsHarmless(s, code, cut)
    ensures CutsHarmless(s, code, cut) ==> CutRun(s, code, cut).0 == ArchRun(s, code).0
    decreases |code|
  {
    hide ArchGate, CutNext, Moved;
    if code != [] {
      var (s1, d) := CutStep(s, code[0], cut);
      var (s2, e) := ArchStep(s, code[0]);
      var xs, ys := CutRun(s1, code[1..], CutNext(s, code[0], cut)).2, ArchRun(s2, code[1..]).1;
      Peel(d, xs, e, ys);
      if d == e {
        SameMove(s, code[0], cut || ArchGate(s), ArchGate(s));
        CutRunIsArchIff(s2, code[1..], CutNext(s, code[0], cut));
      }
    }
  }

  lemma Peel(d: bool, xs: seq<bool>, e: bool, ys: seq<bool>)
    ensures [d] + xs == [e] + ys <==> d == e && xs == ys
  {
    assert ([d] + xs)[1..] == xs && ([e] + ys)[1..] == ys;
    assert ([d] + xs)[0] == d && ([e] + ys)[0] == e;
  }

  lemma SameMove(s: ArchState, i: Instr, open: bool, open': bool)
    requires Ungated(i) || open == open'
    ensures Moved(s, i, open) == Moved(s, i, open')
  {
  }

  /** Over every instruction sequence whose IT masks the length table knows, with exceptions handled
      anywhere in between, the code executes exactly the instructions the architecture's shift
      register selects on the flags at block start if and only if every slot left of a block in
      which an SVC was executed or an exception handled has an open gate. */
  lemma {:induction false} ItMachineRefines(c: CodeState, a: ArchState, code: seq<Instr>)
    requires Related(c, a)
    requires forall k :: 0 <= k < |code| ==> Known(code[k])
    ensures CodeRun(c, code).1 == ArchRun(a, code).1 <==> CutsHarmless(a, code, false)
    ensures CutsHarmless(a, code, false) ==>
              Agree(CodeRun(c, code).0, ArchRun(a, code).0, CutRun(a, code, false).1)
  {
    hide CodeRun, ArchRun, CutRun, CutsHarmless, Related;
    CodeIsCutRun(c, a, code, false);
    CutRunIsArchIff(a, code, false);
  }

  predicate MayCut(i: Instr) { i.Svc? || i.Handled? }

  /** Without SVC and exceptions no block is cut short. */
  lemma {:induction false} NothingCuts(s: ArchState, code: seq<Instr>)
    requires forall k :: 0 <= k < |code| ==> !MayCut(code[k])
    ensures CutsHarmless(s, code, false) && !CutRun(s, code, false).1
    decreases |code|
  {
    hide ArchGate, Moved;
    if code != [] {
      assert !MayCut(code[0]);
      NothingCuts(ArchStep(s, code[0]).0, code[1..]);
    }
  }

  /** Then the code and the shift register agree throughout. */
  lemma {:induction false} UncutCodeRefines(c: CodeState, a: ArchState, code: seq<Instr>)
    requires Related(c, a)
    requires forall k :: 0 <= k < |code| ==> Known(code[k]) && !MayCut(code[k])
    ensures CodeRun(c, code).1 == ArchRun(a, code).1
    ensures Related(CodeRun(c, code).0, ArchRun(a, code).0)
  {
    hide CodeRun, ArchRun, CutRun, CutsHarmless, Related, MayCut, Known;
    ItMachineRefines(c, a, code);
    NothingCuts(a, code);
  }

  /** With SVC they need not: in an ITE EQ block with Z set, the code runs the Else slot behind an SVC
      in the Then slot, and the architecture skips it. */
  lemma SvcRunsElseSlot(psr: word)
    requires FlagZ(psr)
    ensures var code := [It(0, 0xC), Svc, Plain(psr)];
            && CodeRun(CodeState(NO_IT, psr), code).1 == [true, true, true]
            && ArchRun(ArchState(NO_SHIFT, psr, psr), code).1 == [true, true, false]
  {
    hide CodeStep, ArchStep;
    IteCodeSteps(psr);
    IteArchSteps(psr);
    var p := Plain(psr);
    var code := [It(0, 0xC), Svc, p];
    assert code[1..] == [Svc, p] && [Svc, p][1..] == [p] && [p][1..] == [];
    var c1, c2 := CodeState(ItState(0, 0xC, 2, 0, true), psr), CodeState(NO_IT.(condResult := true), psr);
    assert CodeRun(c2, [p]).1 == [true];
    assert CodeRun(c1, [Svc, p]).1 == [true] + [true];
    var a1, a2 := ArchState(ItShift(0, 0xC), psr, psr), ArchState(ItShift(0, 0x18), psr, psr);
    assert ArchRun(a2, [p]).1 == [false];
    assert ArchRun(a1, [Svc, p]).1 == [true] + [false];
  }

  lemma IteCodeSteps(psr: word)
    requires FlagZ(psr)
    ensures CodeStep(CodeState(NO_IT, psr), It(0, 0xC)) == (CodeState(ItState(0, 0xC, 2, 0, true), psr), true)
    ensures CodeStep(CodeState(ItState(0, 0xC, 2, 0, true), psr), Svc) ==
            (CodeState(NO_IT.(condResult := true), psr), true)
    ensures CodeStep(CodeState(NO_IT.(condResult := true), psr), Plain(psr)).1
  {
    hide FlagZ;
    assert Pow2(1) == 2 && Pow2(2) == 4 && Pow2(3) == 8;
  }

  lemma IteArchSteps(psr: word)
    requires FlagZ(psr)
    ensures ArchStep(ArchState(NO_SHIFT, psr, psr), It(0, 0xC)) == (ArchState(ItShift(0, 0xC), psr, psr), true)
    ensures ArchStep(ArchState(ItShift(0, 0xC), psr, psr), Svc) == (ArchState(ItShift(0, 0x18), psr, psr), true)
    ensures !ArchStep(ArchState(ItShift(0, 0x18), psr, psr), Plain(psr)).1
  {
    hide FlagZ;
    BeginsBlock(psr, 0, 0xC);
  }

  /** The masks are exactly right: a block of flag-preserving instructions executes as the
      architecture says if and only if its mask is one of the eleven. The other four start no
      block, so that an Else slot is executed when it should not be. */
  lemma MaskMustBeKnown(psr: word, cond: nat, mask: nat)
    requires WellFormed(It(cond, mask))
    ensures var code := [It(cond, mask), Plain(psr), Plain(psr), Plain(psr), Plain(psr)];
            CodeRun(CodeState(NO_IT, psr), code).1 == ArchRun(ArchState(NO_SHIFT, psr, psr), code).1
            <==> Accepted(mask)
  {
    var code := [It(cond, mask), Plain(psr), Plain(psr), Plain(psr), Plain(psr)];
    var c, a := CodeState(NO_IT, psr), ArchState(NO_SHIFT, psr, psr);
    if Accepted(mask) {
      UncutCodeRefines(c, a, code);
    } else {
      UnknownMaskExecutesAll(c, code);
      SomeSlotSkipped(psr, cond, mask);
    }
  }

  lemma UnknownMaskExecutesAll(c: CodeState, code: seq<Instr>)
    requires |code| == 5 && code[0].It? && !Accepted(code[0].mask)
    requires forall k :: 1 <= k < 5 ==> code[k].Plain?
    ensures CodeRun(c, code).1 == [true, true, true, true, true]
  {
    var c1 := CodeStep(c, code[0]).0;
    assert !InItBlock(c1.it);
    OutsideBlockExecutes(c1, code[1..]);
    assert CodeRun(c1, code[1..]).1 == [true, true, true, true];
  }

  lemma {:induction false} OutsideBlockExecutes(c: CodeState, code: seq<Instr>)
    requires !InItBlock(c.it) && forall k :: 0 <= k < |code| ==> code[k].Plain?
    ensures CodeRun(c, code).1 == seq(|code|, _ => true)
    decreases |code|
  {
    if code != [] {
      OutsideBlockExecutes(CodeStep(c, code[0]).0, code[1..]);
    }
  }

  lemma {:induction false} BlockDecisions(s: ArchState, n: nat)
    ensures ArchRun(s, seq(n, _ => Plain(s.psr))).1 == Gates(s, n)
    decreases n
  {
    if n > 0 {
      assert seq(n, _ => Plain(s.psr))[1..] == seq(n - 1, _ => Plain(s.psr));
      BlockDecisions(ArchStep(s, Plain(s.psr)).0, n - 1);
    }
  }

  /** The gate decisions of the next `n` slots. */
  function Gates(s: ArchState, n: nat): (r: seq<bool>)
    ensures |r| == n
    decreases n
  {
    if n == 0 then [] else [ArchGate(s)] + Gates(ArchStep(s, Plain(s.psr)).0, n - 1)
  }

  lemma SomeSlotSkipped(psr: word, cond: nat, mask: nat)
    requires WellFormed(It(cond, mask)) && !Accepted(mask)
    ensures var code := [It(cond, mask), Plain(psr), Plain(psr), Plain(psr), Plain(psr)];
            ArchRun(ArchState(NO_SHIFT, psr, psr), code).1 != [true, true, true, true, true]
  {
    hide ArchStep, ArchGate;
    var code := [It(cond, mask), Plain(psr), Plain(psr), Plain(psr), Plain(psr)];
    var a0 := ArchState(NO_SHIFT, psr, psr);
    var a1 := ArchStep(a0, code[0]).0;
    MixedBlock(psr, cond, mask);
    assert a1 == ArchState(ItShift(cond / 2, cond % 2 * 16 + mask), psr, psr) by {
      BeginsBlock(psr, cond, mask);
    }
    BlockDecisions(a1, 4);
    assert code[1..] == seq(4, _ => Plain(psr));
    var r := ArchRun(a0, code).1;
    assert r[1..] == Gates(a1, 4);
    assert [true, true, true, true, true][1..] == [true, true, true, true];
  }

  lemma BeginsBlock(psr: word, cond: nat, mask: nat)
    requires WellFormed(It(cond, mask))
    ensures ArchStep(ArchState(NO_SHIFT, psr, psr), It(cond, mask)) ==
            (ArchState(ItShift(cond / 2, cond % 2 * 16 + mask), psr, psr), true)
  {
  }

  /** An unknown mask mixes Then and Else slots, so some slot's condition is false. */
  lemma MixedBlock(psr: word, cond: nat, mask: nat)
    requires WellFormed(It(cond, mask)) && !Accepted(mask)
    ensures Gates(ArchState(ItShift(cond / 2, cond % 2 * 16 + mask), psr, psr), 4) != [true, true, true, true]
  {
    hide ArchGate, CheckCondition;
    var a1 := ArchState(ItShift(cond / 2, cond % 2 * 16 + mask), psr, psr);
    var a2 := ArchState(ItShift(cond / 2, 2 * mask), psr, psr);
    var a3 := ArchState(ItShift(cond / 2, 4 * (mask % 8)), psr, psr);
    MixedSlots(psr, cond, mask);
    LowShifts(cond, mask, 0);
    LowShifts(cond, mask, 1);
    var p := Plain(psr);
    assert ArchStep(a1, p).0 == a2 && ArchStep(a2, p).0 == a3;
    hide ArchStep;
    var g := Gates(a1, 4);
    assert g == [ArchGate(a1)] + ([ArchGate(a2)] + Gates(a3, 2));
    assert g[0] == ArchGate(a1) && g[1] == ArchGate(a2) && g[2] == Gates(a3, 2)[0] == ArchGate(a3);
  }

  lemma MixedSlots(psr: word, cond: nat, mask: nat)
    requires WellFormed(It(cond, mask)) && !Accepted(mask)
    ensures !ArchGate(ArchState(ItShift(cond / 2, cond % 2 * 16 + mask), psr, psr))
            || !ArchGate(ArchState(ItShift(cond / 2, 2 * mask), psr, psr))
            || !ArchGate(ArchState(ItShift(cond / 2, 4 * (mask % 8)), psr, psr))
  {
    hide CheckCondition;
    ConditionPairs(psr, cond);
  }

  // --- the flags the condition is read from ---

  /** The architecture proper tests the current flags in every slot. */
  predicate LiveGate(s: ArchState) {
    !InBlock(s.shift) || CheckCondition(s.psr, SlotCond(s.shift))
  }

  predicate SameFlags(p: word, q: word) { TopNibble(p) == TopNibble(q) }

  /** No executed instruction of a block changes the flags the later slots will test. */
  predicate FlagsHeld(s: ArchState, code: seq<Instr>)
    decreases |code|
  {
    && (InBlock(s.shift) ==> SameFlags(s.psr, s.flags))
    && (code == [] || FlagsHeld(ArchStep(s, code[0]).0, code[1..]))
  }

  /** The architecture proper: every slot tests the current flags. */
  function LiveStep(s: ArchState, i: Instr): (ArchState, bool) {
    (Moved(s, i, LiveGate(s)), Ungated(i) || LiveGate(s))
  }

  function LiveDecisions(s: ArchState, code: seq<Instr>): seq<bool>
    decreases |code|
  {
    if code == [] then [] else [LiveStep(s, code[0]).1] + LiveDecisions(LiveStep(s, code[0]).0, code[1..])
  }

  /** In every slot of a block the condition is the same on the flags at block start and on the
      current flags. */
  predicate ConditionsHeld(s: ArchState, code: seq<Instr>)
    decreases |code|
  {
    code == []
    || ((Ungated(code[0]) || ArchGate(s) == LiveGate(s)) && ConditionsHeld(ArchStep(s, code[0]).0, code[1..]))
  }

  /** Evaluating the condition once, at the IT instruction, decides like evaluating it in each
      slot exactly when no slot's condition has changed by the time the slot is reached. */
  lemma {:induction false} SnapshotIsLiveIff(s: ArchState, code: seq<Instr>)
    ensures ArchRun(s, code).1 == LiveDecisions(s, code) <==> ConditionsHeld(s, code)
    decreases |code|
  {
    hide ArchGate, LiveGate, Moved;
    if code != [] {
      var (s1, e) := ArchStep(s, code[0]);
      var (s2, d) := LiveStep(s, code[0]);
      Peel(e, ArchRun(s1, code[1..]).1, d, LiveDecisions(s2, code[1..]));
      if e == d {
        SameMove(s, code[0], ArchGate(s), LiveGate(s));
        SnapshotIsLiveIff(s1, code[1..]);
      }
    }
  }

  lemma {:induction false} FlagsHeldConditionsHeld(s: ArchState, code: seq<Instr>)
    requires FlagsHeld(s, code)
    ensures ConditionsHeld(s, code)
    decreases |code|
  {
    hide ArchStep;
    if code != [] {
      var c := SlotCond(s.shift);
      assert InBlock(s.shift) ==> CheckCondition(s.flags, c) == CheckCondition(s.psr, c);
      FlagsHeldConditionsHeld(ArchStep(s, code[0]).0, code[1..]);
    }
  }

  /** Each slot's condition has the value it had at the IT instruction, or true if the slot is left
      of a block that was cut short. */
  predicate GatesMatchLive(s: ArchState, code: seq<Instr>, cut: bool)
    decreases |code|
  {
    code == []
    || ((Ungated(code[0]) || (cut || ArchGate(s)) == LiveGate(s))
        && GatesMatchLive(CutStep(s, code[0], cut).0, code[1..], CutNext(s, code[0], cut)))
  }

  lemma {:induction false} CutRunIsLiveIff(s: ArchState, code: seq<Instr>, cut: bool)
    ensures CutRun(s, code, cut).2 == LiveDecisions(s, code) <==> GatesMatchLive(s, code, cut)
    decreases |code|
  {
    hide ArchGate, LiveGate, CutNext, Moved;
    if code != [] {
      var (s1, d) := CutStep(s, code[0], cut);
      var (s2, e) := LiveStep(s, code[0]);
      Peel(d, CutRun(s1, code[1..], CutNext(s, code[0], cut)).2, e, LiveDecisions(s2, code[1..]));
      if d == e {
        SameMove(s, code[0], cut || ArchGate(s), LiveGate(s));
        CutRunIsLiveIff(s1, code[1..], CutNext(s, code[0], cut));
      }
    }
  }

  /** The code agrees with the architecture that tests the current flags in each slot if and only
      if every slot's condition has the value it had at the IT instruction, or true in the rest of
      a block that was cut short. */
  lemma {:induction false} LiveFlagsExactly(c: CodeState, a: ArchState, code: seq<Instr>)
    requires Related(c, a)
    requires forall k :: 0 <= k < |code| ==> Known(code[k])
    ensures CodeRun(c, code).1 == LiveDecisions(a, code) <==> GatesMatchLive(a, code, false)
  {
    hide CodeRun, CutRun, LiveDecisions, GatesMatchLive, Related;
    CodeIsCutRun(c, a, code, false);
    CutRunIsLiveIff(a, code, false);
  }

  /** When no instruction of a block changes the flags that the rest of the block tests, the code
      agrees with the architecture that tests the current flags if and only if no block is harmed
      by being cut short. */
  lemma ItMachineMeetsLiveFlags(c: CodeState, a: ArchState, code: seq<Instr>)
    requires Related(c, a) && FlagsHeld(a, code)
    requires forall k :: 0 <= k < |code| ==> Known(code[k])
    ensures CodeRun(c, code).1 == LiveDecisions(a, code) <==> CutsHarmless(a, code, false)
  {
    hide CodeRun, ArchRun, LiveDecisions, CutsHarmless, Related;
    FlagsHeldConditionsHeld(a, code);
    SnapshotIsLiveIff(a, code);
    ItMachineRefines(c, a, code);
  }

  /** When the flags change it need not: in an ITT EQ block whose first instruction clears Z, the
      code runs the second instruction and the architecture skips it. */
  lemma SnapshotDiffersFromLive(zSet: word, zClear: word)
    requires FlagZ(zSet) && !FlagZ(zClear)
    ensures var code := [It(0, 0x4), Plain(zClear), Plain(zClear)];
            && CodeRun(CodeState(NO_IT, zSet), code).1 == [true, true, true]
            && LiveDecisions(ArchState(NO_SHIFT, zSet, zSet), code) == [true, true, false]
  {
    hide CodeStep, LiveStep;
    IttCodeSteps(zSet, zClear);
    IttArchSteps(zSet, zClear);
    var p := Plain(zClear);
    var code := [It(0, 0x4), p, p];
    assert code[1..] == [p, p] && [p, p][1..] == [p] && [p][1..] == [];
    var c1, c2 := CodeState(ItState(0, 4, 2, 0, true), zSet), CodeState(ItState(0, 4, 2, 1, true), zClear);
    assert CodeRun(c2, [p]).1 == [true];
    assert CodeRun(c1, [p, p]).1 == [true] + [true];
    var a1, a2 := ArchState(ItShift(0, 4), zSet, zSet), ArchState(ItShift(0, 8), zSet, zClear);
    assert LiveDecisions(a2, [p]) == [false];
    assert LiveDecisions(a1, [p, p]) == [true] + [false];
  }

  lemma IttCodeSteps(zSet: word, zClear: word)
    requires FlagZ(zSet)
    ensures CodeStep(CodeState(NO_IT, zSet), It(0, 0x4)) == (CodeState(ItState(0, 4, 2, 0, true), zSet), true)
    ensures CodeStep(CodeState(ItState(0, 4, 2, 0, true), zSet), Plain(zClear)) ==
            (CodeState(ItState(0, 4, 2, 1, true), zClear), true)
    ensures CodeStep(CodeState(ItState(0, 4, 2, 1, true), zClear), Plain(zClear)).1
  {
    hide FlagZ;
    assert Pow2(1) == 2 && Pow2(2) == 4 && Pow2(3) == 8;
  }

  lemma IttArchSteps(zSet: word, zClear: word)
    requires FlagZ(zSet) && !FlagZ(zClear)
    ensures LiveStep(ArchState(NO_SHIFT, zSet, zSet), It(0, 0x4)) == (ArchState(ItShift(0, 4), zSet, zSet), true)
    ensures LiveStep(ArchState(ItShift(0, 4), zSet, zSet), Plain(zClear)) ==
            (ArchState(ItShift(0, 8), zSet, zClear), true)
    ensures !LiveStep(ArchState(ItShift(0, 8), zSet, zClear), Plain(zClear)).1
  {
    hide FlagZ;
    assert CheckCondition(zSet, 0) && !CheckCondition(zClear, 0);
    hide CheckCondition;
  }
}
