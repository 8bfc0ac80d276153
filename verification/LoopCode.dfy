/** Runs of code in memory through the instruction loop: what is proved of IT blocks, comparisons,
    carry chains and the exclusive monitor holds of them. */
module LoopCode {
  import opened Words
  import opened Registers
  import opened Memory
  import opened BusCtrl
  import opened DataPort
  import opened WordAccess
  import opened Cpu
  import opened Alu
  import opened Multiple
  import opened Instruction
  import opened Exclusive
  import opened Execute
  import opened CpuThread
  import Br = Branch
  import It = ItBlock
  import ItE = ItExecution
  import Ex = ExclusiveRuns
  import Nest = Nesting
  import Ar = Arithmetic

  // --- IT blocks in code run by the loop ---

  /** The state in which the next instruction is executed, and the instruction. */
  function FetchedState(s: Machine): Machine {
    s.(core := s.core.(mem := BusRead(s.core.mem, s.core.regs.pc, 4).0))
  }

  function FetchedFields(s: Machine): (f: Fields)
    ensures ListValid(f)
  {
    DecodeWord(BusRead(s.core.mem, s.core.regs.pc, 4).1)
  }

  /** Up to PC and memory, executing the next instruction is `Instruct` of what was fetched. */
  lemma ExecutesFetched(s: Machine)
    ensures var done := Instruct(FetchedState(s), FetchedFields(s));
            var t := ExecuteAt(s);
            && t.core.regs.it == done.core.regs.it && t.core.regs.psr == done.core.regs.psr
            && t.core.pend == done.core.pend && t.monitor == done.monitor && t.core.mem == done.core.mem
            && (t == done || t.core.regs == done.core.regs.(pc := t.core.regs.pc))
  {
    hide Instruct, MovesPc, Instruction.Decode, BusRead, Is32Bit, Wrap;
  }

  /** What happens to the loop: an exception is taken before the next turn and has been returned
      from; or a turn executes one instruction, before which the pending flags may have changed, by
      a message on the interrupt line or by a store that reached the NVIC. `after` and `ends` are
      the effect of the instruction if it is of a type outside this model. */
  datatype LoopEvent = Interrupted(after: Machine) | Turn(pend: Pending, after: Machine, ends: bool)

  /** A turn that takes an exception belongs to the handler, so a turn of the code itself starts with
      nothing pending. */
  predicate EventValid(s: Machine, e: LoopEvent) {
    match e
    case Interrupted(after) => ItE.ItemValid(s, ItE.Handled(after))
    case Turn(pend, _, _) => NextException(pend).None?
  }

  function TurnStart(s: Machine, pend: Pending): Machine { s.(core := s.core.(pend := pend)) }

  /** The instruction the turn executes. */
  function TurnItem(s: Machine, after: Machine, ends: bool): (i: ItE.Item)
    ensures ItE.ItemValid(FetchedState(s), i)
  {
    if FetchedFields(s).typ == Other then ItE.Foreign(after, ends) else ItE.Instr(FetchedFields(s))
  }

  /** An instruction of a type outside this model: its effect, or PC moves past it. */
  function ForeignTurn(s: Machine, after: Machine, ends: bool): Machine {
    var t := ItE.ForeignStep(FetchedState(s), after, ends);
    var size := if Is32Bit(BusRead(s.core.mem, s.core.regs.pc, 4).1) then 4 else 2;
    if It.GateOpen(s.core.regs.it) then t
    else t.(core := t.core.(regs := t.core.regs.(pc := Wrap(s.core.regs.pc + size))))
  }

  function LoopStep(s: Machine, e: LoopEvent): Machine {
    match e
    case Interrupted(after) => after
    case Turn(pend, after, ends) =>
      var s0 := TurnStart(s, pend);
      if FetchedFields(s0).typ == Other then ForeignTurn(s0, after, ends) else ThreadStep(s0)
  }

  /** The event as the IT machine sees it. */
  function EventView(s: Machine, e: LoopEvent): It.Instr {
    match e
    case Interrupted(after) => It.Handled(after.core.regs.it)
    case Turn(pend, after, ends) =>
      ItE.ItemView(FetchedState(TurnStart(s, pend)), TurnItem(TurnStart(s, pend), after, ends))
  }

  /** Whether the IT gate lets it happen. */
  predicate EventRuns(s: Machine, e: LoopEvent) {
    match e
    case Interrupted(_) => true
    case Turn(pend, after, ends) =>
      ItE.ItemRuns(FetchedState(TurnStart(s, pend)), TurnItem(TurnStart(s, pend), after, ends))
  }

  /** The instruction, if it is IT, has a mask the length table knows. */
  predicate MaskKnown(s: Machine, e: LoopEvent) {
    e.Turn? ==>
      var f := FetchedFields(TurnStart(s, e.pend));
      f.typ == T16_IT ==> It.Accepted(f.imm)
  }

  function LoopViews(s: Machine, es: seq<LoopEvent>): (vs: seq<It.Instr>)
    ensures |vs| == |es|
    decreases |es|
  {
    if es == [] then [] else [EventView(s, es[0])] + LoopViews(LoopStep(s, es[0]), es[1..])
  }

  function LoopDecisions(s: Machine, es: seq<LoopEvent>): seq<bool>
    decreases |es|
  {
    if es == [] then [] else [EventRuns(s, es[0])] + LoopDecisions(LoopStep(s, es[0]), es[1..])
  }

  /** Every event is possible where it happens, and every IT instruction met has a known mask. */
  predicate LoopValid(s: Machine, es: seq<LoopEvent>)
    decreases |es|
  {
    es == []
    || (EventValid(s, es[0]) && MaskKnown(s, es[0]) && LoopValid(LoopStep(s, es[0]), es[1..]))
  }

  lemma DecodedItHasMask(w: word)
    ensures var f := Instruction.Decode(w); f.typ == T16_IT ==> 0 < f.imm < 16 && f.cond < 16
  {
    hide SignExtend, BranchImm, CondBranchImm, BitsOf, Is32Bit, AluType;
  }

  lemma FetchedItHasMask(s: Machine)
    ensures FetchedFields(s).typ == T16_IT ==> 0 < FetchedFields(s).imm < 16
  {
    hide Instruction.Decode, BusRead;
    DecodedItHasMask(BusRead(s.core.mem, s.core.regs.pc, 4).1);
  }

  /** One turn of a modelled instruction with nothing pending is one step of the IT machine. */
  lemma TurnIsItStep(s: Machine)
    requires NextException(s.core.pend).None?
    ensures It.CodeStep(ItE.ItProjection(s), ItE.ItView(FetchedState(s), FetchedFields(s))).0 ==
            ItE.ItProjection(ThreadStep(s))
  {
    hide CheckPending, NextException, ExecuteAt, FetchedFields;
    hide Instruct, ItE.ItView, BusRead, It.GateOpen, It.CodeStep;
    NothingTaken(s.core);
    assert s.(core := s.core) == s;
    ExecutesFetched(s);
    ItE.InstructIsItStep(FetchedState(s), FetchedFields(s));
  }

  lemma EventIsItStep(s: Machine, e: LoopEvent)
    requires EventValid(s, e)
    ensures It.CodeStep(ItE.ItProjection(s), EventView(s, e)) == (ItE.ItProjection(LoopStep(s, e)), EventRuns(s, e))
    ensures MaskKnown(s, e) ==> It.Known(EventView(s, e))
  {
    hide ThreadStep, FetchedFields, BusRead, It.CodeStep, It.Known, It.GateOpen, ItE.ItView, Instruct, It.Accepted;
    hide ItE.WithIt, AdvanceIt, Wrap, Is32Bit, NextException, InItBlock, ItE.ItemStep, ItE.ItemView, ItE.ItemRuns;
    match e {
      case Interrupted(after) =>
        InterruptedIsItStep(s, after);
      case Turn(pend, after, ends) =>
        var s0 := TurnStart(s, pend);
        var i := TurnItem(s0, after, ends);
        ItE.ItemIsItStep(FetchedState(s0), i);
        TurnMovesIt(s0, after, ends);
        FetchedItHasMask(s0);
        if MaskKnown(s, e) {
          ItE.ItemViewIsKnown(FetchedState(s0), i);
        }
    }
  }

  lemma InterruptedIsItStep(s: Machine, after: Machine)
    requires EventValid(s, Interrupted(after))
    ensures It.CodeStep(ItE.ItProjection(s), It.Handled(after.core.regs.it)) == (ItE.ItProjection(after), true)
    ensures It.Known(It.Handled(after.core.regs.it))
  {
  }

  /** Fetching and moving PC leave the IT state alone. */
  lemma TurnMovesIt(s: Machine, after: Machine, ends: bool)
    requires NextException(s.core.pend).None?
    ensures var t := if FetchedFields(s).typ == Other then ForeignTurn(s, after, ends) else ThreadStep(s);
            ItE.ItProjection(t) == ItE.ItProjection(ItE.ItemStep(FetchedState(s), TurnItem(s, after, ends)))
  {
    hide ThreadStep, FetchedFields, BusRead, It.CodeStep, It.GateOpen, ItE.ItView, Instruct, AdvanceIt;
    hide Wrap, Is32Bit, NextException, InItBlock;
    if FetchedFields(s).typ != Other {
      TurnIsItStep(s);
      ItE.InstructIsItStep(FetchedState(s), FetchedFields(s));
    }
  }

  lemma {:induction false} LoopIsItRun(s: Machine, es: seq<LoopEvent>)
    requires LoopValid(s, es)
    ensures It.CodeRun(ItE.ItProjection(s), LoopViews(s, es)).1 == LoopDecisions(s, es)
    ensures forall k :: 0 <= k < |es| ==> It.Known(LoopViews(s, es)[k])
    decreases |es|
  {
    hide LoopStep, ItE.ItProjection, EventView, EventRuns, MaskKnown, EventValid, It.CodeStep, It.Known;
    if es != [] {
      EventIsItStep(s, es[0]);
      LoopIsItRun(LoopStep(s, es[0]), es[1..]);
      var v, rest := EventView(s, es[0]), LoopViews(LoopStep(s, es[0]), es[1..]);
      assert LoopViews(s, es) == [v] + rest && ([v] + rest)[1..] == rest;
      forall k | 0 <= k < |es| ensures It.Known(LoopViews(s, es)[k]) {
        if k > 0 {
          assert LoopViews(s, es)[k] == rest[k - 1];
        }
      }
    }
  }

  /** Code in memory, run by the loop from outside IT blocks, for any number of turns, wherever
      branches lead, with exceptions handled anywhere in between: the loop executes exactly the
      instructions ITSTATE selects if and only if every slot left of a block in which an SVC was
      executed or an exception handled has an open gate. */
  lemma {:induction false} LoopMeetsItState(s: Machine, es: seq<LoopEvent>)
    requires !InItBlock(s.core.regs.it) && LoopValid(s, es)
    ensures LoopDecisions(s, es) == It.ArchRun(ItE.StartState(s), LoopViews(s, es)).1
            <==> It.CutsHarmless(ItE.StartState(s), LoopViews(s, es), false)
  {
    hide It.CodeRun, It.ArchRun, LoopDecisions, LoopViews, LoopValid, It.Known, It.CutsHarmless;
    LoopIsItRun(s, es);
    It.ItMachineRefines(ItE.ItProjection(s), ItE.StartState(s), LoopViews(s, es));
  }

  /** And it executes exactly the instructions that testing the current flags in each slot selects if
      and only if every slot's condition has the value it had at the IT instruction, or true in the
      rest of a block that was cut short. */
  lemma {:induction false} LoopMeetsLiveFlags(s: Machine, es: seq<LoopEvent>)
    requires !InItBlock(s.core.regs.it) && LoopValid(s, es)
    ensures LoopDecisions(s, es) == It.LiveDecisions(ItE.StartState(s), LoopViews(s, es))
            <==> It.GatesMatchLive(ItE.StartState(s), LoopViews(s, es), false)
  {
    hide It.CodeRun, It.LiveDecisions, LoopDecisions, LoopViews, LoopValid, It.Known, It.GatesMatchLive;
    LoopIsItRun(s, es);
    It.LiveFlagsExactly(ItE.ItProjection(s), ItE.StartState(s), LoopViews(s, es));
  }

  /** An exception that is nested to any depth and returned from, as the theorem on nested exceptions
      describes it, is such an interruption, and the code goes on at the instruction it was about to
      execute. */
  lemma {:induction false} NestedExceptionInterrupts(s: Machine, live: seq<Nest.Live>, n: word, body: seq<Nest.Event>)
    requires var t := Nest.Machine(s.core, live);
             && Nest.Inv(t) && Nest.Allowed(t, Nest.Enter(n))
             && Nest.AllowedRun(Nest.Step(t, Nest.Enter(n)), body)
             && Nest.StaysAbove(Nest.Step(t, Nest.Enter(n)), body, |live| + 1)
             && var t2 := Nest.Run(Nest.Step(t, Nest.Enter(n)), body);
                |t2.live| == |live| + 1 && Nest.Allowed(t2, Nest.Return)
    ensures var t2 := Nest.Run(Nest.Step(Nest.Machine(s.core, live), Nest.Enter(n)), body);
            var after := s.(core := Nest.Step(t2, Nest.Return).core);
            EventValid(s, Interrupted(after)) && after.core.regs.pc == s.core.regs.pc
  {
    hide Nest.Step, Nest.Run, Nest.Inv, Nest.Allowed, Nest.AllowedRun, Nest.StaysAbove, InItBlock;
    Nest.NestedExceptionsInvisible(Nest.Machine(s.core, live), n, body);
    var t2 := Nest.Run(Nest.Step(Nest.Machine(s.core, live), Nest.Enter(n)), body);
    SamePcAndFlags(Nest.Step(t2, Nest.Return).core.regs, s.core.regs);
  }

  lemma SamePcAndFlags(r: Regs, q: Regs)
    requires Nest.ContextOf(r) == Nest.ContextOf(q)
    ensures r.pc == q.pc && r.psr == q.psr
  {
  }

  // --- arithmetic and comparisons in code run by the loop ---

  lemma ArithmeticIsShort(sub: bool, rd: nat, rn: nat, rm: nat, op: nat)
    requires rd < 8 && rn < 8 && rm < 8 && op < 16
    ensures EncodeAddSub(sub, rd, rn, rm) < 0x1_0000 && !Is32Bit(EncodeAddSub(sub, rd, rn, rm))
    ensures EncodeAlu(op, rd, rm) < 0x1_0000 && !Is32Bit(EncodeAlu(op, rd, rm))
  {
    hide EncodeAddSub, EncodeAlu;
    AddSubBits(sub, rd, rn, rm);
    AluBits(op, rd, rm);
  }

  lemma DataBody(s: Machine, f: Fields)
    requires ListValid(f) && IsT16Data(f.typ)
    ensures Body(s, f) == s.(core := s.core.(regs := DataProcessing(s.core.regs, f)))
    ensures !BodyMovesPc(s.core, f)
  {
    hide DataProcessing;
  }

  /** CMP then B<cond> in memory: two turns later the loop is at the branch target exactly when the
      condition holds after the comparison, else behind the branch. */
  lemma {:induction false} CompareAndBranchInMemory(s: Machine, rn: nat, rm: nat, cond: nat, off: int)
    requires rn < 8 && rm < 8 && cond < 14 && -0x100 <= off < 0x100 && off % 2 == 0
    requires NextException(s.core.pend).None? && !InItBlock(s.core.regs.it)
    requires CodeAt(s.core.mem, s.core.regs.pc, EncodeAlu(10, rn, rm))
    requires CodeAt(s.core.mem, Wrap(s.core.regs.pc + 2), EncodeBCond(cond, off))
    ensures var r := s.core.regs;
            var psr := Alu.UpdateFlags(r.psr, Alu.Subs(ReadReg(r, rn), ReadReg(r, rm)));
            ThreadStep(ThreadStep(s)).core.regs.pc ==
            if Alu.CheckCondition(psr, cond) then Wrap(Wrap(r.pc + 2) + 4 + off) else Wrap(Wrap(r.pc + 2) + 2)
  {
    hide NextException, CheckPending, ExecuteAt, Instruction.Decode, CodeAt;
    hide EncodeAlu, EncodeBCond, Body, BodyMovesPc, Wrap;
    hide Alu.UpdateFlags, Alu.Subs, Alu.CheckCondition, Br.Fetched, InItBlock, Is32Bit, ReadReg;
    NothingTaken(s.core);
    assert s.(core := s.core) == s;
    ExecuteCompare(s, rn, rm);
    var t := ThreadStep(s);
    NothingTaken(t.core);
    assert t.(core := t.core) == t;
    ExecuteCondBranch(t, cond, off);
  }

  lemma ExecuteCompare(s: Machine, rn: nat, rm: nat)
    requires rn < 8 && rm < 8 && !InItBlock(s.core.regs.it)
    requires CodeAt(s.core.mem, s.core.regs.pc, EncodeAlu(10, rn, rm))
    ensures var r := s.core.regs;
            var psr := Alu.UpdateFlags(r.psr, Alu.Subs(ReadReg(r, rn), ReadReg(r, rm)));
            ExecuteAt(s) == s.(core := s.core.(regs := r.(psr := psr, pc := Wrap(r.pc + 2))))
  {
    hide ExecuteAt, Instruction.Decode, CodeAt, EncodeAlu, Body, BodyMovesPc;
    hide Wrap, Alu.UpdateFlags, Alu.Subs, InItBlock, Is32Bit, ReadReg;
    ArithmeticIsShort(false, rn, 0, rm, 10);
    AluDecodes(10, rn, rm);
    ExecuteShort(s, EncodeAlu(10, rn, rm));
    DataBody(s, DecodeWord(EncodeAlu(10, rn, rm)));
  }

  lemma ExecuteCondBranch(s: Machine, cond: nat, off: int)
    requires cond < 14 && -0x100 <= off < 0x100 && off % 2 == 0 && !InItBlock(s.core.regs.it)
    requires CodeAt(s.core.mem, s.core.regs.pc, EncodeBCond(cond, off))
    ensures ExecuteAt(s).core.regs.pc ==
            if Alu.CheckCondition(s.core.regs.psr, cond) then Wrap(s.core.regs.pc + 4 + off)
            else Wrap(s.core.regs.pc + 2)
  {
    hide ExecuteAt, Instruction.Decode, CodeAt, EncodeBCond, Body;
    hide BodyMovesPc, Wrap, Alu.CheckCondition, InItBlock, Is32Bit;
    hide Br.ExecuteBranch;
    CondBits(cond, off);
    ShortBits(EncodeBCond(cond, off));
    ShortCondBranchDecodes(cond, off);
    Br.BCondReaches(s.core, cond, off);
    ExecuteShort(s, EncodeBCond(cond, off));
    BranchBody(s, DecodeWord(EncodeBCond(cond, off)));
  }

  /** A 16-bit adder, subtractor or compare in memory, outside an IT block. */
  lemma ExecuteData(s: Machine, i: word, f: Fields)
    requires i < 0x1_0000 && !Is32Bit(i) && CodeAt(s.core.mem, s.core.regs.pc, i) && !InItBlock(s.core.regs.it)
    requires IsT16Data(f.typ) && SameOperands(Instruction.Decode(i), f)
    ensures var r := DataProcessing(s.core.regs, f);
            ExecuteAt(s) == s.(core := s.core.(regs := r.(pc := Wrap(s.core.regs.pc + 2))))
  {
    hide ExecuteAt, Instruction.Decode, CodeAt, Body, BodyMovesPc, Wrap, InItBlock, Is32Bit, DataProcessing;
    ExecuteShort(s, i);
    DataBody(s, DecodeWord(i));
    OperandsDecide(s.core.regs, DecodeWord(i), f);
  }

  /** The fields ADD, SUB, ADC, SBC and CMP of registers look at. */
  predicate SameOperands(f: Fields, g: Fields) {
    f.typ == g.typ && f.rd == g.rd && f.rm == g.rm && (f.rn == g.rn || f.typ == T16_ADC || f.typ == T16_SBC)
    && f.typ != T16_CMP_IMM
  }

  lemma OperandsDecide(r: Regs, f: Fields, g: Fields)
    requires SameOperands(f, g)
    ensures DataProcessing(r, f) == DataProcessing(r, g)
  {
    hide UpdateFlags, WriteReg, ReadReg, Adds, Subs, Adcs, SbcsT16;
  }

  /** ADD lo, lo, lo2 then ADC hi, hi2 in memory: two turns later the register pair holds the 64-bit
      sum, with its carry in C. */
  lemma {:induction false} PairAdditionInMemory(s: Machine, lo: nat, hi: nat, lo2: nat, hi2: nat)
    requires lo < 8 && hi < 8 && lo2 < 8 && hi2 < 8 && lo != hi && lo != hi2
    requires NextException(s.core.pend).None? && !InItBlock(s.core.regs.it)
    requires CodeAt(s.core.mem, s.core.regs.pc, EncodeAddSub(false, lo, lo, lo2))
    requires CodeAt(s.core.mem, Wrap(s.core.regs.pc + 2), EncodeAlu(5, hi, hi2))
    ensures var r, r2 := s.core.regs, ThreadStep(ThreadStep(s)).core.regs;
            && PairValue(r2, lo, hi) + TWO32 * TWO32 * Alu.Bit(FlagC(r2.psr)) ==
               PairValue(r, lo, hi) + PairValue(r, lo2, hi2)
            && r2.pc == Wrap(Wrap(r.pc + 2) + 2)
  {
    hide NextException, CheckPending, ExecuteAt, Instruction.Decode, CodeAt;
    hide EncodeAlu, EncodeAddSub, Body, BodyMovesPc, Wrap;
    hide DataProcessing, InItBlock, Is32Bit, FlagC;
    NothingTaken(s.core);
    assert s.(core := s.core) == s;
    ArithmeticIsShort(false, lo, lo, lo2, 5);
    ArithmeticIsShort(false, hi, 0, hi2, 5);
    AddSubDecodes(false, lo, lo, lo2);
    AluDecodes(5, hi, hi2);
    ItE.DataIt(s.core.regs, DataFields(T16_ADD_REG, lo, lo, lo2));
    ExecuteData(s, EncodeAddSub(false, lo, lo, lo2), DataFields(T16_ADD_REG, lo, lo, lo2));
    var t := ThreadStep(s);
    NothingTaken(t.core);
    assert t.(core := t.core) == t;
    ExecuteData(t, EncodeAlu(5, hi, hi2), DataFields(T16_ADC, hi, 0, hi2));
    DataIgnoresPc(DataProcessing(s.core.regs, DataFields(T16_ADD_REG, lo, lo, lo2)), Wrap(s.core.regs.pc + 2), hi, hi2);
    PairAddition(s.core.regs, lo, hi, lo2, hi2);
  }

  lemma DataIgnoresPc(r: Regs, pc: word, rd: nat, rm: nat)
    requires rd < 8 && rm < 8
    ensures var f := DataFields(T16_ADC, rd, 0, rm);
            DataProcessing(r.(pc := pc), f) == DataProcessing(r, f).(pc := pc)
  {
    hide UpdateFlags, Adcs, FlagC;
  }

  /** A decoded 16-bit adder or subtractor in memory, outside an IT block. */
  lemma ExecuteDecoded(s: Machine, i: word)
    requires i < 0x1_0000 && !Is32Bit(i) && CodeAt(s.core.mem, s.core.regs.pc, i) && !InItBlock(s.core.regs.it)
    requires IsT16Data(Instruction.Decode(i).typ)
    ensures var t := Ar.Executed(s, i);
            ExecuteAt(s) == t.(core := t.core.(regs := t.core.regs.(pc := Wrap(s.core.regs.pc + 2))))
  {
    hide ExecuteAt, Instruction.Decode, CodeAt, Body, BodyMovesPc, Wrap, InItBlock, Is32Bit, DataProcessing;
    ExecuteShort(s, i);
    DataBody(s, DecodeWord(i));
  }

  /** The difference of two two-word numbers, word by word. */
  lemma PairDifference(x: word, xh: word, y: word, yh: word)
    ensures var a, b: nat, d := x + TWO32 * xh, y + TWO32 * yh, Alu.Bit(x < y);
            && (a >= b <==> xh >= yh + d)
            && Wrap(x - y) + TWO32 * Wrap(xh - yh - d) == a - b + if a < b then TWO32 * TWO32 else 0
  {
    var d := Alu.Bit(x < y);
    assert Wrap(x - y) == x - y + TWO32 * d;
    assert Wrap(xh - yh - d) == xh - yh - d + if xh < yh + d then TWO32 else 0;
  }

  /** SUB lo, lo, lo2 then SBC hi, hi2 in memory: two turns later the register pair holds the 64-bit
      difference, modulo 2^64; C tells whether there was no borrow if and only if the high words are not
      both 0xFFFFFFFF while the low words borrow. */
  lemma {:induction false} PairSubtractionInMemory(s: Machine, lo: nat, hi: nat, lo2: nat, hi2: nat)
    requires lo < 8 && hi < 8 && lo2 < 8 && hi2 < 8 && lo != hi && lo != hi2
    requires NextException(s.core.pend).None? && !InItBlock(s.core.regs.it)
    requires CodeAt(s.core.mem, s.core.regs.pc, EncodeAddSub(true, lo, lo, lo2))
    requires CodeAt(s.core.mem, Wrap(s.core.regs.pc + 2), EncodeAlu(6, hi, hi2))
    ensures var r, r2 := s.core.regs, ThreadStep(ThreadStep(s)).core.regs;
            var a, b := PairValue(r, lo, hi), PairValue(r, lo2, hi2);
            && PairValue(r2, lo, hi) == a - b + (if a < b then TWO32 * TWO32 else 0)
            && ((FlagC(r2.psr) <==> a >= b) <==>
                !(r.gpr[hi] == 0xFFFF_FFFF && r.gpr[hi2] == 0xFFFF_FFFF && r.gpr[lo] < r.gpr[lo2]))
            && r2.pc == Wrap(Wrap(r.pc + 2) + 2)
  {
    hide NextException, CheckPending, ExecuteAt, Instruction.Decode, CodeAt, EncodeAlu, EncodeAddSub, Wrap;
    hide InItBlock, Is32Bit, FlagC, Ar.Executed, Ar.DifferenceSigns;
    NothingTaken(s.core);
    assert s.(core := s.core) == s;
    ArithmeticIsShort(true, lo, lo, lo2, 6);
    ArithmeticIsShort(true, hi, 0, hi2, 6);
    AddSubDecodes(true, lo, lo, lo2);
    AluDecodes(6, hi, hi2);
    ExecuteDecoded(s, EncodeAddSub(true, lo, lo, lo2));
    Ar.SubComputes(s, lo, lo, lo2);
    var t := ThreadStep(s);
    NothingTaken(t.core);
    assert t.(core := t.core) == t;
    ExecuteDecoded(t, EncodeAlu(6, hi, hi2));
    Ar.SbcComputes(t, hi, hi2);
    PairDifference(s.core.regs.gpr[lo], s.core.regs.gpr[hi], s.core.regs.gpr[lo2], s.core.regs.gpr[hi2]);
  }

  /** A wide instruction of the data-processing group in memory, outside an IT block. */
  lemma ExecuteWide(s: Machine, x: Shifted)
    requires Encodable(x) && IsT32Data(ShiftedType(x.op, x.rd, x.setFlags)) && !InItBlock(s.core.regs.it)
    requires InRegion(s.core.regs.pc, 4) && LoadWord(s.core.mem, s.core.regs.pc) == EncodeShifted(x)
    ensures var t := Ar.Executed(s, EncodeShifted(x));
            ExecuteAt(s) == t.(core := t.core.(regs := t.core.regs.(pc := Wrap(s.core.regs.pc + 4))))
  {
    hide ExecuteAt, Instruction.Decode, Body, Wrap, InItBlock, Is32Bit, EncodeShifted, Encodable, InRegion, LoadWord;
    hide ShiftedType;
    ShiftedDecodes(x);
    ExecuteFetched(s, EncodeShifted(x));
  }

  function WideOf(op: nat, rd: nat, rn: nat, rm: nat): Shifted { Shifted(op, true, rn, rd, rm, 0, 0) }

  /** SUBS.W lo, lo, lo2 then SBCS.W hi, hi, hi2 in memory: the 64-bit difference modulo 2^64, with C set
      exactly when there was no borrow, eight bytes further on. */
  lemma {:induction false} WidePairSubtractionInMemory(s: Machine, lo: nat, hi: nat, lo2: nat, hi2: nat)
    requires lo < 13 && hi < 13 && lo2 < 13 && hi2 < 13 && lo != hi && lo != hi2
    requires NextException(s.core.pend).None? && !InItBlock(s.core.regs.it)
    requires InRegion(s.core.regs.pc, 8)
    requires LoadWord(s.core.mem, s.core.regs.pc) == EncodeShifted(WideOf(Ar.SUB_OP, lo, lo, lo2))
    requires LoadWord(s.core.mem, s.core.regs.pc + 4) == EncodeShifted(WideOf(Ar.SBC_OP, hi, hi, hi2))
    ensures var r, r2 := s.core.regs, ThreadStep(ThreadStep(s)).core.regs;
            var a, b := PairValue(r, lo, hi), PairValue(r, lo2, hi2);
            && PairValue(r2, lo, hi) == a - b + (if a < b then TWO32 * TWO32 else 0)
            && (FlagC(r2.psr) <==> a >= b) && r2.pc == r.pc + 8
  {
    hide NextException, CheckPending, ExecuteAt, LoadWord, EncodeShifted, InItBlock, FlagC, Ar.Executed;
    hide Ar.DifferenceSigns, ApplyShift;
    NothingTaken(s.core);
    assert s.(core := s.core) == s;
    var x, y := WideOf(Ar.SUB_OP, lo, lo, lo2), WideOf(Ar.SBC_OP, hi, hi, hi2);
    ExecuteWide(s, x);
    Ar.WideDataComputes(s, x);
    Unshifted(s.core.regs.gpr[lo2]);
    WrapWord(s.core.regs.pc + 4);
    var t := ThreadStep(s);
    NothingTaken(t.core);
    assert t.(core := t.core) == t;
    ExecuteWide(t, y);
    Ar.WideDataComputes(t, y);
    Unshifted(t.core.regs.gpr[hi2]);
    WrapWord(s.core.regs.pc + 8);
    PairDifference(s.core.regs.gpr[lo], s.core.regs.gpr[hi], s.core.regs.gpr[lo2], s.core.regs.gpr[hi2]);
  }

  lemma Unshifted(v: word)
    ensures ApplyShift(v, 0, 0) == v
  {
  }

  // --- register lists and skipped instructions in code run by the loop ---

  lemma MultipleBodyOf(s: Machine, f: Fields)
    requires ListValid(f) && IsMultiple(f.typ)
    ensures Body(s, f) == s.(core := MultipleBody(s.core, f))
    ensures BodyMovesPc(s.core, f) <==>
            (f.typ == T16_POP || f.typ == T32_LDMIA || f.typ == T32_LDMDB) && 15 in f.regList
  {
    hide MultipleBody, Br.ExecuteBranch;
  }

  /** A 32-bit STM or LDM in memory, with or without a write-back bit: one turn later the list has been
      transferred and the base written back; PC is the word loaded into it if the list of an LDM names
      it, else it is four bytes further on. */
  lemma {:induction false} WideMultipleInMemory(s: Machine, down: bool, load: bool, writeBack: bool, rn: nat, mask: nat)
    requires rn < 16 && mask < 0x1_0000 && NextException(s.core.pend).None? && !InItBlock(s.core.regs.it)
    requires InRegion(s.core.regs.pc, 4)
    requires LoadWord(s.core.mem, s.core.regs.pc) == EncodeMultiple(down, load, writeBack, rn, mask)
    ensures var c := T32Multiple(s.core, load, if down then DecrementBefore else IncrementAfter, rn, ListOf(mask));
            ThreadStep(s) ==
            s.(core := if load && 15 in ListOf(mask) then c else c.(regs := c.regs.(pc := Wrap(s.core.regs.pc + 4))))
  {
    hide NextException, CheckPending, ExecuteAt, LoadWord, EncodeMultiple, InItBlock, T32Multiple, ListOf, Wrap, Body;
    hide Instruction.Decode, InRegion, ListValid, Is32Bit, BodyMovesPc;
    NothingTaken(s.core);
    assert s.(core := s.core) == s;
    MultipleDecodes(down, load, writeBack, rn, mask);
    MultipleIsWide(down, load, writeBack, rn, mask);
    ExecuteFetched(s, EncodeMultiple(down, load, writeBack, rn, mask));
    MultipleBodyOf(s, DecodeWord(EncodeMultiple(down, load, writeBack, rn, mask)));
  }

  lemma MultipleIsWide(down: bool, load: bool, writeBack: bool, rn: nat, mask: nat)
    requires rn < 16 && mask < 0x1_0000
    ensures Is32Bit(EncodeMultiple(down, load, writeBack, rn, mask))
  {
    hide Halves;
    var first: nat :=
      (if down then 0xE900 else 0xE880) + (if writeBack then 0x20 else 0) + (if load then 0x10 else 0) + rn;
    assert first / 0x800 == 0x1D;
    HalvesSplit(first, mask);
  }

  /** A 16-bit STMIA or LDMIA in memory: the list is transferred and PC moves on by two bytes. */
  lemma {:induction false} ShortMultipleInMemory(s: Machine, load: bool, rn: nat, l: RegList)
    requires rn < 8 && (forall j :: j in l ==> j < 8)
    requires NextException(s.core.pend).None? && !InItBlock(s.core.regs.it)
    requires CodeAt(s.core.mem, s.core.regs.pc, EncodeShortMultiple(load, rn, l))
    ensures var c := T16Multiple(s.core, load, rn, l);
            ThreadStep(s) == s.(core := c.(regs := c.regs.(pc := Wrap(s.core.regs.pc + 2))))
  {
    hide NextException, CheckPending, ExecuteAt, CodeAt, EncodeShortMultiple, InItBlock, T16Multiple, Wrap, Body;
    hide Instruction.Decode, ListValid, Is32Bit, BodyMovesPc;
    NothingTaken(s.core);
    assert s.(core := s.core) == s;
    ShortMultipleDecodes(load, rn, l);
    ShortMultipleIsShort(load, rn, l);
    ExecuteShort(s, EncodeShortMultiple(load, rn, l));
    MultipleBodyOf(s, DecodeWord(EncodeShortMultiple(load, rn, l)));
  }

  lemma ShortMultipleIsShort(load: bool, rn: nat, l: set<nat>)
    requires rn < 8
    ensures EncodeShortMultiple(load, rn, l) < 0x1_0000 && !Is32Bit(EncodeShortMultiple(load, rn, l))
  {
    hide LowMask;
    ShortMultipleBits(load, rn, LowMask(l));
  }

  /** Whatever is decoded at PC, in an IT block or not: unless it is a branch, or a POP or LDM of PC, the
      loop goes on behind it. */
  lemma {:induction false} OthersMoveOn(s: Machine, w: word)
    requires NextException(s.core.pend).None?
    requires InRegion(s.core.regs.pc, 4) && LoadWord(s.core.mem, s.core.regs.pc) == w
    requires var f := Instruction.Decode(w); !IsBranch(f.typ) && !(IsMultiple(f.typ) && 15 in f.regList)
    ensures ThreadStep(s).core.regs.pc == Wrap(s.core.regs.pc + if w % 0x1_0000 >= 0xE800 then 4 else 2)
  {
    hide NextException, CheckPending, InItBlock, Instruct, Instruction.Decode, InRegion, AdvanceIt, Wrap, BusRead;
    hide It.GateOpen, Br.ExecuteBranch;
    NothingTaken(s.core);
    assert s.(core := s.core) == s;
    LoadInRegion(s.core.mem, s.core.regs.pc);
    WideFromE800(w);
    assert s.(core := s.core.(mem := s.core.mem)) == s;
  }

  /** Whatever lies at PC - other than IT, which is never skipped - in a closed slot of an IT block: one
      turn later PC is behind it, by two bytes or by four if its first five bits are 11101, 11110 or
      11111, the block is one slot on, and nothing else has changed. */
  lemma {:induction false} SkippedInMemory(s: Machine, w: word)
    requires NextException(s.core.pend).None? && InItBlock(s.core.regs.it) && !It.GateOpen(s.core.regs.it)
    requires InRegion(s.core.regs.pc, 4) && LoadWord(s.core.mem, s.core.regs.pc) == w
    requires Instruction.Decode(w).typ != T16_IT
    ensures var r := s.core.regs;
            var size := if w % 0x1_0000 >= 0xE800 then 4 else 2;
            ThreadStep(s) == s.(core := s.core.(regs := r.(it := AdvanceIt(r.it), pc := Wrap(r.pc + size))))
  {
    hide NextException, CheckPending, InItBlock, Body, BodyMovesPc, Instruction.Decode, InRegion, AdvanceIt, Wrap;
    hide It.GateOpen, BusRead;
    NothingTaken(s.core);
    assert s.(core := s.core) == s;
    LoadInRegion(s.core.mem, s.core.regs.pc);
    WideFromE800(w);
    assert s.(core := s.core.(mem := s.core.mem)) == s;
  }

  lemma WideFromE800(w: word)
    ensures Is32Bit(w) <==> w % 0x1_0000 >= 0xE800
  {
  }

  // --- the exclusive monitor in code run by the loop ---

  /** LDREX rt, [rn, #imm] in memory, outside an IT block: one turn later rt holds the word at rn + imm,
      the monitor that address, and the loop is four bytes further on. */
  lemma {:induction false} LdrexInMemory(s: Machine, rt: nat, rn: nat, imm: nat)
    requires rt < 15 && rn < 15 && imm < 0x400 && imm % 4 == 0
    requires NextException(s.core.pend).None? && !InItBlock(s.core.regs.it)
    requires InRegion(s.core.regs.pc, 4) && LoadWord(s.core.mem, s.core.regs.pc) == EncodeLdrex(rt, rn, imm)
    requires InRegion(Wrap(ReadReg(s.core.regs, rn) + imm), 4)
    ensures var a, t := Wrap(ReadReg(s.core.regs, rn) + imm), ThreadStep(s);
            && ReadReg(t.core.regs, rt) ==
               ByteAt(s.core.mem, a, 0) + 0x100 * ByteAt(s.core.mem, a, 1)
               + 0x1_0000 * ByteAt(s.core.mem, a, 2) + 0x100_0000 * ByteAt(s.core.mem, a, 3)
            && t.monitor == Monitor(true, a, 4) && t.core.mem == s.core.mem
            && t.core.regs.pc == Wrap(s.core.regs.pc + 4)
  {
    hide NextException, CheckPending, ExecuteAt, LoadWord, EncodeLdrex, InItBlock, ReadReg, Instruct, ByteAt, Wrap;
    hide Instruction.Decode, InRegion, ListValid;
    NothingTaken(s.core);
    assert s.(core := s.core) == s;
    LdrexDecodes(rt, rn, imm);
    LdrexIsWide(rt, rn, imm);
    LdrexTurn(s, rt, rn, imm);
    var f := DecodeWord(EncodeLdrex(rt, rn, imm));
    OutsideRuns(s, f);
    Ex.LoadExclusiveReads(s, f);
    PcIsApart(Instruct(s, f).core.regs, Wrap(s.core.regs.pc + 4), rt);
  }

  lemma LdrexIsWide(rt: nat, rn: nat, imm: nat)
    requires rt < 16 && rn < 16 && imm < 0x400 && imm % 4 == 0
    ensures Is32Bit(EncodeLdrex(rt, rn, imm))
  {
    hide Halves, Is32Bit;
    ExclusiveFirst(false, rn);
    ExclusiveSecond(rt, 15, imm);
    DecodeExclusiveHalves(0xE850 + rn, rt * 0x1000 + 15 * 0x100 + imm / 4);
  }

  lemma LdrexTurn(s: Machine, rt: nat, rn: nat, imm: nat)
    requires rt < 15 && rn < 15 && imm < 0x400 && imm % 4 == 0 && !InItBlock(s.core.regs.it)
    requires InRegion(s.core.regs.pc, 4) && LoadWord(s.core.mem, s.core.regs.pc) == EncodeLdrex(rt, rn, imm)
    ensures var t := Instruct(s, DecodeWord(EncodeLdrex(rt, rn, imm)));
            ExecuteAt(s) == t.(core := t.core.(regs := t.core.regs.(pc := Wrap(s.core.regs.pc + 4))))
  {
    hide ExecuteAt, LoadWord, EncodeLdrex, InItBlock, Body, Wrap, Instruction.Decode, InRegion, Is32Bit;
    LdrexDecodes(rt, rn, imm);
    LdrexIsWide(rt, rn, imm);
    ExecuteFetched(s, EncodeLdrex(rt, rn, imm));
  }

  lemma OutsideRuns(s: Machine, f: Fields)
    requires !InItBlock(s.core.regs.it)
    ensures Ex.LetThrough(s, f)
  {
  }

  lemma PcIsApart(r: Regs, pc: word, i: nat)
    requires i < 15
    ensures ReadReg(r.(pc := pc), i) == ReadReg(r, i)
  {
  }

  /** A turn of the loop is a run of the events the exclusive results speak of: the check for
      pending exceptions, the fetch, the instruction, and the update of PC. */
  lemma TurnIsEvents(s: Machine)
    ensures var taken := s.(core := CheckPending(s.core));
            var f := FetchedFields(taken);
            var fetched, moved := Ex.Outside(FetchedState(taken).core), Ex.Outside(ThreadStep(s).core);
            var es := [Ex.TakePending, fetched, Ex.Instr(f), moved];
            Ex.AllValid(es) && Ex.Run(s, es) == ThreadStep(s)
  {
    hide CheckPending, ExecuteAt, FetchedFields, Instruct, BusRead, Ex.Run, Ex.AllValid, TryExceptionReturn, Signal;
    hide ListValid;
    var taken := s.(core := CheckPending(s.core));
    var f := FetchedFields(taken);
    var e0, e1 := Ex.TakePending, Ex.Outside(FetchedState(taken).core);
    var e2, e3 := Ex.Instr(f), Ex.Outside(ThreadStep(s).core);
    assert Ex.Valid(e2);
    FourEvents(s, e0, e1, e2, e3);
    hide Ex.Valid, FetchedState;
    LastEvents(taken, f);
    assert Ex.Step(s, e0) == taken;
  }

  lemma LastEvents(taken: Machine, f: Fields)
    requires f == FetchedFields(taken)
    ensures ListValid(f)
    ensures var e1, e3 := Ex.Outside(FetchedState(taken).core), Ex.Outside(ExecuteAt(taken).core);
            Ex.Step(Ex.Step(Ex.Step(taken, e1), Ex.Instr(f)), e3) == ExecuteAt(taken)
  {
    hide CheckPending, ExecuteAt, FetchedFields, Instruct, BusRead, TryExceptionReturn, Signal;
    ExecutesFetched(taken);
    assert Ex.Step(taken, Ex.Outside(FetchedState(taken).core)) == FetchedState(taken);
  }

  lemma FourEvents(s: Machine, e0: Ex.Event, e1: Ex.Event, e2: Ex.Event, e3: Ex.Event)
    requires Ex.Valid(e0) && Ex.Valid(e1) && Ex.Valid(e2) && Ex.Valid(e3)
    ensures Ex.AllValid([e0, e1, e2, e3])
    ensures Ex.Run(s, [e0, e1, e2, e3]) == Ex.Step(Ex.Step(Ex.Step(Ex.Step(s, e0), e1), e2), e3)
  {
    hide Ex.Step, Ex.Valid;
    assert [e0, e1, e2, e3][..3] == [e0, e1, e2] && [e0, e1, e2][..2] == [e0, e1];
    assert [e0, e1][..1] == [e0] && [e0][..0] == [];
    assert Ex.Run(s, [e0]) == Ex.Step(s, e0);
    assert Ex.Run(s, [e0, e1]) == Ex.Step(Ex.Step(s, e0), e1);
    assert Ex.Run(s, [e0, e1, e2]) == Ex.Step(Ex.Step(Ex.Step(s, e0), e1), e2);
  }
}
