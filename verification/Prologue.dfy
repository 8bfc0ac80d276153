/** Exception handlers written as ordinary functions: PUSH {L, LR} on the way in and
    POP {L, PC} on the way out, the EXC_RETURN value travelling through the stack. */
module Prologue {
  import opened Words
  import opened Registers
  import opened Memory
  import opened BusCtrl
  import opened DataPort
  import opened WordAccess
  import opened Cpu
  import opened Nesting
  import opened Multiple
  import Ins = Instruction
  import It = ItBlock
  import Ex = Execute

  /** The low registers. */
  predicate LowList(l: RegList) { forall j :: j in l ==> j < 8 }

  // --- the list operations ---

  /** Entry, and the registers pushed. */
  function Stacked(c: Core, n: word, l: RegList): Core {
    Push(EnterException(c, n), l + {14})
  }

  /** What a handler that interrupted `f` and pushed up to `c1` owes in `c2`, before it pops: the
      saved words, the exception frame, both stack pointers and CONTROL as they were, and r4-r11
      outside `l` untouched. */
  ghost predicate Behaved(f: Frame, c1: Core, l: RegList, c2: Core) {
    && KeptForPop(c1, c2, Count(l + {14}, 0))
    && FrameIntact(c2.mem, f)
    && c2.regs.control == c1.regs.control
    && OtherSp(c2.regs) == OtherSp(c1.regs)
    && forall i :: 4 <= i < 12 && i !in l ==> c2.regs.gpr[i] == c1.regs.gpr[i]
  }

  /** The EXC_RETURN value that entry left, pushed and popped into PC, brings the whole context
      back. */
  lemma {:induction false} StackedHandlerInvisible(c: Core, n: word, l: RegList, c2: Core)
    requires LowList(l)
    requires FrameMapped(c.regs) && HandlerOnMsp(c.regs) && c.regs.control < 4 && c.regs.pc % 2 == 0
    requires 0 <= PushBase(EnterException(c, n).regs, l + {14})
    requires InRegion(PushBase(EnterException(c, n).regs, l + {14}), 4 * Count(l + {14}, 0))
    requires Behaved(c.regs, Stacked(c, n, l), l, c2)
    ensures var c3 := Pop(c2, l + {15});
            && ContextOf(c3.regs) == ContextOf(c.regs)
            && (forall i :: 4 <= i < 12 ==> c3.regs.gpr[i] == c.regs.gpr[i])
            && c3.mem == c2.mem && !InItBlock(c3.regs.it)
  {
    hide EnterException, Push, Pop, ReturnFrom, LoadWord, Popped, FrameIntact, ContextOf, KeptForPop, InRegion, Count;
    var c1 := EnterException(c, n);
    var pushed := l + {14};
    LowPushList(l);
    PushPopRestores(c1, c2, pushed);
    PoppedMeaning(c1, c2, pushed);
    EntryFacts(c, n);
    PrologueKeepsMode(c, n, l);
    var r := Popped(c1, c2, pushed);
    BankedSp(r);
    BankedSp(c1.regs);
    ReturnRestores(c2.(regs := r), c.regs);
    SameContext(ReturnFrom(c2.(regs := r), ExcReturnCode(c.regs)).regs);
    forall i | 4 <= i < 12 ensures r.gpr[i] == c.regs.gpr[i] {
      assert ReadReg(r, i) == r.gpr[i];
      assert ReadReg(c1.regs, i) == c1.regs.gpr[i] && ReadReg(c2.regs, i) == c2.regs.gpr[i];
    }
  }

  lemma StackedEmptyBehaves(c: Core, n: word, l: RegList)
    requires LowList(l) && FrameMapped(c.regs)
    requires 0 <= PushBase(EnterException(c, n).regs, l + {14})
    requires InRegion(PushBase(EnterException(c, n).regs, l + {14}), 4 * Count(l + {14}, 0))
    requires Apart(PushBase(EnterException(c, n).regs, l + {14}), 4 * Count(l + {14}, 0), FrameBase(c.regs), FRAME_SIZE)
    ensures Behaved(c.regs, Stacked(c, n, l), l, Stacked(c, n, l))
  {
    hide EnterException, Push, Count, InRegion, Apart, StoreRegs, SameOutside, Holds, FrameBase, CurrentSp, Saved;
    var c0, c1 := EnterException(c, n), Stacked(c, n, l);
    var pushed := l + {14};
    var a := PushBase(c0.regs, pushed);
    LowPushList(l);
    EntryStoresFrame(c, n);
    PushShape(c0, pushed);
    StoreSaves(SetCurrentSp(c0.regs, a), c0.mem, a, pushed, 0);
    assert |FrameWords(c.regs)| == 8;
    HoldsUnchanged(c0.mem, c1.mem, a, 4 * Count(pushed, 0), FrameBase(c.regs), FrameWords(c.regs));
  }

  lemma LowPushList(l: RegList)
    requires LowList(l)
    ensures PushList(l + {14}) && PopList(l + {14}) == l + {15}
  {
    assert l + {14} - {14} + {15} == l + {15};
    forall j | j in l + {14} ensures j in LOW_AND_LR {
      assert j < 8 || j == 14;
    }
  }

  lemma EntryFacts(c: Core, n: word)
    ensures var r := EnterException(c, n).regs;
            && r.msp == PushFrameRegs(c.regs).msp && r.psp == PushFrameRegs(c.regs).psp
            && r.control == HandlerControl(c.regs) && !Spsel(r.control)
            && r.lr == ExcReturnCode(c.regs) && PopIsReturn(r.lr)
            && (forall i :: 4 <= i < 12 ==> r.gpr[i] == c.regs.gpr[i])
  {
    hide LoadWord, AfterLoad, PushFrameMem, Spsel;
  }

  lemma PrologueKeepsMode(c: Core, n: word, l: RegList)
    requires LowList(l) && 0 <= PushBase(EnterException(c, n).regs, l + {14})
    ensures var c0, c1 := EnterException(c, n), Stacked(c, n, l);
            && c1.regs.control == c0.regs.control && c1.regs.gpr == c0.regs.gpr
            && OtherSp(c1.regs) == OtherSp(c0.regs)
  {
    hide EnterException, StoreRegs;
    LowPushList(l);
    PushShape(EnterException(c, n), l + {14});
  }

  lemma BankedSp(r: Regs)
    requires !Spsel(r.control)
    ensures CurrentSp(r) == r.msp && OtherSp(r) == r.psp
  {
  }

  lemma SameContext(r: Regs)
    ensures ContextOf(r.(it := ClearIt(r.it))) == ContextOf(r)
  {
  }

  // --- POP as the return of nested runs ---

  /** The list part of a POP, the word it then loads into PC, and the state with that word in LR. */
  function PoppedList(c: Core, l: RegList): (Regs, MemState) {
    LoadRegs(c.regs, c.mem, CurrentSp(c.regs), l - {15}, LOW_AND_LR, 0)
  }

  function ReturnSlot(c: Core, l: RegList): word { Wrap(CurrentSp(c.regs) + 4 * Count(l - {15}, 0)) }

  function ReturnWord(c: Core, l: RegList): word { LoadWord(PoppedList(c, l).1, ReturnSlot(c, l)) }

  function BeforeReturn(c: Core, l: RegList): Core {
    var (r, m) := PoppedList(c, l);
    var a := ReturnSlot(c, l);
    c.(regs := SetCurrentSp(r, Wrap(a + 4)).(lr := LoadWord(m, a)), mem := AfterLoad(m, a))
  }

  /** A POP of PC that finds an EXC_RETURN value is, for runs of nested exceptions, the handler's last
      work - the list popped, SP past the word, LR set to it - and the return. */
  lemma {:induction false} PopReturnIsReturnEvent(s: Nesting.Machine, l: RegList)
    requires 15 in l && PopIsReturn(ReturnWord(s.core, l))
    ensures Step(Step(s, Work(BeforeReturn(s.core, l))), Return).core == Pop(s.core, l)
  {
    hide LoadRegs, LoadWord, AfterLoad, LoadUp, Count, Wrap, CurrentSp, SetCurrentSp;
  }

  lemma {:induction false} RunThenWork(s: Nesting.Machine, es: seq<Event>, after: Core, depth: nat)
    requires AllowedRun(s, es) && StaysAbove(s, es, depth) && Allowed(Run(s, es), Work(after))
    ensures Run(s, es + [Work(after)]) == Step(Run(s, es), Work(after))
    ensures AllowedRun(s, es + [Work(after)]) && StaysAbove(s, es + [Work(after)], depth)
    decreases |es|
  {
    hide EnterException, BranchToLr, Allowed;
    var more := es + [Work(after)];
    if es == [] {
      assert more[1..] == [];
      assert Run(Step(s, Work(after)), []) == Step(s, Work(after));
    } else {
      hide Step;
      assert more[0] == es[0] && more[1..] == es[1..] + [Work(after)];
      RunThenWork(Step(s, es[0]), es[1..], after, depth);
    }
  }

  /** The value entry left in LR is one that POP takes for an exception return. */
  lemma PoppedCode(s: Nesting.Machine, l: RegList)
    requires Inv(s) && Allowed(Step(s, Work(BeforeReturn(s.core, l))), Return)
    ensures PopIsReturn(ReturnWord(s.core, l))
  {
    hide FrameIntact, LoadRegs, LoadWord, AfterLoad, SetCurrentSp, PushFrameRegs, HandlerControl, HandlerOnMsp;
    assert EntryLeft(s.live[|s.live| - 1]);
  }

  /** So an exception whose handler is itself interrupted to any depth and returns by POP {.., PC}
      gives everything back as one that branches to LR does, if it leaves the live frames alone and
      the stack pointers and the popped word are those that entry left. */
  lemma {:induction false} NestedPopReturnsInvisible(s: Nesting.Machine, n: word, body: seq<Event>, l: RegList)
    requires Inv(s) && Allowed(s, Enter(n)) && AllowedRun(Step(s, Enter(n)), body)
    requires StaysAbove(Step(s, Enter(n)), body, |s.live| + 1)
    requires var s2 := Run(Step(s, Enter(n)), body);
             && |s2.live| == |s.live| + 1 && 15 in l && Allowed(s2, Work(BeforeReturn(s2.core, l)))
             && Allowed(Step(s2, Work(BeforeReturn(s2.core, l))), Return)
    ensures var c2 := Run(Step(s, Enter(n)), body).core;
            var c3 := Pop(c2, l);
            && ContextOf(c3.regs) == ContextOf(s.core.regs) && !InItBlock(c3.regs.it)
            && forall i :: 4 <= i < 12 ==> c3.regs.gpr[i] == BeforeReturn(c2, l).regs.gpr[i]
  {
    hide EnterException, BranchToLr, Inv, Allowed, AllowedRun, StaysAbove, Run, ContextOf, InItBlock, Pop, BeforeReturn;
    hide ReturnWord, PopIsReturn;
    var s1 := Step(s, Enter(n));
    var s2 := Run(s1, body);
    var after := BeforeReturn(s2.core, l);
    EnterKeepsInv(s, n);
    RunKeepsInv(s1, body);
    PoppedCode(s2, l);
    RunThenWork(s1, body, after, |s.live| + 1);
    PopReturnIsReturnEvent(s2, l);
    NestedExceptionsInvisible(s, n, body + [Work(after)]);
  }

  // --- the instructions, behind the IT gate ---

  /** PUSH {L, LR} and POP {L, PC} as they decode. */
  function PushFields(l: RegList): (f: Ins.Fields)
    requires LowList(l)
    ensures f.typ == Ins.T16_PUSH && f.regList == l + {14}
  {
    Ins.PushDecodes(l + {14});
    Ins.Decode(Ins.EncodePush(l + {14}))
  }

  function PopFields(l: RegList): (f: Ins.Fields)
    requires LowList(l)
    ensures f.typ == Ins.T16_POP && f.regList == l + {15}
  {
    Ins.PopDecodes(l + {15});
    Ins.Decode(Ins.EncodePop(l + {15}))
  }

  function Entered(s: Ex.Machine, n: word): Ex.Machine { s.(core := EnterException(s.core, n)) }

  /** Entry and the handler's first instruction. */
  function AfterPrologue(s: Ex.Machine, n: word, l: RegList): Ex.Machine
    requires LowList(l)
  {
    Ex.Instruct(Entered(s, n), PushFields(l))
  }

  /** The handler's last instruction. */
  function AfterEpilogue(s: Ex.Machine, l: RegList): Ex.Machine
    requires LowList(l)
  {
    Ex.Instruct(s, PopFields(l))
  }

  ghost predicate HandlerBehaved(s: Ex.Machine, n: word, l: RegList, s2: Ex.Machine)
    requires LowList(l)
  {
    Behaved(s.core.regs, AfterPrologue(s, n, l).core, l, s2.core)
  }

  function WithIt(c: Core, it: ItState): Core { c.(regs := c.regs.(it := it)) }

  /** Where the gate puts the IT state before the instruction runs. */
  function Advanced(it: ItState): ItState { if InItBlock(it) then AdvanceIt(it) else it }

  lemma GatedPush(s: Ex.Machine, l: RegList)
    requires LowList(l) && It.GateOpen(s.core.regs.it)
    ensures Ex.Instruct(s, PushFields(l)) == s.(core := WithIt(Push(s.core, l + {14}), Advanced(s.core.regs.it)))
  {
    hide StoreRegs, Count, Wrap, AdvanceIt, InItBlock, It.GateOpen, PushFields;
    var it := s.core.regs.it;
    PushIgnoresIt(s.core, l + {14}, Advanced(it));
    OutsideIsOpen(it);
    assert WithIt(s.core, it) == s.core;
  }

  lemma GatedPop(s: Ex.Machine, l: RegList)
    requires LowList(l) && It.GateOpen(s.core.regs.it)
    ensures Ex.Instruct(s, PopFields(l)) == s.(core := Pop(WithIt(s.core, Advanced(s.core.regs.it)), l + {15}))
  {
    hide Pop, AdvanceIt, InItBlock, It.GateOpen, PopFields;
    OutsideIsOpen(s.core.regs.it);
    assert WithIt(s.core, s.core.regs.it) == s.core;
  }

  lemma OutsideIsOpen(it: ItState)
    ensures !InItBlock(it) ==> It.GateOpen(it)
  {
  }

  lemma PushIgnoresIt(c: Core, l: RegList, it: ItState)
    ensures Push(WithIt(c, it), l) == WithIt(Push(c, l), it)
  {
    hide Count, Wrap;
    var a := Wrap(CurrentSp(c.regs) - 4 * Count(l, 0));
    StoreIgnoresIt(SetCurrentSp(c.regs, a), it, c.mem, a, l * LOW_AND_LR, 0);
  }

  lemma {:induction false} StoreIgnoresIt(r: Regs, it: ItState, m: MemState, a: word, l: RegList, i: nat)
    ensures StoreRegs(r.(it := it), m, a, l, i) == StoreRegs(r, m, a, l, i)
    decreases 16 - i
  {
    hide StoreWord, Wrap;
    if i < 16 {
      StoreIgnoresIt(r, it, if i in l then StoreWord(m, a, ReadReg(r, i)) else m,
                     if i in l then Wrap(a + 4) else a, l, i + 1);
    }
  }

  lemma BehavedIgnoresIt(f: Frame, c1: Core, it1: ItState, l: RegList, c2: Core, it2: ItState)
    ensures Behaved(f, WithIt(c1, it1), l, WithIt(c2, it2)) == Behaved(f, c1, l, c2)
  {
    hide FrameIntact, Count;
  }

  /** A handler that opens with PUSH {L, LR} and closes with POP {L, PC}, both reached in an open
      slot or outside IT blocks, is invisible: the whole context comes back, r4-r11 included. No
      IT block is active afterwards, so that the status survives exactly when no block was
      interrupted. */
  lemma {:induction false} FunctionHandlersInvisible(s: Ex.Machine, n: word, l: RegList, s2: Ex.Machine)
    requires LowList(l) && It.GateOpen(s.core.regs.it) && It.GateOpen(s2.core.regs.it)
    requires FrameMapped(s.core.regs) && Interruptible(s.core.regs)
    requires 0 <= PushBase(Entered(s, n).core.regs, l + {14})
    requires InRegion(PushBase(Entered(s, n).core.regs, l + {14}), 4 * Count(l + {14}, 0))
    requires HandlerBehaved(s, n, l, s2)
    ensures var s3 := AfterEpilogue(s2, l);
            && ContextOf(s3.core.regs) == ContextOf(s.core.regs)
            && (forall i :: 4 <= i < 12 ==> s3.core.regs.gpr[i] == s.core.regs.gpr[i])
            && s3.core.mem == s2.core.mem && s3.monitor == s2.monitor && !InItBlock(s3.core.regs.it)
            && (InItBlock(s3.core.regs.it) == InItBlock(s.core.regs.it) <==> !InItBlock(s.core.regs.it))
  {
    hide EnterException, Push, Pop, ContextOf, InItBlock;
    hide It.GateOpen, Behaved, InRegion, Count, FrameMapped, Ex.Instruct, PushFields, PopFields;
    var c := s.core;
    EntryKeepsIt(c, n);
    GatedPush(Entered(s, n), l);
    GatedPop(s2, l);
    var c2 := WithIt(s2.core, Advanced(s2.core.regs.it));
    BehavedIgnoresIt(c.regs, Stacked(c, n, l), Advanced(c.regs.it), l, s2.core, s2.core.regs.it);
    BehavedIgnoresIt(c.regs, Stacked(c, n, l), Stacked(c, n, l).regs.it, l, s2.core, Advanced(s2.core.regs.it));
    assert WithIt(s2.core, s2.core.regs.it) == s2.core;
    assert WithIt(Stacked(c, n, l), Stacked(c, n, l).regs.it) == Stacked(c, n, l);
    StackedHandlerInvisible(c, n, l, c2);
  }

  lemma EntryKeepsIt(c: Core, n: word)
    ensures EnterException(c, n).regs.it == c.regs.it
  {
    hide PushFrameMem, LoadWord, AfterLoad;
  }

  /** The obligations can be met: a handler with an empty body meets them wherever its saved
      words lie apart from the exception frame. */
  lemma {:induction false} EmptyHandlerBehaves(s: Ex.Machine, n: word, l: RegList)
    requires LowList(l) && It.GateOpen(s.core.regs.it) && FrameMapped(s.core.regs)
    requires 0 <= PushBase(Entered(s, n).core.regs, l + {14})
    requires InRegion(PushBase(Entered(s, n).core.regs, l + {14}), 4 * Count(l + {14}, 0))
    requires Apart(PushBase(Entered(s, n).core.regs, l + {14}), 4 * Count(l + {14}, 0),
                   FrameBase(s.core.regs), FRAME_SIZE)
    ensures HandlerBehaved(s, n, l, AfterPrologue(s, n, l))
  {
    hide EnterException, Push, It.GateOpen, Behaved, InRegion, Count, FrameMapped, Ex.Instruct, Apart, FrameBase;
    hide PushFields;
    var it := Advanced(s.core.regs.it);
    EntryKeepsIt(s.core, n);
    GatedPush(Entered(s, n), l);
    StackedEmptyBehaves(s.core, n, l);
    BehavedIgnoresIt(s.core.regs, Stacked(s.core, n, l), it, l, Stacked(s.core, n, l), it);
  }

  // --- entry inside an IT block ---

  lemma {:induction false} CountAtMost(l: RegList, i: nat)
    requires i <= 16
    ensures Count(l, i) <= 16 - i && (forall j :: i <= j < 16 && j in l ==> Count(l, i) > 0)
    decreases 16 - i
  {
    if i < 16 {
      CountAtMost(l, i + 1);
    }
  }

  /** Whether the prologue runs at all is decided by the interrupted code: SP moves if and only if
      no IT block was interrupted or its slot is open. If it does not run, memory, SP and every
      other register stay as entry left them, LR unsaved. */
  lemma {:induction false} PrologueRunsIff(s: Ex.Machine, n: word, l: RegList)
    requires LowList(l)
    ensures var it := s.core.regs.it;
            var e, s1 := Entered(s, n), AfterPrologue(s, n, l);
            && (CurrentSp(s1.core.regs) != CurrentSp(e.core.regs) <==> !InItBlock(it) || It.GateOpen(it))
            && (InItBlock(it) && !It.GateOpen(it) ==> s1 == e.(core := WithIt(e.core, AdvanceIt(it))))
  {
    hide EnterException, InItBlock, It.GateOpen, AdvanceIt, Ex.Body, StoreRegs, Count, Wrap, Push, PushFields;
    var it, e := s.core.regs.it, Entered(s, n);
    EntryKeepsIt(s.core, n);
    OutsideIsOpen(it);
    if It.GateOpen(it) {
      GatedPush(e, l);
      PushMovesSp(e.core, l + {14});
    }
  }

  lemma PushMovesSp(c: Core, l: RegList)
    requires 14 in l
    ensures CurrentSp(Push(c, l).regs) != CurrentSp(c.regs)
  {
    hide StoreRegs, Count;
    CountAtMost(l, 0);
  }

  /** What becomes of an interrupted block: whatever instruction follows the return runs ungated. */
  lemma {:induction false} RestOfBlockUngated(s: Ex.Machine, n: word, l: RegList, s2: Ex.Machine, f: Ins.Fields)
    requires LowList(l) && It.GateOpen(s.core.regs.it) && It.GateOpen(s2.core.regs.it)
    requires FrameMapped(s.core.regs) && Interruptible(s.core.regs) && Ex.ListValid(f)
    requires 0 <= PushBase(Entered(s, n).core.regs, l + {14})
    requires InRegion(PushBase(Entered(s, n).core.regs, l + {14}), 4 * Count(l + {14}, 0))
    requires HandlerBehaved(s, n, l, s2)
    ensures var s3 := AfterEpilogue(s2, l);
            Ex.Instruct(s3, f) == Ex.Body(s3, f)
  {
    hide EnterException, HandlerBehaved, It.GateOpen, InRegion, Count, FrameMapped, InItBlock, Interruptible, Ex.Body;
    FunctionHandlersInvisible(s, n, l, s2);
    var s3 := AfterEpilogue(s2, l);
    assert !InItBlock(s3.core.regs.it);
  }
}
