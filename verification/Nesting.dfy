/** Nested exceptions are invisible to the code they interrupt.

    A run is a sequence of exception entries, returns and arbitrary work done by whatever
    code is running. The live frames are tracked beside the machine; the assumptions on
    handlers are the ones a real handler must meet: leave live frames intact, do not write
    CONTROL, and come back to the return with the stack pointers and the LR that entry left. */
module Nesting {
  import opened Words
  import opened Registers
  import opened Memory
  import opened BusCtrl
  import opened DataPort
  import opened WordAccess
  import opened Cpu

  /** What an exception must give back: everything entry and return touch. */
  datatype Context = Context(r0: word, r1: word, r2: word, r3: word, r12: word, lr: word, pc: word,
                             psr: word, msp: word, psp: word, control: word)

  function ContextOf(r: Regs): Context {
    Context(r.gpr[0], r.gpr[1], r.gpr[2], r.gpr[3], r.gpr[12], r.lr, r.pc, r.psr, r.msp, r.psp, r.control)
  }

  /** The registers as they were when a frame was pushed. */
  type Frame = Regs

  /** An exception that has not returned: the interrupted registers and the registers entry left. */
  datatype Live = Live(frame: Frame, entered: Regs)

  datatype Machine = Machine(core: Core, live: seq<Live>)

  datatype Event = Enter(exception: word) | Return | Work(after: Core)

  /** `Return` is a branch to LR, whatever it holds: an exception return if the value is one, after
      which no IT block is active. */
  function Step(s: Machine, e: Event): Machine {
    match e
    case Enter(n) =>
      var c := EnterException(s.core, n);
      Machine(c, s.live + [Live(s.core.regs, c.regs)])
    case Return =>
      Machine(BranchToLr(s.core), if s.live == [] then [] else s.live[..|s.live| - 1])
    case Work(after) => Machine(after, s.live)
  }

  function BranchToLr(c: Core): Core {
    var (c', returned) := TryExceptionReturn(c, c.regs.lr);
    var c'' := if returned then c' else c.(regs := c.regs.(pc := ClearBit0(c.regs.lr)));
    c''.(regs := c''.regs.(it := ClearIt(c''.regs.it)))
  }

  predicate FrameMapped(f: Frame) { InRegion(FrameBase(f), FRAME_SIZE) }

  predicate FramesApart(f: Frame, g: Frame) {
    Apart(FrameBase(f), FRAME_SIZE, FrameBase(g), FRAME_SIZE)
  }

  ghost predicate FrameIntact(m: MemState, f: Frame) { Holds(m, FrameBase(f), FrameWords(f)) }

  /** Handler mode runs with SPSEL clear. */
  predicate HandlerOnMsp(r: Regs) { InException(r) ==> !Spsel(r.control) }

  /** The assumptions on one step. */
  ghost predicate Allowed(s: Machine, e: Event) {
    match e
    case Enter(_) =>
      && s.core.regs.pc % 2 == 0
      && FrameMapped(s.core.regs)
      && forall i :: 0 <= i < |s.live| ==> FramesApart(s.live[i].frame, s.core.regs)
    case Return =>
      && s.live != []
      && var entered := s.live[|s.live| - 1].entered;
      && s.core.regs.msp == entered.msp && s.core.regs.psp == entered.psp && s.core.regs.lr == entered.lr
    case Work(after) =>
      && (forall i :: 0 <= i < |s.live| ==> FrameIntact(after.mem, s.live[i].frame))
      && (s.live != [] ==> after.regs.control == s.core.regs.control)
      && (s.live == [] ==> HandlerOnMsp(after.regs) && after.regs.control < 4)
  }

  /** CONTROL as seen by a handler interrupting this state. */
  function HandlerControl(f: Frame): word { ClearSpsel(f.control) }

  /** What entry left: the stack pointers below the frame, CONTROL for the handler, and an LR code
      that names the bank the frame was pushed on. */
  predicate EntryLeft(l: Live) {
    && l.entered.msp == PushFrameRegs(l.frame).msp && l.entered.psp == PushFrameRegs(l.frame).psp
    && l.entered.control == HandlerControl(l.frame) && l.entered.lr == ExcReturnCode(l.frame)
  }

  /** The invariant over runs: every live frame is intact and mapped, what its entry left names its
      bank, and each handler's CONTROL is the one entry left. */
  ghost predicate Inv(s: Machine) {
    && (forall i :: 0 <= i < |s.live| ==> FrameIntact(s.core.mem, s.live[i].frame))
    && (forall i :: 0 <= i < |s.live| ==> EntryLeft(s.live[i]) && Interruptible(s.live[i].frame))
    && (forall i :: 0 < i < |s.live| ==> s.live[i].frame.control == s.live[i - 1].entered.control)
    && (s.live != [] ==> s.core.regs.control == s.live[|s.live| - 1].entered.control)
    && HandlerOnMsp(s.core.regs) && s.core.regs.control < 4
  }

  predicate Interruptible(f: Frame) { HandlerOnMsp(f) && f.control < 4 && f.pc % 2 == 0 }

  // --- entry ---

  lemma EntryRegs(c: Core, n: word)
    ensures var r := EnterException(c, n).regs;
            && r.msp == PushFrameRegs(c.regs).msp && r.psp == PushFrameRegs(c.regs).psp
            && r.control == HandlerControl(c.regs) && r.lr == ExcReturnCode(c.regs)
            && IsExcReturn(r.lr) && Ipsr(r.psr) == n % 0x200
  {
    hide PushFrameMem, LoadWord, AfterLoad, FrameBase;
  }

  lemma ReversedPushOrder(r: Regs)
    ensures Reverse(PushOrder(r)) == FrameWords(r)
  {
  }

  /** Entry stores the frame and nothing else. */
  lemma EntryStoresFrame(c: Core, n: word)
    requires FrameMapped(c.regs)
    ensures var m := EnterException(c, n).mem;
            FrameIntact(m, c.regs) && SameOutside(c.mem, m, FrameBase(c.regs), FRAME_SIZE)
  {
    hide LoadWord, StoreDown;
    var base := FrameBase(c.regs);
    var m := PushFrameMem(c.regs, c.mem);
    FrameTop(c.regs);
    assert |PushOrder(c.regs)| == 8;
    StoreDownHolds(c.mem, base, PushOrder(c.regs));
    ReversedPushOrder(c.regs);
    VectorReadKeepsBytes(m, n);
    BytesDecideFrame(m, AfterLoad(m, Wrap(n * 4)), c.regs);
  }

  lemma BytesDecideFrame(m: MemState, m': MemState, f: Frame)
    requires FrameIntact(m, f) && m'.bytes == m.bytes
    ensures FrameIntact(m', f)
  {
    HoldsUnchanged(m, m', 0, 0, FrameBase(f), FrameWords(f));
  }

  lemma FrameTop(r: Regs)
    requires FrameMapped(r)
    ensures StackingSp(r) == FrameBase(r) + FRAME_SIZE
  {
  }

  /** Reading the vector leaves memory alone, even if the vector lies in a peripheral. */
  lemma VectorReadKeepsBytes(m: MemState, n: word)
    ensures AfterLoad(m, Wrap(n * 4)).bytes == m.bytes
  {
  }

  // --- return ---

  /** Unstacking a frame restores every register entry and return touch. */
  lemma {:induction false} ReturnRestores(c: Core, f: Frame)
    requires FrameIntact(c.mem, f) && FrameMapped(f)
    requires c.regs.msp == PushFrameRegs(f).msp && c.regs.psp == PushFrameRegs(f).psp
    requires c.regs.control == HandlerControl(f)
    requires HandlerOnMsp(f) && f.control < 4 && f.pc % 2 == 0
    ensures var c' := ReturnFrom(c, ExcReturnCode(f));
            && ContextOf(c'.regs) == ContextOf(f)
            && c'.mem == c.mem
            && (forall i :: 4 <= i < 12 ==> c'.regs.gpr[i] == c.regs.gpr[i])
            && c'.regs.it == c.regs.it
  {
    hide LoadWord, LoadUp;
    var code := ExcReturnCode(f);
    FrameTop(f);
    assert UnstackingSp(c.regs, code) == FrameBase(f);
    LoadUpHolds(c.mem, FrameBase(f), FrameWords(f));
    assert LoadUp(c.mem, FrameBase(f), 8) == (FrameWords(f), c.mem);
  }

  /** An entry undone at once gives the context back exactly when PC was even and Handler mode
      was not running with SPSEL set; SPSEL set in Handler mode is cleared and stays so. */
  lemma {:induction false} RoundTripExactly(c: Core, n: word)
    requires FrameMapped(c.regs) && c.regs.control < 4
    ensures var c' := BranchToLr(EnterException(c, n));
            ContextOf(c'.regs) == ContextOf(c.regs) <==> (c.regs.pc % 2 == 0 && HandlerOnMsp(c.regs))
  {
    hide EnterException, ReturnFrom, ContextOf, HandlerOnMsp;
    hide FrameMapped, ExcReturnCode, IsExcReturn, PushFrameRegs, HandlerControl;
    EntryRegs(c, n);
    UndoneAtOnce(c, n);
    ClearedSameContext(ReturnFrom(EnterException(c, n), ExcReturnCode(c.regs)).regs);
  }

  lemma UndoneAtOnce(c: Core, n: word)
    requires FrameMapped(c.regs) && c.regs.control < 4
    ensures var c' := ReturnFrom(EnterException(c, n), ExcReturnCode(c.regs));
            ContextOf(c'.regs) == ContextOf(c.regs) <==> (c.regs.pc % 2 == 0 && HandlerOnMsp(c.regs))
  {
    hide EnterException, ReturnFrom, FrameMapped, FrameIntact, ExcReturnCode, IsExcReturn, PushFrameRegs, LoadWord;
    var c1 := EnterException(c, n);
    EntryStoresFrame(c, n);
    EntryRegs(c, n);
    if c.regs.pc % 2 == 0 && HandlerOnMsp(c.regs) {
      ReturnRestores(c1, c.regs);
    } else {
      ReturnTarget(c1, c.regs);
    }
  }

  /** Unstacking drops bit 0 of the stacked PC, and a return to Handler mode keeps CONTROL. */
  lemma ReturnTarget(c: Core, f: Frame)
    requires FrameIntact(c.mem, f) && FrameMapped(f)
    requires c.regs.msp == PushFrameRegs(f).msp && c.regs.psp == PushFrameRegs(f).psp
    ensures var r := ReturnFrom(c, ExcReturnCode(f)).regs;
            r.pc == ClearBit0(f.pc) && (InException(f) ==> r.control == c.regs.control)
  {
    hide LoadWord, LoadUp, ClearBit0, Wrap;
    FrameTop(f);
    assert UnstackingSp(c.regs, ExcReturnCode(f)) == FrameBase(f);
    LoadUpHolds(c.mem, FrameBase(f), FrameWords(f));
    assert LoadUp(c.mem, FrameBase(f), 8) == (FrameWords(f), c.mem);
  }

  lemma ClearedSameContext(r: Regs)
    ensures ContextOf(r.(it := ClearIt(r.it))) == ContextOf(r)
  {
  }

  // --- runs ---

  function Run(s: Machine, es: seq<Event>): Machine
    decreases |es|
  {
    if es == [] then s else Run(Step(s, es[0]), es[1..])
  }

  ghost predicate AllowedRun(s: Machine, es: seq<Event>)
    decreases |es|
  {
    es == [] || (Allowed(s, es[0]) && AllowedRun(Step(s, es[0]), es[1..]))
  }

  /** The run never returns below `depth` live frames. */
  predicate StaysAbove(s: Machine, es: seq<Event>, depth: nat)
    decreases |es|
  {
    |s.live| >= depth && (es == [] || StaysAbove(Step(s, es[0]), es[1..], depth))
  }

  lemma {:induction false} EnterKeepsInv(s: Machine, n: word)
    requires Inv(s) && Allowed(s, Enter(n))
    ensures Inv(Step(s, Enter(n)))
  {
    hide EnterException, FrameIntact, FrameBase, ExcReturnCode;
    hide PushFrameRegs, HandlerControl, HandlerOnMsp, FrameMapped, FramesApart;
    var s' := Step(s, Enter(n));
    EntryStoresFrame(s.core, n);
    EntryRegs(s.core, n);
    EntryControl(s.core, n);
    forall i | 0 <= i < |s'.live| ensures FrameIntact(s'.core.mem, s'.live[i].frame) {
      if i < |s.live| {
        FrameSurvives(s.core.mem, s'.core.mem, s.core.regs, s.live[i].frame);
      }
    }
  }

  lemma EntryControl(c: Core, n: word)
    ensures var r := EnterException(c, n).regs;
            r.control == HandlerControl(c.regs) && r.control < 4 && HandlerOnMsp(r)
  {
    hide LoadWord, AfterLoad, PushFrameMem, Spsel;
  }

  lemma FrameSurvives(m: MemState, m': MemState, pushed: Frame, f: Frame)
    requires FrameMapped(pushed) && FramesApart(f, pushed) && FrameIntact(m, f)
    requires SameOutside(m, m', FrameBase(pushed), FRAME_SIZE)
    ensures FrameIntact(m', f)
  {
    HoldsUnchanged(m, m', FrameBase(pushed), FRAME_SIZE, FrameBase(f), FrameWords(f));
  }

  lemma {:induction false} ReturnKeepsInv(s: Machine)
    requires Inv(s) && Allowed(s, Return)
    ensures Inv(Step(s, Return))
    ensures ContextOf(Step(s, Return).core.regs) == ContextOf(s.live[|s.live| - 1].frame)
    ensures forall i :: 4 <= i < 12 ==> Step(s, Return).core.regs.gpr[i] == s.core.regs.gpr[i]
    ensures !InItBlock(Step(s, Return).core.regs.it)
  {
    hide BranchToLr, FrameIntact, ExcReturnCode, HandlerControl, InItBlock;
    var f := s.live[|s.live| - 1].frame;
    ReturnOfTop(s);
    var s' := Step(s, Return);
    assert ContextOf(s'.core.regs).control == f.control && ContextOf(s'.core.regs).psr == f.psr;
  }

  /** LR as entry left it is accepted and finds the innermost frame. */
  lemma {:induction false} ReturnOfTop(s: Machine)
    requires Inv(s) && Allowed(s, Return)
    ensures var f := s.live[|s.live| - 1].frame;
            var c' := BranchToLr(s.core);
            && ContextOf(c'.regs) == ContextOf(f) && c'.mem == s.core.mem && !InItBlock(c'.regs.it)
            && forall i :: 4 <= i < 12 ==> c'.regs.gpr[i] == s.core.regs.gpr[i]
  {
    hide ReturnFrom, LoadWord, FrameIntact, PushFrameRegs, HandlerControl, HandlerOnMsp, FramesApart;
    var f := s.live[|s.live| - 1].frame;
    assert EntryLeft(s.live[|s.live| - 1]) && Interruptible(f);
    IntactIsMapped(s.core.mem, f);
    ReturnRestores(s.core, f);
  }

  lemma IntactIsMapped(m: MemState, f: Frame)
    requires FrameIntact(m, f)
    ensures FrameMapped(f)
  {
    assert |FrameWords(f)| == 8;
  }

  lemma WorkKeepsInv(s: Machine, after: Core)
    requires Inv(s) && Allowed(s, Work(after))
    ensures Inv(Step(s, Work(after)))
  {
    hide FrameIntact, ExcReturnCode, PushFrameRegs;
    if s.live != [] {
      assert EntryLeft(s.live[|s.live| - 1]);
    }
  }

  lemma {:induction false} RunKeepsInv(s: Machine, es: seq<Event>)
    requires Inv(s) && AllowedRun(s, es)
    ensures Inv(Run(s, es))
    decreases |es|
  {
    hide EnterException, BranchToLr, Inv, Allowed, Step;
    if es != [] {
      match es[0] {
        case Enter(n) => EnterKeepsInv(s, n);
        case Return => ReturnKeepsInv(s);
        case Work(after) => WorkKeepsInv(s, after);
      }
      RunKeepsInv(Step(s, es[0]), es[1..]);
    }
  }

  lemma {:induction false} OuterFramesUntouched(s: Machine, es: seq<Event>, depth: nat)
    requires StaysAbove(s, es, depth)
    ensures |Run(s, es).live| >= depth && Run(s, es).live[..depth] == s.live[..depth]
    decreases |es|
  {
    hide EnterException, BranchToLr;
    if es != [] {
      OuterFramesUntouched(Step(s, es[0]), es[1..], depth);
      assert Step(s, es[0]).live[..depth] == s.live[..depth];
    }
  }

  /** Main result. Take an exception in any reachable state, let its handler run for as long as
      it likes, interrupted to any depth, and branch to LR: r0-r3, r12, LR, PC, xPSR, both stack
      pointers and CONTROL are what they were, r4-r11 are as the handler left them, no IT block is
      active, and the frames below are untouched. */
  lemma {:induction false} NestedExceptionsInvisible(s: Machine, n: word, body: seq<Event>)
    requires Inv(s) && Allowed(s, Enter(n))
    requires AllowedRun(Step(s, Enter(n)), body)
    requires StaysAbove(Step(s, Enter(n)), body, |s.live| + 1)
    requires var s2 := Run(Step(s, Enter(n)), body);
             |s2.live| == |s.live| + 1 && Allowed(s2, Return)
    ensures var s2 := Run(Step(s, Enter(n)), body);
            var s3 := Step(s2, Return);
            && ContextOf(s3.core.regs) == ContextOf(s.core.regs) && s3.live == s.live && Inv(s3)
            && (forall i :: 4 <= i < 12 ==> s3.core.regs.gpr[i] == s2.core.regs.gpr[i])
            && !InItBlock(s3.core.regs.it)
  {
    hide EnterException, BranchToLr, FrameIntact, Inv, Allowed, ContextOf, InItBlock;
    var s1 := Step(s, Enter(n));
    var s2 := Run(s1, body);
    EnterKeepsInv(s, n);
    RunKeepsInv(s1, body);
    OuterFramesUntouched(s1, body, |s.live| + 1);
    assert s2.live == s2.live[..|s.live| + 1] == s.live + [Live(s.core.regs, s1.core.regs)];
    ReturnKeepsInv(s2);
  }

  /** So the status of being in an IT block survives exactly when there was none to interrupt. */
  lemma {:induction false} ItStatusSurvivesIff(s: Machine, n: word, body: seq<Event>)
    requires Inv(s) && Allowed(s, Enter(n))
    requires AllowedRun(Step(s, Enter(n)), body)
    requires StaysAbove(Step(s, Enter(n)), body, |s.live| + 1)
    requires var s2 := Run(Step(s, Enter(n)), body);
             |s2.live| == |s.live| + 1 && Allowed(s2, Return)
    ensures var s3 := Step(Run(Step(s, Enter(n)), body), Return);
            InItBlock(s3.core.regs.it) == InItBlock(s.core.regs.it) <==> !InItBlock(s.core.regs.it)
  {
    hide Step, Run, Inv, Allowed, AllowedRun, StaysAbove, ContextOf, InItBlock;
    NestedExceptionsInvisible(s, n, body);
  }

  /** The machine after reset meets the invariant, so the main result covers every state an
      allowed run can reach. The saved IT condition result is whatever it was. */
  lemma ResetMeetsInv(m: MemState, p: Pending, condResult: bool)
    ensures Inv(Machine(Core(RESET_REGS.(it := NO_IT.(condResult := condResult)), m, p), []))
  {
  }
}
