/** The instruction loop of src/cpu/CPU.cpp (`cpu_thread`): pending exceptions, fetch, decode,
    execute, advance PC. Code in memory, run through this loop, calls, returns and handles
    interrupts as the theorems about single operations promise. */
module CpuThread {
  import opened Words
  import opened Registers
  import opened Memory
  import opened BusCtrl
  import opened DataPort
  import opened WordAccess
  import opened Cpu
  import opened Multiple
  import opened Instruction
  import opened Exclusive
  import opened Execute
  import Br = Branch
  import Nest = Nesting
  import Pro = Prologue
  import Vec = Vectors

  function DecodeWord(w: word): (f: Fields)
    ensures ListValid(f)
  {
    DecodedListInRange(w);
    Instruction.Decode(w)
  }

  /** Fetch, decode, execute; PC moves on by the size of the instruction unless it was set. */
  function ExecuteAt(s: Machine): Machine {
    var pc := s.core.regs.pc;
    var (mem, w) := BusRead(s.core.mem, pc, 4);
    var fetched := s.(core := s.core.(mem := mem));
    var f := DecodeWord(w);
    var done := Instruct(fetched, f);
    if MovesPc(fetched, f) then done
    else done.(core := done.core.(regs := done.core.regs.(pc := Wrap(pc + if Is32Bit(w) then 4 else 2))))
  }

  /** One turn of the loop. */
  function ThreadStep(s: Machine): Machine { ExecuteAt(s.(core := CheckPending(s.core))) }

  function ThreadRun(s: Machine, n: nat): Machine {
    if n == 0 then s else ThreadStep(ThreadRun(s, n - 1))
  }

  // --- code in memory ---

  /** The halfword at `a`, as the fetch of the word there sees it. */
  predicate CodeAt(m: MemState, a: word, i: word) {
    InRegion(a, 4) && LoadWord(m, a) % 0x1_0000 == i
  }

  lemma ShortCodeDecodes(w: word, i: word)
    requires i < 0x1_0000 && w % 0x1_0000 == i && !Is32Bit(i)
    ensures Instruction.Decode(w) == Instruction.Decode(i) && !Is32Bit(w)
  {
    hide DecodeT16, DecodeT32;
  }

  /** Executing an instruction that lies in memory, outside an IT block. */
  lemma ExecuteFetched(s: Machine, w: word)
    requires InRegion(s.core.regs.pc, 4) && LoadWord(s.core.mem, s.core.regs.pc) == w
    requires !InItBlock(s.core.regs.it)
    ensures var f := DecodeWord(w);
            var done := Body(s, f);
            ExecuteAt(s) ==
            if BodyMovesPc(s.core, f) then done
            else
              var next := Wrap(s.core.regs.pc + if Is32Bit(w) then 4 else 2);
              done.(core := done.core.(regs := done.core.regs.(pc := next)))
  {
    hide BusRead, Body, BodyMovesPc, Instruction.Decode, InRegion, Is32Bit, Wrap;
    LoadInRegion(s.core.mem, s.core.regs.pc);
    assert s.(core := s.core.(mem := s.core.mem)) == s;
  }

  lemma ExecuteShort(s: Machine, i: word)
    requires CodeAt(s.core.mem, s.core.regs.pc, i) && i < 0x1_0000 && !Is32Bit(i)
    requires !InItBlock(s.core.regs.it)
    ensures var f := DecodeWord(i);
            var done := Body(s, f);
            ExecuteAt(s) ==
            if BodyMovesPc(s.core, f) then done
            else done.(core := done.core.(regs := done.core.regs.(pc := Wrap(s.core.regs.pc + 2))))
  {
    hide ExecuteAt, Body, BodyMovesPc, Instruction.Decode, InRegion, Is32Bit, Wrap, LoadWord;
    var w := LoadWord(s.core.mem, s.core.regs.pc);
    ExecuteFetched(s, w);
    ShortCodeDecodes(w, i);
  }

  lemma BranchBody(s: Machine, f: Fields)
    requires IsBranch(f.typ) && ListValid(f)
    ensures Body(s, f) == s.(core := Br.ExecuteBranch(s.core, f).0)
    ensures BodyMovesPc(s.core, f) == Br.ExecuteBranch(s.core, f).1
  {
    hide Br.ExecuteBranch;
  }

  // --- an interrupt whose handler is a single BX LR ---

  lemma BxIsShort(rm: nat)
    requires rm < 16
    ensures EncodeBx(rm) < 0x1_0000 && !Is32Bit(EncodeBx(rm)) && EncodeBx(rm) / 0x400 == 0x11
  {
    assert EncodeBx(rm) / 0x400 == 0x11;
    assert EncodeBx(rm) / 0x800 == 8;
  }

  lemma ExecuteBx(s: Machine)
    requires CodeAt(s.core.mem, s.core.regs.pc, EncodeBx(14)) && !InItBlock(s.core.regs.it)
    ensures ExecuteAt(s) == s.(core := Br.Fetched(s.core, EncodeBx(14)).0)
  {
    hide Br.Exchange, Instruction.Decode, CodeAt;
    BxIsShort(14);
    BxDecodes(14);
    ExecuteShort(s, EncodeBx(14));
  }

  /** An interrupt whose handler is one BX LR is over within one turn of the loop: the whole
      context is back, the pending flag is clear, and only the frame below the stack pointer was
      written. */
  lemma ReturningHandlerInvisible(s: Machine)
    requires NextException(s.core.pend).Some?
    requires Nest.FrameMapped(s.core.regs) && Nest.HandlerOnMsp(s.core.regs)
    requires s.core.regs.control < 4 && s.core.regs.pc % 2 == 0 && !InItBlock(s.core.regs.it)
    requires var entered := CheckPending(s.core); CodeAt(entered.mem, entered.regs.pc, EncodeBx(14))
    ensures var t := ThreadStep(s);
            && Nest.ContextOf(t.core.regs) == Nest.ContextOf(s.core.regs)
            && t.core.pend == CheckPending(s.core).pend
            && SameOutside(s.core.mem, t.core.mem, FrameBase(s.core.regs), FRAME_SIZE)
            && t.monitor == s.monitor
  {
    hide ReturnFrom, CodeAt, SameOutside, Nest.ContextOf, CheckPending, Nest.FrameMapped, Nest.HandlerOnMsp;
    hide InItBlock, Br.Fetched, ExecuteAt, PushFrameRegs;
    hide Nest.HandlerControl, Nest.FrameIntact, ExcReturnCode, IsExcReturn;
    var e := s.(core := CheckPending(s.core));
    TakenException(s.core);
    Nest.ReturnRestores(e.core, s.core.regs);
    ExecuteBx(e);
    BxReturns(e.core);
    SameContextAfterClear(ReturnFrom(e.core, e.core.regs.lr).regs);
  }

  /** The same through the vector table as it stands before the interrupt: if the entry of the highest
      pending exception points to a BX LR, the interrupt is over within one turn, and its flag alone
      is cleared. */
  lemma {:induction false} InterruptThroughTable(s: Machine, k: nat)
    requires k < 6 && Vec.Highest(s.core.pend, k)
    requires Nest.FrameMapped(s.core.regs) && Nest.HandlerOnMsp(s.core.regs)
    requires s.core.regs.control < 4 && s.core.regs.pc % 2 == 0 && !InItBlock(s.core.regs.it)
    requires var n := Vec.Numbers(s.core.pend)[k];
             && Vec.VectorReadable(s.core.regs, n)
             && var h := LoadWord(s.core.mem, 4 * n);
                && h != 0 && CodeAt(s.core.mem, h - h % 2, EncodeBx(14))
                && Apart(h - h % 2, 4, FrameBase(s.core.regs), FRAME_SIZE)
    ensures var t := ThreadStep(s);
            && Nest.ContextOf(t.core.regs) == Nest.ContextOf(s.core.regs)
            && Vec.Flags(t.core.pend) == Vec.Flags(s.core.pend)[k := false]
            && SameOutside(s.core.mem, t.core.mem, FrameBase(s.core.regs), FRAME_SIZE)
            && t.monitor == s.monitor
  {
    hide CheckPending, NextException, ClearNext, LoadWord, ExecuteAt, SameOutside, FrameBase, EncodeBx;
    hide Nest.FrameMapped;
    hide Nest.HandlerOnMsp, Nest.FrameIntact, Nest.ContextOf, InRegion, Apart, Vec.Numbers, Vec.Flags, Vec.Highest;
    hide InItBlock, ClearBit0;
    var n := Vec.Numbers(s.core.pend)[k];
    var h := LoadWord(s.core.mem, 4 * n);
    Vec.HighestIsTaken(s.core.pend, k);
    Vec.HighestIsCleared(s.core.pend, k);
    Vec.TakenGoesToVector(s.core, k);
    CodeSurvives(s.core, CheckPending(s.core).mem, h - h % 2);
    ReturningHandlerInvisible(s);
  }

  /** Code apart from the frame is still there after entry. */
  lemma CodeSurvives(c: Core, m: MemState, a: word)
    requires Nest.FrameMapped(c.regs) && SameOutside(c.mem, m, FrameBase(c.regs), FRAME_SIZE)
    requires InRegion(a, 4) && Apart(a, 4, FrameBase(c.regs), FRAME_SIZE)
    ensures LoadWord(m, a) == LoadWord(c.mem, a)
  {
    hide LoadWord, FrameBase;
    LoadUnchanged(c.mem, m, FrameBase(c.regs), FRAME_SIZE, a);
  }

  lemma ExecuteSvc(s: Machine, imm: nat)
    requires imm < 0x100 && CodeAt(s.core.mem, s.core.regs.pc, EncodeSvc(imm)) && !InItBlock(s.core.regs.it)
    ensures var r := s.core.regs.(it := ClearIt(s.core.regs.it), pc := Wrap(s.core.regs.pc + 2));
            ExecuteAt(s) == s.(core := s.core.(regs := r, pend := s.core.pend.(svc := true)))
  {
    hide ExecuteAt, Instruction.Decode, CodeAt, InItBlock, Wrap, Is32Bit;
    SvcIsShort(imm);
    SvcDecodes(imm);
    ExecuteShort(s, EncodeSvc(imm));
  }

  lemma SvcIsShort(imm: nat)
    requires imm < 0x100
    ensures EncodeSvc(imm) < 0x1_0000 && !Is32Bit(EncodeSvc(imm))
  {
    assert EncodeSvc(imm) / 0x800 == 0x1B;
  }

  /** An SVC in memory whose handler is one BX LR: two turns later the loop is behind the SVC with
      the rest of the context unchanged, and the SVCall flag is clear. */
  lemma SupervisorCallReturns(s: Machine, imm: nat)
    requires NextException(s.core.pend).None? && imm < 0x100
    requires CodeAt(s.core.mem, s.core.regs.pc, EncodeSvc(imm)) && !InItBlock(s.core.regs.it)
    requires Nest.FrameMapped(s.core.regs) && Nest.HandlerOnMsp(s.core.regs)
    requires s.core.regs.control < 4 && s.core.regs.pc % 2 == 0
    requires var entered := CheckPending(ThreadStep(s).core); CodeAt(entered.mem, entered.regs.pc, EncodeBx(14))
    ensures var t := ThreadStep(ThreadStep(s));
            && Nest.ContextOf(t.core.regs) == Nest.ContextOf(s.core.regs).(pc := Wrap(s.core.regs.pc + 2))
            && !t.core.pend.svc && t.monitor == s.monitor
            && SameOutside(s.core.mem, t.core.mem, FrameBase(s.core.regs), FRAME_SIZE)
  {
    hide CheckPending, ExecuteAt, CodeAt, SameOutside, FrameBase, Nest.FrameMapped, Nest.HandlerOnMsp, NextException;
    NothingTaken(s.core);
    assert s.(core := s.core) == s;
    ExecuteSvc(s, imm);
    var t := ThreadStep(s);
    CallState(s.core, t.core);
    ReturningHandlerInvisible(t);
    SvcTaken(s.core, t.core);
  }

  /** What the SVC leaves to the exception it pends. */
  lemma CallState(c: Core, c': Core)
    requires c'.regs == c.regs.(it := ClearIt(c.regs.it), pc := Wrap(c.regs.pc + 2)) && c'.pend == c.pend.(svc := true)
    ensures Nest.FrameMapped(c'.regs) == Nest.FrameMapped(c.regs) && FrameBase(c'.regs) == FrameBase(c.regs)
    ensures Nest.HandlerOnMsp(c'.regs) == Nest.HandlerOnMsp(c.regs) && !InItBlock(c'.regs.it)
    ensures Nest.ContextOf(c'.regs) == Nest.ContextOf(c.regs).(pc := Wrap(c.regs.pc + 2))
    ensures NextException(c'.pend).Some? && (c.regs.pc % 2 == 0 ==> c'.regs.pc % 2 == 0)
  {
  }

  lemma SvcTaken(c: Core, c': Core)
    requires NextException(c.pend).None? && c'.pend == c.pend.(svc := true)
    ensures !CheckPending(c').pend.svc
  {
    hide EnterException;
  }

  /** What the loop leaves when it takes an exception. */
  lemma TakenException(c: Core)
    requires NextException(c.pend).Some? && Nest.FrameMapped(c.regs)
    ensures var e := CheckPending(c);
            && Nest.FrameIntact(e.mem, c.regs)
            && SameOutside(c.mem, e.mem, FrameBase(c.regs), FRAME_SIZE)
            && e.regs.msp == PushFrameRegs(c.regs).msp && e.regs.psp == PushFrameRegs(c.regs).psp
            && e.regs.control == Nest.HandlerControl(c.regs)
            && e.regs.lr == ExcReturnCode(c.regs) && IsExcReturn(e.regs.lr)
            && e.regs.it == c.regs.it
  {
    hide EnterException, PushFrameRegs, Nest.HandlerControl, Nest.FrameIntact, SameOutside, FrameBase;
    hide ExcReturnCode, IsExcReturn, ClearNext;
    var n := NextException(c.pend).value;
    Nest.EntryStoresFrame(c, n);
    Nest.EntryRegs(c, n);
    EntryKeepsIt(c, n);
  }

  lemma EntryKeepsIt(c: Core, n: word)
    ensures EnterException(c, n).regs.it == c.regs.it
    ensures IsExcReturn(EnterException(c, n).regs.lr)
  {
    hide PushFrameMem, LoadWord, AfterLoad;
  }

  lemma BxReturns(c: Core)
    requires IsExcReturn(c.regs.lr)
    ensures var q := ReturnFrom(c, c.regs.lr);
            Br.Fetched(c, EncodeBx(14)).0 == q.(regs := q.regs.(it := ClearIt(q.regs.it))) && q.pend == c.pend
  {
    hide ReturnFrom, Br.Fetched, IsExcReturn;
    Br.BxGoes(c, 14);
    ReturnKeepsPending(c, c.regs.lr);
  }

  /** The return event of nested runs is the instruction BX LR. */
  lemma BxLrIsReturn(c: Core)
    ensures Br.Fetched(c, EncodeBx(14)).0 == Nest.BranchToLr(c)
  {
    hide TryExceptionReturn, Br.Fetched;
    Br.BxGoes(c, 14);
  }

  lemma ReturnKeepsPending(c: Core, code: word)
    ensures ReturnFrom(c, code).pend == c.pend
  {
    hide LoadUp, UnstackRegs;
  }

  lemma SameContextAfterClear(r: Regs)
    ensures Nest.ContextOf(r.(it := ClearIt(r.it))) == Nest.ContextOf(r)
  {
  }

  // --- an interrupt whose handler is PUSH {L, LR}; POP {L, PC} ---

  lemma StackHalfwordsAreShort(l: set<nat>)
    ensures EncodePush(l) < 0x1_0000 && !Is32Bit(EncodePush(l))
    ensures EncodePop(l) < 0x1_0000 && !Is32Bit(EncodePop(l))
  {
    hide LowMask, Instruction.Bit;
    StackHalfword(false, Instruction.Bit(l, 14), LowMask(l));
    StackHalfword(true, Instruction.Bit(l, 15), LowMask(l));
  }

  lemma ExecutePushCode(s: Machine, l: RegList)
    requires PushList(l) && CodeAt(s.core.mem, s.core.regs.pc, EncodePush(l)) && !InItBlock(s.core.regs.it)
    ensures var c := Push(s.core, l);
            ExecuteAt(s) == s.(core := c.(regs := c.regs.(pc := Wrap(s.core.regs.pc + 2))))
  {
    hide Push, Body, Instruction.Decode, CodeAt, EncodePush, EncodePop, Is32Bit, ExecuteAt, Wrap;
    StackHalfwordsAreShort(l);
    PushDecodes(l);
    EncodedPushPop(s, l, {});
    ExecuteShort(s, EncodePush(l));
  }

  lemma ExecutePopCode(s: Machine, l: RegList)
    requires (forall j :: j in l ==> j < 8 || j == 15) && 15 in l
    requires CodeAt(s.core.mem, s.core.regs.pc, EncodePop(l)) && !InItBlock(s.core.regs.it)
    ensures ExecuteAt(s) == s.(core := Pop(s.core, l))
  {
    hide Pop, Body, Instruction.Decode, CodeAt, EncodePush, EncodePop, Is32Bit, ExecuteAt;
    StackHalfwordsAreShort(l);
    PopDecodes(l);
    EncodedPushPop(s, {}, l);
    ExecuteShort(s, EncodePop(l));
  }

  /** The same for the two-instruction function PUSH {L, LR}; POP {L, PC}, whatever low registers L
      names: after two turns of the loop the whole context is back, r4-r11 included. */
  lemma FunctionHandlerInvisible(s: Machine, l: RegList)
    requires NextException(s.core.pend).Some? && NextException(CheckPending(s.core).pend).None?
    requires Pro.LowList(l) && Nest.FrameMapped(s.core.regs) && Nest.HandlerOnMsp(s.core.regs)
    requires s.core.regs.control < 4 && s.core.regs.pc % 2 == 0 && !InItBlock(s.core.regs.it)
    requires var e := CheckPending(s.core);
             && 0 <= PushBase(e.regs, l + {14})
             && InRegion(PushBase(e.regs, l + {14}), 4 * Multiple.Count(l + {14}, 0))
             && Apart(PushBase(e.regs, l + {14}), 4 * Multiple.Count(l + {14}, 0), FrameBase(s.core.regs), FRAME_SIZE)
             && CodeAt(e.mem, e.regs.pc, EncodePush(l + {14}))
    requires var t := ThreadStep(s); CodeAt(t.core.mem, t.core.regs.pc, EncodePop(l + {15}))
    ensures var t := ThreadStep(ThreadStep(s));
            && Nest.ContextOf(t.core.regs) == Nest.ContextOf(s.core.regs)
            && (forall i :: 4 <= i < 12 ==> t.core.regs.gpr[i] == s.core.regs.gpr[i])
            && NextException(t.core.pend).None?
  {
    hide CheckPending, EnterException, NextException, Push;
    hide Pop, CodeAt, Nest.ContextOf, Nest.FrameMapped, Nest.HandlerOnMsp;
    hide InRegion, Apart, Multiple.Count, Pro.LowList, InItBlock, Pro.Behaved, Pro.Stacked, ExecuteAt, Wrap;
    var n := NextException(s.core.pend).value;
    var e := s.(core := CheckPending(s.core));
    var c1 := Pro.Stacked(s.core, n, l);
    TakenException(s.core);
    PushedByHandler(s.core, l);
    Pro.LowPushList(l);
    ExecutePushCode(e, l + {14});
    var t1 := ThreadStep(s);
    NothingTaken(t1.core);
    PopListOf(l);
    ExecutePopCode(t1, l + {15});
    Pro.StackedEmptyBehaves(s.core, n, l);
    BehaviourIgnoresPc(s.core.regs, l, c1, t1.core);
    Pro.StackedHandlerInvisible(s.core, n, l, t1.core);
    PopKeepsPending(t1.core, l + {15});
  }

  lemma NothingTaken(c: Core)
    requires NextException(c.pend).None?
    ensures CheckPending(c) == c
  {
  }

  lemma PopListOf(l: RegList)
    requires Pro.LowList(l)
    ensures forall j :: j in l + {15} ==> j < 8 || j == 15
  {
  }

  /** The prologue as the loop executes it, and as the handler theorem speaks of it. */
  lemma PushedByHandler(c: Core, l: RegList)
    requires NextException(c.pend).Some?
    ensures var e := CheckPending(c);
            var n := NextException(c.pend).value;
            var c1 := Pro.Stacked(c, n, l);
            && e.regs == EnterException(c, n).regs
            && Push(e, l + {14}).regs == c1.regs && Push(e, l + {14}).mem == c1.mem
            && Push(e, l + {14}).pend == e.pend && c1.regs.it == e.regs.it
  {
    hide EnterException, StoreRegs, Multiple.Count, Wrap, ClearNext;
  }

  lemma BehaviourIgnoresPc(f: Nest.Frame, l: RegList, c1: Core, c2: Core)
    requires Pro.Behaved(f, c1, l, c1)
    requires c2.regs == c1.regs.(pc := c2.regs.pc) && c2.mem == c1.mem
    ensures Pro.Behaved(f, c1, l, c2)
  {
    hide Multiple.Count, Nest.FrameIntact;
  }

  lemma PopKeepsPending(c: Core, l: RegList)
    ensures Pop(c, l).pend == c.pend
  {
    hide LoadRegs, LoadWord, AfterLoad, ReturnFrom, Multiple.Count, Wrap;
    var (r, m) := LoadRegs(c.regs, c.mem, CurrentSp(c.regs), l - {15}, LOW_AND_LR, 0);
    var a: word := Wrap(CurrentSp(c.regs) + 4 * Multiple.Count(l - {15}, 0));
    var c' := c.(regs := r, mem := m);
    ReturnKeepsPending(c'.(regs := SetCurrentSp(r, Wrap(a + 4)), mem := AfterLoad(m, a)), LoadWord(m, a));
  }

  // --- a call and its return ---

  lemma ExecuteBl(s: Machine, off: int)
    requires WideOffset(off) && InRegion(s.core.regs.pc, 4) && LoadWord(s.core.mem, s.core.regs.pc) == EncodeBl(off)
    requires !InItBlock(s.core.regs.it)
    ensures ExecuteAt(s) == s.(core := Br.Fetched(s.core, EncodeBl(off)).0)
  {
    hide ExecuteAt, Body, BodyMovesPc, LoadWord, Br.ExecuteBranch;
    hide Instruction.Decode, InRegion, WideHalves, Is32Bit, Wrap;
    var f := DecodeWord(EncodeBl(off));
    WideBranchDecodes(off, true);
    Br.BlReaches(s.core, off);
    ExecuteFetched(s, EncodeBl(off));
    BranchBody(s, f);
  }

  /** BL in memory to a function that is one BX LR: two turns of the loop later execution goes on
      behind the BL, with LR the return address and nothing else changed. */
  lemma CallThroughMemoryReturns(s: Machine, off: int)
    requires NextException(s.core.pend).None? && !InItBlock(s.core.regs.it)
    requires WideOffset(off) && s.core.regs.pc % 2 == 0
    requires InRegion(s.core.regs.pc, 4) && LoadWord(s.core.mem, s.core.regs.pc) == EncodeBl(off)
    requires CodeAt(s.core.mem, Wrap(s.core.regs.pc + 4 + off), EncodeBx(14))
    ensures var r := s.core.regs;
            ThreadStep(ThreadStep(s)) ==
            s.(core := s.core.(regs := r.(pc := Wrap(r.pc + 4), lr := Wrap(r.pc + 5), it := ClearIt(r.it))))
  {
    hide NextException, CheckPending, ExecuteAt, Br.Fetched, CodeAt;
    hide EncodeBl, LoadWord, Wrap, ReturnFrom, IsExcReturn;
    var c := s.core;
    NothingTaken(c);
    ExecuteBl(s, off);
    Br.BlReaches(c, off);
    var t := ThreadStep(s);
    assert t == s.(core := t.core);
    NothingTaken(t.core);
    ExecuteBx(t);
    Br.CallReturns(c, off, t.core);
    CodeIsLow(c.regs.pc);
    ClearedTwice(c.regs.it);
  }

  lemma CodeIsLow(pc: word)
    requires InRegion(pc, 4)
    ensures pc < 0xF000_0000 - 4
  {
  }

  lemma ClearedTwice(it: ItState)
    ensures ClearIt(ClearIt(it)) == ClearIt(it) && !InItBlock(ClearIt(it))
  {
  }

  // --- the loop ---

  class Thread {
    const exec: Executor
    const fetchPort: BusPort

    /** Fetches, core accesses and instruction accesses have a cached descriptor each. */
    ghost predicate Valid()
      reads exec.cpu.port, exec.cpu.port.bus, exec.port, exec.port.bus, fetchPort, fetchPort.bus
    {
      && exec.Valid() && fetchPort.Valid() && fetchPort.bus == exec.port.bus
      && fetchPort != exec.port && fetchPort != exec.cpu.port
    }

    ghost function Footprint(): set<object> {
      {exec} + exec.port.Footprint() + exec.cpu.Footprint() + fetchPort.Footprint()
    }

    ghost function State(): Machine
      reads exec, exec.cpu, exec.cpu.regs, exec.cpu.regs.gpr, exec.cpu.port, exec.cpu.port.bus
      reads exec.cpu.port.bus.memory.data, exec.port, exec.port.bus
      requires exec.Valid()
    {
      Machine(exec.State(), exec.MonitorState())
    }

    ghost predicate Escaped()
      reads exec.port, exec.cpu.port, fetchPort
    {
      exec.Wild() || fetchPort.wild
    }

    constructor (exec: Executor, fetchPort: BusPort)
      requires exec.Valid() && fetchPort.Valid() && fetchPort.bus == exec.port.bus
      requires fetchPort != exec.port && fetchPort != exec.cpu.port
      ensures Valid() && this.exec == exec && this.fetchPort == fetchPort
    {
      this.exec, this.fetchPort := exec, fetchPort;
    }

    method FetchInstruction(a: word) returns (w: word)
      requires Valid()
      modifies fetchPort.Footprint()
      ensures Valid() && (old(fetchPort.wild) ==> fetchPort.wild)
      ensures !fetchPort.wild ==> (fetchPort.bus.State(), w) == BusRead(old(fetchPort.bus.State()), a, 4)
    {
      hide PortRead, BusRead;
      ReadAgrees(fetchPort.State(), a, 4);
      w := fetchPort.ReadMemory(a, 4);
    }

    /** Fetch, decode, execute and the update of PC. */
    method ExecuteNext()
      requires Valid()
      modifies Footprint()
      ensures Valid() && (old(Escaped()) ==> Escaped())
      ensures !Escaped() ==> State() == ExecuteAt(old(State()))
    {
      hide BusRead, Instruct, MovesPc, Instruction.Decode, Is32Bit, Wrap, CacheSound, BusController.Configured;
      var pc := exec.cpu.regs.pc;
      var data := FetchInstruction(pc);
      var is32Bit := Is32Bit(data);
      var fields := DecodeWord(data);
      var pcChanged := exec.ExecuteInstruction(fields);
      if !pcChanged {
        exec.cpu.regs.pc := Wrap((pc as int) + if is32Bit then 4 else 2);
      }
    }

    method ThreadTurn()
      requires Valid()
      modifies Footprint()
      ensures Valid() && (old(Escaped()) ==> Escaped())
      ensures !Escaped() ==> State() == ThreadStep(old(State()))
    {
      hide CheckPending, ExecuteAt, CacheSound, BusController.Configured;
      exec.cpu.CheckPendingExceptions();
      ExecuteNext();
    }

    /** `n` turns of the endless loop. */
    method Run(n: nat)
      requires Valid()
      modifies Footprint()
      ensures Valid() && (old(Escaped()) ==> Escaped())
      ensures !Escaped() ==> State() == ThreadRun(old(State()), n)
    {
      hide ThreadStep, CacheSound, BusController.Configured;
      for i := 0 to n
        invariant Valid() && (old(Escaped()) ==> Escaped())
        invariant !Escaped() ==> State() == ThreadRun(old(State()), i)
      {
        ThreadTurn();
      }
    }
  }
}
