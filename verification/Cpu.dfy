/** Exception entry, return and dispatch (src/cpu/CPU.cpp). Sections B1.5.6 and B1.5.8 of
    the ARMv7-M Architecture Reference Manual describe the mechanism the code follows. */
module Cpu {
  import opened Words
  import opened Registers
  import opened Memory
  import opened BusCtrl
  import opened DataPort
  import opened WordAccess

  const EXCEPTION_NMI := 2
  const EXCEPTION_HARD_FAULT := 3
  const EXCEPTION_SVCALL := 11
  const EXCEPTION_PENDSV := 14
  const EXCEPTION_SYSTICK := 15
  const EXCEPTION_IRQ0 := 16

  const RETURN_TO_HANDLER: word := 0xFFFF_FFF1
  const RETURN_TO_THREAD_MSP: word := 0xFFFF_FFF9
  const RETURN_TO_THREAD_PSP: word := 0xFFFF_FFFD

  /** The pending flags, and the number of the external exception behind `irq`. */
  datatype Pending = Pending(nmi: bool, hardfault: bool, svc: bool, systick: bool, pendsv: bool,
                             irq: bool, external: word)

  datatype Core = Core(regs: Regs, mem: MemState, pend: Pending)

  // --- stacking ---

  const FRAME_SIZE := 32

  predicate UsesPsp(r: Regs) { !InException(r) && Spsel(r.control) }

  function StackingSp(r: Regs): word { if UsesPsp(r) then r.psp else r.msp }

  /** Where the frame of an exception taken in this state starts. */
  function FrameBase(r: Regs): word { Wrap(StackingSp(r) - FRAME_SIZE) }

  /** The stacked context, lowest address first. */
  function FrameWords(r: Regs): seq<word> {
    [r.gpr[0], r.gpr[1], r.gpr[2], r.gpr[3], r.gpr[12], r.lr, r.pc, r.psr]
  }

  /** The order in which the words are pushed. */
  function PushOrder(r: Regs): seq<word> {
    [r.psr, r.pc, r.lr, r.gpr[12], r.gpr[3], r.gpr[2], r.gpr[1], r.gpr[0]]
  }

  /** The LR value that names the bank the frame was pushed on. */
  function ExcReturnCode(r: Regs): word {
    if UsesPsp(r) then RETURN_TO_THREAD_PSP
    else if InException(r) then RETURN_TO_HANDLER
    else RETURN_TO_THREAD_MSP
  }

  function PushFrameRegs(r: Regs): Regs {
    (if UsesPsp(r) then r.(psp := FrameBase(r)) else r.(msp := FrameBase(r))).(lr := ExcReturnCode(r))
  }

  function PushFrameMem(r: Regs, m: MemState): MemState {
    StoreDown(m, StackingSp(r), PushOrder(r))
  }

  /** `handle_exception`: stack, switch to Handler mode on MSP, vector. A zero vector pends
      HardFault (unless this is HardFault) and leaves PC alone. */
  function EnterException(c: Core, n: word): Core {
    var r := PushFrameRegs(c.regs);
    var m := PushFrameMem(c.regs, c.mem);
    var r' := r.(psr := SetIpsr(r.psr, n), control := ClearSpsel(r.control));
    var handler := LoadWord(m, Wrap(n * 4));
    Core(if handler != 0 then r'.(pc := ClearBit0(handler)) else r',
         AfterLoad(m, Wrap(n * 4)),
         if handler == 0 && n != EXCEPTION_HARD_FAULT then c.pend.(hardfault := true) else c.pend)
  }

  // --- unstacking ---

  /** The EXC_RETURN values `try_exception_return` accepts: top nibble 0xF and low nibble
      1, 9 or 0xD, whatever is between. */
  predicate IsExcReturn(code: word) {
    code >= 0xF000_0000 && (code % 16 == 0x1 || code % 16 == 0x9 || code % 16 == 0xD)
  }

  function UnstackRegs(r: Regs, code: word, ws: seq<word>): Regs
    requires |ws| == 8
  {
    var usePsp := code % 16 == 0xD;
    var sp := Wrap((if usePsp then r.psp else r.msp) + FRAME_SIZE);
    var r1 := if usePsp then r.(psp := sp) else r.(msp := sp);
    var r2 := r1.(gpr := r1.gpr[0 := ws[0]][1 := ws[1]][2 := ws[2]][3 := ws[3]][12 := ws[4]],
                  lr := ws[5], psr := ws[7], pc := ClearBit0(ws[6]));
    if code % 16 == 0x1 then r2
    else r2.(control := if usePsp then RaiseSpsel(r.control) else ClearSpsel(r.control))
  }

  function UnstackingSp(r: Regs, code: word): word { if code % 16 == 0xD then r.psp else r.msp }

  /** `try_exception_return` for an accepted code. */
  function ReturnFrom(c: Core, code: word): Core {
    var (ws, m) := LoadUp(c.mem, UnstackingSp(c.regs, code), 8);
    c.(regs := UnstackRegs(c.regs, code, ws), mem := m)
  }

  function TryExceptionReturn(c: Core, code: word): (Core, bool) {
    if IsExcReturn(code) then (ReturnFrom(c, code), true) else (c, false)
  }

  // --- dispatch ---

  /** The exception `check_pending_exceptions` takes: the highest flag in a fixed order. */
  function NextException(p: Pending): Option<word> {
    if p.nmi then Some(EXCEPTION_NMI)
    else if p.hardfault then Some(EXCEPTION_HARD_FAULT)
    else if p.svc then Some(EXCEPTION_SVCALL)
    else if p.systick then Some(EXCEPTION_SYSTICK)
    else if p.pendsv then Some(EXCEPTION_PENDSV)
    else if p.irq then Some(if p.external >= EXCEPTION_IRQ0 then p.external else EXCEPTION_IRQ0)
    else None
  }

  /** The flag behind `NextException`, cleared. */
  function ClearNext(p: Pending): Pending {
    if p.nmi then p.(nmi := false)
    else if p.hardfault then p.(hardfault := false)
    else if p.svc then p.(svc := false)
    else if p.systick then p.(systick := false)
    else if p.pendsv then p.(pendsv := false)
    else p.(irq := false)
  }

  /** `check_pending_exceptions`: the flag is cleared after the exception was entered. The flag
      is the one that was highest before entry: entry can only raise HardFault. */
  function CheckPending(c: Core): Core {
    match NextException(c.pend)
    case None => c
    case Some(n) =>
      var c' := EnterException(c, n);
      var raised := c'.pend.hardfault && !c.pend.hardfault;
      c'.(pend := ClearNext(c.pend).(hardfault := raised || ClearNext(c.pend).hardfault))
  }

  /** A message on the interrupt line (`CPU::b_transport`). */
  function Signal(p: Pending, n: word): Pending {
    if n == 1 then p.(irq := true)
    else if n == EXCEPTION_NMI then p.(nmi := true)
    else if n == EXCEPTION_HARD_FAULT then p.(hardfault := true)
    else if n == EXCEPTION_PENDSV then p.(pendsv := true)
    else if n == EXCEPTION_SYSTICK then p.(systick := true)
    else if n >= EXCEPTION_IRQ0 then p.(external := n, irq := true)
    else p
  }

  lemma {:induction false} StoreDownSnoc(m: MemState, sp: word, ws: seq<word>, w: word)
    ensures StoreDown(m, sp, ws + [w]) == StoreWord(StoreDown(m, sp, ws), Wrap(sp - 4 * |ws| - 4), w)
    decreases |ws|
  {
    hide StoreWord, Wrap;
    if ws == [] {
      var stored := StoreWord(m, Wrap(sp - 4), w);
      assert [] + [w] == [w] && StoreDown(stored, Wrap(sp - 4), []) == stored;
    } else {
      assert (ws + [w])[1..] == ws[1..] + [w];
      StoreDownSnoc(StoreWord(m, Wrap(sp - 4), ws[0]), Wrap(sp - 4), ws[1..], w);
      WrapTwice(sp - 4, -4 * |ws[1..]| - 4);
      assert Wrap(sp - 4 - 4 * |ws[1..]| - 4) == Wrap(sp - 4 * |ws| - 4);
    }
  }

  lemma {:induction false} LoadUpSnoc(m: MemState, sp: word, n: nat)
    ensures var (ws, m') := LoadUp(m, sp, n);
            LoadUp(m, sp, n + 1) == (ws + [LoadWord(m', Wrap(sp + 4 * n))], AfterLoad(m', Wrap(sp + 4 * n)))
    decreases n
  {
    hide LoadWord, AfterLoad, Wrap;
    if n == 0 {
      WrapWord(sp);
      assert LoadUp(AfterLoad(m, sp), Wrap(sp + 4), 0) == ([], AfterLoad(m, sp));
      assert Wrap(sp + 4 * 0) == sp && [LoadWord(m, sp)] + [] == [] + [LoadWord(m, sp)];
    } else {
      LoadUpSnoc(AfterLoad(m, sp), Wrap(sp + 4), n - 1);
      var (ws, m') := LoadUp(AfterLoad(m, sp), Wrap(sp + 4), n - 1);
      var last := LoadWord(m', Wrap(sp + 4 * n));
      assert [LoadWord(m, sp)] + (ws + [last]) == ([LoadWord(m, sp)] + ws) + [last];
      WrapTwice(sp + 4, 4 * (n - 1));
      assert Wrap(sp + 4 + 4 * (n - 1)) == Wrap(sp + 4 * n);
    }
  }

  /** Vector table entries are aligned. */
  lemma HandlerWord(n: word)
    ensures Wrap(n * 4) % 4 == 0
  {
    MultipleOfFour(n);
    WrapAligned(4 * n);
  }

  class CpuCore {
    const regs: RegisterFile
    const port: BusPort
    var nmiPending: bool
    var hardfaultPending: bool
    var svcPending: bool
    var systickPending: bool
    var pendsvPending: bool
    var irqPending: bool
    var pendingExternal: word

    ghost predicate Valid()
      reads port, port.bus
    {
      regs.Valid() && port.Valid() && (regs.gpr as object) != port.bus.memory.data
    }

    ghost function Footprint(): set<object> { {this} + regs.Footprint() + port.Footprint() }

    ghost function Flags(): Pending
      reads this
    {
      Pending(nmiPending, hardfaultPending, svcPending, systickPending, pendsvPending, irqPending, pendingExternal)
    }

    ghost function State(): Core
      reads this, regs, regs.gpr, port, port.bus, port.bus.memory.data
      requires Valid()
    {
      Core(regs.State(), port.bus.State(), Flags())
    }

    constructor (regs: RegisterFile, port: BusPort)
      requires regs.Valid() && port.Valid() && (regs.gpr as object) != port.bus.memory.data
      ensures Valid() && this.regs == regs && this.port == port
      ensures Flags() == Pending(false, false, false, false, false, false, 0)
    {
      this.regs := regs;
      this.port := port;
      nmiPending, hardfaultPending, svcPending := false, false, false;
      systickPending, pendsvPending, irqPending, pendingExternal := false, false, false, 0;
    }

    method ReadMemoryWord(a: word) returns (v: word)
      requires Valid()
      modifies port.Footprint()
      ensures Valid()
      ensures !port.wild ==>
                v == LoadWord(old(port.bus.State()), a) && port.bus.State() == AfterLoad(old(port.bus.State()), a)
      ensures old(port.wild) ==> port.wild
      ensures !old(port.wild) && a % 4 == 0 ==> !port.wild
    {
      hide PortRead, BusRead;
      ReadAgrees(port.State(), a, 4);
      v := port.ReadMemory(a, 4);
    }

    method WriteMemoryWord(a: word, v: word)
      requires Valid()
      modifies port.Footprint()
      ensures Valid()
      ensures !port.wild ==> port.bus.State() == StoreWord(old(port.bus.State()), a, v)
      ensures old(port.wild) ==> port.wild
      ensures !old(port.wild) && a % 4 == 0 ==> !port.wild
    {
      hide PortWrite, BusWrite;
      WriteAgrees(port.State(), a, 4, v);
      port.WriteMemory(a, v, 4);
    }

    method PushExceptionStackFrame(returnAddress: word)
      requires Valid() && returnAddress == regs.pc
      modifies regs.Footprint(), port.Footprint()
      ensures Valid() && regs.State() == PushFrameRegs(old(regs.State()))
      ensures !port.wild ==> port.bus.State() == PushFrameMem(old(regs.State()), old(port.bus.State()))
      ensures !old(port.wild) && old(StackingSp(regs.State())) % 4 == 0 ==> !port.wild
      ensures old(port.wild) ==> port.wild
    {
      hide StoreDown;
      var inHandler := Ipsr(regs.psr) != 0;
      var threadUsedPsp := !inHandler && Spsel(regs.control);
      var sp := if threadUsedPsp then regs.psp else regs.msp;
      var r12 := regs.ReadRegister(12);
      var r3 := regs.ReadRegister(3);
      var r2 := regs.ReadRegister(2);
      var r1 := regs.ReadRegister(1);
      var r0 := regs.ReadRegister(0);
      sp := PushContext(sp, [regs.psr, returnAddress, regs.lr, r12, r3, r2, r1, r0]);
      if threadUsedPsp {
        regs.psp := sp;
        regs.lr := 0xFFFF_FFFD;
      } else if inHandler {
        regs.msp := sp;
        regs.lr := 0xFFFF_FFF1;
      } else {
        regs.msp := sp;
        regs.lr := 0xFFFF_FFF9;
      }
    }

    /** The pushes, first value highest. */
    method PushContext(top: word, values: seq<word>) returns (sp: word)
      requires Valid()
      modifies port.Footprint()
      ensures Valid() && sp == Wrap(top - 4 * |values|)
      ensures !port.wild ==> port.bus.State() == StoreDown(old(port.bus.State()), top, values)
      ensures !old(port.wild) && top % 4 == 0 ==> !port.wild
      ensures old(port.wild) ==> port.wild
    {
      hide StoreDown, StoreWord, Wrap;
      ghost var m := port.bus.State();
      StoreDownNothing(m, top);
      WrapWord(top);
      sp := top;
      for i := 0 to |values|
        invariant Valid() && sp == Wrap(top + 4 * -i)
        invariant !port.wild ==> port.bus.State() == StoreDown(m, top, values[..i])
        invariant !old(port.wild) && top % 4 == 0 ==> !port.wild
        invariant old(port.wild) ==> port.wild
      {
        WordStep(top, -i);
        WordStep(top, -i - 1);
        sp := Wrap(sp - 4);
        WriteMemoryWord(sp, values[i]);
        StoreDownSnoc(m, top, values[..i], values[i]);
        assert values[..i] + [values[i]] == values[..i + 1];
      }
      assert values[..|values|] == values;
    }

    method HandleException(n: word)
      requires Valid()
      modifies Footprint()
      ensures Valid()
      ensures !port.wild ==> State() == EnterException(old(State()), n)
      ensures !old(port.wild) && old(StackingSp(regs.State())) % 4 == 0 ==> !port.wild
      ensures old(port.wild) ==> port.wild
      ensures Flags() == old(Flags()) || Flags() == old(Flags()).(hardfault := true)
    {
      hide PushFrameMem, PushFrameRegs, LoadWord, AfterLoad, SetIpsr, ClearSpsel, ClearBit0, Wrap, StackingSp, Ipsr;
      HandlerWord(n);
      PushExceptionStackFrame(regs.pc);
      regs.psr := SetIpsr(regs.psr, n);
      regs.control := ClearSpsel(regs.control);
      var handler := ReadMemoryWord(Wrap(n * 4));
      if handler != 0 {
        regs.pc := ClearBit0(handler);
      } else {
        if n != EXCEPTION_HARD_FAULT {
          TriggerException(EXCEPTION_HARD_FAULT);
        }
      }
    }

    /** Only NMI, HardFault, PendSV and SysTick can be triggered this way. */
    method TriggerException(n: word)
      modifies this`nmiPending, this`hardfaultPending, this`pendsvPending, this`systickPending
      ensures Flags() ==
              if n == EXCEPTION_NMI || n == EXCEPTION_HARD_FAULT || n == EXCEPTION_PENDSV || n == EXCEPTION_SYSTICK
              then Signal(old(Flags()), n) else old(Flags())
    {
      match n {
        case 2 => nmiPending := true;
        case 3 => hardfaultPending := true;
        case 14 => pendsvPending := true;
        case 15 => systickPending := true;
        case _ =>
      }
    }

    method TryReturn(code: word) returns (returned: bool)
      requires Valid()
      modifies Footprint()
      ensures Valid() && returned == IsExcReturn(code) && Flags() == old(Flags())
      ensures !port.wild ==> State() == TryExceptionReturn(old(State()), code).0
      ensures !old(port.wild) && old(UnstackingSp(regs.State(), code)) % 4 == 0 ==> !port.wild
      ensures old(port.wild) ==> port.wild
    {
      hide LoadUp;
      if code / 0x1000_0000 != 0xF {
        return false;
      }
      var low := code % 16;
      var toThread, usePsp;
      match low {
        case 0x1 => toThread, usePsp := false, false;
        case 0x9 => toThread, usePsp := true, false;
        case 0xD => toThread, usePsp := true, true;
        case _ => return false;
      }
      var ws := PopContext(if usePsp then regs.psp else regs.msp, 8);
      WriteBack(usePsp, toThread, Wrap((if usePsp then regs.psp else regs.msp) + FRAME_SIZE), ws);
      returned := true;
    }

    /** The pops, lowest address first. */
    method PopContext(bottom: word, n: nat) returns (ws: seq<word>)
      requires Valid()
      modifies port.Footprint()
      ensures Valid() && |ws| == n
      ensures !port.wild ==> (ws, port.bus.State()) == LoadUp(old(port.bus.State()), bottom, n)
      ensures !old(port.wild) && bottom % 4 == 0 ==> !port.wild
      ensures old(port.wild) ==> port.wild
    {
      hide LoadUp, LoadWord, AfterLoad, Wrap;
      ghost var m := port.bus.State();
      LoadNothing(m, bottom);
      WrapWord(bottom);
      var sp: word := bottom;
      ws := [];
      for i := 0 to n
        invariant Valid() && sp == Wrap(bottom + 4 * i) && |ws| == i
        invariant !port.wild ==> (ws, port.bus.State()) == LoadUp(m, bottom, i)
        invariant !old(port.wild) && bottom % 4 == 0 ==> !port.wild
        invariant old(port.wild) ==> port.wild
      {
        LoadUpSnoc(m, bottom, i);
        WordStep(bottom, i);
        var v := ReadMemoryWord(sp);
        ws := ws + [v];
        sp := Wrap(sp + 4);
      }
    }

    /** The register half of the return. */
    method WriteBack(usePsp: bool, toThread: bool, sp: word, ws: seq<word>)
      requires Valid() && |ws| == 8 && (usePsp ==> toThread)
      requires sp == Wrap((if usePsp then regs.psp else regs.msp) + FRAME_SIZE)
      modifies regs.Footprint()
      ensures regs.State() ==
              var code := if usePsp then RETURN_TO_THREAD_PSP
                          else if toThread then RETURN_TO_THREAD_MSP
                          else RETURN_TO_HANDLER;
              UnstackRegs(old(regs.State()), code, ws)
    {
      hide RaiseSpsel, ClearSpsel, ClearBit0, Wrap;
      WriteBackScratch(ws);
      if usePsp {
        regs.psp := sp;
      } else {
        regs.msp := sp;
      }
      regs.lr := ws[5];
      regs.psr := ws[7];
      if toThread {
        regs.control := if usePsp then RaiseSpsel(regs.control) else ClearSpsel(regs.control);
      }
      regs.pc := ClearBit0(ws[6]);
    }

    method WriteBackScratch(ws: seq<word>)
      requires Valid() && |ws| == 8
      modifies regs.Footprint()
      ensures var g := old(regs.State()).gpr;
              regs.State() == old(regs.State()).(gpr := g[0 := ws[0]][1 := ws[1]][2 := ws[2]][3 := ws[3]][12 := ws[4]])
    {
      hide SetCurrentSp, ClearBit0;
      regs.WriteRegister(0, ws[0]);
      regs.WriteRegister(1, ws[1]);
      regs.WriteRegister(2, ws[2]);
      regs.WriteRegister(3, ws[3]);
      regs.WriteRegister(12, ws[4]);
    }

    method HandleIrq()
      requires Valid()
      modifies Footprint()
      ensures Valid()
      ensures !port.wild ==>
                var n := if old(pendingExternal) >= EXCEPTION_IRQ0 then old(pendingExternal) else EXCEPTION_IRQ0;
                State() == EnterException(old(State()), n)
      ensures old(port.wild) ==> port.wild
      ensures Flags() == old(Flags()) || Flags() == old(Flags()).(hardfault := true)
    {
      var n := if pendingExternal >= EXCEPTION_IRQ0 then pendingExternal else EXCEPTION_IRQ0;
      HandleException(n);
    }

    method CheckPendingExceptions()
      requires Valid()
      modifies Footprint()
      ensures Valid()
      ensures !port.wild ==> State() == CheckPending(old(State()))
      ensures old(port.wild) ==> port.wild
    {
      hide EnterException;
      if nmiPending {
        HandleException(EXCEPTION_NMI);
        nmiPending := false;
        return;
      }
      if hardfaultPending {
        HandleException(EXCEPTION_HARD_FAULT);
        hardfaultPending := false;
        return;
      }
      if svcPending {
        HandleException(EXCEPTION_SVCALL);
        svcPending := false;
        return;
      }
      if systickPending {
        HandleException(EXCEPTION_SYSTICK);
        systickPending := false;
        return;
      }
      if pendsvPending {
        HandleException(EXCEPTION_PENDSV);
        pendsvPending := false;
        return;
      }
      if irqPending {
        HandleIrq();
        irqPending := false;
        return;
      }
    }

    method RequestSvc()
      modifies this`svcPending
      ensures Flags() == old(Flags()).(svc := true)
    {
      svcPending := true;
    }

    /** The interrupt line. */
    method BTransport(n: word)
      modifies this
      ensures Flags() == Signal(old(Flags()), n)
    {
      match n {
        case 1 => irqPending := true;
        case 2 => nmiPending := true;
        case 3 => hardfaultPending := true;
        case 14 => pendsvPending := true;
        case 15 => systickPending := true;
        case _ =>
          if n >= EXCEPTION_IRQ0 {
            pendingExternal := n;
            irqPending := true;
          }
      }
    }
  }

  lemma StoreDownNothing(m: MemState, sp: word)
    ensures StoreDown(m, sp, []) == m
  {
  }

  lemma LoadNothing(m: MemState, sp: word)
    ensures LoadUp(m, sp, 0) == ([], m)
  {
  }
}
