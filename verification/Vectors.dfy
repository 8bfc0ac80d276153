/** Where an exception goes: the entry of the vector table that entry reads, and the order in which
    pending exceptions are taken (src/cpu/CPU.cpp). */
module Vectors {
  import opened Words
  import opened Registers
  import opened Memory
  import opened BusCtrl
  import opened DataPort
  import opened WordAccess
  import opened Cpu
  import opened Nesting

  // --- the vector ---

  /** The word at 4 * n, which is the table entry of exception n, lies in one region, apart from the
      frame that entry pushes. */
  predicate VectorReadable(r: Regs, n: word) {
    4 * n < TWO32 && InRegion(4 * n, 4) && Apart(4 * n, 4, FrameBase(r), FRAME_SIZE)
  }

  /** What entry does with a table entry of `h`: a nonzero one is the address of the handler, bit 0
      dropped; a zero one leaves PC alone and raises HardFault, unless this is HardFault. The handler
      runs in Handler mode for n, on MSP, with everything but SP, LR, PC, IPSR and SPSEL as it was. */
  ghost predicate Vectored(c: Core, e: Core, n: word, h: word) {
    && e.regs.pc == (if h == 0 then c.regs.pc else h - h % 2)
    && e.pend == (if h == 0 && n != 3 then c.pend.(hardfault := true) else c.pend)
    && e.regs.psr % 0x200 == n % 0x200 && e.regs.psr / 0x200 == c.regs.psr / 0x200
    && e.regs.control == c.regs.control % 2
    && e.regs.gpr == c.regs.gpr && e.regs.it == c.regs.it
    && (n % 0x200 != 0 ==> CurrentSp(e.regs) == e.regs.msp)
  }

  lemma {:induction false} EntryTakesVector(c: Core, n: word)
    requires FrameMapped(c.regs) && VectorReadable(c.regs, n)
    ensures Vectored(c, EnterException(c, n), n, LoadWord(c.mem, 4 * n))
  {
    hide LoadWord, AfterLoad, StoreDown, FrameBase, PushFrameRegs, Apart, InRegion;
    VectorUnchanged(c, n);
    EntryShape(c, n);
    WrapWord(4 * n);
  }

  /** Stacking does not touch the entry. */
  lemma VectorUnchanged(c: Core, n: word)
    requires FrameMapped(c.regs) && VectorReadable(c.regs, n)
    ensures LoadWord(PushFrameMem(c.regs, c.mem), 4 * n) == LoadWord(c.mem, 4 * n)
  {
    hide LoadWord, StoreDown;
    var base := FrameBase(c.regs);
    FrameTop(c.regs);
    assert |PushOrder(c.regs)| == 8;
    StoreDownHolds(c.mem, base, PushOrder(c.regs));
    LoadUnchanged(c.mem, PushFrameMem(c.regs, c.mem), base, FRAME_SIZE, 4 * n);
  }

  lemma EntryShape(c: Core, n: word)
    ensures var h := LoadWord(PushFrameMem(c.regs, c.mem), Wrap(4 * n));
            Vectored(c, EnterException(c, n), n, h)
  {
    hide LoadWord, AfterLoad, PushFrameMem, FrameBase;
    assert n * 4 == 4 * n;
    NumberInPsr(c.regs.psr, n);
  }

  lemma NumberInPsr(psr: word, n: word)
    ensures SetIpsr(psr, n) % 0x200 == n % 0x200 && SetIpsr(psr, n) / 0x200 == psr / 0x200
  {
  }

  /** The frame is pushed on the stack pointer in force. */
  lemma FrameBelowSp(r: Regs)
    requires FrameMapped(r)
    ensures FrameBase(r) + 32 == if r.psr % 0x200 == 0 && r.control / 2 % 2 == 1 then r.psp else r.msp
    ensures FrameBase(r) + 32 == CurrentSp(r)
  {
  }

  // --- the order ---

  /** The pending exceptions, highest priority first: NMI, HardFault, SVCall, SysTick, PendSV and the
      external interrupt, by number. */
  function Flags(p: Pending): (fs: seq<bool>)
    ensures |fs| == 6
  {
    [p.nmi, p.hardfault, p.svc, p.systick, p.pendsv, p.irq]
  }

  function Numbers(p: Pending): (ns: seq<word>)
    ensures |ns| == 6
  {
    [2, 3, 11, 15, 14, if p.external < 16 then 16 else p.external]
  }

  /** Flag `k` is the highest that is set. */
  predicate Highest(p: Pending, k: nat)
    requires k < 6
  {
    Flags(p)[k] && forall j :: 0 <= j < k ==> !Flags(p)[j]
  }

  lemma FlagsByIndex(p: Pending)
    ensures var fs := Flags(p);
            && fs[0] == p.nmi && fs[1] == p.hardfault && fs[2] == p.svc && fs[3] == p.systick
            && fs[4] == p.pendsv && fs[5] == p.irq
    ensures var ns := Numbers(p);
            ns[0] == 2 && ns[1] == 3 && ns[2] == 11 && ns[3] == 15 && ns[4] == 14 && ns[5] >= 16
  {
  }

  /** The exception taken is the one whose flag is set while no flag of higher priority is; nothing is
      taken if and only if no flag is set. */
  lemma {:induction false} HighestIsTaken(p: Pending, k: nat)
    requires k < 6
    ensures Highest(p, k) <==> NextException(p) == Some(Numbers(p)[k])
    ensures NextException(p).None? <==> forall j :: 0 <= j < 6 ==> !Flags(p)[j]
  {
    FlagsByIndex(p);
    assert Numbers(p)[5] == if p.external >= 16 then p.external else 16;
    hide Flags, Numbers;
  }

  /** Then its flag, and no other, is cleared. */
  lemma HighestIsCleared(p: Pending, k: nat)
    requires k < 6 && Highest(p, k)
    ensures Flags(ClearNext(p)) == Flags(p)[k := false] && ClearNext(p).external == p.external
  {
    FlagsByIndex(p);
    FlagsByIndex(ClearNext(p));
    hide Flags, Numbers;
  }

  /** One call of `check_pending_exceptions`: the highest pending exception goes to its vector, and its
      flag alone is cleared, HardFault being raised exactly by a zero entry of another exception. */
  lemma {:induction false} TakenGoesToVector(c: Core, k: nat)
    requires k < 6 && Highest(c.pend, k)
    requires FrameMapped(c.regs) && VectorReadable(c.regs, Numbers(c.pend)[k])
    ensures var n, t := Numbers(c.pend)[k], CheckPending(c);
            var h := LoadWord(c.mem, 4 * n);
            && Vectored(c.(pend := ClearNext(c.pend)), t, n, h)
            && FrameIntact(t.mem, c.regs) && SameOutside(c.mem, t.mem, FrameBase(c.regs), FRAME_SIZE)
  {
    hide LoadWord, EnterException, FrameBase, PushFrameRegs, Apart, InRegion, FrameIntact, SameOutside, Highest;
    hide FrameMapped;
    var n := Numbers(c.pend)[k];
    HighestIsTaken(c.pend, k);
    EntryTakesVector(c, n);
    EntryStoresFrame(c, n);
    TakenFlags(c, n, LoadWord(c.mem, 4 * n));
  }

  lemma TakenFlags(c: Core, n: word, h: word)
    requires NextException(c.pend) == Some(n) && Vectored(c, EnterException(c, n), n, h)
    ensures Vectored(c.(pend := ClearNext(c.pend)), CheckPending(c), n, h)
    ensures CheckPending(c).mem == EnterException(c, n).mem
  {
    hide EnterException;
  }
}
