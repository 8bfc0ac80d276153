/** Pending exceptions drain in a fixed order, even when zero vectors keep raising HardFault. */
module Drain {
  import opened Words
  import opened Registers
  import opened Memory
  import opened BusCtrl
  import opened WordAccess
  import opened Cpu
  import opened Vectors
  import Nest = Nesting

  function Count(b: bool): nat { if b then 1 else 0 }

  function Measure(p: Pending): nat {
    2 * (Count(p.nmi) + Count(p.svc) + Count(p.systick) + Count(p.pendsv) + Count(p.irq)) + Count(p.hardfault)
  }

  function Prepend(b: bool, n: word, rest: seq<word>): seq<word> { if b then [n] + rest else rest }

  function ExternalNumber(p: Pending): word { if p.external < 16 then 16 else p.external }

  /** The exceptions other than HardFault that are pending, in the order of priority. */
  function PendingInOrder(p: Pending): seq<word> {
    Prepend(p.nmi, EXCEPTION_NMI,
            Prepend(p.svc, EXCEPTION_SVCALL,
                    Prepend(p.systick, EXCEPTION_SYSTICK,
                            Prepend(p.pendsv, EXCEPTION_PENDSV, Prepend(p.irq, ExternalNumber(p), [])))))
  }

  /** `k` calls of `check_pending_exceptions` without new requests: the final state and the
      exceptions taken. */
  function Calls(c: Core, k: nat): (Core, seq<word>)
    decreases k
  {
    if k == 0 then (c, [])
    else
      match NextException(c.pend)
      case None => (c, [])
      case Some(n) =>
        var (c', taken) := Calls(CheckPending(c), k - 1);
        (c', [n] + taken)
  }

  function WithoutHardFault(taken: seq<word>): seq<word> {
    if taken == [] then []
    else Prepend(taken[0] != EXCEPTION_HARD_FAULT, taken[0], WithoutHardFault(taken[1..]))
  }

  /** What one call does to the flags: only the taken one is cleared, and HardFault is raised
      only by an exception other than HardFault. */
  lemma CallClearsOneFlag(c: Core)
    requires NextException(c.pend).Some?
    ensures var p := CheckPending(c).pend;
            var n := NextException(c.pend).value;
            && p.external == c.pend.external
            && (p == ClearNext(c.pend) || (n != EXCEPTION_HARD_FAULT && p == ClearNext(c.pend).(hardfault := true)))
  {
    EntryOnlyRaisesHardFault(c, NextException(c.pend).value);
  }

  lemma EntryOnlyRaisesHardFault(c: Core, n: word)
    ensures var p := EnterException(c, n).pend;
            p == c.pend || (n != EXCEPTION_HARD_FAULT && p == c.pend.(hardfault := true))
  {
  }

  lemma CallDecreasesMeasure(c: Core)
    requires NextException(c.pend).Some?
    ensures Measure(CheckPending(c).pend) < Measure(c.pend)
  {
    hide CheckPending;
    CallClearsOneFlag(c);
  }

  /** After at most `Measure` calls nothing is pending, and what was taken besides HardFault is
      exactly what was pending, each once, in the fixed order. */
  lemma {:induction false} PendingExceptionsDrain(c: Core, k: nat)
    requires k >= Measure(c.pend)
    ensures var (c', taken) := Calls(c, k);
            && NextException(c'.pend).None?
            && |taken| <= Measure(c.pend)
            && WithoutHardFault(taken) == PendingInOrder(c.pend)
    decreases k
  {
    hide CheckPending;
    if NextException(c.pend).Some? {
      CallClearsOneFlag(c);
      CallDecreasesMeasure(c);
      var n := NextException(c.pend).value;
      PendingExceptionsDrain(CheckPending(c), k - 1);
      TakenFirst(c.pend, CheckPending(c).pend);
    } else {
      assert PendingInOrder(c.pend) == [];
    }
  }

  lemma TakenFirst(p: Pending, p': Pending)
    requires NextException(p).Some?
    requires p' == ClearNext(p) || p' == ClearNext(p).(hardfault := true)
    ensures var n := NextException(p).value;
            PendingInOrder(p) == Prepend(n != EXCEPTION_HARD_FAULT, n, PendingInOrder(p'))
  {
  }

  // --- the whole sequence, HardFault included ---

  /** The vector table has no handler for the exception. */
  predicate Handlerless(m: MemState, n: word) { LoadWord(m, Wrap(4 * n)) == 0 }

  /** An exception, and behind it the HardFault that its missing handler raises. */
  function WithFault(b: bool, n: word, m: MemState, rest: seq<word>): seq<word> {
    if b then [n] + Prepend(Handlerless(m, n), 3, rest) else rest
  }

  /** NMI first, then HardFault, be it pending or raised by an NMI without handler, then SVCall,
      SysTick, PendSV and the external interrupt, each followed by the HardFault it raises if it has no
      handler. */
  function FullOrder(p: Pending, m: MemState): seq<word> {
    Prepend(p.nmi, 2,
            Prepend(p.hardfault || (p.nmi && Handlerless(m, 2)), 3,
                    WithFault(p.svc, 11, m,
                              WithFault(p.systick, 15, m,
                                        WithFault(p.pendsv, 14, m,
                                                  WithFault(p.irq, ExternalNumber(p), m, []))))))
  }

  /** The stacks lie in SRAM with room for the frames of `k` entries, the first of which may go to the
      process stack. */
  predicate StackRoom(r: Regs, k: nat) {
    && 0x2000_0000 + 32 * k <= r.msp <= 0x2001_0000
    && (r.psr % 0x200 == 0 && r.control / 2 % 2 == 1 ==> 0x2000_0020 <= r.psp <= 0x2001_0000)
  }

  /** The table entry of the external interrupt, if one is pending, lies in FLASH. */
  predicate TableInFlash(p: Pending) { p.irq ==> 4 * p.external + 4 <= 0x8_0000 }

  lemma RoomForFrame(r: Regs, n: word, k: nat)
    requires StackRoom(r, k) && k > 0 && 4 * n + 4 <= 0x8_0000
    ensures Nest.FrameMapped(r) && VectorReadable(r, n) && FrameBase(r) >= 0x2000_0000
  {
  }

  /** Entry keeps room for one frame less and does not touch FLASH. */
  lemma EntryKeepsRoom(c: Core, n: word, k: nat)
    requires StackRoom(c.regs, k) && k > 0 && 4 * n + 4 <= 0x8_0000
    ensures StackRoom(EnterException(c, n).regs, k - 1)
    ensures forall x: word :: 4 * x + 4 <= 0x8_0000 ==>
              Handlerless(EnterException(c, n).mem, x) == Handlerless(c.mem, x)
  {
    hide EnterException, LoadWord, Nest.FrameIntact;
    RoomForFrame(c.regs, n, k);
    Nest.EntryRegs(c, n);
    Nest.EntryStoresFrame(c, n);
    var m := EnterException(c, n).mem;
    forall x: word | 4 * x + 4 <= 0x8_0000 ensures Handlerless(m, x) == Handlerless(c.mem, x) {
      LoadUnchanged(c.mem, m, FrameBase(c.regs), FRAME_SIZE, 4 * x);
      WrapWord(4 * x);
    }
  }

  /** The same table gives the same order. */
  lemma SameTableSameOrder(p: Pending, m: MemState, m': MemState)
    requires TableInFlash(p)
    requires forall x: word :: 4 * x + 4 <= 0x8_0000 ==> Handlerless(m', x) == Handlerless(m, x)
    ensures FullOrder(p, m') == FullOrder(p, m)
  {
    hide Handlerless;
    assert forall b, n: word, rest :: 4 * n + 4 <= 0x8_0000 ==> WithFault(b, n, m', rest) == WithFault(b, n, m, rest);
  }

  /** The first of the sequence is the exception taken, and the rest is the sequence of what is
      pending then. */
  lemma FirstOfOrder(p: Pending, m: MemState, p': Pending)
    requires NextException(p).Some?
    requires var n := NextException(p).value;
             p' == Raised(ClearNext(p), n != 3 && Handlerless(m, n))
    ensures FullOrder(p, m) == [NextException(p).value] + FullOrder(p', m)
  {
    hide Handlerless;
    if p.nmi {
    } else if p.hardfault {
    } else if p.svc {
    } else if p.systick {
    } else if p.pendsv {
    } else {
    }
  }

  function Raised(p: Pending, b: bool): Pending { p.(hardfault := p.hardfault || b) }

  lemma CallRaises(c: Core, k: nat)
    requires NextException(c.pend).Some? && StackRoom(c.regs, k) && k > 0 && TableInFlash(c.pend)
    ensures var n, c' := NextException(c.pend).value, CheckPending(c);
            && c'.pend == Raised(ClearNext(c.pend), n != 3 && Handlerless(c.mem, n))
            && c'.regs == EnterException(c, n).regs && c'.mem == EnterException(c, n).mem
            && 4 * n + 4 <= 0x8_0000
  {
    hide EnterException, LoadWord;
    var n := NextException(c.pend).value;
    RoomForFrame(c.regs, n, k);
    EntryTakesVector(c, n);
    WrapWord(4 * n);
  }

  /** With no new requests, pending exceptions are taken in exactly this order: a HardFault, pending or
      raised by an exception without handler, is next unless an NMI is pending. */
  lemma {:induction false} PendingTakenInFullOrder(c: Core, k: nat)
    requires k >= Measure(c.pend) && StackRoom(c.regs, Measure(c.pend)) && TableInFlash(c.pend)
    ensures Calls(c, k).1 == FullOrder(c.pend, c.mem)
    decreases k
  {
    hide CheckPending, EnterException, Handlerless, StackRoom;
    if NextException(c.pend).Some? {
      hide FullOrder, NextException, ClearNext, Measure, TableInFlash, Raised;
      CallClearsOneFlag(c);
      CallDecreasesMeasure(c);
      CallRaises(c, Measure(c.pend));
      var n, c' := NextException(c.pend).value, CheckPending(c);
      EntryKeepsRoom(c, n, Measure(c.pend));
      LessRoom(c'.regs, Measure(c.pend) - 1, Measure(c'.pend));
      ClearKeepsExternal(c.pend);
      PendingTakenInFullOrder(c', k - 1);
      FirstOfOrder(c.pend, c.mem, c'.pend);
      SameTableSameOrder(c'.pend, c.mem, c'.mem);
    } else {
      assert FullOrder(c.pend, c.mem) == [];
    }
  }

  lemma LessRoom(r: Regs, k: nat, j: nat)
    requires StackRoom(r, k) && j <= k
    ensures StackRoom(r, j)
  {
  }

  lemma ClearKeepsExternal(p: Pending)
    ensures TableInFlash(p) ==> forall b :: TableInFlash(Raised(ClearNext(p), b))
  {
  }

  // --- messages on the interrupt line ---

  /** The exceptions a message can raise on its own. */
  predicate Deliverable(n: word) {
    n == 2 || n == 3 || n == 14 || n == 15 || n >= 16
  }

  /** With nothing pending, a message makes its exception the next one, and only such messages do;
      message 1 is an external interrupt with the number that was last recorded. */
  lemma MessageIsTakenNext(p: Pending, n: word)
    requires NextException(p).None?
    ensures NextException(Signal(p, n)) ==
            if n == 1 then Some(ExternalNumber(p)) else if Deliverable(n) then Some(n) else None
  {
  }

  /** In every state a message sets the flag of its exception and no other; only external messages
      record a number. */
  lemma MessageSetsOneFlag(p: Pending, n: word)
    ensures var fs := Flags(Signal(p, n));
            fs == if n == 2 then Flags(p)[0 := true]
                  else if n == 3 then Flags(p)[1 := true]
                  else if n == 15 then Flags(p)[3 := true]
                  else if n == 14 then Flags(p)[4 := true]
                  else if n == 1 || n >= 16 then Flags(p)[5 := true]
                  else Flags(p)
    ensures Signal(p, n).external == if n >= 16 then n else p.external
  {
  }

  /** External interrupts share one slot: of any number of messages only the last is handled. */
  lemma {:induction false} LastExternalWins(p: Pending, ns: seq<word>)
    requires NextException(p).None? && ns != [] && forall i :: 0 <= i < |ns| ==> ns[i] >= EXCEPTION_IRQ0
    ensures PendingInOrder(SignalAll(p, ns)) == [ns[|ns| - 1]]
  {
    SignalAllExternal(p, ns);
  }

  function SignalAll(p: Pending, ns: seq<word>): Pending {
    if ns == [] then p else Signal(SignalAll(p, ns[..|ns| - 1]), ns[|ns| - 1])
  }

  lemma {:induction false} SignalAllExternal(p: Pending, ns: seq<word>)
    requires forall i :: 0 <= i < |ns| ==> ns[i] >= EXCEPTION_IRQ0
    ensures SignalAll(p, ns) == if ns == [] then p else p.(irq := true, external := ns[|ns| - 1])
  {
    if ns != [] {
      SignalAllExternal(p, ns[..|ns| - 1]);
    }
  }
}
