/** The exclusive monitor over runs of the machine: whole instructions behind the IT gate, with
    exception entries, exception returns and interrupt messages in between. */
module ExclusiveRuns {
  import opened Words
  import opened Registers
  import opened Memory
  import opened BusCtrl
  import opened DataPort
  import opened WordAccess
  import opened Cpu
  import opened Multiple
  import opened Instruction
  import opened Exclusive
  import opened Execute
  import It = ItBlock
  import Br = Branch

  /** One step: an instruction, the check for pending exceptions, an attempted exception return,
      a message on the interrupt line, or anything else that happens to registers, memory and
      pending flags from outside. */
  datatype Event =
    | Instr(f: Fields) | TakePending | ExceptionReturn(code: word) | Message(n: word) | Outside(after: Core)

  predicate Valid(e: Event) { e.Instr? ==> ListValid(e.f) }

  predicate AllValid(es: seq<Event>) { forall i :: 0 <= i < |es| ==> Valid(es[i]) }

  function Step(s: Machine, e: Event): Machine
    requires Valid(e)
  {
    match e
    case Instr(f) => Instruct(s, f)
    case TakePending => s.(core := CheckPending(s.core))
    case ExceptionReturn(code) => s.(core := TryExceptionReturn(s.core, code).0)
    case Message(n) => s.(core := s.core.(pend := Signal(s.core.pend, n)))
    case Outside(after) => s.(core := after)
  }

  function Run(s: Machine, es: seq<Event>): Machine
    requires AllValid(es)
  {
    if es == [] then s else Step(Run(s, es[..|es| - 1]), es[|es| - 1])
  }

  // --- what the monitor sees ---

  predicate IsExclusiveLoad(t: InstType) { t == T32_LDREX || t == T32_LDREXB || t == T32_LDREXH }

  predicate IsExclusiveStore(t: InstType) { t == T32_STREX || t == T32_STREXB || t == T32_STREXH }

  function AccessBytes(t: InstType): (n: nat)
    ensures AccessSize(n)
  {
    if t == T32_LDREX || t == T32_STREX then 4 else if t == T32_LDREXB || t == T32_STREXB then 1 else 2
  }

  /** The instruction is let through by the IT gate. */
  predicate LetThrough(s: Machine, f: Fields) { f.typ == T16_IT || It.GateOpen(s.core.regs.it) }

  /** The step as an operation on the monitor, at the address its registers give it. */
  function View(s: Machine, e: Event): MonitorOp {
    if e.Instr? && LetThrough(s, e.f) then
      var n := AccessBytes(e.f.typ);
      var a := EffectiveAddress(s.core.regs, e.f.rn, e.f.imm, n);
      if IsExclusiveLoad(e.f.typ) then LoadEx(a, n)
      else if IsExclusiveStore(e.f.typ) then StoreEx(a, n)
      else if e.f.typ == T32_CLREX then ClearEx
      else Ordinary
    else Ordinary
  }

  function Views(s: Machine, es: seq<Event>): (vs: seq<MonitorOp>)
    requires AllValid(es)
    ensures |vs| == |es|
  {
    if es == [] then []
    else Views(s, es[..|es| - 1]) + [View(Run(s, es[..|es| - 1]), es[|es| - 1])]
  }

  // --- the monitor follows the views ---

  /** The state in which the instruction proper runs: the gate has advanced the IT state. */
  function Gated(s: Machine, f: Fields): Machine {
    var it := s.core.regs.it;
    if InItBlock(it) && f.typ != T16_IT then s.(core := s.core.(regs := s.core.regs.(it := AdvanceIt(it)))) else s
  }

  lemma InstructIsGated(s: Machine, f: Fields)
    requires ListValid(f)
    ensures Instruct(s, f) == if LetThrough(s, f) then Body(Gated(s, f), f) else Gated(s, f)
  {
    hide Body, AdvanceIt, CurrentItThen;
  }

  lemma GatedSees(s: Machine, f: Fields, i: nat)
    ensures ReadReg(Gated(s, f).core.regs, i) == ReadReg(s.core.regs, i)
    ensures Gated(s, f).core.mem == s.core.mem && Gated(s, f).monitor == s.monitor
  {
    hide AdvanceIt, InItBlock;
  }

  /** The instruction proper drives the monitor by its type and address. */
  lemma BodyMonitor(s: Machine, f: Fields)
    requires ListValid(f)
    ensures var n := AccessBytes(f.typ);
            var a := EffectiveAddress(s.core.regs, f.rn, f.imm, n);
            Body(s, f).monitor ==
            if IsExclusiveLoad(f.typ) then MonitorStep(s.monitor, LoadEx(a, n))
            else if IsExclusiveStore(f.typ) then MonitorStep(s.monitor, StoreEx(a, n))
            else if f.typ == T32_CLREX then MonitorStep(s.monitor, ClearEx)
            else s.monitor
  {
    hide EffectiveAddress, AccessBytes, Br.ExecuteBranch, DataProcessing, T32DataProcessing, MultipleBody, ListValid;
    hide ExclusiveBody, MonitorStep;
    if IsExclusive(f.typ) {
      ExclusiveBodyMonitor(s, f);
    }
  }

  lemma ExclusiveBodyMonitor(s: Machine, f: Fields)
    requires IsExclusive(f.typ)
    ensures var n := AccessBytes(f.typ);
            var a := EffectiveAddress(s.core.regs, f.rn, f.imm, n);
            ExclusiveBody(s, f).monitor ==
            MonitorStep(s.monitor, if IsExclusiveLoad(f.typ) then LoadEx(a, n)
                                   else if IsExclusiveStore(f.typ) then StoreEx(a, n) else ClearEx)
  {
    hide EffectiveAddress, BusRead, BusWrite, WriteReg, ReadReg, MonitorStep;
  }

  lemma StepMonitor(s: Machine, e: Event)
    requires Valid(e)
    ensures Step(s, e).monitor == MonitorStep(s.monitor, View(s, e))
  {
    hide Body, Instruct, Gated, LetThrough, CheckPending, TryExceptionReturn, EffectiveAddress, ReadReg;
    if e.Instr? {
      InstructIsGated(s, e.f);
      GatedSees(s, e.f, e.f.rn);
      SameAddress(s.core.regs, Gated(s, e.f).core.regs, e.f);
      BodyMonitor(Gated(s, e.f), e.f);
    }
  }

  lemma SameAddress(r: Regs, q: Regs, f: Fields)
    requires ReadReg(r, f.rn) == ReadReg(q, f.rn)
    ensures EffectiveAddress(r, f.rn, f.imm, AccessBytes(f.typ)) == EffectiveAddress(q, f.rn, f.imm, AccessBytes(f.typ))
  {
    hide ReadReg;
  }

  /** Over every run from an open monitor, the monitor is what the operations seen so far leave. */
  lemma {:induction false} RunMonitor(s: Machine, es: seq<Event>)
    requires AllValid(es) && s.monitor == OPEN_MONITOR
    ensures Run(s, es).monitor == MonitorAfter(Views(s, es))
    decreases |es|
  {
    hide Step, View, MonitorStep;
    if es != [] {
      var n := |es| - 1;
      RunMonitor(s, es[..n]);
      StepMonitor(Run(s, es[..n]), es[n]);
      var vs := Views(s, es);
      assert vs[..n] == Views(s, es[..n]) && vs[n] == View(Run(s, es[..n]), es[n]);
    }
  }

  /** The view at a point of a run is the view of the step in the state reached there. */
  lemma {:induction false} ViewAt(s: Machine, es: seq<Event>, i: nat)
    requires AllValid(es) && i < |es|
    ensures Views(s, es)[..i] == Views(s, es[..i]) && Views(s, es)[i] == View(Run(s, es[..i]), es[i])
    decreases |es|
  {
    hide View, Run;
    var n := |es| - 1;
    if i < n {
      ViewAt(s, es[..n], i);
      assert es[..n][..i] == es[..i];
      assert Views(s, es)[..i] == Views(s, es[..n])[..i];
    } else {
      assert Views(s, es)[..n] == Views(s, es[..n]);
    }
  }

  // --- what an exclusive store does ---

  lemma StoreBodyEffect(s: Machine, f: Fields)
    requires ListValid(f) && IsExclusiveStore(f.typ)
    ensures var n := AccessBytes(f.typ);
            var a := EffectiveAddress(s.core.regs, f.rn, f.imm, n);
            var ok := Matches(s.monitor, a, n);
            var t := Body(s, f);
            && t.core.mem == (if ok then BusWrite(s.core.mem, a, n, ReadReg(s.core.regs, f.rm)) else s.core.mem)
            && t.core.regs == WriteReg(s.core.regs, f.rd, if ok then 0 else 1)
  {
    hide EffectiveAddress, BusWrite, WriteReg, ReadReg, ListValid, Matches;
  }

  /** A STREX* that the IT gate lets through, in a state whose monitor is `m`. */
  lemma StoreEffect(s: Machine, f: Fields)
    requires ListValid(f) && IsExclusiveStore(f.typ) && LetThrough(s, f)
    ensures var n := AccessBytes(f.typ);
            var a := EffectiveAddress(s.core.regs, f.rn, f.imm, n);
            var ok := Matches(s.monitor, a, n);
            var t := Instruct(s, f);
            && t.core.mem == (if ok then BusWrite(s.core.mem, a, n, ReadReg(s.core.regs, f.rm)) else s.core.mem)
            && (f.rd < 15 ==> ReadReg(t.core.regs, f.rd) == if ok then 0 else 1)
  {
    hide Body, Instruct, Gated, LetThrough, EffectiveAddress, BusWrite, ReadReg, WriteReg, Matches, ListValid;
    InstructIsGated(s, f);
    GatedSees(s, f, f.rn);
    GatedSees(s, f, f.rm);
    SameAddress(s.core.regs, Gated(s, f).core.regs, f);
    StoreBodyEffect(Gated(s, f), f);
    if f.rd < 15 {
      WriteThenRead(Gated(s, f).core.regs, f.rd, 0);
      WriteThenRead(Gated(s, f).core.regs, f.rd, 1);
    }
  }

  // --- what an exclusive load returns ---

  /** The address an exclusive access goes to: Rn, with the offset in the word forms. */
  function AccessAddress(r: Regs, f: Fields): word {
    if f.typ == T32_LDREX || f.typ == T32_STREX then Wrap(ReadReg(r, f.rn) + f.imm) else ReadReg(r, f.rn)
  }

  lemma AddressIs(r: Regs, f: Fields)
    requires IsExclusiveLoad(f.typ) || IsExclusiveStore(f.typ)
    ensures EffectiveAddress(r, f.rn, f.imm, AccessBytes(f.typ)) == AccessAddress(r, f)
  {
    hide Wrap;
  }

  lemma LoadBodyEffect(s: Machine, f: Fields)
    requires ListValid(f) && IsExclusiveLoad(f.typ) && InRegion(AccessAddress(s.core.regs, f), AccessBytes(f.typ))
    ensures var n, a := AccessBytes(f.typ), AccessAddress(s.core.regs, f);
            Body(s, f) == Machine(s.core.(regs := WriteReg(s.core.regs, f.rd, BusRead(s.core.mem, a, n).1)),
                                  MonitorStep(s.monitor, LoadEx(a, n)))
  {
    hide EffectiveAddress, AccessAddress, BusRead, WriteReg, ReadReg, InRegion, ListValid, MonitorStep;
    AddressIs(s.core.regs, f);
    ReadsBytes(s.core.mem, AccessAddress(s.core.regs, f), AccessBytes(f.typ));
  }

  /** An executed LDREX, LDREXB or LDREXH in a region leaves in Rd the little-endian value of exactly its
      four, one or two bytes, zero-extended, and reserves them; memory, PC, flags and every other
      register stay. */
  lemma {:induction false} LoadExclusiveReads(s: Machine, f: Fields)
    requires ListValid(f) && IsExclusiveLoad(f.typ) && LetThrough(s, f) && f.rd < 15
    requires InRegion(AccessAddress(s.core.regs, f), AccessBytes(f.typ))
    ensures var m, a, t := s.core.mem, AccessAddress(s.core.regs, f), Instruct(s, f);
            && ReadReg(t.core.regs, f.rd) ==
               (if f.typ == T32_LDREXB then ByteAt(m, a, 0)
                else if f.typ == T32_LDREXH then ByteAt(m, a, 0) + 0x100 * ByteAt(m, a, 1)
                else ByteAt(m, a, 0) + 0x100 * ByteAt(m, a, 1)
                     + 0x1_0000 * ByteAt(m, a, 2) + 0x100_0000 * ByteAt(m, a, 3))
            && (forall j :: 0 <= j < 15 && j != f.rd ==> ReadReg(t.core.regs, j) == ReadReg(s.core.regs, j))
            && t.core.regs.pc == s.core.regs.pc && t.core.regs.psr == s.core.regs.psr
            && t.core.mem == m && t.core.pend == s.core.pend
            && t.monitor == Monitor(true, a, AccessBytes(f.typ))
  {
    hide Body, Instruct, LetThrough, AccessAddress, BusRead, ReadReg, WriteReg, ListValid, InRegion, ByteAt;
    var g := Gated(s, f);
    InstructIsGated(s, f);
    GatedAddress(s, f);
    LoadBodyEffect(g, f);
    ReadsBytes(s.core.mem, AccessAddress(s.core.regs, f), AccessBytes(f.typ));
    WriteThenRead(g.core.regs, f.rd, BusRead(s.core.mem, AccessAddress(s.core.regs, f), AccessBytes(f.typ)).1);
    GatedRegisters(s, f);
  }

  lemma GatedAddress(s: Machine, f: Fields)
    ensures AccessAddress(Gated(s, f).core.regs, f) == AccessAddress(s.core.regs, f)
    ensures Gated(s, f).core.mem == s.core.mem
  {
    hide ReadReg, Gated, Wrap;
    GatedSees(s, f, f.rn);
  }

  lemma GatedRegisters(s: Machine, f: Fields)
    ensures var r, q := Gated(s, f).core.regs, s.core.regs;
            && (forall j :: 0 <= j < 15 ==> ReadReg(r, j) == ReadReg(q, j))
            && r.pc == q.pc && r.psr == q.psr && Gated(s, f).core.pend == s.core.pend
  {
    hide AdvanceIt, InItBlock;
  }

  /** A load-exclusive at the address and of the size of a store-exclusive that succeeded, whatever
      happened to registers in between and to memory elsewhere, gets the value that was stored: as many
      of its low bytes as the access has. */
  lemma {:induction false} LoadAfterStore(s: Machine, f: Fields, s2: Machine, g: Fields)
    requires ListValid(f) && IsExclusiveStore(f.typ) && LetThrough(s, f)
    requires ListValid(g) && IsExclusiveLoad(g.typ) && LetThrough(s2, g) && g.rd < 15
    requires var a, n := AccessAddress(s.core.regs, f), AccessBytes(f.typ);
             && InRegion(a, n) && Matches(s.monitor, a, n)
             && AccessAddress(s2.core.regs, g) == a && AccessBytes(g.typ) == n
             && forall k :: Offset(a) <= k < Offset(a) + n ==> s2.core.mem.bytes[k] == Instruct(s, f).core.mem.bytes[k]
    ensures ReadReg(Instruct(s2, g).core.regs, g.rd) == ReadReg(s.core.regs, f.rm) % Capacity(AccessBytes(f.typ))
  {
    hide Body, Instruct, LetThrough, AccessAddress, EffectiveAddress, BusRead, BusWrite, ReadReg, ListValid, Matches;
    var a, n := AccessAddress(s.core.regs, f), AccessBytes(f.typ);
    AddressIs(s.core.regs, f);
    StoreEffect(s, f);
    WritesBytes(s.core.mem, a, n, ReadReg(s.core.regs, f.rm));
    ReadsBytes(Instruct(s, f).core.mem, a, n);
    ReadsBytes(s2.core.mem, a, n);
    LoadReturns(s2, g);
  }

  lemma LoadReturns(s: Machine, f: Fields)
    requires ListValid(f) && IsExclusiveLoad(f.typ) && LetThrough(s, f) && f.rd < 15
    requires InRegion(AccessAddress(s.core.regs, f), AccessBytes(f.typ))
    ensures ReadReg(Instruct(s, f).core.regs, f.rd) ==
            BusRead(s.core.mem, AccessAddress(s.core.regs, f), AccessBytes(f.typ)).1
  {
    hide Instruct, LetThrough, AccessAddress, BusRead, ReadReg, ListValid;
    LoadExclusiveReads(s, f);
    ReadsBytes(s.core.mem, AccessAddress(s.core.regs, f), AccessBytes(f.typ));
  }

  // --- runs ---

  /** Step `i` of a run is a STREX* that is executed. */
  predicate StoresAt(s: Machine, es: seq<Event>, i: nat)
    requires AllValid(es) && i < |es|
  {
    es[i].Instr? && IsExclusiveStore(es[i].f.typ) && LetThrough(Run(s, es[..i]), es[i].f)
  }

  /** The last exclusive-class instruction executed before step `i` was a LDREX* of the same
      address and size. */
  predicate Reserved(s: Machine, es: seq<Event>, i: nat)
    requires AllValid(es) && i < |es| && es[i].Instr?
  {
    var n := AccessBytes(es[i].f.typ);
    var a := EffectiveAddress(Run(s, es[..i]).core.regs, es[i].f.rn, es[i].f.imm, n);
    var j := LastExclusive(Views(s, es), i);
    j.Some? && Views(s, es)[j.value] == LoadEx(a, n)
  }

  lemma {:induction false} ReservedIffMatches(s: Machine, es: seq<Event>, i: nat)
    requires AllValid(es) && i < |es| && s.monitor == OPEN_MONITOR && StoresAt(s, es, i)
    ensures var f := es[i].f;
            var before := Run(s, es[..i]);
            var n := AccessBytes(f.typ);
            Matches(before.monitor, EffectiveAddress(before.core.regs, f.rn, f.imm, n), n) == Reserved(s, es, i)
  {
    hide Run, EffectiveAddress, Views, LetThrough;
    RunMonitor(s, es[..i]);
    ViewAt(s, es, i);
    StoreSucceedsIff(Views(s, es), i);
  }

  /** Over every run of the machine from an open monitor, with exceptions taken and returned from
      anywhere: an executed STREX* writes its word, halfword or byte and reports 0 if and only if
      the last exclusive-class instruction executed before it was a LDREX* of the same address and
      size; otherwise memory is kept and it reports 1. */
  lemma {:induction false} StoreExclusiveIff(s: Machine, es: seq<Event>, i: nat)
    requires AllValid(es) && i < |es| && s.monitor == OPEN_MONITOR && StoresAt(s, es, i)
    ensures var f := es[i].f;
            var before, after := Run(s, es[..i]).core, Run(s, es[..i + 1]).core;
            var n := AccessBytes(f.typ);
            var a := EffectiveAddress(before.regs, f.rn, f.imm, n);
            && after.mem == (if Reserved(s, es, i) then BusWrite(before.mem, a, n, ReadReg(before.regs, f.rm))
                             else before.mem)
            && (f.rd < 15 ==> ReadReg(after.regs, f.rd) == if Reserved(s, es, i) then 0 else 1)
  {
    hide Instruct, EffectiveAddress, BusWrite, ReadReg, Reserved, LetThrough, Matches;
    assert es[..i + 1][..i] == es[..i] && es[..i + 1][i] == es[i];
    assert Run(s, es[..i + 1]) == Instruct(Run(s, es[..i]), es[i].f);
    hide Run;
    StoreEffect(Run(s, es[..i]), es[i].f);
    ReservedIffMatches(s, es, i);
  }

  /** A store that reports success is one the operations before it let succeed. */
  lemma {:induction false} ReportedSuccess(s: Machine, es: seq<Event>, i: nat)
    requires AllValid(es) && i < |es| && s.monitor == OPEN_MONITOR && StoresAt(s, es, i) && es[i].f.rd < 15
    ensures Views(s, es)[i].StoreEx?
    ensures ReadReg(Run(s, es[..i + 1]).core.regs, es[i].f.rd) == 0 <==> Succeeds(Views(s, es), i)
  {
    hide Run, ReadReg, EffectiveAddress, LetThrough;
    StoreExclusiveIff(s, es, i);
    ViewAt(s, es, i);
    StoreSucceedsIff(Views(s, es), i);
  }

  /** Stores that report success use up a load each: the load behind the later one comes after the
      earlier store. */
  lemma {:induction false} SuccessfulStoresAreInjective(s: Machine, es: seq<Event>, i: nat, k: nat)
    requires AllValid(es) && i < k < |es| && s.monitor == OPEN_MONITOR
    requires StoresAt(s, es, i) && StoresAt(s, es, k) && es[i].f.rd < 15 && es[k].f.rd < 15
    requires ReadReg(Run(s, es[..i + 1]).core.regs, es[i].f.rd) == 0
    requires ReadReg(Run(s, es[..k + 1]).core.regs, es[k].f.rd) == 0
    ensures var vs := Views(s, es);
            var p, q := LastExclusive(vs, i), LastExclusive(vs, k);
            && p.Some? && q.Some? && p.value < i < q.value < k
            && vs[p.value].LoadEx? && vs[q.value].LoadEx?
  {
    hide Run, Views, ReadReg, StoresAt, Succeeds;
    ReportedSuccess(s, es, i);
    ReportedSuccess(s, es, k);
    var vs := Views(s, es);
    SuccessesAreInjective(vs, i, k);
    StoreSucceedsIff(vs, i);
    StoreSucceedsIff(vs, k);
  }
}
