/** The exclusive monitor: LDREX*, STREX* and CLREX (src/cpu/Execute.cpp), section A3.4 of the
    ARMv7-M Architecture Reference Manual. */
module Exclusive {
  import opened Words
  import opened Registers
  import opened BusCtrl
  import opened DataPort
  import opened Cpu

  datatype Monitor = Monitor(enabled: bool, address: word, size: nat)

  const OPEN_MONITOR := Monitor(false, 0, 0)

  /** An instruction as the monitor sees it, with its effective address. Everything that is not
      an exclusive access or CLREX is `Ordinary`, ordinary stores included. */
  datatype MonitorOp = LoadEx(address: word, size: nat) | StoreEx(address: word, size: nat) | ClearEx | Ordinary

  predicate Matches(m: Monitor, address: word, size: nat) {
    m.enabled && m.address == address && m.size == size
  }

  function MonitorStep(m: Monitor, o: MonitorOp): Monitor {
    match o
    case LoadEx(a, n) => Monitor(true, a, n)
    case StoreEx(_, _) => OPEN_MONITOR
    case ClearEx => OPEN_MONITOR
    case Ordinary => m
  }

  function MonitorAfter(os: seq<MonitorOp>): Monitor {
    if os == [] then OPEN_MONITOR else MonitorStep(MonitorAfter(os[..|os| - 1]), os[|os| - 1])
  }

  /** Whether the exclusive store at index `i` of a run from reset stores and reports 0. */
  predicate Succeeds(os: seq<MonitorOp>, i: nat)
    requires i < |os| && os[i].StoreEx?
  {
    Matches(MonitorAfter(os[..i]), os[i].address, os[i].size)
  }

  /** The last exclusive-class instruction before index `i`. */
  function LastExclusive(os: seq<MonitorOp>, i: nat): (j: Option<nat>)
    requires i <= |os|
    ensures j.Some? ==> j.value < i && !os[j.value].Ordinary? && forall k :: j.value < k < i ==> os[k].Ordinary?
    ensures j.None? ==> forall k :: 0 <= k < i ==> os[k].Ordinary?
  {
    if i == 0 then None
    else if os[i - 1].Ordinary? then LastExclusive(os, i - 1)
    else Some(i - 1)
  }

  lemma {:induction false} MonitorIsLastExclusive(os: seq<MonitorOp>, i: nat)
    requires i <= |os|
    ensures MonitorAfter(os[..i]) ==
            match LastExclusive(os, i)
            case None => OPEN_MONITOR
            case Some(j) => if os[j].LoadEx? then Monitor(true, os[j].address, os[j].size) else OPEN_MONITOR
  {
    if i > 0 {
      assert os[..i][..i - 1] == os[..i - 1];
      MonitorIsLastExclusive(os, i - 1);
    }
  }

  /** An exclusive store succeeds exactly when the last exclusive-class instruction before it was
      an exclusive load of the same address and size. */
  lemma StoreSucceedsIff(os: seq<MonitorOp>, i: nat)
    requires i < |os| && os[i].StoreEx?
    ensures Succeeds(os, i) <==>
            var j := LastExclusive(os, i);
            j.Some? && os[j.value] == LoadEx(os[i].address, os[i].size)
  {
    MonitorIsLastExclusive(os, i);
  }

  /** Each successful store uses up a load of its own. */
  lemma SuccessesAreInjective(os: seq<MonitorOp>, i: nat, k: nat)
    requires i < k < |os| && os[i].StoreEx? && os[k].StoreEx?
    requires Succeeds(os, i) && Succeeds(os, k)
    ensures LastExclusive(os, i).Some? && LastExclusive(os, k).Some?
    ensures LastExclusive(os, i).value < i < LastExclusive(os, k).value
  {
    StoreSucceedsIff(os, i);
    StoreSucceedsIff(os, k);
  }

  // --- the instructions ---

  /** Rn, plus the offset for the word forms. */
  function EffectiveAddress(r: Regs, rn: nat, imm: word, size: nat): word {
    if size == 4 then Wrap(ReadReg(r, rn) + imm) else ReadReg(r, rn)
  }

  function LoadExclusive(c: Core, m: Monitor, rd: nat, rn: nat, imm: word, size: nat): (Core, Monitor)
    requires AccessSize(size)
  {
    var a := EffectiveAddress(c.regs, rn, imm, size);
    var (mem, v) := BusRead(c.mem, a, size);
    (c.(regs := WriteReg(c.regs, rd, v), mem := mem), MonitorStep(m, LoadEx(a, size)))
  }

  /** A failed store reports 1 and leaves memory alone; either way the monitor is cleared. */
  function StoreExclusive(c: Core, m: Monitor, rd: nat, rn: nat, rm: nat, imm: word, size: nat): (Core, Monitor)
    requires AccessSize(size)
  {
    var a := EffectiveAddress(c.regs, rn, imm, size);
    var ok := Matches(m, a, size);
    (c.(regs := WriteReg(c.regs, rd, if ok then 0 else 1),
        mem := if ok then BusWrite(c.mem, a, size, ReadReg(c.regs, rm)) else c.mem),
     MonitorStep(m, StoreEx(a, size)))
  }
}
