/** Whole instructions, seen through their IT state and xPSR, run the IT-block machine. */
module ItExecution {
  import opened Words
  import opened Registers
  import opened BusCtrl
  import opened DataPort
  import opened WordAccess
  import opened Cpu
  import opened Alu
  import opened Multiple
  import opened Instruction
  import opened Exclusive
  import opened Execute
  import It = ItBlock
  import Br = Branch

  /** What the IT machine sees of an instruction in a given state. */
  function ItView(s: Machine, f: Fields): It.Instr
    requires ListValid(f)
  {
    if f.typ == T16_IT then It.It(f.cond % 16, f.imm % 16)
    else if f.typ == T16_SVC then It.Svc
    else
      var it := s.core.regs.it;
      var advanced := if InItBlock(it) then AdvanceIt(it) else it;
      var r := Body(s.(core := s.core.(regs := s.core.regs.(it := advanced))), f).core.regs;
      if r.it == advanced then It.Plain(r.psr) else It.Branch(r.psr)
  }

  function ItProjection(s: Machine): It.CodeState { It.CodeState(s.core.regs.it, s.core.regs.psr) }

  /** Every instruction leaves the IT state alone or clears it. */
  predicate KeepsOrClears(it: ItState, it': ItState) { it' == it || it' == ClearIt(it) }

  lemma {:induction false} LoadRegsIt(r: Regs, m: MemState, a: word, l: RegList, into: set<nat>, i: nat)
    ensures KeepsOrClears(r.it, LoadRegs(r, m, a, l, into, i).0.it)
    decreases 16 - i
  {
    hide LoadWord, AfterLoad, Wrap;
    if i < 16 {
      if i in l {
        var r' := if i in into then LoadInto(r, i, LoadWord(m, a)) else r;
        LoadRegsIt(r', AfterLoad(m, a), Wrap(a + 4), l, into, i + 1);
      } else {
        LoadRegsIt(r, m, a, l, into, i + 1);
      }
    }
  }

  lemma MultipleIt(c: Core, f: Fields)
    requires ListValid(f) && IsMultiple(f.typ)
    ensures KeepsOrClears(c.regs.it, MultipleBody(c, f).regs.it)
  {
    hide LoadRegs, StoreRegs, Count, Wrap, LoadWord, AfterLoad, LoadUp;
    var l: RegList := f.regList;
    LoadRegsIt(c.regs, c.mem, CurrentSp(c.regs), l - {15}, LOW_AND_LR, 0);
    LoadRegsIt(c.regs, c.mem, ReadReg(c.regs, f.rn), l * LOW_REGS, LOW_REGS, 0);
    LoadRegsIt(c.regs, c.mem, StartAddress(c.regs, true, IncrementAfter, f.rn, l), l, ALL_REGS, 0);
    LoadRegsIt(c.regs, c.mem, StartAddress(c.regs, true, DecrementBefore, f.rn, l), l, ALL_REGS, 0);
  }

  lemma BranchIt(c: Core, f: Fields)
    ensures KeepsOrClears(c.regs.it, Br.ExecuteBranch(c, f).0.regs.it)
  {
    hide LoadUp, CheckCondition, Wrap;
  }

  lemma DataIt(r: Regs, f: Fields)
    ensures DataProcessing(r, f).it == r.it && T32DataProcessing(r, f).it == r.it
  {
    hide Adds, Subs, Adcs, SbcsT16, SbcsT32, UpdateFlags, CheckCondition;
  }

  lemma ExclusiveIt(s: Machine, f: Fields)
    requires IsExclusive(f.typ)
    ensures ExclusiveBody(s, f).core.regs.it == s.core.regs.it
  {
    hide BusRead, BusWrite, EffectiveAddress;
  }

  lemma BodyIt(s: Machine, f: Fields)
    requires ListValid(f) && f.typ != T16_IT
    ensures KeepsOrClears(s.core.regs.it, Body(s, f).core.regs.it)
  {
    hide Br.ExecuteBranch, DataProcessing, T32DataProcessing, MultipleBody, ExclusiveBody;
    hide IsBranch, IsT16Data, IsT32Data, IsMultiple, IsExclusive, ListValid, ClearIt;
    if IsBranch(f.typ) {
      BranchIt(s.core, f);
    } else if IsT16Data(f.typ) || IsT32Data(f.typ) {
      DataIt(s.core.regs, f);
    } else if IsMultiple(f.typ) {
      MultipleIt(s.core, f);
    } else if IsExclusive(f.typ) {
      ExclusiveIt(s, f);
    }
  }

  /** Executing an instruction is one step of the IT machine on its view of it, so the IT results
      hold of every run of real instructions. */
  lemma InstructIsItStep(s: Machine, f: Fields)
    requires ListValid(f)
    ensures It.CodeStep(ItProjection(s), ItView(s, f)).0 == ItProjection(Instruct(s, f))
  {
    hide It.GateOpen, InItBlock;
    var it := s.core.regs.it;
    if f.typ == T16_IT {
      hide CheckCondition, ItLength;
      var begun := It.BeginBlock(it, s.core.regs.psr, f.cond % 16, f.imm % 16);
      assert Body(s, f).core.regs == s.core.regs.(it := begun);
    } else if f.typ == T16_SVC {
      OutsideGateOpen(it);
    } else {
      hide Body;
      var advanced := if InItBlock(it) then AdvanceIt(it) else it;
      var s' := s.(core := s.core.(regs := s.core.regs.(it := advanced)));
      BodyIt(s', f);
      OutsideGateOpen(it);
      assert s'.core.regs == s.core.regs.(it := advanced);
      if !InItBlock(it) {
        assert s' == s;
      }
    }
  }

  lemma OutsideGateOpen(it: ItState)
    ensures !InItBlock(it) ==> It.GateOpen(it)
    ensures ClearIt(AdvanceIt(it)) == ClearIt(it)
  {
  }

  /** A skipped instruction changes nothing but the IT state. */
  lemma SkippedChangesNothing(s: Machine, f: Fields)
    requires ListValid(f) && f.typ != T16_IT && !It.GateOpen(s.core.regs.it)
    ensures Instruct(s, f) == s.(core := s.core.(regs := s.core.regs.(it := AdvanceIt(s.core.regs.it))))
  {
    hide Body, AdvanceIt, CurrentItThen;
  }

  // --- runs of instructions, with exceptions in between ---

  /** A step of a run: one of the modelled instructions; an instruction of any other type, which if
      let through does what it likes except that it leaves the IT state alone or, as CBZ, CBNZ and
      TBB do when they branch, clears it; or an exception that is taken before the next instruction
      and has been returned from. */
  datatype Item = Instr(f: Fields) | Foreign(after: Machine, ends: bool) | Handled(after: Machine)

  /** What is known of a handled exception: the flags are back and no IT block is active. */
  predicate ItemValid(s: Machine, i: Item) {
    match i
    case Instr(f) => ListValid(f) && f.typ != Other
    case Foreign(_, _) => true
    case Handled(after) => after.core.regs.psr == s.core.regs.psr && !InItBlock(after.core.regs.it)
  }

  /** The IT gate in front of a foreign instruction. */
  function ForeignStep(s: Machine, after: Machine, ends: bool): Machine {
    var it := s.core.regs.it;
    var advanced := if InItBlock(it) then AdvanceIt(it) else it;
    if It.GateOpen(it) then WithIt(after, if ends then ClearIt(it) else advanced) else WithIt(s, advanced)
  }

  function WithIt(s: Machine, it: ItState): Machine { s.(core := s.core.(regs := s.core.regs.(it := it))) }

  function ItemStep(s: Machine, i: Item): Machine
    requires ItemValid(s, i)
  {
    match i
    case Instr(f) => Instruct(s, f)
    case Foreign(after, ends) => ForeignStep(s, after, ends)
    case Handled(after) => after
  }

  function ItemView(s: Machine, i: Item): It.Instr
    requires ItemValid(s, i)
  {
    match i
    case Instr(f) => ItView(s, f)
    case Foreign(after, ends) => if ends then It.Branch(after.core.regs.psr) else It.Plain(after.core.regs.psr)
    case Handled(after) => It.Handled(after.core.regs.it)
  }

  predicate ItemRuns(s: Machine, i: Item) {
    i.Handled? || (i.Instr? && i.f.typ == T16_IT) || It.GateOpen(s.core.regs.it)
  }

  lemma ItemIsItStep(s: Machine, i: Item)
    requires ItemValid(s, i)
    ensures It.CodeStep(ItProjection(s), ItemView(s, i)) == (ItProjection(ItemStep(s, i)), ItemRuns(s, i))
  {
    match i {
      case Instr(f) =>
        hide Instruct, ItView, It.CodeStep, It.GateOpen, InItBlock;
        InstructIsItStep(s, f);
        StepDecision(s, f);
      case Foreign(_, _) =>
        hide AdvanceIt, CurrentItThen;
      case Handled(_) =>
    }
  }

  lemma StepDecision(s: Machine, f: Fields)
    requires ListValid(f)
    ensures It.CodeStep(ItProjection(s), ItView(s, f)).1 == (f.typ == T16_IT || It.GateOpen(s.core.regs.it))
  {
    hide Body, It.GateOpen;
  }

  predicate ItemsValid(s: Machine, items: seq<Item>)
    decreases |items|
  {
    items == [] || (ItemValid(s, items[0]) && ItemsValid(ItemStep(s, items[0]), items[1..]))
  }

  function RunItems(s: Machine, items: seq<Item>): Machine
    requires ItemsValid(s, items)
    decreases |items|
  {
    if items == [] then s else RunItems(ItemStep(s, items[0]), items[1..])
  }

  function Views(s: Machine, items: seq<Item>): (vs: seq<It.Instr>)
    requires ItemsValid(s, items)
    ensures |vs| == |items|
    decreases |items|
  {
    if items == [] then [] else [ItemView(s, items[0])] + Views(ItemStep(s, items[0]), items[1..])
  }

  /** Which items of a run the gate lets through. */
  function LetThrough(s: Machine, items: seq<Item>): seq<bool>
    requires ItemsValid(s, items)
    decreases |items|
  {
    if items == [] then [] else [ItemRuns(s, items[0])] + LetThrough(ItemStep(s, items[0]), items[1..])
  }

  /** If it is IT, its mask is one of the eleven. */
  predicate KnownMask(i: Item) {
    i.Instr? && i.f.typ == T16_IT ==> i.f.imm % 16 != 0 && It.Accepted(i.f.imm % 16)
  }

  lemma {:induction false} RunIsItRun(s: Machine, items: seq<Item>)
    requires ItemsValid(s, items)
    ensures It.CodeRun(ItProjection(s), Views(s, items)) == (ItProjection(RunItems(s, items)), LetThrough(s, items))
    decreases |items|
  {
    hide ItemStep, ItemView, ItemValid, ItemRuns, It.CodeStep, ItProjection;
    if items != [] {
      ItemIsItStep(s, items[0]);
      var s1 := ItemStep(s, items[0]);
      assert Views(s, items)[1..] == Views(s1, items[1..]);
      RunIsItRun(s1, items[1..]);
    }
  }

  function StartState(s: Machine): It.ArchState { It.ArchState(It.NO_SHIFT, s.core.regs.psr, s.core.regs.psr) }

  /** Every run that starts outside IT blocks and uses known masks executes exactly the instructions
      ITSTATE selects if and only if every slot left of a block in which an SVC was executed or an
      exception handled has an open gate. */
  lemma {:induction false} InstructionsMeetItState(s: Machine, items: seq<Item>)
    requires ItemsValid(s, items) && !InItBlock(s.core.regs.it)
    requires forall k :: 0 <= k < |items| ==> KnownMask(items[k])
    ensures LetThrough(s, items) == It.ArchRun(StartState(s), Views(s, items)).1
            <==> It.CutsHarmless(StartState(s), Views(s, items), false)
  {
    hide It.CodeRun, It.ArchRun, LetThrough, Views, KnownMask, It.Known, It.CutsHarmless, ItemsValid, RunItems;
    RunIsItRun(s, items);
    ViewsAreKnown(s, items);
    It.ItMachineRefines(ItProjection(s), StartState(s), Views(s, items));
  }

  /** Against the architecture that tests the current flags: such a run executes exactly the
      instructions it should if and only if every slot's condition has the value it had at the IT
      instruction, or true in the rest of a block that was cut short. */
  lemma {:induction false} InstructionsMeetLiveFlags(s: Machine, items: seq<Item>)
    requires ItemsValid(s, items) && !InItBlock(s.core.regs.it)
    requires forall k :: 0 <= k < |items| ==> KnownMask(items[k])
    ensures LetThrough(s, items) == It.LiveDecisions(StartState(s), Views(s, items))
            <==> It.GatesMatchLive(StartState(s), Views(s, items), false)
  {
    hide It.CodeRun, It.LiveDecisions, LetThrough, Views, KnownMask, It.Known, It.GatesMatchLive, ItemsValid, RunItems;
    RunIsItRun(s, items);
    ViewsAreKnown(s, items);
    It.LiveFlagsExactly(ItProjection(s), StartState(s), Views(s, items));
  }

  lemma ViewIsKnown(s: Machine, f: Fields)
    requires ListValid(f) && (f.typ == T16_IT ==> f.imm % 16 != 0 && It.Accepted(f.imm % 16))
    ensures It.Known(ItView(s, f))
  {
    hide Body;
  }

  lemma ItemViewIsKnown(s: Machine, i: Item)
    requires ItemValid(s, i) && KnownMask(i)
    ensures It.Known(ItemView(s, i))
  {
    hide ItView, It.Accepted;
    if i.Instr? {
      hide It.Known;
      ViewIsKnown(s, i.f);
    }
  }

  lemma {:induction false} ViewsAreKnown(s: Machine, items: seq<Item>)
    requires ItemsValid(s, items)
    requires forall k :: 0 <= k < |items| ==> KnownMask(items[k])
    ensures forall k :: 0 <= k < |items| ==> It.Known(Views(s, items)[k])
    decreases |items|
  {
    hide ItemView, ItemStep, ItemValid, KnownMask, It.Known;
    if items != [] {
      ItemViewIsKnown(s, items[0]);
      ViewsAreKnown(ItemStep(s, items[0]), items[1..]);
      var vs, rest := Views(s, items), Views(ItemStep(s, items[0]), items[1..]);
      assert vs == [ItemView(s, items[0])] + rest;
      forall k | 0 <= k < |vs| ensures It.Known(vs[k]) {
        if k > 0 {
          assert vs[k] == rest[k - 1] && It.Known(rest[k - 1]);
        } else {
          assert vs[k] == ItemView(s, items[0]);
        }
      }
    }
  }

  /** Exception entry keeps the interrupted IT block, so the handler's first instruction is
      gated by it: it is executed if and only if no block was interrupted or the slot is open, and
      an instruction that is not executed changes the IT state only. */
  lemma HandlerInheritsItBlock(s: Machine, n: word, f: Fields)
    requires ListValid(f) && f.typ != T16_IT
    ensures var e := s.(core := EnterException(s.core, n));
            var it := s.core.regs.it;
            var advanced := e.(core := e.core.(regs := e.core.regs.(it := AdvanceIt(it))));
            && (It.CodeStep(ItProjection(e), ItView(e, f)).1 <==> !InItBlock(it) || It.GateOpen(it))
            && Instruct(e, f) == (if !InItBlock(it) then Body(e, f)
                                  else if It.GateOpen(it) then Body(advanced, f) else advanced)
  {
    hide Body, It.GateOpen, PushFrameMem, LoadWord, AfterLoad, AdvanceIt, InItBlock, It.CodeStep, ItView;
    StepDecision(s.(core := EnterException(s.core, n)), f);
    OutsideGateOpen(s.core.regs.it);
  }
}
