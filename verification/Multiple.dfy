/** Register-list loads and stores: LDM, STM, PUSH and POP (src/cpu/Execute.cpp). The 16-bit
    register-list masks are sets of register numbers. */
module Multiple {
  import opened Words
  import opened Registers
  import opened Memory
  import opened BusCtrl
  import opened DataPort
  import opened WordAccess
  import opened Cpu

  type RegList = l: set<nat> | forall i :: i in l ==> i < 16 witness {}

  const ALL_REGS: set<nat> := set i: nat | i < 16

  /** What the 16-bit PUSH and POP loops transfer besides PC. */
  const LOW_AND_LR: set<nat> := {0, 1, 2, 3, 4, 5, 6, 7, 14}

  /** Number of listed registers from `i` up. */
  function Count(l: RegList, i: nat): nat
    decreases 16 - i
  {
    if i >= 16 then 0 else Count(l, i + 1) + if i in l then 1 else 0
  }

  /** The store loop from register `i` up. */
  function StoreRegs(r: Regs, m: MemState, a: word, l: RegList, i: nat): MemState
    decreases 16 - i
  {
    if i >= 16 then m
    else if i in l then StoreRegs(r, StoreWord(m, a, ReadReg(r, i)), Wrap(a + 4), l, i + 1)
    else StoreRegs(r, m, a, l, i + 1)
  }

  /** The load loop: every listed register takes a word, those in `into` are written. */
  function LoadRegs(r: Regs, m: MemState, a: word, l: RegList, into: set<nat>, i: nat): (Regs, MemState)
    decreases 16 - i
  {
    if i >= 16 then (r, m)
    else if i in l then
      LoadRegs(if i in into then LoadInto(r, i, LoadWord(m, a)) else r, AfterLoad(m, a), Wrap(a + 4), l, into, i + 1)
    else LoadRegs(r, m, a, l, into, i + 1)
  }

  /** Loading PC is a branch: bit 0 is dropped and the IT block ends. */
  function LoadInto(r: Regs, i: nat, v: word): Regs {
    if i == 15 then r.(pc := ClearBit0(v), it := ClearIt(r.it)) else WriteReg(r, i, v)
  }

  datatype Mode = IncrementAfter | DecrementBefore

  /** LDMDB SP! with PC in the list is treated as LDMIA. */
  predicate TreatedAsLdmia(load: bool, mode: Mode, rn: nat, l: RegList) {
    load && mode == DecrementBefore && rn == 13 && 15 in l
  }

  function StartAddress(r: Regs, load: bool, mode: Mode, rn: nat, l: RegList): word {
    if mode == DecrementBefore && !TreatedAsLdmia(load, mode, rn, l)
    then Wrap(ReadReg(r, rn) - 4 * Count(l, 0)) else ReadReg(r, rn)
  }

  /** `execute_t32_multiple_load_store`; the base register is always written back. */
  function T32Multiple(c: Core, load: bool, mode: Mode, rn: nat, l: RegList): Core {
    var a := StartAddress(c.regs, load, mode, rn, l);
    var (r, m) :=
      if load then LoadRegs(c.regs, c.mem, a, l, ALL_REGS, 0) else (c.regs, StoreRegs(c.regs, c.mem, a, l, 0));
    var up := mode == IncrementAfter || TreatedAsLdmia(load, mode, rn, l);
    c.(regs := WriteReg(r, rn, if up then Wrap(a + 4 * Count(l, 0)) else a), mem := m)
  }

  const LOW_REGS: set<nat> := set i: nat | i < 8

  /** 16-bit STMIA and LDMIA; the base is written back unless it is in the list. */
  function T16Multiple(c: Core, load: bool, rn: nat, l: RegList): Core {
    var a := ReadReg(c.regs, rn);
    var low := l * LOW_REGS;
    var (r, m) :=
      if load then LoadRegs(c.regs, c.mem, a, low, LOW_REGS, 0) else (c.regs, StoreRegs(c.regs, c.mem, a, low, 0));
    c.(regs := if rn in l then r else WriteReg(r, rn, Wrap(a + 4 * Count(low, 0))), mem := m)
  }

  /** 16-bit PUSH: SP moves down by the whole list, then r0-r7 and LR are stored. */
  function Push(c: Core, l: RegList): Core {
    var a := Wrap(CurrentSp(c.regs) - 4 * Count(l, 0));
    var r := SetCurrentSp(c.regs, a);
    c.(regs := r, mem := StoreRegs(r, c.mem, a, l * LOW_AND_LR, 0))
  }

  predicate PopIsReturn(v: word) {
    v == RETURN_TO_HANDLER || v == RETURN_TO_THREAD_MSP || v == RETURN_TO_THREAD_PSP
  }

  /** Popping PC from address `a`: SP moves past the word first; one of the three EXC_RETURN
      values then unstacks an exception frame. */
  function PopPc(c: Core, a: word): Core {
    var v := LoadWord(c.mem, a);
    BranchToPopped(c.(regs := SetCurrentSp(c.regs, Wrap(a + 4)), mem := AfterLoad(c.mem, a)), v)
  }

  function BranchToPopped(c: Core, v: word): Core {
    var c' := if PopIsReturn(v) then ReturnFrom(c, v) else c.(regs := c.regs.(pc := ClearBit0(v)));
    c'.(regs := c'.regs.(it := ClearIt(c'.regs.it)))
  }

  /** 16-bit POP. */
  function Pop(c: Core, l: RegList): Core {
    var sp := CurrentSp(c.regs);
    var (r, m) := LoadRegs(c.regs, c.mem, sp, l - {15}, LOW_AND_LR, 0);
    var a := Wrap(sp + 4 * Count(l - {15}, 0));
    if 15 in l then PopPc(c.(regs := r, mem := m), a) else c.(regs := SetCurrentSp(r, a), mem := m)
  }

  // --- saved registers in memory ---

  /** The words at `a` upwards are the listed registers of `r` from register `i` up. */
  ghost predicate Saved(m: MemState, a: int, l: RegList, i: nat, r: Regs)
    decreases 16 - i
  {
    if i >= 16 then true
    else if i in l then 0 <= a < TWO32 && LoadWord(m, a) == ReadReg(r, i) && Saved(m, a + 4, l, i + 1, r)
    else Saved(m, a, l, i + 1, r)
  }

  lemma SameOutsideJoin(m: MemState, m1: MemState, m': MemState, a: word, n: nat)
    requires InRegion(a, n + 4) && a + 4 < TWO32
    requires SameOutside(m, m1, a, 4) && SameOutside(m1, m', a + 4, n)
    ensures SameOutside(m, m', a, n + 4)
  {
  }

  lemma {:induction false} StoreSaves(r: Regs, m: MemState, a: word, l: RegList, i: nat)
    requires InRegion(a, 4 * Count(l, i))
    ensures var m' := StoreRegs(r, m, a, l, i);
            Saved(m', a, l, i, r) && SameOutside(m, m', a, 4 * Count(l, i))
    decreases 16 - i
  {
    hide LoadWord, StoreWord, ReadReg, SameOutside, Wrap;
    if i < 16 {
      if i in l {
        var n := Count(l, i + 1);
        var m1 := StoreWord(m, a, ReadReg(r, i));
        var m' := StoreRegs(r, m1, a + 4, l, i + 1);
        StoreInRegion(m, a, ReadReg(r, i));
        StoreSaves(r, m1, a + 4, l, i + 1);
        LoadUnchanged(m1, m', a + 4, 4 * n, a);
        SameOutsideJoin(m, m1, m', a, 4 * n);
        WrapWord(a + 4);
      } else {
        StoreSaves(r, m, a, l, i + 1);
      }
    } else {
      SameOutsideSelf(m, a);
    }
  }

  lemma SameOutsideSelf(m: MemState, a: word)
    ensures SameOutside(m, m, a, 0)
  {
  }

  /** The registers of `r2` with the listed registers of `r` written over them. */
  function Restore(r2: Regs, r: Regs, l: RegList, into: set<nat>, i: nat): Regs
    decreases 16 - i
  {
    if i >= 16 then r2
    else if i in l then Restore(if i in into then LoadInto(r2, i, ReadReg(r, i)) else r2, r, l, into, i + 1)
    else Restore(r2, r, l, into, i + 1)
  }

  lemma {:induction false} LoadRestores(r2: Regs, m: MemState, a: word, l: RegList, into: set<nat>, i: nat, r: Regs)
    requires InRegion(a, 4 * Count(l, i)) && Saved(m, a, l, i, r)
    ensures LoadRegs(r2, m, a, l, into, i) == (Restore(r2, r, l, into, i), m)
    decreases 16 - i
  {
    hide LoadWord, AfterLoad, ReadReg, LoadInto, Wrap;
    if i < 16 {
      if i in l {
        LoadInRegion(m, a);
        WrapWord(a + 4);
        LoadRestores(if i in into then LoadInto(r2, i, ReadReg(r, i)) else r2, m, a + 4, l, into, i + 1, r);
      } else {
        LoadRestores(r2, m, a, l, into, i + 1, r);
      }
    }
  }

  /** The stack pointer that is not selected. */
  function OtherSp(r: Regs): word {
    if InException(r) || !Spsel(r.control) then r.psp else r.msp
  }

  lemma {:induction false} RestoreMeaning(r2: Regs, r: Regs, l: RegList, into: set<nat>, i: nat)
    requires 15 !in l
    ensures var r3 := Restore(r2, r, l, into, i);
            && (forall j :: 0 <= j < 15 ==>
                  ReadReg(r3, j) == if j in l && j in into && j >= i then ReadReg(r, j) else ReadReg(r2, j))
            && r3.pc == r2.pc && r3.psr == r2.psr && r3.control == r2.control && r3.it == r2.it
            && OtherSp(r3) == OtherSp(r2)
    decreases 16 - i
  {
    if i < 16 {
      if i in l {
        WriteThenRead(r2, i, ReadReg(r, i));
        hide LoadInto, ReadReg, OtherSp;
        RestoreMeaning(if i in into then LoadInto(r2, i, ReadReg(r, i)) else r2, r, l, into, i + 1);
      } else {
        hide LoadInto, ReadReg, OtherSp;
        RestoreMeaning(r2, r, l, into, i + 1);
      }
    }
  }

  lemma {:induction false} WriteThenRead(r: Regs, i: nat, v: word)
    requires i < 15
    ensures var r' := LoadInto(r, i, v);
            && r' == WriteReg(r, i, v)
            && (forall j :: 0 <= j < 15 ==> ReadReg(r', j) == if j == i then v else ReadReg(r, j))
            && r'.pc == r.pc && r'.psr == r.psr && r'.control == r.control && r'.it == r.it
            && OtherSp(r') == OtherSp(r)
  {
  }

  /** A register file is its numbered registers, xPSR, CONTROL, IT state and the other SP. */
  lemma RegsByParts(r: Regs, q: Regs)
    requires forall j :: 0 <= j < 16 ==> ReadReg(r, j) == ReadReg(q, j)
    requires r.psr == q.psr && r.control == q.control && r.it == q.it && OtherSp(r) == OtherSp(q)
    ensures r == q
  {
    forall j | 0 <= j < 13 ensures r.gpr[j] == q.gpr[j] {
      assert ReadReg(r, j) == ReadReg(q, j);
    }
    assert ReadReg(r, 13) == ReadReg(q, 13) && ReadReg(r, 14) == ReadReg(q, 14) && ReadReg(r, 15) == ReadReg(q, 15);
  }

  lemma {:induction false} SavedSurvives(m: MemState, m': MemState, a: word, l: RegList, i: nat, r: Regs)
    requires InRegion(a, 4 * Count(l, i)) && Saved(m, a, l, i, r)
    requires forall k :: Offset(a) <= k < Offset(a) + 4 * Count(l, i) ==> m'.bytes[k] == m.bytes[k]
    ensures Saved(m', a, l, i, r)
    decreases 16 - i
  {
    hide LoadWord, ReadReg;
    if i < 16 {
      if i in l {
        SameBytesSameWord(m, m', a);
        SavedSurvives(m, m', a + 4, l, i + 1, r);
      } else {
        SavedSurvives(m, m', a, l, i + 1, r);
      }
    }
  }

  lemma SameBytesSameWord(m: MemState, m': MemState, a: word)
    requires InRegion(a, 4)
    requires forall k :: Offset(a) <= k < Offset(a) + 4 ==> m'.bytes[k] == m.bytes[k]
    ensures LoadWord(m', a) == LoadWord(m, a)
  {
    LoadInRegion(m, a);
    LoadInRegion(m', a);
    assert m'.bytes[Offset(a)..Offset(a) + 4] == m.bytes[Offset(a)..Offset(a) + 4];
  }

  // --- STMDB Rn!, L and LDMIA Rn!, L ---

  /** What must hold between the store and the load: the base still points at the saved words
      and nobody wrote over them. Everything else may have changed. */
  ghost predicate KeptFor(c1: Core, c2: Core, rn: nat, n: nat) {
    var a := ReadReg(c1.regs, rn);
    && ReadReg(c2.regs, rn) == a
    && forall k :: Offset(a) <= k < Offset(a) + 4 * n && k < MEM_SIZE ==> c2.mem.bytes[k] == c1.mem.bytes[k]
  }

  /** Every listed register comes back and so does the base; unlisted registers keep what the
      code in between left in them. Rn itself may be in the list. */
  lemma StoreLoadMultipleRestores(c: Core, c2: Core, rn: nat, l: RegList)
    requires rn < 15 && 15 !in l
    requires 0 <= ReadReg(c.regs, rn) - 4 * Count(l, 0)
    requires InRegion(ReadReg(c.regs, rn) - 4 * Count(l, 0), 4 * Count(l, 0))
    requires KeptFor(T32Multiple(c, false, DecrementBefore, rn, l), c2, rn, Count(l, 0))
    ensures var c3 := T32Multiple(c2, true, IncrementAfter, rn, l);
            && (forall j :: 0 <= j < 15 ==>
                  ReadReg(c3.regs, j) == if j in l || j == rn then ReadReg(c.regs, j) else ReadReg(c2.regs, j))
            && c3.regs.pc == c2.regs.pc && c3.regs.psr == c2.regs.psr && c3.regs.control == c2.regs.control
            && c3.regs.it == c2.regs.it && OtherSp(c3.regs) == OtherSp(c2.regs)
            && c3.mem == c2.mem && c3.pend == c2.pend
  {
    hide T32Multiple, ReadReg, StoreRegs, LoadRegs, Saved, WriteReg, OtherSp, Restore, Count;
    var n := Count(l, 0);
    var a: word := ReadReg(c.regs, rn) - 4 * n;
    StmdbShape(c, rn, l);
    LdmiaShape(c2, rn, l);
    WriteBackRead(c.regs, rn, a);
    StoreSaves(c.regs, c.mem, a, l, 0);
    SavedSurvives(T32Multiple(c, false, DecrementBefore, rn, l).mem, c2.mem, a, l, 0, c.regs);
    LoadRestores(c2.regs, c2.mem, a, l, ALL_REGS, 0, c.regs);
    RestoreMeaning(c2.regs, c.regs, l, ALL_REGS, 0);
    WriteBackRead(Restore(c2.regs, c.regs, l, ALL_REGS, 0), rn, ReadReg(c.regs, rn));
  }

  lemma StmdbShape(c: Core, rn: nat, l: RegList)
    requires 0 <= ReadReg(c.regs, rn) - 4 * Count(l, 0)
    ensures var a := ReadReg(c.regs, rn) - 4 * Count(l, 0);
            T32Multiple(c, false, DecrementBefore, rn, l) ==
            c.(regs := WriteReg(c.regs, rn, a), mem := StoreRegs(c.regs, c.mem, a, l, 0))
  {
    hide ReadReg, WriteReg, StoreRegs;
  }

  lemma LdmiaShape(c: Core, rn: nat, l: RegList)
    ensures var a := ReadReg(c.regs, rn);
            var (r, m) := LoadRegs(c.regs, c.mem, a, l, ALL_REGS, 0);
            T32Multiple(c, true, IncrementAfter, rn, l) ==
            c.(regs := WriteReg(r, rn, Wrap(a + 4 * Count(l, 0))), mem := m)
  {
    hide ReadReg, WriteReg, LoadRegs;
  }

  lemma WriteBackRead(r: Regs, rn: nat, v: word)
    requires rn < 15
    ensures var r' := WriteReg(r, rn, v);
            && (forall j :: 0 <= j < 15 ==> ReadReg(r', j) == if j == rn then v else ReadReg(r, j))
            && r'.pc == r.pc && r'.psr == r.psr && r'.control == r.control && r'.it == r.it
            && OtherSp(r') == OtherSp(r)
  {
    WriteThenRead(r, rn, v);
  }

  /** 16-bit STMIA Rn!, L writes the list upwards from Rn; once Rn holds the old base again, LDMIA
      Rn!, L restores the list. Both leave Rn behind the list, unless it is in the list: then both
      leave it alone. */
  lemma {:induction false} ShortStoreLoadRestores(c: Core, c2: Core, rn: nat, l: RegList)
    requires rn < 8 && l <= LOW_REGS
    requires InRegion(ReadReg(c.regs, rn), 4 * Count(l, 0)) && ReadReg(c2.regs, rn) == ReadReg(c.regs, rn)
    requires var a, m1 := Offset(ReadReg(c.regs, rn)), T16Multiple(c, false, rn, l).mem;
             forall k :: a <= k < a + 4 * Count(l, 0) && k < MEM_SIZE ==> c2.mem.bytes[k] == m1.bytes[k]
    ensures var c1, c3 := T16Multiple(c, false, rn, l), T16Multiple(c2, true, rn, l);
            && ReadReg(c1.regs, rn) == ReadReg(c.regs, rn) + (if rn in l then 0 else 4 * Count(l, 0))
            && ReadReg(c3.regs, rn) == ReadReg(c1.regs, rn)
            && (forall j :: 0 <= j < 15 && j != rn ==>
                  ReadReg(c3.regs, j) == ReadReg(if j in l then c.regs else c2.regs, j))
            && c3.mem == c2.mem && c3.regs.pc == c2.regs.pc && c3.regs.psr == c2.regs.psr
  {
    hide ReadReg, StoreRegs, LoadRegs, Saved, WriteReg, OtherSp, Restore, Count;
    var a, n := ReadReg(c.regs, rn), Count(l, 0);
    assert l * LOW_REGS == l && 15 !in l;
    WrapWord(a + 4 * n);
    WriteBackRead(c.regs, rn, a + 4 * n);
    StoreSaves(c.regs, c.mem, a, l, 0);
    SavedSurvives(StoreRegs(c.regs, c.mem, a, l, 0), c2.mem, a, l, 0, c.regs);
    LoadRestores(c2.regs, c2.mem, a, l, LOW_REGS, 0, c.regs);
    RestoreMeaning(c2.regs, c.regs, l, LOW_REGS, 0);
    WriteBackRead(Restore(c2.regs, c.regs, l, LOW_REGS, 0), rn, a + 4 * n);
  }

  // --- STMIA Rn!, L and LDMDB Rn!, L ---

  /** Nobody moved the base or wrote over the `n` words below it. */
  ghost predicate KeptBelow(c1: Core, c2: Core, rn: nat, n: nat) {
    var a := ReadReg(c1.regs, rn);
    && ReadReg(c2.regs, rn) == a
    && (4 * n <= a ==> forall k :: Offset(a - 4 * n) <= k < Offset(a - 4 * n) + 4 * n && k < MEM_SIZE ==>
                         c2.mem.bytes[k] == c1.mem.bytes[k])
  }

  /** An ascending stack: the list is stored upwards from the base, the base moves behind it, and LDMDB
      brings list and base back. */
  lemma AscendingStackRestores(c: Core, c2: Core, rn: nat, l: RegList)
    requires rn < 15 && 15 !in l
    requires InRegion(ReadReg(c.regs, rn), 4 * Count(l, 0))
    requires KeptBelow(T32Multiple(c, false, IncrementAfter, rn, l), c2, rn, Count(l, 0))
    ensures ReadReg(T32Multiple(c, false, IncrementAfter, rn, l).regs, rn) == ReadReg(c.regs, rn) + 4 * Count(l, 0)
    ensures var c3 := T32Multiple(c2, true, DecrementBefore, rn, l);
            && (forall j :: 0 <= j < 15 ==>
                  ReadReg(c3.regs, j) == if j in l || j == rn then ReadReg(c.regs, j) else ReadReg(c2.regs, j))
            && c3.regs.pc == c2.regs.pc && c3.regs.psr == c2.regs.psr && c3.regs.control == c2.regs.control
            && c3.regs.it == c2.regs.it && OtherSp(c3.regs) == OtherSp(c2.regs)
            && c3.mem == c2.mem && c3.pend == c2.pend
  {
    hide T32Multiple, ReadReg, StoreRegs, LoadRegs, Saved, WriteReg, OtherSp, Restore, Count;
    var n, a := Count(l, 0), ReadReg(c.regs, rn);
    StmiaShape(c, rn, l);
    WriteBackRead(c.regs, rn, a + 4 * n);
    LdmdbShape(c2, rn, l);
    StoreSaves(c.regs, c.mem, a, l, 0);
    SavedSurvives(T32Multiple(c, false, IncrementAfter, rn, l).mem, c2.mem, a, l, 0, c.regs);
    LoadRestores(c2.regs, c2.mem, a, l, ALL_REGS, 0, c.regs);
    RestoreMeaning(c2.regs, c.regs, l, ALL_REGS, 0);
    WriteBackRead(Restore(c2.regs, c.regs, l, ALL_REGS, 0), rn, a);
  }

  lemma StmiaShape(c: Core, rn: nat, l: RegList)
    requires InRegion(ReadReg(c.regs, rn), 4 * Count(l, 0))
    ensures var a, n := ReadReg(c.regs, rn), Count(l, 0);
            && a + 4 * n < TWO32
            && T32Multiple(c, false, IncrementAfter, rn, l) ==
               c.(regs := WriteReg(c.regs, rn, a + 4 * n), mem := StoreRegs(c.regs, c.mem, a, l, 0))
  {
    hide ReadReg, WriteReg, StoreRegs, Count;
  }

  lemma LdmdbShape(c: Core, rn: nat, l: RegList)
    requires 15 !in l && 0 <= ReadReg(c.regs, rn) - 4 * Count(l, 0)
    ensures var a := ReadReg(c.regs, rn) - 4 * Count(l, 0);
            var (r, m) := LoadRegs(c.regs, c.mem, a, l, ALL_REGS, 0);
            T32Multiple(c, true, DecrementBefore, rn, l) == c.(regs := WriteReg(r, rn, a), mem := m)
  {
    hide ReadReg, WriteReg, LoadRegs, Count;
  }

  /** LDMDB SP!, {.., PC} pops upwards, as LDMIA SP!, {.., PC} does. */
  lemma PopByLdmdb(c: Core, l: RegList)
    requires 15 in l
    ensures T32Multiple(c, true, DecrementBefore, 13, l) == T32Multiple(c, true, IncrementAfter, 13, l)
  {
    hide LoadRegs, WriteReg, Count;
  }

  // --- loading PC ---

  /** PC is the last register of its list. */
  lemma {:induction false} LoadPcLast(r: Regs, m: MemState, a: word, l: RegList, into: set<nat>, i: nat)
    requires 15 in l && 15 in into && i <= 15
    ensures var (r1, m1) := LoadRegs(r, m, a, l - {15}, into, i);
            var top := Wrap(a + 4 * Count(l - {15}, i));
            LoadRegs(r, m, a, l, into, i) == (LoadInto(r1, 15, LoadWord(m1, top)), AfterLoad(m1, top))
    decreases 16 - i
  {
    hide LoadWord, AfterLoad, Wrap;
    WrapWord(a);
    if i == 15 {
      hide LoadInto;
      assert LoadRegs(r, m, a, l - {15}, into, 15) == LoadRegs(r, m, a, l - {15}, into, 16) == (r, m);
      assert Count(l - {15}, 15) == Count(l - {15}, 16) == 0;
    } else if i in l {
      hide LoadInto;
      LoadPcLast(if i in into then LoadInto(r, i, LoadWord(m, a)) else r, AfterLoad(m, a), Wrap(a + 4), l, into, i + 1);
      WrapTwice(a + 4, 4 * Count(l - {15}, i + 1));
      assert a + 4 + 4 * Count(l - {15}, i + 1) == a + 4 * Count(l - {15}, i);
    } else {
      hide LoadInto;
      LoadPcLast(r, m, a, l, into, i + 1);
    }
  }

  lemma {:induction false} LoadKeepsMode(r: Regs, m: MemState, a: word, l: RegList, into: set<nat>, i: nat)
    requires 15 !in l
    ensures var r1 := LoadRegs(r, m, a, l, into, i).0;
            && r1.pc == r.pc && r1.psr == r.psr && r1.control == r.control && r1.it == r.it
            && OtherSp(r1) == OtherSp(r)
    decreases 16 - i
  {
    hide LoadWord, AfterLoad, Wrap, LoadInto, OtherSp;
    if i < 16 {
      if i in l {
        WriteThenRead(r, i, LoadWord(m, a));
        var r' := if i in into then LoadInto(r, i, LoadWord(m, a)) else r;
        LoadKeepsMode(r', AfterLoad(m, a), Wrap(a + 4), l, into, i + 1);
      } else {
        LoadKeepsMode(r, m, a, l, into, i + 1);
      }
    }
  }

  /** The 32-bit LDM takes the word loaded into PC for a branch target, whatever it is: unlike POP it
      is never an exception return, so that a handler that closes with LDM and an EXC_RETURN value
      goes on at that address in Handler mode. */
  lemma {:induction false} WideLoadNeverReturns(c: Core, mode: Mode, rn: nat, l: RegList)
    requires rn < 15 && 15 in l
    ensures var c' := T32Multiple(c, true, mode, rn, l);
            var a := StartAddress(c.regs, true, mode, rn, l);
            var m := LoadRegs(c.regs, c.mem, a, l - {15}, ALL_REGS, 0).1;
            && c'.regs.pc == ClearBit0(LoadWord(m, Wrap(a + 4 * Count(l - {15}, 0))))
            && c'.regs.psr == c.regs.psr && c'.regs.control == c.regs.control && c'.pend == c.pend
            && OtherSp(c'.regs) == OtherSp(c.regs) && !InItBlock(c'.regs.it)
  {
    hide LoadWord, AfterLoad, Wrap, ReadReg, WriteReg, Count, LoadRegs, ClearBit0, OtherSp, StartAddress;
    var a := StartAddress(c.regs, true, mode, rn, l);
    LoadPcLast(c.regs, c.mem, a, l, ALL_REGS, 0);
    LoadKeepsMode(c.regs, c.mem, a, l - {15}, ALL_REGS, 0);
    var r := LoadRegs(c.regs, c.mem, a, l, ALL_REGS, 0).0;
    WriteBackRead(r, rn, Wrap(a + 4 * Count(l, 0)));
    WriteBackRead(r, rn, a);
    BranchKeepsOtherSp(LoadRegs(c.regs, c.mem, a, l - {15}, ALL_REGS, 0).0, r.pc);
  }

  lemma BranchKeepsOtherSp(r: Regs, pc: word)
    ensures OtherSp(r.(pc := pc, it := ClearIt(r.it))) == OtherSp(r) && !InItBlock(ClearIt(r.it))
  {
  }

  /** Storing a list and loading it straight back is the identity on registers. */
  lemma StoreLoadMultipleIdentity(c: Core, rn: nat, l: RegList)
    requires rn < 15 && 15 !in l
    requires 0 <= ReadReg(c.regs, rn) - 4 * Count(l, 0)
    requires InRegion(ReadReg(c.regs, rn) - 4 * Count(l, 0), 4 * Count(l, 0))
    ensures T32Multiple(T32Multiple(c, false, DecrementBefore, rn, l), true, IncrementAfter, rn, l).regs == c.regs
  {
    hide ReadReg, StoreRegs, LoadRegs, WriteReg, OtherSp;
    var c1 := T32Multiple(c, false, DecrementBefore, rn, l);
    StoreLoadMultipleRestores(c, c1, rn, l);
    WriteBackRead(c.regs, rn, Wrap(ReadReg(c.regs, rn) - 4 * Count(l, 0)));
    var c3 := T32Multiple(c1, true, IncrementAfter, rn, l);
    ReadPc(c3.regs);
    ReadPc(c.regs);
    RegsByParts(c3.regs, c.regs);
  }

  lemma ReadPc(r: Regs)
    ensures ReadReg(r, 15) == r.pc
  {
  }

  // --- PUSH and POP ---

  /** The lists the 16-bit PUSH encodes: low registers and LR. */
  predicate PushList(l: RegList) { l <= LOW_AND_LR }

  /** The POP list that matches a PUSH: LR is popped into PC. */
  function PopList(l: RegList): RegList { if 14 in l then l - {14} + {15} else l }

  function PushBase(r: Regs, l: RegList): int { CurrentSp(r) - 4 * Count(l, 0) }

  lemma PushShape(c: Core, l: RegList)
    requires PushList(l) && 0 <= PushBase(c.regs, l)
    ensures var r := SetCurrentSp(c.regs, PushBase(c.regs, l));
            && Push(c, l) == c.(regs := r, mem := StoreRegs(r, c.mem, PushBase(c.regs, l), l, 0))
            && CurrentSp(r) == PushBase(c.regs, l)
  {
    hide StoreRegs;
    assert l * LOW_AND_LR == l;
  }

  lemma {:induction false} CountNothing(l: RegList, i: nat)
    requires forall j :: j in l ==> j < i
    ensures Count(l, i) == 0
    decreases 16 - i
  {
    if i < 16 {
      CountNothing(l, i + 1);
    }
  }

  /** The list loop of POP takes LR's place at the end for PC. */
  lemma {:induction false} CountWithoutTop(l: RegList, i: nat)
    requires (forall j :: j in l ==> j <= 14) && i <= 14
    ensures Count(l, i) == Count(l - {14}, i) + if 14 in l then 1 else 0
    decreases 16 - i
  {
    if i == 14 {
      CountNothing(l, 15);
      CountNothing(l - {14}, 14);
    } else {
      CountWithoutTop(l, i + 1);
    }
  }

  /** Nothing is listed from `i` up. */
  lemma {:induction false} NothingLeft(m: MemState, a: int, l: RegList, i: nat, r: Regs)
    requires forall j :: j in l ==> j < i
    ensures Saved(m, a, l, i, r)
    decreases 16 - i
  {
    if i < 16 {
      NothingLeft(m, a, l, i + 1, r);
    }
  }

  /** LR is saved last, above the low registers. */
  lemma {:induction false} SavedLast(m: MemState, a: int, l: RegList, i: nat, r: Regs)
    requires (forall j :: j in l ==> j <= 14) && i <= 14 && Saved(m, a, l, i, r)
    ensures Saved(m, a, l - {14}, i, r)
    ensures var top := a + 4 * Count(l - {14}, i);
            14 in l ==> 0 <= top < TWO32 && LoadWord(m, top) == ReadReg(r, 14)
    decreases 16 - i
  {
    hide LoadWord, ReadReg;
    if i == 14 {
      NothingLeft(m, a, l - {14}, 14, r);
      CountNothing(l - {14}, 14);
    } else {
      SavedLast(m, if i in l then a + 4 else a, l, i + 1, r);
    }
  }

  /** SP still points at the pushed words and nobody wrote over them. */
  ghost predicate KeptForPop(c1: Core, c2: Core, n: nat) {
    var a := CurrentSp(c1.regs);
    && CurrentSp(c2.regs) == a
    && forall k :: Offset(a) <= k < Offset(a) + 4 * n && k < MEM_SIZE ==> c2.mem.bytes[k] == c1.mem.bytes[k]
  }

  /** The registers after the list part of a POP that matches a PUSH made in `c`. */
  function Popped(c: Core, c2: Core, l: RegList): Regs {
    SetCurrentSp(Restore(c2.regs, c.regs, l - {14}, LOW_AND_LR, 0), CurrentSp(c.regs))
  }

  /** Pushed low registers and SP come back; all else is as the code in between left it. */
  lemma PoppedMeaning(c: Core, c2: Core, l: RegList)
    requires PushList(l)
    ensures var r := Popped(c, c2, l);
            && CurrentSp(r) == CurrentSp(c.regs)
            && (forall j :: 0 <= j < 15 && j != 13 ==>
                  ReadReg(r, j) == if j in l && j != 14 then ReadReg(c.regs, j) else ReadReg(c2.regs, j))
            && r.pc == c2.regs.pc && r.psr == c2.regs.psr && r.control == c2.regs.control && r.it == c2.regs.it
            && OtherSp(r) == OtherSp(c2.regs)
  {
    hide Restore, OtherSp;
    RestoreMeaning(c2.regs, c.regs, l - {14}, LOW_AND_LR, 0);
    var r := Restore(c2.regs, c.regs, l - {14}, LOW_AND_LR, 0);
    WriteBackRead(r, 13, CurrentSp(c.regs));
    assert WriteReg(r, 13, CurrentSp(c.regs)) == Popped(c, c2, l);
    assert ReadReg(Popped(c, c2, l), 13) == CurrentSp(Popped(c, c2, l));
  }

  lemma SavedAtPop(c: Core, c2: Core, l: RegList)
    requires PushList(l) && 0 <= PushBase(c.regs, l)
    requires InRegion(PushBase(c.regs, l), 4 * Count(l, 0))
    requires KeptForPop(Push(c, l), c2, Count(l, 0))
    ensures CurrentSp(c2.regs) == PushBase(c.regs, l)
    ensures Saved(c2.mem, PushBase(c.regs, l), l, 0, c.regs)
  {
    hide StoreRegs, LoadWord, Saved, Push, Count, CurrentSp, SetCurrentSp;
    var a := PushBase(c.regs, l);
    var r := SetCurrentSp(c.regs, a);
    PushShape(c, l);
    StoreSaves(r, c.mem, a, l, 0);
    SavedSurvives(Push(c, l).mem, c2.mem, a, l, 0, r);
    NotSp(c.regs, a, l);
    SavedSameRegs(c2.mem, a, l, 0, r, c.regs);
  }

  lemma NotSp(r: Regs, sp: word, l: RegList)
    requires PushList(l)
    ensures forall j :: j in l ==> ReadReg(SetCurrentSp(r, sp), j) == ReadReg(r, j)
  {
    assert 13 !in LOW_AND_LR;
  }

  lemma PopRestoresList(c: Core, c2: Core, l: RegList)
    requires PushList(l) && 0 <= PushBase(c.regs, l)
    requires InRegion(PushBase(c.regs, l), 4 * Count(l, 0))
    requires KeptForPop(Push(c, l), c2, Count(l, 0))
    ensures var a := PushBase(c.regs, l);
            var n := Count(l - {14}, 0);
            && CurrentSp(c2.regs) == a && a + 4 * n < TWO32
            && LoadRegs(c2.regs, c2.mem, a, l - {14}, LOW_AND_LR, 0) ==
               (Restore(c2.regs, c.regs, l - {14}, LOW_AND_LR, 0), c2.mem)
            && a + 4 * n + (if 14 in l then 4 else 0) == CurrentSp(c.regs)
            && (14 in l ==> LoadWord(c2.mem, a + 4 * n) == c.regs.lr && AfterLoad(c2.mem, a + 4 * n) == c2.mem)
  {
    hide LoadRegs, LoadWord, AfterLoad, Saved, Restore, Push, Count, CurrentSp, KeptForPop;
    var a := PushBase(c.regs, l);
    SavedAtPop(c, c2, l);
    SavedLast(c2.mem, a, l, 0, c.regs);
    CountWithoutTop(l, 0);
    LoadRestores(c2.regs, c2.mem, a, l - {14}, LOW_AND_LR, 0, c.regs);
    if 14 in l {
      LoadInRegion(c2.mem, a + 4 * Count(l - {14}, 0));
    }
  }

  /** The saved words depend on the listed registers only. */
  lemma {:induction false} SavedSameRegs(m: MemState, a: int, l: RegList, i: nat, r: Regs, q: Regs)
    requires Saved(m, a, l, i, r) && forall j :: j in l ==> ReadReg(r, j) == ReadReg(q, j)
    ensures Saved(m, a, l, i, q)
    decreases 16 - i
  {
    hide LoadWord, ReadReg;
    if i < 16 {
      SavedSameRegs(m, if i in l then a + 4 else a, l, i + 1, r, q);
    }
  }

  /** PUSH and the matching POP: the pushed registers and SP are restored whatever happened in
      between. With LR pushed and PC popped, PC becomes LR with bit 0 cleared exactly when LR is
      not one of the three EXC_RETURN values; those unstack an exception frame at the restored SP. */
  lemma {:induction false} PushPopRestores(c: Core, c2: Core, l: RegList)
    requires PushList(l) && 0 <= PushBase(c.regs, l)
    requires InRegion(PushBase(c.regs, l), 4 * Count(l, 0))
    requires KeptForPop(Push(c, l), c2, Count(l, 0))
    ensures var c3 := Pop(c2, PopList(l));
            var r := Popped(c, c2, l);
            if 14 !in l then c3 == c2.(regs := r)
            else if !PopIsReturn(c.regs.lr) then c3 == c2.(regs := r.(pc := ClearBit0(c.regs.lr), it := ClearIt(r.it)))
            else var c4 := ReturnFrom(c2.(regs := r), c.regs.lr);
                 c3 == c4.(regs := c4.regs.(it := ClearIt(c4.regs.it)))
  {
    hide LoadRegs, LoadWord, AfterLoad, Restore, Push, Pop;
    hide ReturnFrom, InRegion, Count, CurrentSp, SetCurrentSp, KeptForPop;
    PopRestoresList(c, c2, l);
    assert 15 !in LOW_AND_LR;
    assert PopList(l) - {15} == l - {14};
    var top := PushBase(c.regs, l) + 4 * Count(l - {14}, 0);
    WrapWord(top);
    WrapWord(CurrentSp(c.regs));
    PopShape(c2, PopList(l), Restore(c2.regs, c.regs, l - {14}, LOW_AND_LR, 0), top);
  }

  /** The values that POP of PC takes for an exception return, and where it goes with any other. */
  lemma PopBranches(c: Core, v: word)
    ensures var c' := BranchToPopped(c, v);
            if v in {0xFFFF_FFF1, 0xFFFF_FFF9, 0xFFFF_FFFD}
            then c' == ReturnFrom(c, v).(regs := ReturnFrom(c, v).regs.(it := ClearIt(c.regs.it)))
            else c' == c.(regs := c.regs.(pc := v - v % 2, it := ClearIt(c.regs.it)))
  {
    hide LoadUp;
  }

  lemma PopShape(c: Core, l: RegList, r: Regs, top: word)
    requires LoadRegs(c.regs, c.mem, CurrentSp(c.regs), l - {15}, LOW_AND_LR, 0) == (r, c.mem)
    requires top == Wrap(CurrentSp(c.regs) + 4 * Count(l - {15}, 0))
    ensures 15 !in l ==> Pop(c, l) == c.(regs := SetCurrentSp(r, top))
    ensures 15 in l && AfterLoad(c.mem, top) == c.mem ==>
              var v := LoadWord(c.mem, top);
              var q := SetCurrentSp(r, Wrap(top + 4));
              Pop(c, l) ==
              if PopIsReturn(v) then
                var c4 := ReturnFrom(c.(regs := q), v);
                c4.(regs := c4.regs.(it := ClearIt(c4.regs.it)))
              else c.(regs := q.(pc := ClearBit0(v), it := ClearIt(q.it)))
  {
    hide LoadRegs, LoadWord, AfterLoad, ReturnFrom, Count, CurrentSp, SetCurrentSp, Wrap;
  }
}
