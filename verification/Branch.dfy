/** Branches, calls and returns: Execute::execute_branch (src/cpu/Execute.cpp). */
module Branch {
  import opened Words
  import opened Registers
  import opened Alu
  import opened Cpu
  import opened Instruction

  /** BX and BLX: an EXC_RETURN target is an exception return, any other a branch. */
  function Exchange(c: Core, f: Fields): Core {
    var target := ReadReg(c.regs, f.rm);
    var linked := if f.opcode / 0x80 % 2 == 1 then c.(regs := WriteReg(c.regs, 14, Wrap(c.regs.pc + 3))) else c;
    var (c', returned) := TryExceptionReturn(linked, target);
    var c'' := if returned then c' else linked.(regs := linked.regs.(pc := ClearBit0(target)));
    c''.(regs := c''.regs.(it := ClearIt(c''.regs.it)))
  }

  /** The new state and whether PC was changed. The BX test looks at the opcode and the ALU
      field, the BL test at the type or the ALU field; the rest are plain branches. */
  function ExecuteBranch(c: Core, f: Fields): (Core, bool) {
    var r := c.regs;
    if (f.typ == T16_B_COND || f.typ == T32_B_COND) && !CheckCondition(r.psr, f.cond) then (c, false)
    else if f.opcode % 0x1_0000 / 0x400 == 0x11 && f.aluOp == 3 then (Exchange(c, f), true)
    else
      var r' := if f.typ == T32_BL || f.aluOp == 1 then WriteReg(r, 14, Wrap(r.pc + 5)) else r;
      (c.(regs := r'.(pc := Wrap(r.pc + 4 + f.imm), it := ClearIt(r'.it))), true)
  }

  /** `fetch; decode; execute` of a branch. */
  function Fetched(c: Core, i: word): (Core, bool) { ExecuteBranch(c, Decode(i)) }

  /** BL reaches PC + 4 + offset and leaves the return address in LR, with bit 0 set. */
  lemma {:induction false} BlReaches(c: Core, off: int)
    requires WideOffset(off)
    ensures Fetched(c, EncodeBl(off)) ==
            (c.(regs := c.regs.(pc := Wrap(c.regs.pc + 4 + off), lr := Wrap(c.regs.pc + 5),
                                it := ClearIt(c.regs.it))), true)
  {
    hide Decode, Wrap, WideHalves, CheckCondition;
    WideBranchDecodes(off, true);
    WrapTwice(off, c.regs.pc + 4);
    assert Wrap(Wrap(off) + (c.regs.pc + 4)) == Wrap(c.regs.pc + 4 + Wrap(off)) by {
      assert Wrap(off) + (c.regs.pc + 4) == c.regs.pc + 4 + Wrap(off);
    }
    assert off + (c.regs.pc + 4) == c.regs.pc + 4 + off;
  }

  lemma {:induction false} BxGoes(c: Core, rm: nat)
    requires rm < 16
    ensures var target := ReadReg(c.regs, rm);
            var (c', returned) := TryExceptionReturn(c, target);
            var c'' := if returned then c' else c.(regs := c.regs.(pc := ClearBit0(target)));
            Fetched(c, EncodeBx(rm)) == (c''.(regs := c''.regs.(it := ClearIt(c''.regs.it))), true)
  {
    hide Decode, ReadReg, TryExceptionReturn, CheckCondition;
    BxDecodes(rm);
    assert EncodeBx(rm) / 0x80 == 0x8E;
    assert EncodeBx(rm) % 0x1_0000 / 0x400 == 0x11;
  }

  /** Call and return. After BL, BX LR with LR intact comes back to PC + 4 - exactly unless LR
      looks like an EXC_RETURN value, which takes a call from the top sixteenth of the address
      space; then the return address is taken for an exception return. */
  lemma {:induction false} CallReturns(c: Core, off: int, c2: Core)
    requires WideOffset(off) && c.regs.pc % 2 == 0
    ensures c2.regs.lr == Fetched(c, EncodeBl(off)).0.regs.lr ==>
              var c3 := Fetched(c2, EncodeBx(14)).0;
              if IsExcReturn(Wrap(c.regs.pc + 5))
              then var q := ReturnFrom(c2, Wrap(c.regs.pc + 5));
                   c3 == q.(regs := q.regs.(it := ClearIt(q.regs.it)))
              else c3 == c2.(regs := c2.regs.(pc := Wrap(c.regs.pc + 4), it := ClearIt(c2.regs.it)))
    ensures c.regs.pc < 0xF000_0000 - 4 ==> !IsExcReturn(Wrap(c.regs.pc + 5))
  {
    hide ReturnFrom, Fetched;
    BlReaches(c, off);
    BxGoes(c2, 14);
    ReturnAddress(c.regs.pc);
  }

  lemma ReturnAddress(pc: word)
    requires pc % 2 == 0
    ensures ClearBit0(Wrap(pc + 5)) == Wrap(pc + 4)
  {
  }

  /** The short and the wide unconditional branch reach PC + 4 + offset. */
  lemma {:induction false} BReaches(c: Core, off: int)
    requires WideOffset(off)
    ensures var target := c.(regs := c.regs.(pc := Wrap(c.regs.pc + 4 + off), it := ClearIt(c.regs.it)));
            && Fetched(c, EncodeBWide(off)) == (target, true)
            && (-0x800 <= off < 0x800 ==> Fetched(c, EncodeB(off)) == (target, true))
  {
    hide Decode, Wrap, WideHalves, CheckCondition;
    WideBranchDecodes(off, false);
    TargetWraps(c.regs.pc, off);
    if -0x800 <= off < 0x800 {
      ShortBranchDecodes(off);
      ShortOpcode(EncodeB(off));
    }
  }

  lemma TargetWraps(pc: word, off: int)
    ensures Wrap(pc + 4 + Wrap(off)) == Wrap(pc + 4 + off)
  {
    hide Wrap;
    WrapTwice(off, pc + 4);
    assert Wrap(off) + (pc + 4) == pc + 4 + Wrap(off) && off + (pc + 4) == pc + 4 + off;
  }

  lemma ShortOpcode(i: word)
    requires 0xD000 <= i < 0x1_0000
    ensures i % 0x1_0000 / 0x400 != 0x11
  {
  }

  /** A conditional branch goes to PC + 4 + offset exactly when its condition holds. */
  lemma {:induction false} BCondReaches(c: Core, cond: nat, off: int)
    requires cond < 14 && -0x100 <= off < 0x100 && off % 2 == 0
    ensures Fetched(c, EncodeBCond(cond, off)) ==
            if CheckCondition(c.regs.psr, cond)
            then (c.(regs := c.regs.(pc := Wrap(c.regs.pc + 4 + off), it := ClearIt(c.regs.it))), true)
            else (c, false)
  {
    hide Decode, Wrap, CheckCondition;
    ShortCondBranchDecodes(cond, off);
    ShortOpcode(EncodeBCond(cond, off));
    TargetWraps(c.regs.pc, off);
  }

  /** The wide conditional branch, when taken, reaches its target exactly for the offsets from
      -2048 to 4094 the decoder gets right. */
  lemma {:induction false} BCondWideReaches(c: Core, cond: nat, off: int)
    requires cond < 14 && CondOffset(off) && CheckCondition(c.regs.psr, cond)
    ensures Fetched(c, EncodeBCondWide(cond, off)).0.regs.pc == Wrap(c.regs.pc + 4 + off) <==> -0x800 <= off < 0x1000
  {
    hide Decode, CheckCondition;
    CondWideBranchDecodes(cond, off);
    var imm := Decode(EncodeBCondWide(cond, off)).imm;
    TargetWraps(c.regs.pc, off);
    WrapCancels(c.regs.pc + 4, imm, Wrap(off));
  }

  lemma WrapCancels(x: int, a: word, b: word)
    ensures Wrap(x + a) == Wrap(x + b) <==> a == b
  {
  }

  // --- register branches ---

  /** 0xF, any six hex digits, and a last digit. */
  function ReturnCode(middle: nat, last: nat): int { 0xF000_0000 + middle * 0x10 + last }

  /** The targets taken for an exception return: those whose last digit is 1, 9 or D. */
  lemma ReturnTargets(target: word)
    ensures IsExcReturn(target) <==>
            exists middle, last :: middle < 0x100_0000 && last in {0x1, 0x9, 0xD} && target == ReturnCode(middle, last)
  {
    if IsExcReturn(target) {
      var middle: nat := (target - 0xF000_0000) / 0x10;
      var last: nat := target % 0x10;
      assert target == ReturnCode(middle, last) && middle < 0x100_0000 && last in {0x1, 0x9, 0xD};
    }
  }

  /** BLX goes where BX goes and leaves the address behind it in LR, with bit 0 set; the target is read
      first, so BLX LR works. */
  lemma {:induction false} BlxGoes(c: Core, rm: nat)
    requires rm < 16 && c.regs.pc % 2 == 0
    ensures var target := ReadReg(c.regs, rm);
            var linked := c.(regs := c.regs.(lr := Wrap(c.regs.pc + 2) + 1));
            var c' := if IsExcReturn(target) then ReturnFrom(linked, target)
                      else linked.(regs := linked.regs.(pc := target - target % 2));
            Fetched(c, EncodeBlx(rm)) == (c'.(regs := c'.regs.(it := ClearIt(c'.regs.it))), true)
  {
    hide Decode, ReadReg, CheckCondition, Exchange, EncodeBlx;
    BlxDecodes(rm);
    BlxBits(rm);
    assert EncodeBlx(rm) % 0x1_0000 == EncodeBlx(rm);
    BlxExchanges(c, Decode(EncodeBlx(rm)));
  }

  lemma BlxExchanges(c: Core, f: Fields)
    requires f.opcode / 0x80 == 0x8F && c.regs.pc % 2 == 0
    ensures var target := ReadReg(c.regs, f.rm);
            var linked := c.(regs := c.regs.(lr := Wrap(c.regs.pc + 2) + 1));
            var c' := if IsExcReturn(target) then ReturnFrom(linked, target)
                      else linked.(regs := linked.regs.(pc := target - target % 2));
            Exchange(c, f) == c'.(regs := c'.regs.(it := ClearIt(c'.regs.it)))
  {
    hide ReadReg, ReturnFrom, Wrap, IsExcReturn;
    LinkAddress(c.regs.pc);
    assert WriteReg(c.regs, 14, Wrap(c.regs.pc + 3)) == c.regs.(lr := Wrap(c.regs.pc + 2) + 1);
  }

  lemma LinkAddress(pc: word)
    requires pc % 2 == 0
    ensures Wrap(pc + 3) == Wrap(pc + 2) + 1
  {
  }

  /** A call through a register and BX LR come back to the instruction behind the BLX, unless the
      return address is taken for an exception return. */
  lemma {:induction false} RegisterCallReturns(c: Core, rm: nat, c2: Core)
    requires rm < 16 && c.regs.pc % 2 == 0 && !IsExcReturn(ReadReg(c.regs, rm))
    requires c2.regs.lr == Fetched(c, EncodeBlx(rm)).0.regs.lr && !IsExcReturn(c2.regs.lr)
    ensures Fetched(c2, EncodeBx(14)).0 ==
            c2.(regs := c2.regs.(pc := Wrap(c.regs.pc + 2), it := ClearIt(c2.regs.it)))
  {
    hide Fetched, ReturnFrom, IsExcReturn;
    BlxGoes(c, rm);
    BxGoes(c2, 14);
    BehindCall(c.regs.pc);
  }

  lemma BehindCall(pc: word)
    requires pc % 2 == 0
    ensures ClearBit0(Wrap(pc + 2) + 1) == Wrap(pc + 2)
  {
  }
}
