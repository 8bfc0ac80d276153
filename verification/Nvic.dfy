/** The interrupt part of the NVIC (src/peripherals/NVIC.cpp). The 32-bit enable and pending
    masks are sets of IRQ numbers; messages to the CPU are collected in order. */
module Nvic {
  import opened Words
  import opened Cpu

  type IrqSet = s: set<nat> | forall i :: i in s ==> i < 32 witness {}

  /** `sent` is the sequence of exception numbers sent to the CPU. */
  datatype State = State(iser: IrqSet, ispr: IrqSet, pending: IrqSet, pendSvSet: bool, sent: seq<word>)

  const RESET_STATE := State({}, {}, {}, false, [])

  /** Registers whose writes matter here. `Stored` stands for the registers that are only
      stored and the SysTick registers: they still end in an interrupt update. */
  datatype Register = Iser | Icer | Ispr | Icpr | Icsr | Stored | Unmapped

  /** Each of the four banks answers over 0x40 bytes. */
  function RegisterAt(a: word): Register {
    if 0xE000_E100 <= a < 0xE000_E140 then Iser
    else if 0xE000_E180 <= a < 0xE000_E1C0 then Icer
    else if 0xE000_E200 <= a < 0xE000_E240 then Ispr
    else if 0xE000_E280 <= a < 0xE000_E2C0 then Icpr
    else if a == 0xE000_ED04 then Icsr
    else if a == 0xE000_E010 || a == 0xE000_E014 || a == 0xE000_E018 || a == 0xE000_E01C then Stored
    else if a == 0xE000_ED08 || a == 0xE000_ED1C || a == 0xE000_ED20 || a == 0xE000_ED24 then Stored
    else if 0xE000_E400 <= a <= 0xE000_E41C then Stored
    else Unmapped
  }

  /** The lowest number in the set from `i` up, 0 if there is none: 0 doubles as "none". */
  function LowestFrom(e: IrqSet, i: nat): (n: nat)
    ensures n < 32
    decreases 32 - i
  {
    if i >= 32 then 0 else if i in e then i else LowestFrom(e, i + 1)
  }

  function EnabledPending(s: State): IrqSet { s.iser * s.ispr }

  /** `update_interrupt_state`: send the lowest enabled pending IRQ, unless that is IRQ 0. */
  function Update(s: State): State {
    var n := LowestFrom(EnabledPending(s), 0);
    if EnabledPending(s) == {} || n == 0 then s
    else s.(ispr := s.ispr - {n}, pending := s.pending - {n}, sent := s.sent + [16 + n])
  }

  datatype Op = Write(address: word, value: word) | TriggerIrq(irq: nat)

  /** The effect of an operation before the update that follows it. */
  function Effect(s: State, o: Op): State {
    match o
    case TriggerIrq(n) => if n < 32 then s.(ispr := s.ispr + {n}, pending := s.pending + {n}) else s
    case Write(a, v) =>
      match RegisterAt(a)
      case Iser => s.(iser := s.iser + BitsOf(v))
      case Icer => s.(iser := s.iser - BitsOf(v))
      case Ispr => s.(ispr := s.ispr + BitsOf(v), pending := s.pending + BitsOf(v))
      case Icpr => s.(ispr := s.ispr - BitsOf(v), pending := s.pending - BitsOf(v))
      case Icsr => PendSv(s, 28 in BitsOf(v), 27 in BitsOf(v))
      case _ => s
  }

  /** ICSR: PENDSVSET sends PendSV, PENDSVCLR only clears the bit. */
  function PendSv(s: State, raise: bool, clear: bool): State {
    var s1 := if raise then s.(pendSvSet := true, sent := s.sent + [EXCEPTION_PENDSV]) else s;
    if clear then s1.(pendSvSet := false) else s1
  }

  predicate Updates(o: Op) {
    match o
    case TriggerIrq(n) => n < 32
    case Write(a, _) => RegisterAt(a) != Unmapped
  }

  function Step(s: State, o: Op): State { if Updates(o) then Update(Effect(s, o)) else s }

  function Run(s: State, os: seq<Op>): State {
    if os == [] then s else Step(Run(s, os[..|os| - 1]), os[|os| - 1])
  }

  // --- the pending mask is kept twice ---

  lemma {:induction false} PendingMirrorsIspr(os: seq<Op>)
    ensures Run(RESET_STATE, os).pending == Run(RESET_STATE, os).ispr
  {
    hide BitsOf, RegisterAt, LowestFrom;
    if os != [] {
      PendingMirrorsIspr(os[..|os| - 1]);
    }
  }

  // --- what the registers say, over runs ---

  /** A write with bit `i` set to a bank of 0x40 bytes at `base`. */
  predicate WritesBit(o: Op, base: word, i: nat) {
    o.Write? && base <= o.address < base + 0x40 && i in BitsOf(o.value)
  }

  predicate Enables(o: Op, i: nat) { WritesBit(o, 0xE000_E100, i) }

  predicate Disables(o: Op, i: nat) { WritesBit(o, 0xE000_E180, i) }

  /** Of the writes that name the IRQ in either bank, the last went to the enabling one. */
  ghost predicate LastEnabled(os: seq<Op>, i: nat) {
    exists k :: 0 <= k < |os| && Enables(os[k], i) && forall j :: k < j < |os| ==> !Disables(os[j], i)
  }

  lemma LastEnabledStep(os: seq<Op>, i: nat)
    requires os != []
    ensures var n := |os| - 1;
            LastEnabled(os, i) <==> Enables(os[n], i) || (!Disables(os[n], i) && LastEnabled(os[..n], i))
  {
    hide Enables, Disables;
    var n := |os| - 1;
    if LastEnabled(os, i) {
      var k :| 0 <= k < |os| && Enables(os[k], i) && forall j :: k < j < |os| ==> !Disables(os[j], i);
      if k < n {
        assert os[..n][k] == os[k];
        assert !Disables(os[n], i);
        assert forall j :: k < j < n ==> os[..n][j] == os[j];
      }
    }
    if !Disables(os[n], i) && LastEnabled(os[..n], i) {
      var k :| 0 <= k < n && Enables(os[..n][k], i) && forall j :: k < j < n ==> !Disables(os[..n][j], i);
      assert Enables(os[k], i);
      forall j | k < j < |os| ensures !Disables(os[j], i) {
        assert j < n ==> os[..n][j] == os[j];
      }
    }
  }

  lemma EnableStep(s: State, o: Op, i: nat)
    ensures i in Step(s, o).iser <==> Enables(o, i) || (!Disables(o, i) && i in s.iser)
  {
    hide BitsOf, LowestFrom;
  }

  /** From reset, an IRQ is enabled exactly when the last write that named it in 0xE000E100-13F or
      0xE000E180-1BF went to the former. */
  lemma {:induction false} EnabledIffLastWrite(os: seq<Op>, i: nat)
    ensures i in Run(RESET_STATE, os).iser <==> LastEnabled(os, i)
  {
    hide Step, LastEnabled, Enables, Disables;
    if os == [] {
      assert !LastEnabled([], i) by {
        NothingEnabled(i);
      }
    } else {
      EnabledIffLastWrite(os[..|os| - 1], i);
      LastEnabledStep(os, i);
      EnableStep(Run(RESET_STATE, os[..|os| - 1]), os[|os| - 1], i);
    }
  }

  lemma NothingEnabled(i: nat)
    ensures !LastEnabled([], i)
  {
  }

  /** A write of the IRQ's bit to 0xE000E200-23F or a trigger makes it pending; a write to
      0xE000E280-2BF ends that. */
  predicate Requests(o: Op, i: nat) {
    WritesBit(o, 0xE000_E200, i) || (o.TriggerIrq? && o.irq == i && i < 32)
  }

  predicate Withdraws(o: Op, i: nat) { WritesBit(o, 0xE000_E280, i) }

  /** Exception 16 + i is the last one that step `j` sends. */
  predicate SentAt(os: seq<Op>, j: nat, i: nat)
    requires j < |os|
  {
    var before, after := Run(RESET_STATE, os[..j]).sent, Run(RESET_STATE, os[..j + 1]).sent;
    |after| > |before| && after[|after| - 1] == 16 + i
  }

  /** It was requested, and since then neither withdrawn nor sent. */
  ghost predicate Outstanding(os: seq<Op>, i: nat) {
    exists k :: 0 <= k < |os| && Requests(os[k], i)
                && (forall j :: k < j < |os| ==> !Withdraws(os[j], i))
                && (forall j :: k <= j < |os| ==> !SentAt(os, j, i))
  }

  /** The step sends exception 16 + i. */
  predicate Sends(s: State, o: Op, i: nat) {
    var after := Step(s, o).sent;
    |after| > |s.sent| && after[|after| - 1] == 16 + i
  }

  lemma PendingStep(s: State, o: Op, i: nat)
    requires i < 32
    ensures i in Step(s, o).ispr <==>
            (Requests(o, i) || (!Withdraws(o, i) && i in s.ispr)) && !Sends(s, o, i)
  {
    hide BitsOf, LowestFrom;
    EffectPending(s, o, i);
    var e := Effect(s, o);
    if Updates(o) {
      hide Effect;
      UpdatePending(e, i);
      EffectSent(s, o);
    } else {
      UnmappedIsIdle(s, o);
    }
  }

  lemma EffectPending(s: State, o: Op, i: nat)
    requires i < 32
    ensures i in Effect(s, o).ispr <==> Requests(o, i) || (!Withdraws(o, i) && i in s.ispr)
  {
    hide BitsOf;
  }

  /** Before the update only PendSV is sent. */
  lemma EffectSent(s: State, o: Op)
    ensures Effect(s, o).sent == s.sent || Effect(s, o).sent == s.sent + [14]
  {
    hide BitsOf, RegisterAt;
  }

  lemma UpdatePending(e: State, i: nat)
    requires i < 32
    ensures var t := Update(e);
            || (t == e)
            || (|t.sent| == |e.sent| + 1 && t.sent[..|e.sent|] == e.sent
                && (i in t.ispr <==> i in e.ispr && t.sent[|e.sent|] != 16 + i))
  {
    hide LowestFrom;
  }

  lemma OutstandingStep(os: seq<Op>, i: nat)
    requires os != []
    ensures var n := |os| - 1;
            Outstanding(os, i) <==>
            (Requests(os[n], i) || (!Withdraws(os[n], i) && Outstanding(os[..n], i))) && !SentAt(os, n, i)
  {
    hide Requests, Withdraws, SentAt;
    var n := |os| - 1;
    forall j | 0 <= j < n ensures os[..n][j] == os[j] && SentAt(os[..n], j, i) == SentAt(os, j, i) {
      SentInFront(os, n, j, i);
    }
    if Outstanding(os, i) {
      var k :| 0 <= k < |os| && Requests(os[k], i) && (forall j :: k < j < |os| ==> !Withdraws(os[j], i))
               && (forall j :: k <= j < |os| ==> !SentAt(os, j, i));
      if k < n {
        assert Requests(os[..n][k], i) && !Withdraws(os[n], i);
      }
      assert !SentAt(os, n, i);
    }
    if !Withdraws(os[n], i) && Outstanding(os[..n], i) && !SentAt(os, n, i) {
      var k :| 0 <= k < n && Requests(os[..n][k], i) && (forall j :: k < j < n ==> !Withdraws(os[..n][j], i))
               && (forall j :: k <= j < n ==> !SentAt(os[..n], j, i));
      forall j | k < j < |os| ensures !Withdraws(os[j], i) {
        assert j < n ==> os[..n][j] == os[j];
      }
      forall j | k <= j < |os| ensures !SentAt(os, j, i) {
        assert j < n ==> !SentAt(os[..n], j, i);
      }
      assert Requests(os[k], i);
    }
  }

  lemma SentInFront(os: seq<Op>, n: nat, j: nat, i: nat)
    requires j < n <= |os|
    ensures SentAt(os[..n], j, i) == SentAt(os, j, i)
  {
    hide Run;
    assert os[..n][..j] == os[..j] && os[..n][..j + 1] == os[..j + 1];
  }

  /** From reset, an IRQ is pending exactly when it was requested and since then neither withdrawn nor
      sent to the CPU. */
  lemma {:induction false} PendingIffOutstanding(os: seq<Op>, i: nat)
    requires i < 32
    ensures i in Run(RESET_STATE, os).ispr <==> Outstanding(os, i)
  {
    hide Step, Outstanding, Requests, Withdraws, SentAt, Sends;
    if os == [] {
      NothingOutstanding(i);
    } else {
      var n := |os| - 1;
      PendingIffOutstanding(os[..n], i);
      OutstandingStep(os, i);
      PendingStep(Run(RESET_STATE, os[..n]), os[n], i);
      SentIsSends(os, i);
    }
  }

  lemma SentIsSends(os: seq<Op>, i: nat)
    requires os != []
    ensures var n := |os| - 1;
            SentAt(os, n, i) == Sends(Run(RESET_STATE, os[..n]), os[n], i)
  {
    hide Step;
    assert os[..|os| - 1 + 1] == os;
  }

  lemma NothingOutstanding(i: nat)
    ensures !Outstanding([], i)
  {
  }

  /** The SysTick registers, VTOR, SHPR2, SHPR3, SHCSR and the IPR bank. */
  predicate OtherRegister(a: word) {
    || a in {0xE000_E010, 0xE000_E014, 0xE000_E018, 0xE000_E01C}
    || a in {0xE000_ED08, 0xE000_ED1C, 0xE000_ED20, 0xE000_ED24}
    || 0xE000_E400 <= a <= 0xE000_E41C
  }

  predicate NoRegister(a: word) {
    a < 0xE000_E010 || 0xE000_E01C < a < 0xE000_E100 || 0xE000_E41C < a < 0xE000_ED04 || 0xE000_ED24 < a
  }

  /** A write to one of these changes no IRQ state but still ends in an update; a write to no register
      does nothing. */
  lemma OtherWritesUpdate(s: State, a: word, v: word)
    ensures OtherRegister(a) ==> Step(s, Write(a, v)) == Update(s)
    ensures NoRegister(a) ==> Step(s, Write(a, v)) == s
  {
    hide BitsOf;
  }

  // --- PendSV ---

  predicate RequestsPendSv(o: Op) { o.Write? && o.address == 0xE000_ED04 && 28 in BitsOf(o.value) }

  function PendSvRequests(os: seq<Op>): nat {
    if os == [] then 0 else PendSvRequests(os[..|os| - 1]) + One(RequestsPendSv(os[|os| - 1]))
  }

  /** PendSV, exception 14, is sent once for each write of bit 28 to 0xE000ED04, and never else. */
  lemma {:induction false} PendSvSentOnRequest(os: seq<Op>)
    ensures Count(Run(RESET_STATE, os).sent, 14) == PendSvRequests(os)
  {
    hide Step, RequestsPendSv;
    if os != [] {
      PendSvSentOnRequest(os[..|os| - 1]);
      PendSvStep(Run(RESET_STATE, os[..|os| - 1]), os[|os| - 1]);
    }
  }

  lemma PendSvStep(s: State, o: Op)
    ensures Count(Step(s, o).sent, 14) == Count(s.sent, 14) + One(RequestsPendSv(o))
  {
    hide BitsOf, LowestFrom, Count;
    CountSnoc(s.sent, 14, 14);
    var e := Effect(s, o);
    CountSnoc(e.sent, 16 + LowestFrom(EnabledPending(e), 0), 14);
  }

  // --- conservation ---

  function One(b: bool): nat { if b then 1 else 0 }

  /** The operation raises the IRQ's pending bit. */
  predicate Rises(s: State, o: Op, i: nat) { i !in s.ispr && i in Effect(s, o).ispr }

  /** The operation itself clears the IRQ's pending bit: a write to ICPR. */
  predicate Cleared(s: State, o: Op, i: nat) { i in s.ispr && i !in Effect(s, o).ispr }

  function Count(sent: seq<word>, n: word): nat {
    if sent == [] then 0 else Count(sent[..|sent| - 1], n) + One(sent[|sent| - 1] == n)
  }

  function TotalRises(s: State, os: seq<Op>, i: nat): nat {
    if os == [] then 0
    else TotalRises(s, os[..|os| - 1], i) + One(Rises(Run(s, os[..|os| - 1]), os[|os| - 1], i))
  }

  function TotalClears(s: State, os: seq<Op>, i: nat): nat {
    if os == [] then 0
    else TotalClears(s, os[..|os| - 1], i) + One(Cleared(Run(s, os[..|os| - 1]), os[|os| - 1], i))
  }

  lemma CountSnoc(sent: seq<word>, m: word, n: word)
    ensures Count(sent + [m], n) == Count(sent, n) + One(m == n)
  {
    assert (sent + [m])[..|sent + [m]| - 1] == sent;
  }

  /** Only ICPR writes clear a pending bit by themselves. */
  lemma {:induction false} OnlyIcprClears(s: State, o: Op, i: nat)
    ensures Cleared(s, o, i) ==> o.Write? && RegisterAt(o.address) == Icpr && i in BitsOf(o.value)
  {
    hide BitsOf, RegisterAt;
  }

  lemma UpdateConserves(s: State, i: nat)
    requires i < 32
    ensures var s' := Update(s);
            One(i in s.ispr) + Count(s.sent, 16 + i) == One(i in s'.ispr) + Count(s'.sent, 16 + i)
  {
    var n := LowestFrom(EnabledPending(s), 0);
    LowestIsMember(EnabledPending(s), 0);
    CountSnoc(s.sent, 16 + n, 16 + i);
  }

  lemma {:induction false} LowestIsMember(e: IrqSet, i: nat)
    ensures var n := LowestFrom(e, i);
            || (n in e && n >= i && (forall k :: i <= k < n ==> k !in e))
            || (n == 0 && forall k :: i <= k < 32 ==> k !in e)
    decreases 32 - i
  {
    if i < 32 && i !in e {
      LowestIsMember(e, i + 1);
    }
  }

  lemma EffectSends(s: State, o: Op, i: nat)
    requires i < 32
    ensures Count(Effect(s, o).sent, 16 + i) == Count(s.sent, 16 + i)
  {
    hide BitsOf, RegisterAt;
    CountSnoc(s.sent, EXCEPTION_PENDSV, 16 + i);
  }

  /** Over every run of writes and triggers, each rise of an IRQ's pending bit is accounted for:
      it was sent to the CPU, or cleared through ICPR, or is still pending. */
  lemma {:induction false} IrqConservation(s: State, os: seq<Op>, i: nat)
    requires i < 32
    ensures var t := Run(s, os);
            One(i in s.ispr) + TotalRises(s, os, i) + Count(s.sent, 16 + i)
            == Count(t.sent, 16 + i) + TotalClears(s, os, i) + One(i in t.ispr)
    decreases |os|
  {
    hide Update, Effect, Count;
    if os != [] {
      var init, o := os[..|os| - 1], os[|os| - 1];
      var t := Run(s, init);
      IrqConservation(s, init, i);
      EffectSends(t, o, i);
      UpdateConserves(Effect(t, o), i);
      UnmappedIsIdle(t, o);
    }
  }

  lemma UnmappedIsIdle(s: State, o: Op)
    ensures !Updates(o) ==> Effect(s, o) == s
  {
  }

  // --- draining ---

  function UpdateTimes(s: State, k: nat): State
    decreases k
  {
    if k == 0 then s else UpdateTimes(Update(s), k - 1)
  }

  /** The exception numbers of a set of IRQs from `i` up, ascending. */
  function Ascending(e: IrqSet, i: nat): seq<word>
    decreases 32 - i
  {
    if i >= 32 then [] else if i in e then [16 + i] + Ascending(e, i + 1) else Ascending(e, i + 1)
  }

  /** IRQ 0, enabled and pending, is never sent and blocks all others. */
  lemma IrqZeroBlocks(s: State)
    requires 0 in EnabledPending(s)
    ensures Update(s) == s
  {
  }

  lemma {:induction false} AscendingSplits(e: IrqSet, i: nat, n: nat)
    requires i <= n < 32 && n in e && forall k :: i <= k < n ==> k !in e
    ensures Ascending(e, i) == [16 + n] + Ascending(e - {n}, i)
    decreases n - i
  {
    if i == n {
      AscendingSame(e, e - {n}, i + 1);
    } else {
      AscendingSplits(e, i + 1, n);
    }
  }

  lemma {:induction false} AscendingSame(e: IrqSet, f: IrqSet, i: nat)
    requires forall k :: i <= k < 32 ==> (k in e <==> k in f)
    ensures Ascending(e, i) == Ascending(f, i)
    decreases 32 - i
  {
    if i < 32 {
      AscendingSame(e, f, i + 1);
    }
  }

  /** `t` is `s` after its enabled pending IRQs were sent, each once, lowest first. */
  ghost predicate Drained(s: State, t: State) {
    var e := EnabledPending(s);
    && t.sent == s.sent + Ascending(e, 0)
    && t.ispr == s.ispr - e && t.iser == s.iser
    && Update(t) == t
  }

  lemma DrainStep(s: State, t: State)
    requires EnabledPending(s) != {} && 0 !in EnabledPending(s) && Drained(Update(s), t)
    ensures Drained(s, t)
  {
    hide LowestFrom, Ascending, Update;
    var e, n := EnabledPending(s), LowestFrom(EnabledPending(s), 0);
    SendsLowest(s);
    AscendingSplits(e, 0, n);
    assert s.sent + ([16 + n] + Ascending(e - {n}, 0)) == (s.sent + [16 + n]) + Ascending(e - {n}, 0);
    assert s.ispr - {n} - (e - {n}) == s.ispr - e;
  }

  /** While IRQ 0 is not enabled and pending, repeated updates send exactly the enabled pending
      IRQs, one per update, lowest number first. */
  lemma {:induction false} UpdatesDrainInOrder(s: State)
    requires 0 !in EnabledPending(s)
    ensures Drained(s, UpdateTimes(s, |EnabledPending(s)|))
    decreases |EnabledPending(s)|
  {
    hide LowestFrom, Ascending, Update, Drained;
    var e := EnabledPending(s);
    if e == {} {
      assert UpdateTimes(s, 0) == s;
      NothingToDrain(s);
    } else {
      SendsLowest(s);
      UpdatesDrainInOrder(Update(s));
      assert UpdateTimes(s, |e|) == UpdateTimes(Update(s), |e| - 1);
      DrainStep(s, UpdateTimes(s, |e|));
    }
  }

  lemma NothingToDrain(s: State)
    requires EnabledPending(s) == {}
    ensures Drained(s, s)
  {
    AscendingNothing(0);
    NothingToSend(s);
  }

  lemma NothingToSend(s: State)
    requires EnabledPending(s) == {}
    ensures Update(s) == s
  {
  }

  lemma SendsLowest(s: State)
    requires EnabledPending(s) != {} && 0 !in EnabledPending(s)
    ensures var e, n, s' := EnabledPending(s), LowestFrom(EnabledPending(s), 0), Update(s);
            && 0 < n < 32 && n in e && (forall k :: 0 <= k < n ==> k !in e)
            && s' == s.(ispr := s.ispr - {n}, pending := s.pending - {n}, sent := s.sent + [16 + n])
            && EnabledPending(s') == e - {n}
  {
    LowestIsMember(EnabledPending(s), 0);
    SomethingBelow32(EnabledPending(s));
  }

  lemma SomethingBelow32(e: IrqSet)
    requires e != {}
    ensures exists k :: 0 <= k < 32 && k in e
  {
    var k :| k in e;
  }

  lemma {:induction false} AscendingNothing(i: nat)
    ensures Ascending({}, i) == []
    decreases 32 - i
  {
    if i < 32 {
      AscendingNothing(i + 1);
    }
  }

  /** The order is exactly that: the drained IRQs are the enabled pending ones if and only if
      IRQ 0 is not among them or there was nothing to drain. */
  lemma DrainIffIrqZeroIdle(s: State)
    ensures UpdateTimes(s, |EnabledPending(s)|).ispr == s.ispr - EnabledPending(s) <==> 0 !in EnabledPending(s)
  {
    if 0 in EnabledPending(s) {
      BlockedForever(s, |EnabledPending(s)|);
    } else {
      UpdatesDrainInOrder(s);
    }
  }

  lemma {:induction false} BlockedForever(s: State, k: nat)
    requires 0 in EnabledPending(s)
    ensures UpdateTimes(s, k) == s
  {
    if k > 0 {
      IrqZeroBlocks(s);
      BlockedForever(s, k - 1);
    }
  }

  // --- a triggered IRQ ---

  lemma {:induction false} CountAscending(sent: seq<word>, e: IrqSet, k: nat, i: nat)
    requires k <= 32 && i < 32
    ensures Count(sent + Ascending(e, k), 16 + i) == Count(sent, 16 + i) + One(i in e && i >= k)
    decreases 32 - k
  {
    if k < 32 {
      if k in e {
        CountAscending(sent + [16 + k], e, k + 1, i);
        CountSnoc(sent, 16 + k, 16 + i);
        assert sent + ([16 + k] + Ascending(e, k + 1)) == (sent + [16 + k]) + Ascending(e, k + 1);
      } else {
        CountAscending(sent, e, k + 1, i);
      }
    } else {
      assert sent + [] == sent;
    }
  }

  /** After any run from reset, a trigger of IRQ i is sent to the CPU by the updates that follow if and
      only if i is enabled, that is, was last named by a write to the enabling bank; unless IRQ 0 is
      enabled and outstanding. */
  lemma {:induction false} TriggerSentIffEnabled(os: seq<Op>, i: nat)
    requires i < 32 && !(LastEnabled(os, 0) && (i == 0 || Outstanding(os, 0)))
    ensures var s := Run(RESET_STATE, os);
            var s1 := Step(s, TriggerIrq(i));
            var t := UpdateTimes(s1, |EnabledPending(s1)|);
            Count(t.sent, 16 + i) == Count(s.sent, 16 + i) + One(LastEnabled(os, i))
  {
    hide Run, LastEnabled, Outstanding, Ascending, LowestFrom, Update, Drained;
    EnabledIffLastWrite(os, i);
    EnabledIffLastWrite(os, 0);
    PendingIffOutstanding(os, 0);
    var s := Run(RESET_STATE, os);
    var e := Effect(s, TriggerIrq(i));
    UpdatesDrainInOrder(e);
    OneUpdateLess(e);
    DrainedSent(e, UpdateTimes(e, |EnabledPending(e)|));
    CountAscending(e.sent, EnabledPending(e), 0, i);
  }

  lemma DrainedSent(s: State, t: State)
    requires Drained(s, t)
    ensures t.sent == s.sent + Ascending(EnabledPending(s), 0)
  {
  }

  /** The update that ends the operation counts. */
  lemma OneUpdateLess(e: State)
    requires 0 !in EnabledPending(e)
    ensures UpdateTimes(Update(e), |EnabledPending(Update(e))|) == UpdateTimes(e, |EnabledPending(e)|)
  {
    hide LowestFrom, Update;
    if EnabledPending(e) == {} {
      NothingToSend(e);
    } else {
      SendsLowest(e);
    }
  }

  class InterruptController {
    var iser: IrqSet
    var ispr: IrqSet
    var pendingExceptions: IrqSet
    var pendSvSet: bool
    var sent: seq<word>

    ghost function Current(): State
      reads this
    {
      State(iser, ispr, pendingExceptions, pendSvSet, sent)
    }

    constructor ()
      ensures Current() == RESET_STATE
    {
      iser, ispr, pendingExceptions, pendSvSet, sent := {}, {}, {}, false, [];
    }

    method GetHighestPriorityPending() returns (n: nat)
      ensures n == LowestFrom(iser * ispr, 0)
    {
      for i := 0 to 32
        invariant LowestFrom(iser * ispr, i) == LowestFrom(iser * ispr, 0)
      {
        if i in iser * ispr {
          return i;
        }
      }
      n := 0;
    }

    method SendExceptionToCpu(n: word)
      modifies this`sent
      ensures sent == old(sent) + [n]
    {
      sent := sent + [n];
    }

    method UpdateInterruptState()
      modifies this
      ensures Current() == Update(old(Current()))
    {
      var enabledAndPending := iser * ispr;
      if enabledAndPending != {} {
        var n := GetHighestPriorityPending();
        if n != 0 {
          SendExceptionToCpu(16 + n);
          ispr := ispr - {n};
          pendingExceptions := pendingExceptions - {n};
        }
      }
    }

    method HandleWrite(a: word, v: word) returns (ok: bool)
      modifies this
      ensures Current() == Step(old(Current()), Write(a, v)) && ok == Updates(Write(a, v))
    {
      hide BitsOf, Update;
      var bits := BitsOf(v);
      match RegisterAt(a) {
        case Iser => iser := iser + bits;
        case Icer => iser := iser - bits;
        case Ispr =>
          ispr := ispr + bits;
          pendingExceptions := pendingExceptions + bits;
        case Icpr =>
          ispr := ispr - bits;
          pendingExceptions := pendingExceptions - bits;
        case Icsr =>
          if 28 in bits {
            pendSvSet := true;
            SendExceptionToCpu(EXCEPTION_PENDSV);
          }
          if 27 in bits {
            pendSvSet := false;
          }
        case Stored =>
        case Unmapped => return false;
      }
      UpdateInterruptState();
      ok := true;
    }

    method RaiseIrq(irq: nat)
      modifies this
      ensures Current() == Step(old(Current()), TriggerIrq(irq))
    {
      hide Update;
      if irq < 32 {
        ispr := ispr + {irq};
        pendingExceptions := pendingExceptions + {irq};
        UpdateInterruptState();
      }
    }
  }
}
