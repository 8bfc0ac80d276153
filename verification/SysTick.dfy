/** The SysTick thread of the NVIC (src/peripherals/NVIC.cpp) over a clock of one tick per
    nanosecond.

    The thread either waits for the wake event or sleeps until a deadline. A zero-time
    notification is delivered before time moves on; delivered while the thread sleeps, it is
    lost. Events at one instant may come in any order. */
module SysTick {
  import opened Words

  datatype Thread = Waiting | Sleeping(deadline: nat, snapshot: nat)

  /** `raised` holds the times at which the SysTick exception was sent to the CPU. */
  datatype Timer = Timer(enable: bool, tickint: bool, clksource: bool, countflag: bool, load: nat, val: nat,
                         seqno: nat, notified: bool, thread: Thread, now: nat, raised: seq<nat>)

  const RESET_TIMER := Timer(false, false, false, false, 0, 0, 0, false, Waiting, 0, [])

  datatype Register = Ctrl | Load | Val

  datatype Event = Write(reg: Register, value: word) | ReadCtrl | Deliver | Timeout | Tick

  function WriteRegister(t: Timer, reg: Register, v: word): Timer {
    var bits := BitsOf(v);
    var t' := match reg
      case Ctrl =>
        t.(enable := 0 in bits, tickint := 1 in bits, clksource := 2 in bits,
           countflag := (t.countflag || 16 in bits) && 0 in bits)
      case Load => t.(load := v % 0x100_0000)
      case Val => t.(val := v % 0x100_0000);
    t'.(seqno := t.seqno + 1, notified := true)
  }

  /** The thread from the wake event to its next wait. */
  function Wake(t: Timer): Timer {
    if !t.enable || t.load == 0 then t
    else
      var val := if t.val == 0 then t.load else t.val;
      t.(val := val, thread := Sleeping(t.now + val, t.seqno))
  }

  /** The thread from the end of its sleep to its next wait. */
  function Expire(t: Timer): Timer
    requires t.thread.Sleeping?
  {
    var woken := t.(thread := Waiting);
    if t.thread.snapshot != t.seqno then woken
    else
      var t1 := woken.(countflag := true, val := t.load);
      var t2 := if t1.tickint then t1.(raised := t1.raised + [t1.now]) else t1;
      if t2.enable then t2.(notified := true) else t2
  }

  predicate Possible(t: Timer, e: Event) {
    match e
    case Write(_, _) => true
    case ReadCtrl => true
    case Deliver => t.notified
    case Timeout => t.thread.Sleeping? && t.thread.deadline == t.now
    case Tick => !t.notified && !(t.thread.Sleeping? && t.thread.deadline == t.now)
  }

  function Step(t: Timer, e: Event): Timer
    requires Possible(t, e)
  {
    match e
    case Write(reg, v) => WriteRegister(t, reg, v)
    case ReadCtrl => t.(countflag := false)
    case Deliver => if t.thread.Waiting? then Wake(t.(notified := false)) else t.(notified := false)
    case Timeout => Expire(t)
    case Tick => t.(now := t.now + 1)
  }

  ghost predicate PossibleRun(t: Timer, es: seq<Event>)
    decreases |es|, 0
  {
    es == [] || (PossibleRun(t, es[..|es| - 1]) && Possible(Run(t, es[..|es| - 1]), es[|es| - 1]))
  }

  ghost function Run(t: Timer, es: seq<Event>): Timer
    requires PossibleRun(t, es)
    decreases |es|, 1
  {
    if es == [] then t else Step(Run(t, es[..|es| - 1]), es[|es| - 1])
  }

  /** The thread never gets stuck: time, the notification or the deadline can always go on, and
      exactly one of them. */
  lemma NeverStuck(t: Timer)
    ensures Possible(t, Tick) || Possible(t, Deliver) || Possible(t, Timeout)
    ensures Possible(t, Tick) ==> !Possible(t, Deliver) && !Possible(t, Timeout)
  {
  }

  // --- timing of an armed timer ---

  /** A wake-up is on its way to the waiting thread of an enabled timer. */
  predicate Armed(t: Timer) {
    t.enable && t.tickint && t.load != 0 && t.notified && t.thread.Waiting?
  }

  function FirstDelay(t: Timer): nat { if t.val == 0 then t.load else t.val }

  /** When expiry `k` is due, counted from the arming of `t0`: V + k * LOAD ticks later. */
  function Due(t0: Timer, k: nat): nat {
    if k == 0 then t0.now + FirstDelay(t0) else Due(t0, k - 1) + t0.load
  }

  lemma {:induction false} DueIsLinear(t0: Timer, k: nat)
    ensures Due(t0, k) == t0.now + FirstDelay(t0) + k * t0.load
  {
    if k > 0 {
      DueIsLinear(t0, k - 1);
    }
  }

  predicate NoWrites(es: seq<Event>) { forall i :: 0 <= i < |es| ==> !es[i].Write? }

  /** Number of expiries since `t0`. */
  function Expiries(t0: Timer, t: Timer): int { |t.raised| - |t0.raised| }

  /** Counting towards expiry number `Expiries`, or about to start doing so. */
  ghost predicate OnSchedule(t0: Timer, t: Timer) {
    var k := Expiries(t0, t);
    && k >= 0 && t.raised[..|t0.raised|] == t0.raised
    && (forall i :: 0 <= i < k ==> t.raised[|t0.raised| + i] == Due(t0, i))
    && t.enable && t.tickint && t.load == t0.load && t.load != 0
    && match t.thread
       case Waiting =>
         t.notified
         && if k == 0 then t.now == t0.now && t.val == t0.val else t.now == Due(t0, k - 1) && t.val == t0.load
       case Sleeping(deadline, snapshot) =>
         !t.notified && snapshot == t.seqno && deadline == Due(t0, k) && t.now <= deadline
  }

  lemma StepOnSchedule(t0: Timer, t: Timer, e: Event)
    requires OnSchedule(t0, t) && Possible(t, e) && !e.Write?
    ensures OnSchedule(t0, Step(t, e))
  {
    var k := Expiries(t0, t);
    var t' := Step(t, e);
    if e == Timeout {
      assert t'.raised == t.raised + [Due(t0, k)];
      assert t'.raised[..|t0.raised|] == t.raised[..|t0.raised|];
    }
    if e == Deliver {
      assert k > 0 ==> Due(t0, k) == Due(t0, k - 1) + t0.load;
    }
  }

  lemma {:induction false} RunOnSchedule(t0: Timer, es: seq<Event>)
    requires Armed(t0) && NoWrites(es) && PossibleRun(t0, es)
    ensures OnSchedule(t0, Run(t0, es))
    decreases |es|
  {
    if es != [] {
      RunOnSchedule(t0, es[..|es| - 1]);
      StepOnSchedule(t0, Run(t0, es[..|es| - 1]), es[|es| - 1]);
    }
  }

  /** Once armed, and for as long as no register is written, expiry k is raised V + k * LOAD
      ticks after arming: at every moment the expiries so far have exactly those times, and none
      that is already past is missing. */
  lemma ExpiriesAreExact(t0: Timer, es: seq<Event>)
    requires Armed(t0) && NoWrites(es) && PossibleRun(t0, es)
    ensures var t := Run(t0, es);
            && Expiries(t0, t) >= 0
            && (forall i :: 0 <= i < Expiries(t0, t) ==>
                              t.raised[|t0.raised| + i] == t0.now + FirstDelay(t0) + i * t0.load)
            && t.now <= t0.now + FirstDelay(t0) + Expiries(t0, t) * t0.load
  {
    hide Run, PossibleRun, NoWrites;
    RunOnSchedule(t0, es);
    var t := Run(t0, es);
    var k := Expiries(t0, t);
    forall i | 0 <= i < k ensures t.raised[|t0.raised| + i] == t0.now + FirstDelay(t0) + i * t0.load {
      DueIsLinear(t0, i);
    }
    DueIsLinear(t0, k);
  }

  /** Programmed from a waiting state with LOAD, VAL and CTRL, bits 0 and 1 set, the timer expires first
      after the written VAL, or LOAD if that is zero, and then every LOAD ticks; only the low 24 bits of
      the two values count. */
  lemma {:induction false} ProgrammedTimerIsExact(t: Timer, load: word, val: word, ctrl: word, es: seq<Event>)
    requires t.thread.Waiting? && load % 0x100_0000 != 0 && 0 in BitsOf(ctrl) && 1 in BitsOf(ctrl)
    requires NoWrites(es) && PossibleRun(Programmed(t, load, val, ctrl), es)
    ensures var r := Run(Programmed(t, load, val, ctrl), es);
            var every := load % 0x100_0000;
            var first := if val % 0x100_0000 == 0 then every else val % 0x100_0000;
            var k := |r.raised| - |t.raised|;
            && k >= 0 && (forall i :: 0 <= i < k ==> r.raised[|t.raised| + i] == t.now + first + i * every)
            && r.now <= t.now + first + k * every
  {
    hide BitsOf, Run, PossibleRun;
    ExpiriesAreExact(Programmed(t, load, val, ctrl), es);
  }

  function Programmed(t: Timer, load: word, val: word, ctrl: word): Timer {
    WriteRegister(WriteRegister(WriteRegister(t, Load, load), Val, val), Ctrl, ctrl)
  }

  /** At an expiry the counter is loaded anew. */
  lemma ExpiryReloads(t: Timer)
    requires Possible(t, Timeout) && t.thread.snapshot == t.seqno
    ensures Step(t, Timeout).val == t.load && Step(t, Timeout).load == t.load
  {
  }

  /** COUNTFLAG of an armed timer tells whether it has expired since CTRL was last read. */
  lemma {:induction false} CountflagTellsExpiry(t0: Timer, es: seq<Event>)
    requires Armed(t0) && !t0.countflag && NoWrites(es) && PossibleRun(t0, es)
    ensures Run(t0, es).countflag <==> ExpiredSinceRead(es)
    decreases |es|
  {
    hide OnSchedule;
    if es != [] {
      var front, e := es[..|es| - 1], es[|es| - 1];
      CountflagTellsExpiry(t0, front);
      RunOnSchedule(t0, front);
      CountflagStep(t0, Run(t0, front), e);
      ExpiredStep(es);
    }
  }

  ghost predicate ExpiredSinceRead(es: seq<Event>) {
    exists k :: 0 <= k < |es| && es[k] == Timeout && forall j :: k < j < |es| ==> es[j] != ReadCtrl
  }

  lemma ExpiredStep(es: seq<Event>)
    requires es != []
    ensures var front, e := es[..|es| - 1], es[|es| - 1];
            ExpiredSinceRead(es) <==> e == Timeout || (e != ReadCtrl && ExpiredSinceRead(front))
  {
    var n := |es| - 1;
    if es[n] != ReadCtrl && ExpiredSinceRead(es[..n]) {
      var k :| 0 <= k < n && es[..n][k] == Timeout && forall j :: k < j < n ==> es[..n][j] != ReadCtrl;
      assert es[k] == Timeout;
      assert forall j :: k < j < n ==> es[..n][j] == es[j];
    }
    if ExpiredSinceRead(es) && es[n] != Timeout {
      var k :| 0 <= k < |es| && es[k] == Timeout && forall j :: k < j < |es| ==> es[j] != ReadCtrl;
      assert es[..n][k] == Timeout;
      assert forall j :: k < j < n ==> es[..n][j] == es[j];
    }
  }

  lemma CountflagStep(t0: Timer, t: Timer, e: Event)
    requires OnSchedule(t0, t) && Possible(t, e) && !e.Write?
    ensures Step(t, e).countflag <==> e == Timeout || (e != ReadCtrl && t.countflag)
  {
  }

  // --- writes during a countdown ---

  predicate NoTimeout(es: seq<Event>) { forall i :: 0 <= i < |es| ==> es[i] != Timeout }

  lemma {:induction false} SleepLasts(t: Timer, es: seq<Event>)
    requires t.thread.Sleeping? && NoTimeout(es) && PossibleRun(t, es)
    ensures Run(t, es).thread == t.thread && Run(t, es).raised == t.raised
    ensures Run(t, es).seqno >= t.seqno
    ensures !NoWrites(es) ==> Run(t, es).seqno > t.seqno
    decreases |es|
  {
    hide BitsOf;
    if es != [] {
      SleepLasts(t, es[..|es| - 1]);
    }
  }

  /** The end of a countdown raises an expiry exactly when no register was written since the
      countdown began and TICKINT is set. */
  lemma WrittenCountdownNeverExpires(t: Timer, es: seq<Event>)
    requires t.thread.Sleeping? && t.thread.snapshot == t.seqno
    requires NoTimeout(es) && PossibleRun(t, es) && Possible(Run(t, es), Timeout)
    ensures var t1 := Run(t, es);
            Step(t1, Timeout).raised == (if NoWrites(es) && t1.tickint then t1.raised + [t1.now] else t1.raised)
  {
    SleepLasts(t, es);
    if NoWrites(es) {
      SeqnoUnchanged(t, es);
    }
  }

  lemma {:induction false} SeqnoUnchanged(t: Timer, es: seq<Event>)
    requires NoWrites(es) && PossibleRun(t, es)
    ensures Run(t, es).seqno == t.seqno
    decreases |es|
  {
    if es != [] {
      SeqnoUnchanged(t, es[..|es| - 1]);
    }
  }

  /** The other side of a lost wake-up. A countdown that was written to ends in a wait; unless
      the write's notification is still on its way then, the timer is dead until the next
      write, enabled or not. */
  predicate Dormant(t: Timer) {
    !t.notified && (t.thread.Sleeping? ==> t.thread.snapshot != t.seqno)
  }

  lemma {:induction false} DormantStays(t: Timer, es: seq<Event>)
    requires Dormant(t) && NoWrites(es) && PossibleRun(t, es)
    ensures Dormant(Run(t, es)) && Run(t, es).raised == t.raised
    decreases |es|
  {
    if es != [] {
      DormantStays(t, es[..|es| - 1]);
    }
  }

  /** A write during a countdown whose notification is delivered before the deadline: no expiry
      is raised until another write. */
  lemma {:induction false} ReprogrammingStopsTimer(t: Timer, reg: Register, v: word, es: seq<Event>)
    requires t.thread.Sleeping? && t.thread.snapshot == t.seqno
    requires NoWrites(es) && PossibleRun(Step(Step(t, Write(reg, v)), Deliver), es)
    ensures Run(Step(Step(t, Write(reg, v)), Deliver), es).raised == t.raised
  {
    hide BitsOf;
    DormantStays(Step(Step(t, Write(reg, v)), Deliver), es);
  }

  // --- exactly when a reprogrammed timer stops ---

  /** The countdown was written to, and its end is not now. */
  predicate Overtaken(t: Timer) {
    t.thread.Sleeping? && t.thread.snapshot != t.seqno && t.notified && t.thread.deadline != t.now
  }

  /** The timer cannot raise an expiry with the registers it has. */
  predicate Disarmed(t: Timer) {
    !t.tickint || ((!t.enable || t.load == 0) && (t.thread.Sleeping? ==> t.thread.snapshot != t.seqno))
  }

  lemma {:induction false} OvertakenRaisesNothing(t: Timer, es: seq<Event>)
    requires (Overtaken(t) || Dormant(t)) && NoWrites(es) && PossibleRun(t, es)
    ensures Run(t, es).raised == t.raised && (Overtaken(Run(t, es)) || Dormant(Run(t, es)))
    decreases |es|
  {
    hide BitsOf;
    if es != [] {
      OvertakenRaisesNothing(t, es[..|es| - 1]);
    }
  }

  lemma {:induction false} DisarmedRaisesNothing(t: Timer, es: seq<Event>)
    requires Disarmed(t) && NoWrites(es) && PossibleRun(t, es)
    ensures Run(t, es).raised == t.raised && Disarmed(Run(t, es))
    decreases |es|
  {
    hide BitsOf;
    if es != [] {
      DisarmedRaisesNothing(t, es[..|es| - 1]);
    }
  }

  lemma RunSnoc(t: Timer, es: seq<Event>, e: Event)
    requires PossibleRun(t, es) && Possible(Run(t, es), e)
    ensures PossibleRun(t, es + [e]) && Run(t, es + [e]) == Step(Run(t, es), e)
  {
    assert (es + [e])[..|es + [e]| - 1] == es;
  }

  function Ticks(n: nat): seq<Event> { seq(n, _ => Tick) }

  /** While nothing is pending, time passes up to the deadline. */
  lemma {:induction false} TimePasses(t: Timer, es: seq<Event>, n: nat)
    requires PossibleRun(t, es)
    requires var s := Run(t, es); s.thread.Sleeping? && !s.notified && s.now + n <= s.thread.deadline
    ensures PossibleRun(t, es + Ticks(n)) && Run(t, es + Ticks(n)) == Run(t, es).(now := Run(t, es).now + n)
    decreases n
  {
    hide Step, WriteRegister;
    if n == 0 {
      assert es + Ticks(0) == es;
    } else {
      TimePasses(t, es, n - 1);
      var s := Run(t, es + Ticks(n - 1));
      TickSteps(s);
      RunSnoc(t, es + Ticks(n - 1), Tick);
      assert es + Ticks(n) == es + Ticks(n - 1) + [Tick];
    }
  }

  lemma TickSteps(s: Timer)
    requires s.thread.Sleeping? && !s.notified && s.now < s.thread.deadline
    ensures Possible(s, Tick) && Step(s, Tick) == s.(now := s.now + 1)
  {
  }

  /** An armed timer can reach its first expiry. */
  lemma {:induction false} ArmedExpires(t: Timer, es: seq<Event>) returns (es': seq<Event>)
    requires PossibleRun(t, es) && NoWrites(es) && Armed(Run(t, es))
    ensures NoWrites(es') && PossibleRun(t, es')
    ensures var due := Run(t, es).now + FirstDelay(Run(t, es));
            Run(t, es').raised == Run(t, es).raised + [due]
  {
    hide WriteRegister;
    var s := Run(t, es);
    RunSnoc(t, es, Deliver);
    TimePasses(t, es + [Deliver], FirstDelay(s));
    var before := es + [Deliver] + Ticks(FirstDelay(s));
    RunSnoc(t, before, Timeout);
    es' := before + [Timeout];
  }

  /** The registers after a write still ask for expiries. */
  predicate Requested(t: Timer) { t.enable && t.tickint && t.load != 0 }

  /** Exactly when reprogramming stops a running timer: after a write during a countdown some run
      without further writes raises an expiry if and only if the write falls on the very instant
      of the deadline and leaves the timer enabled, with TICKINT set and LOAD nonzero. */
  lemma {:induction false} ReprogrammedExpiresIff(t: Timer, reg: Register, v: word)
    requires t.thread.Sleeping? && t.thread.snapshot <= t.seqno
    ensures var w := Step(t, Write(reg, v));
            (exists es :: NoWrites(es) && PossibleRun(w, es) && Run(w, es).raised != t.raised)
            <==> t.now == t.thread.deadline && Requested(w)
  {
    hide BitsOf;
    var w := Step(t, Write(reg, v));
    if t.now == t.thread.deadline && Requested(w) {
      DeadlineWriteRearms(t, reg, v);
      var es := ArmedExpires(w, [Timeout]);
      assert Run(w, es).raised != t.raised;
    } else {
      forall es | NoWrites(es) && PossibleRun(w, es) ensures Run(w, es).raised == t.raised {
        if t.now == t.thread.deadline {
          DisarmedRaisesNothing(w, es);
        } else {
          OvertakenRaisesNothing(w, es);
        }
      }
    }
  }

  /** At the deadline the thread may wake before the notification arrives; then the notification
      arms the timer anew. */
  lemma DeadlineWriteRearms(t: Timer, reg: Register, v: word)
    requires t.thread.Sleeping? && t.thread.snapshot <= t.seqno && t.now == t.thread.deadline
    requires Requested(Step(t, Write(reg, v)))
    ensures var w := Step(t, Write(reg, v));
            && NoWrites([Timeout]) && PossibleRun(w, [Timeout])
            && Armed(Run(w, [Timeout])) && Run(w, [Timeout]).raised == t.raised
  {
    hide BitsOf;
    var w := Step(t, Write(reg, v));
    assert PossibleRun(w, []) && Run(w, []) == w;
    RunSnoc(w, [], Timeout);
    assert [] + [Timeout] == [Timeout];
  }

  class SysTickUnit {
    var enable: bool
    var tickint: bool
    var clksource: bool
    var countflag: bool
    var load: nat
    var val: nat
    var seqno: nat
    var notified: bool
    var thread: Thread
    var now: nat
    var raised: seq<nat>

    ghost function State(): Timer
      reads this
    {
      Timer(enable, tickint, clksource, countflag, load, val, seqno, notified, thread, now, raised)
    }

    constructor ()
      ensures State() == RESET_TIMER
    {
      enable, tickint, clksource, countflag := false, false, false, false;
      load, val, seqno, notified := 0, 0, 0, false;
      thread, now, raised := Waiting, 0, [];
    }

    method HandleWrite(reg: Register, v: word)
      modifies this
      ensures State() == WriteRegister(old(State()), reg, v)
    {
      hide BitsOf;
      match reg {
        case Ctrl =>
          var bits := BitsOf(v);
          enable, tickint, clksource := 0 in bits, 1 in bits, 2 in bits;
          countflag := countflag || 16 in bits;
          if !enable {
            countflag := false;
          }
        case Load => load := v % 0x100_0000;
        case Val => val := v % 0x100_0000;
      }
      seqno := seqno + 1;
      notified := true;
    }

    /** The loop body up to `wait(delay)`. */
    method OnWake()
      requires thread.Waiting?
      modifies this
      ensures State() == Wake(old(State()))
    {
      var snapshot := seqno;
      if !enable || load == 0 {
        return;
      }
      if val == 0 {
        val := load;
      }
      var remaining := val;
      thread := Sleeping(now + remaining, snapshot);
    }

    /** The loop body after `wait(delay)`. */
    method OnTimeout()
      requires thread.Sleeping?
      modifies this
      ensures State() == Expire(old(State()))
    {
      var snapshot := thread.snapshot;
      thread := Waiting;
      if snapshot != seqno {
        return;
      }
      countflag := true;
      val := load;
      if tickint {
        raised := raised + [now];
      }
      if enable {
        notified := true;
      }
    }
  }
}
