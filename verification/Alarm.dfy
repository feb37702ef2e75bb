/**
 The alarm of the traps lab: timer traps from user space are counted, the handler is
 entered by rewriting the trap frame, and `sigreturn` puts the saved frame back.
 */
module Alarm {

  /** The user part of a trap frame: the program counter and the 31 registers in the
      order of struct trapframe, ra to t6. */
  datatype Frame = Frame(epc: nat, regs: seq<nat>)

  const NREGS: nat := 31
  const A0: nat := 9
  const A1: nat := 10

  datatype State = State(tf: Frame, saved: Frame, interval: int, handler: nat, ticks: int, inHandler: bool)

  /** What enters the kernel: each event carries the frame that the trampoline saved.
      `Syscall` is any other system call, which returns `ret` and leaves the alarm alone. */
  datatype Event =
    | Timer(frame: Frame)
    | SigAlarm(frame: Frame)
    | SigReturn(frame: Frame)
    | Syscall(frame: Frame, ret: nat)

  ghost predicate WellFormed(f: Frame) { |f.regs| == NREGS }

  /** The low 32 bits of a register as a C int. */
  function ToInt(x: nat): int {
    var low := x % 0x1_0000_0000;
    if low < 0x8000_0000 then low else low - 0x1_0000_0000
  }

  /** syscall() stores the result of every system call in a0. */
  function Return(f: Frame, ret: nat): Frame
    requires WellFormed(f)
  {
    f.(regs := f.regs[A0 := ret])
  }

  /** The ecall instruction is not executed again. */
  function Past(f: Frame): Frame { f.(epc := f.epc + 4) }

  predicate Counts(s: State, e: Event) { e.Timer? && s.interval > 0 && !s.inHandler }

  predicate Delivers(s: State, e: Event) { Counts(s, e) && s.ticks + 1 >= s.interval }

  // -------------------------------------------------------------- the fields

  class Process {
    var tf: Frame
    var alarmTf: Frame
    var alarmInterval: int
    var alarmHandler: nat
    var ticksSinceAlarm: int
    var inAlarmHandler: bool

    function View(): State
      reads this
    {
      State(tf, alarmTf, alarmInterval, alarmHandler, ticksSinceAlarm, inAlarmHandler)
    }

    /** allocproc; the page for the saved frame holds whatever kalloc left in it. */
    constructor (f: Frame, junk: Frame)
      requires WellFormed(f) && WellFormed(junk)
      ensures Initial(View()) && tf == f
    {
      tf, alarmTf := f, junk;
      alarmInterval, alarmHandler, ticksSinceAlarm, inAlarmHandler := 0, 0, 0, false;
    }

    /** usertrap with a timer interrupt. */
    method TimerTrap(f: Frame)
      requires WellFormed(f) && WellFormed(alarmTf)
      modifies this
      ensures Next(old(View()), Timer(f), View())
    {
      tf := f;
      if alarmInterval > 0 && !inAlarmHandler {
        ticksSinceAlarm := ticksSinceAlarm + 1;
        if ticksSinceAlarm >= alarmInterval {
          ticksSinceAlarm := 0;
          alarmTf := tf;
          tf := tf.(epc := alarmHandler);
          inAlarmHandler := true;
        }
      }
    }

    method SysSigalarm(f: Frame)
      requires WellFormed(f) && WellFormed(alarmTf)
      modifies this
      ensures Next(old(View()), SigAlarm(f), View())
    {
      tf := Past(f);
      alarmInterval := ToInt(tf.regs[A0]);
      alarmHandler := tf.regs[A1];
      ticksSinceAlarm := 0;
      inAlarmHandler := false;
      tf := Return(tf, 0);
    }

    method SysSigreturn(f: Frame)
      requires WellFormed(f) && WellFormed(alarmTf)
      modifies this
      ensures Next(old(View()), SigReturn(f), View())
    {
      tf := Past(f);
      tf := alarmTf;
      inAlarmHandler := false;
      tf := Return(tf, 0);
    }
  }

  // -------------------------------------------------------------------- runs

  ghost predicate Initial(s: State) {
    WellFormed(s.tf) && WellFormed(s.saved) && s.interval == 0 && s.ticks == 0 && !s.inHandler
  }

  /** The effect of one event, field by field. */
  ghost predicate Next(s: State, e: Event, s': State) {
    && (e.SigAlarm? ==>
          && |e.frame.regs| == NREGS
          && s'.interval == ToInt(e.frame.regs[A0]) && s'.handler == e.frame.regs[A1])
    && (!e.SigAlarm? ==> s'.interval == s.interval && s'.handler == s.handler)
    && s'.ticks == (if e.SigAlarm? || Delivers(s, e) then 0 else if Counts(s, e) then s.ticks + 1 else s.ticks)
    && s'.saved == (if Delivers(s, e) then e.frame else s.saved)
    && s'.inHandler == (Delivers(s, e) || (s.inHandler && !e.SigAlarm? && !e.SigReturn?))
    && WellFormed(e.frame) && WellFormed(s.saved)
    && s'.tf == (match e
                 case Timer(f) => if Delivers(s, e) then f.(epc := s.handler) else f
                 case SigAlarm(f) => Return(Past(f), 0)
                 case SigReturn(f) => Return(s.saved, 0)
                 case Syscall(f, ret) => Return(Past(f), ret))
  }

  ghost predicate IsRun(run: seq<State>, events: seq<Event>) {
    && |run| == |events| + 1
    && Initial(run[0])
    && forall i | 0 <= i < |events| :: Next(run[i], events[i], run[i + 1])
  }

  /** Event i enters the handler. */
  ghost predicate Delivery(run: seq<State>, events: seq<Event>, i: nat)
    requires |run| == |events| + 1
  {
    i < |events| && Delivers(run[i], events[i])
  }

  /** The number of counted timer traps among events a to b - 1. */
  ghost function Counted(run: seq<State>, events: seq<Event>, a: nat, b: nat): nat
    requires |run| == |events| + 1 && b <= |events|
    decreases b
  {
    if b <= a then 0
    else Counted(run, events, a, b - 1) +
         if events[b - 1].Timer? && run[b - 1].interval > 0 && !run[b - 1].inHandler then 1 else 0
  }

  /** No delivery, sigalarm or sigreturn among events a to b - 1. */
  ghost predicate Undisturbed(run: seq<State>, events: seq<Event>, a: nat, b: nat)
    requires |run| == |events| + 1 && b <= |events|
  {
    forall k | a <= k < b :: !Delivery(run, events, k) && !events[k].SigAlarm? && !events[k].SigReturn?
  }

  lemma {:induction false} StillInHandler(run: seq<State>, events: seq<Event>, i: nat, j: nat)
    requires IsRun(run, events) && i < j <= |events|
    requires Delivery(run, events, i) && Undisturbed(run, events, i + 1, j)
    ensures run[j].inHandler
    decreases j
  {
    if i + 1 < j {
      StillInHandler(run, events, i, j - 1);
    }
  }

  /** The handler is never re-entered: between two deliveries there is a sigreturn or a
      sigalarm. */
  lemma NoNestedDelivery(run: seq<State>, events: seq<Event>, i: nat, j: nat)
    requires IsRun(run, events) && i < j
    requires Delivery(run, events, i) && Delivery(run, events, j)
    ensures exists k | i < k < j :: events[k].SigReturn? || events[k].SigAlarm?
  {
    // The first disturbance after i cannot be another delivery.
    var k := i + 1;
    while k < j && !events[k].SigReturn? && !events[k].SigAlarm?
      invariant i < k <= j && Undisturbed(run, events, i + 1, k)
    {
      StillInHandler(run, events, i, k);
      k := k + 1;
    }
    if k == j {
      StillInHandler(run, events, i, j);
    }
  }

  /** Nothing between a and b resets the count. */
  ghost predicate SameAlarm(run: seq<State>, events: seq<Event>, a: nat, b: nat)
    requires |run| == |events| + 1 && b <= |events|
  {
    forall k | a <= k < b :: !Delivery(run, events, k) && !events[k].SigAlarm?
  }

  lemma {:induction false} TicksAreCounted(run: seq<State>, events: seq<Event>, i: nat, j: nat)
    requires IsRun(run, events) && i < j <= |events|
    requires Delivery(run, events, i) || events[i].SigAlarm?
    requires SameAlarm(run, events, i + 1, j)
    ensures run[j].ticks == Counted(run, events, i + 1, j)
    ensures run[j].interval == run[i + 1].interval
    ensures run[j].interval > 0 ==> run[j].ticks < run[j].interval
    decreases j
  {
    if i + 1 < j {
      TicksAreCounted(run, events, i, j - 1);
    }
  }

  /** A delivery comes exactly `interval` counted traps after the one before it, or after
      the sigalarm; and whenever that many traps have been counted, the last one delivers. */
  lemma DeliverySpacing(run: seq<State>, events: seq<Event>, i: nat, j: nat)
    requires IsRun(run, events) && i < j < |events|
    requires Delivery(run, events, i) || events[i].SigAlarm?
    requires SameAlarm(run, events, i + 1, j)
    ensures Delivery(run, events, j) <==>
              && events[j].Timer? && run[j].interval > 0 && !run[j].inHandler
              && Counted(run, events, i + 1, j + 1) == run[i + 1].interval
  {
    TicksAreCounted(run, events, i, j);
  }

  /** The alarm is as the latest sigalarm set it. */
  lemma {:induction false} AlarmIsKept(run: seq<State>, events: seq<Event>, i: nat, j: nat)
    requires IsRun(run, events) && i < j <= |events| && events[i].SigAlarm?
    requires forall k | i < k < j :: !events[k].SigAlarm?
    ensures WellFormed(events[i].frame) && run[j].handler == events[i].frame.regs[10]
    ensures -0x8000_0000 <= run[j].interval < 0x8000_0000
            && (events[i].frame.regs[9] - run[j].interval) % 0x1_0000_0000 == 0
    decreases j
  {
    assert Next(run[j - 1], events[j - 1], run[j]);
    if i + 1 < j {
      AlarmIsKept(run, events, i, j - 1);
    } else {
      IntIs(events[i].frame.regs[9]);
    }
  }

  lemma IntIs(x: nat)
    ensures -0x8000_0000 <= ToInt(x) < 0x8000_0000 && (x - ToInt(x)) % 0x1_0000_0000 == 0
  {
  }

  /** sigalarm(n, handler), n in a0 and handler in a1: until the next sigalarm, every delivery
      enters that handler with all registers as they were, the first of them at the n-th counted
      trap after the call, and no other trap changes anything that the program sees. */
  lemma SigalarmTakesEffect(run: seq<State>, events: seq<Event>, i: nat, j: nat)
    requires IsRun(run, events) && i < j < |events| && events[i].SigAlarm? && events[j].Timer?
    requires forall k | i < k < j :: !events[k].SigAlarm?
    ensures WellFormed(events[i].frame)
    ensures run[j + 1].tf.regs == events[j].frame.regs
    ensures run[j + 1].tf.epc == if Delivery(run, events, j) then events[i].frame.regs[10] else events[j].frame.epc
    ensures SameAlarm(run, events, i + 1, j) ==>
              (Delivery(run, events, j) <==>
                 && !run[j].inHandler && 0 < Counted(run, events, i + 1, j + 1) < 0x8000_0000
                 && (events[i].frame.regs[9] - Counted(run, events, i + 1, j + 1)) % 0x1_0000_0000 == 0)
  {
    AlarmIsKept(run, events, i, j);
    AlarmIsKept(run, events, i, i + 1);
    assert Next(run[j], events[j], run[j + 1]);
    if SameAlarm(run, events, i + 1, j) {
      DeliverySpacing(run, events, i, j);
      TicksAreCounted(run, events, i, j);
      SameInt(run[i + 1].interval, Counted(run, events, i + 1, j + 1), events[i].frame.regs[9]);
    }
  }

  lemma SameInt(a: int, b: nat, x: nat)
    requires -0x8000_0000 <= a < 0x8000_0000 && (x - a) % 0x1_0000_0000 == 0
    ensures a == b <==> b < 0x8000_0000 && (x - b) % 0x1_0000_0000 == 0
  {
  }

  /** A system call returns behind its ecall, with its result in a0 and every other register as
      it was; sigalarm's result is 0. */
  lemma CallsReturn(run: seq<State>, events: seq<Event>, i: nat)
    requires IsRun(run, events) && i < |events| && (events[i].SigAlarm? || events[i].Syscall?)
    ensures run[i + 1].tf.epc == events[i].frame.epc + 4
    ensures |run[i + 1].tf.regs| == |events[i].frame.regs| == 31
    ensures forall r | 0 <= r < 31 ::
              run[i + 1].tf.regs[r] == if r != 9 then events[i].frame.regs[r]
                                       else if events[i].SigAlarm? then 0 else events[i].ret
  {
    assert Next(run[i], events[i], run[i + 1]);
  }

  /** The process is in the handler exactly while the latest delivery has seen neither sigreturn
      nor sigalarm. */
  lemma {:induction false} InHandlerIff(run: seq<State>, events: seq<Event>, j: nat)
    requires IsRun(run, events) && j <= |events|
    ensures run[j].inHandler <==>
              exists i: nat | i < j :: Delivery(run, events, i) && Undisturbed(run, events, i + 1, j)
    decreases j
  {
    if j > 0 {
      InHandlerIff(run, events, j - 1);
      assert Next(run[j - 1], events[j - 1], run[j]);
      if run[j].inHandler {
        if Delivery(run, events, j - 1) {
          assert Undisturbed(run, events, j, j);
        } else {
          var i: nat :| i < j - 1 && Delivery(run, events, i) && Undisturbed(run, events, i + 1, j - 1);
          assert Undisturbed(run, events, i + 1, j);
        }
      }
      if i: nat :| i < j && Delivery(run, events, i) && Undisturbed(run, events, i + 1, j) {
        StillInHandler(run, events, i, j);
      }
    }
  }

  lemma {:induction false} SavedIsKept(run: seq<State>, events: seq<Event>, i: nat, j: nat)
    requires IsRun(run, events) && i < j <= |events| && Delivery(run, events, i)
    requires forall k | i < k < j :: !Delivery(run, events, k)
    ensures run[j].saved == events[i].frame
    decreases j
  {
    if i + 1 < j {
      SavedIsKept(run, events, i, j - 1);
      assert !Delivery(run, events, j - 1);
    }
    assert Next(run[j - 1], events[j - 1], run[j]);
  }

  /** sigreturn resumes the program where the latest delivery interrupted it, with every
      register but a0 restored; a0 becomes 0, so the interruption is invisible exactly
      when a0 was 0. */
  lemma SigreturnRestores(run: seq<State>, events: seq<Event>, i: nat, j: nat)
    requires IsRun(run, events) && i < j < |events|
    requires Delivery(run, events, i) && events[j].SigReturn?
    requires forall k | i < k < j :: !Delivery(run, events, k)
    ensures run[i + 1].tf == Frame(run[i].handler, events[i].frame.regs)
    ensures WellFormed(events[i].frame)
    ensures run[j + 1].tf.epc == events[i].frame.epc
    ensures forall r | 0 <= r < NREGS && r != A0 ::
              |run[j + 1].tf.regs| == NREGS && run[j + 1].tf.regs[r] == events[i].frame.regs[r]
    ensures |run[j + 1].tf.regs| == NREGS && run[j + 1].tf.regs[A0] == 0
    ensures run[j + 1].tf == events[i].frame <==> events[i].frame.regs[A0] == 0
  {
    SavedIsKept(run, events, i, j);
    assert Next(run[i], events[i], run[i + 1]) && Next(run[j], events[j], run[j + 1]);
    var f := events[i].frame;
    assert f.regs[A0] == 0 ==> f.regs[A0 := 0] == f.regs;
  }

  /** The restored frame can differ from the interrupted one. */
  lemma A0IsLost() returns (run: seq<State>, events: seq<Event>)
    ensures IsRun(run, events) && |events| == 3
    ensures Delivery(run, events, 1) && events[2].SigReturn? && run[3].tf != events[1].frame
  {
    var zeros := Frame(0, seq(NREGS, i => 0));
    var call := Frame(0, zeros.regs[A0 := 1]);
    var user := Frame(100, seq(NREGS, i => 7));
    var s0 := State(zeros, zeros, 0, 0, 0, false);
    var s1 := State(Return(Past(call), 0), zeros, 1, 0, 0, false);
    var s2 := State(user.(epc := 0), user, 1, 0, 0, true);
    var s3 := State(Return(user, 0), user, 1, 0, 0, false);
    run, events := [s0, s1, s2, s3], [SigAlarm(call), Timer(user), SigReturn(zeros)];
    assert s3.tf.regs[A0] != user.regs[A0];
  }
}
