/**
 The scheduler, sleep and wakeup as an interleaving of atomic steps. A lock is held by
 a CPU, as the code's `holding` has it, so p->lock passes from a process to the
 scheduler of the same CPU across swtch. There may be any number of processes, CPUs
 and locks.
 */
module Sleep {
  import opened Options

  datatype ProcState = UNUSED | SLEEPING | RUNNABLE | RUNNING | ZOMBIE

  /** Where yield returns to: a timer interrupt may also come in sleep, after it has released
      p->lock and before acquire(lk) turns interrupts off. */
  datatype Ret = ToIdle | ToReacquire(wasOn: nat, lock: nat)

  /** Where a process's kernel thread is: the next statement it executes. */
  datatype Pc =
    | Idle                                     // anywhere outside yield, sleep and exit
    | YieldAcquire(ret: Ret) | YieldSet(ret: Ret) | YieldSwtch(ret: Ret) | YieldRelease(ret: Ret)
    | SleepAcquire(chan: nat, lk: nat)         // acquire(&p->lock)
    | SleepReleaseLk(chan: nat, lk: nat)       // release(lk)
    | SleepChan(chan: nat, lk: nat)            // p->chan = chan
    | SleepState(chan: nat, lk: nat)           // p->state = SLEEPING
    | SleepSwtch(chan: nat, lk: nat)           // sched()
    | SleepTidy(chan: nat, lk: nat)            // p->chan = 0
    | SleepRelease(chan: nat, lk: nat)         // release(&p->lock)
    | SleepReacquire(chan: nat, lk: nat)       // acquire(lk)
    | ExitAcquire(lk: nat) | ExitSet(lk: nat) | ExitReleaseLk(lk: nat) | ExitSwtch
    | ForkRet                                  // a new process, first scheduled

  /** `on` is history: the CPU that has chosen this process and not yet let go of it;
      `epoch` counts the times the process has released lk inside sleep. */
  datatype Proc = Proc(state: ProcState, chan: nat, lock: Option<nat>, pc: Pc, on: Option<nat>, epoch: nat)

  /** The scheduler loop of a CPU; in `Away(k)` process k is executing. */
  datatype Sched = Acquire(k: nat) | Test(k: nat) | SetProc(k: nat) | Switch(k: nat) | Away(k: nat) | Back(k: nat)
      | Release(k: nat)

  datatype WakePhase = WakeAcquire | WakeTest | WakeRelease

  /** wakeup(chan) in progress at process k; `targets` is history: who was asleep on chan,
      and in which of its sleeps, when the call began. */
  datatype Wake = Wake(chan: nat, k: nat, phase: WakePhase, targets: map<nat, nat>)

  datatype Cpu = Cpu(proc: Option<nat>, sched: Sched, wake: Option<Wake>)

  datatype State = State(procs: seq<Proc>, cpus: seq<Cpu>, lks: seq<Option<nat>>)

  // ------------------------------------------------------------------- steps

  datatype Step =
    | SchedAcquire | SchedTest | SchedSetProc | SchedSwitch | SchedBack | SchedRelease
    | LkAcquire(l: nat) | LkRelease(l: nat)
    | YieldStart | YieldLock | YieldMark | YieldSwitch | YieldDone
    | SleepStart(chan: nat, l: nat) | SleepLock | SleepUnlockLk | SleepSetChan | SleepMark | SleepSwitch
    | SleepClear | SleepUnlock | SleepRelock
    | ExitStart(l: nat) | ExitLock | ExitMark | ExitUnlockLk | ExitSwitch
    | ForkRetDone
    | WakeStart(chan: nat) | WakeSkip | WakeLock | WakeMark | WakeUnlock | WakeDone
    | Spawn(k: nat) | Reap(k: nat) | Kill(k: nat)

  ghost predicate WellSized(s: State) {
    && |s.procs| > 0
    && forall c | 0 <= c < |s.cpus| :: s.cpus[c].sched.k < |s.procs|
  }

  /** CPU c executes process k, outside any wakeup. */
  ghost predicate Executing(s: State, c: nat, k: nat) {
    c < |s.cpus| && s.cpus[c].sched == Away(k) && s.cpus[c].wake.None? && k < |s.procs|
  }

  ghost predicate HoldsNoLk(s: State, c: nat) {
    forall l | 0 <= l < |s.lks| :: s.lks[l] != Some(c)
  }

  ghost predicate HoldsOnly(s: State, c: nat, l: nat) {
    l < |s.lks| && forall m | 0 <= m < |s.lks| :: s.lks[m] == Some(c) <==> m == l
  }

  /** Process p has released lk inside sleep(chan, lk) and nobody has woken it since. */
  ghost predicate Asleep(s: State, p: nat, chan: nat) {
    && p < |s.procs|
    && var q := s.procs[p];
       || (q.pc.SleepChan? && q.pc.chan == chan) || (q.pc.SleepState? && q.pc.chan == chan)
       || (q.pc.SleepSwtch? && q.pc.chan == chan)
       || (q.pc.SleepTidy? && q.pc.chan == chan && q.state == SLEEPING)
  }

  ghost function Targets(s: State, chan: nat): map<nat, nat> {
    map p | 0 <= p < |s.procs| && Asleep(s, p, chan) :: s.procs[p].epoch
  }

  function SetCpu(s: State, c: nat, x: Cpu): State
    requires c < |s.cpus|
  {
    s.(cpus := s.cpus[c := x])
  }

  function SetProcess(s: State, p: nat, x: Proc): State
    requires p < |s.procs|
  {
    s.(procs := s.procs[p := x])
  }

  /** Interrupts may be on here. */
  predicate Interruptible(pc: Pc) { pc.Idle? || pc.SleepReacquire? }

  function RetOf(pc: Pc): Ret
    requires Interruptible(pc)
  {
    if pc.Idle? then ToIdle else ToReacquire(pc.chan, pc.lk)
  }

  function PcOf(ret: Ret): Pc { if ret.ToIdle? then Idle else SleepReacquire(ret.wasOn, ret.lock) }

  /** The process part of a step: CPU c executes process k, whose record becomes x. */
  ghost predicate Runs(s: State, c: nat, k: nat, x: Proc, s': State) {
    Executing(s, c, k) && s' == SetProcess(s, k, x)
  }

  ghost predicate SchedStep(s: State, c: nat, step: Step, s': State)
    requires WellSized(s) && c < |s.cpus|
  {
    var u := s.cpus[c];
    var k := u.sched.k;
    var q := s.procs[k];
    && u.wake.None?
    && match step
       case SchedAcquire =>
         u.sched.Acquire? && q.lock.None? && s' ==
             SetCpu(SetProcess(s, k, q.(lock := Some(c))), c, u.(sched := Test(k)))
       case SchedTest =>
         && u.sched.Test?
         && (q.state == RUNNABLE ==>
              s' == SetCpu(SetProcess(s, k, q.(state := RUNNING, on := Some(c))), c, u.(sched := SetProc(k))))
         && (q.state != RUNNABLE ==> s' == SetCpu(s, c, u.(sched := Release(k))))
       case SchedSetProc =>
         u.sched.SetProc? && s' == SetCpu(s, c, u.(proc := Some(k), sched := Switch(k)))
       case SchedSwitch =>
         u.sched.Switch? && s' == SetCpu(s, c, u.(sched := Away(k)))
       case SchedBack =>
         u.sched.Back? && s' == SetCpu(SetProcess(s, k, q.(on := None)), c, u.(proc := None, sched := Release(k)))
       case SchedRelease =>
         u.sched.Release? && s' == SetCpu(SetProcess(s, k, q.(lock := None)), c,
             u.(sched := Acquire(if k + 1 == |s.procs| then 0 else k + 1)))
       case _ => false
  }

  ghost predicate ProcStep(s: State, c: nat, step: Step, s': State)
    requires WellSized(s) && c < |s.cpus|
  {
    var u := s.cpus[c];
    var k := u.sched.k;
    var q := s.procs[k];
    && Executing(s, c, k)
    && match step
       case LkAcquire(l) => q.pc.Idle? && l < |s.lks| && s.lks[l].None? && s' == s.(lks := s.lks[l := Some(c)])
       case LkRelease(l) => q.pc.Idle? && l < |s.lks| && s.lks[l] == Some(c) && s' == s.(lks := s.lks[l := None])
       case YieldStart => Interruptible(q.pc) && HoldsNoLk(s, c)
           && Runs(s, c, k, q.(pc := YieldAcquire(RetOf(q.pc))), s')
       case YieldLock => q.pc.YieldAcquire? && q.lock.None?
           && Runs(s, c, k, q.(pc := YieldSet(q.pc.ret), lock := Some(c)), s')
       case YieldMark => q.pc.YieldSet? && Runs(s, c, k, q.(pc := YieldSwtch(q.pc.ret), state := RUNNABLE), s')
       case YieldSwitch =>
         q.pc.YieldSwtch? && s' == SetCpu(SetProcess(s, k, q.(pc := YieldRelease(q.pc.ret))), c, u.(sched := Back(k)))
       case YieldDone => q.pc.YieldRelease? && Runs(s, c, k, q.(pc := PcOf(q.pc.ret), lock := None), s')
       case SleepStart(chan, l) => q.pc.Idle? && HoldsOnly(s, c, l)
           && Runs(s, c, k, q.(pc := SleepAcquire(chan, l)), s')
       case SleepLock => q.pc.SleepAcquire? && q.lock.None?
           && Runs(s, c, k, q.(pc := SleepReleaseLk(q.pc.chan, q.pc.lk), lock := Some(c)), s')
       case SleepUnlockLk =>
         && q.pc.SleepReleaseLk? && q.pc.lk < |s.lks| && s.lks[q.pc.lk] == Some(c)
         && s' == SetProcess(s, k, q.(pc := SleepChan(q.pc.chan, q.pc.lk), epoch := q.epoch + 1))
              .(lks := s.lks[q.pc.lk := None])
       case SleepSetChan => q.pc.SleepChan? && Runs(s, c, k,
           q.(pc := SleepState(q.pc.chan, q.pc.lk), chan := q.pc.chan), s')
       case SleepMark => q.pc.SleepState? && Runs(s, c, k,
           q.(pc := SleepSwtch(q.pc.chan, q.pc.lk), state := SLEEPING), s')
       case SleepSwitch =>
         q.pc.SleepSwtch? && s' == SetCpu(SetProcess(s, k, q.(pc := SleepTidy(q.pc.chan, q.pc.lk))), c,
             u.(sched := Back(k)))
       case SleepClear => q.pc.SleepTidy? && Runs(s, c, k, q.(pc := SleepRelease(q.pc.chan, q.pc.lk), chan := 0), s')
       case SleepUnlock => q.pc.SleepRelease?
           && Runs(s, c, k, q.(pc := SleepReacquire(q.pc.chan, q.pc.lk), lock := None), s')
       case SleepRelock =>
         && q.pc.SleepReacquire? && q.pc.lk < |s.lks| && s.lks[q.pc.lk].None?
         && s' == SetProcess(s, k, q.(pc := Idle)).(lks := s.lks[q.pc.lk := Some(c)])
       case ExitStart(l) => q.pc.Idle? && HoldsOnly(s, c, l) && Runs(s, c, k, q.(pc := ExitAcquire(l)), s')
       case ExitLock => q.pc.ExitAcquire? && q.lock.None?
           && Runs(s, c, k, q.(pc := ExitSet(q.pc.lk), lock := Some(c)), s')
       case ExitMark => q.pc.ExitSet? && Runs(s, c, k, q.(pc := ExitReleaseLk(q.pc.lk), state := ZOMBIE), s')
       case ExitUnlockLk =>
         && q.pc.ExitReleaseLk? && q.pc.lk < |s.lks| && s.lks[q.pc.lk] == Some(c)
         && s' == SetProcess(s, k, q.(pc := ExitSwtch)).(lks := s.lks[q.pc.lk := None])
       case ExitSwitch => q.pc.ExitSwtch? && s' == SetCpu(s, c, u.(sched := Back(k)))
       case ForkRetDone => q.pc.ForkRet? && Runs(s, c, k, q.(pc := Idle, lock := None), s')
       case _ => false
  }

  /** wakeup, called by the executing process or by an interrupt handler on this CPU. */
  ghost predicate WakeStep(s: State, c: nat, step: Step, s': State)
    requires WellSized(s) && c < |s.cpus|
  {
    var u := s.cpus[c];
    match step
    case WakeStart(chan) =>
      && u.wake.None?
      && (u.sched.Acquire? || (u.sched.Away? && Interruptible(s.procs[u.sched.k].pc)))
      && s' == SetCpu(s, c, u.(wake := Some(Wake(chan, 0, WakeAcquire, Targets(s, chan)))))
    case WakeSkip =>
      && u.wake.Some? && u.wake.value.phase.WakeAcquire? && u.wake.value.k < |s.procs| && u.proc == Some(u.wake.value.k)
      && s' == SetCpu(s, c, u.(wake := Some(u.wake.value.(k := u.wake.value.k + 1))))
    case WakeLock =>
      && u.wake.Some? && u.wake.value.phase.WakeAcquire? && u.wake.value.k < |s.procs| && u.proc != Some(u.wake.value.k)
      && var q := s.procs[u.wake.value.k];
         && q.lock.None?
         && s' == SetCpu(SetProcess(s, u.wake.value.k, q.(lock := Some(c))), c,
              u.(wake := Some(u.wake.value.(phase := WakeTest))))
    case WakeMark =>
      && u.wake.Some? && u.wake.value.phase.WakeTest? && u.wake.value.k < |s.procs|
      && var q := s.procs[u.wake.value.k];
         s' == SetCpu(SetProcess(s, u.wake.value.k,
             if q.state == SLEEPING && q.chan == u.wake.value.chan then q.(state := RUNNABLE) else q),
                      c, u.(wake := Some(u.wake.value.(phase := WakeRelease))))
    case WakeUnlock =>
      && u.wake.Some? && u.wake.value.phase.WakeRelease? && u.wake.value.k < |s.procs|
      && var q := s.procs[u.wake.value.k];
         s' == SetCpu(SetProcess(s, u.wake.value.k, q.(lock := None)), c,
             u.(wake := Some(u.wake.value.(phase := WakeAcquire, k := u.wake.value.k + 1))))
    case WakeDone =>
      && u.wake.Some? && u.wake.value.phase.WakeAcquire? && u.wake.value.k == |s.procs|
      && s' == SetCpu(s, c, u.(wake := None))
    case _ => false
  }

  /** fork's last step, wait's freeproc and kill, each under the lock of process k. */
  ghost predicate TableStep(s: State, step: Step, s': State) {
    match step
    case Spawn(k) =>
      && k < |s.procs| && s.procs[k].lock.None? && s.procs[k].state == UNUSED
      && s' == SetProcess(s, k, s.procs[k].(state := RUNNABLE, pc := ForkRet, chan := 0))
    case Reap(k) =>
      k < |s.procs| && s.procs[k].lock.None? && s.procs[k].state == ZOMBIE
          && s' == SetProcess(s, k, s.procs[k].(state := UNUSED, chan := 0))
    case Kill(k) =>
      k < |s.procs| && s.procs[k].lock.None? && s.procs[k].state == SLEEPING
          && s' == SetProcess(s, k, s.procs[k].(state := RUNNABLE))
    case _ => false
  }

  ghost predicate Next(s: State, c: nat, step: Step, s': State) {
    && WellSized(s) && c < |s.cpus|
    && (SchedStep(s, c, step, s') || ProcStep(s, c, step, s') || WakeStep(s, c, step, s') || TableStep(s, step, s'))
  }

  ghost predicate Init(s: State) {
    && |s.procs| > 0
    && (forall p | 0 <= p < |s.procs| :: s.procs[p] == Proc(UNUSED, 0, None, ForkRet, None, 0))
    && (forall c | 0 <= c < |s.cpus| :: s.cpus[c] == Cpu(None, Acquire(0), None))
    && (forall l | 0 <= l < |s.lks| :: s.lks[l].None?)
  }

  // --------------------------------------------------------------- invariant

  /** The executing process holds its own lock here. */
  predicate LockHolds(pc: Pc) {
    !(pc.Idle? || pc.YieldAcquire? || pc.SleepAcquire? || pc.SleepReacquire? || pc.ExitAcquire?)
  }

  /** Its state here. */
  function RunState(pc: Pc): ProcState {
    if pc.YieldSwtch? then RUNNABLE
    else if pc.SleepSwtch? then SLEEPING
    else if pc.ExitReleaseLk? || pc.ExitSwtch? then ZOMBIE
    else RUNNING
  }

  predicate HoldsLk(pc: Pc) {
    pc.SleepAcquire? || pc.SleepReleaseLk? || pc.ExitAcquire? || pc.ExitSet? || pc.ExitReleaseLk?
  }

  predicate Resumable(pc: Pc) { pc.YieldRelease? || pc.SleepTidy? || pc.ForkRet? }

  /** A process that no CPU is busy with. */
  ghost predicate Parked(q: Proc) {
    && q.state != RUNNING && (Resumable(q.pc) || q.pc.ExitSwtch?)
    && (q.state == RUNNABLE ==> Resumable(q.pc))
    && (q.state == SLEEPING ==> q.pc.SleepTidy? && q.chan == q.pc.chan)
  }

  /** What the lks of CPU c must be while its process is at pc. */
  ghost predicate LksFit(s: State, c: nat, pc: Pc) {
    if HoldsLk(pc) then HoldsOnly(s, c, pc.lk) else pc.Idle? || HoldsNoLk(s, c)
  }

  ghost predicate CpuOk(s: State, c: nat) {
    && c < |s.cpus| && s.cpus[c].sched.k < |s.procs|
    && var u := s.cpus[c];
       var k := u.sched.k;
       var q := s.procs[k];
       && (match u.sched
           case Acquire(_) => u.proc.None?
           case Test(_) => u.proc.None? && q.lock == Some(c)
           case SetProc(_) => u.proc.None? && q.lock == Some(c) && q.on == Some(c) && q.state == RUNNING
               && Resumable(q.pc)
           case Switch(_) => u.proc == Some(k) && q.lock == Some(c) && q.on == Some(c) && q.state == RUNNING
               && Resumable(q.pc)
           case Away(_) =>
             && u.proc == Some(k) && q.on == Some(c) && q.state == RunState(q.pc)
             && (LockHolds(q.pc) <==> q.lock == Some(c))
             && (q.pc.SleepState? || q.pc.SleepSwtch? ==> q.chan == q.pc.chan)
             && LksFit(s, c, q.pc)
           case Back(_) => u.proc == Some(k) && q.lock == Some(c) && q.on == Some(c) && Parked(q)
           case Release(_) => u.proc.None? && q.lock == Some(c))
       && (!u.sched.Away? ==> HoldsNoLk(s, c))
       && (u.wake.Some? ==>
             && (u.sched.Acquire? || (u.sched.Away? && Interruptible(q.pc)))
             && u.wake.value.k <= |s.procs|
             && (!u.wake.value.phase.WakeAcquire? ==>
                   u.wake.value.k < |s.procs| && s.procs[u.wake.value.k].lock == Some(c)
                       && u.proc != Some(u.wake.value.k)))
  }

  /** Why CPU c holds the lock of process p. */
  ghost predicate Reason(s: State, c: nat, p: nat) {
    && c < |s.cpus| && p < |s.procs|
    && var u := s.cpus[c];
       || (u.sched.k == p && (!u.sched.Acquire? && (u.sched.Away? ==> LockHolds(s.procs[p].pc))))
       || (u.wake.Some? && !u.wake.value.phase.WakeAcquire? && u.wake.value.k == p)
  }

  ghost predicate Engaged(s: State, c: nat, p: nat) {
    c < |s.cpus| && s.cpus[c].sched.k == p && (var d := s.cpus[c].sched; d.SetProc? || d.Switch? || d.Away? || d.Back?)
  }

  ghost predicate ProcOk(s: State, p: nat) {
    && p < |s.procs|
    && var q := s.procs[p];
       && (q.lock.Some? ==> Reason(s, q.lock.value, p))
       && (q.on.Some? ==> Engaged(s, q.on.value, p))
       && (q.on.None? ==> Parked(q))
  }

  ghost predicate LkOk(s: State, l: nat) {
    l < |s.lks| && (s.lks[l].Some? ==> s.lks[l].value < |s.cpus| && s.cpus[s.lks[l].value].sched.Away?)
  }

  /** Process p, asleep in its sleep number e when wakeup(chan) began, is no longer so. */
  ghost predicate Woken(s: State, p: nat, chan: nat, e: nat) {
    p < |s.procs| && e <= s.procs[p].epoch && !(Asleep(s, p, chan) && s.procs[p].epoch == e)
  }

  /** Every target that the wakeup on CPU c has passed is awake. */
  ghost predicate WakeOk(s: State, c: nat) {
    && c < |s.cpus|
    && (s.cpus[c].wake.Some? ==>
          var w := s.cpus[c].wake.value;
          forall p | p in w.targets :: TargetOk(s, w, p))
  }

  ghost predicate TargetOk(s: State, w: Wake, p: nat) {
    p in w.targets ==>
      && p < |s.procs| && w.targets[p] <= s.procs[p].epoch
      && (p < w.k || (p == w.k && w.phase.WakeRelease?) ==> Woken(s, p, w.chan, w.targets[p]))
  }

  ghost predicate Inv(s: State) {
    && |s.procs| > 0
    && (forall c: nat {:trigger CpuOk(s, c)} | c < |s.cpus| :: CpuOk(s, c))
    && (forall p: nat {:trigger ProcOk(s, p)} | p < |s.procs| :: ProcOk(s, p))
    && (forall l: nat {:trigger LkOk(s, l)} | l < |s.lks| :: LkOk(s, l))
    && (forall c: nat {:trigger WakeOk(s, c)} | c < |s.cpus| :: WakeOk(s, c))
  }

  // ------------------------------------------ what a step leaves to the others

  /** A step of CPU c on process k that respects the lock of k. */
  ghost predicate Local(s: State, c: nat, k: nat, s': State) {
    && c < |s.cpus| && k < |s.procs| && |s'.cpus| == |s.cpus| && |s'.procs| == |s.procs| && |s'.lks| == |s.lks|
    && (forall d | 0 <= d < |s.cpus| && d != c :: s'.cpus[d] == s.cpus[d])
    && (forall p | 0 <= p < |s.procs| && p != k :: s'.procs[p] == s.procs[p])
    && (forall l | 0 <= l < |s.lks| ::
         s'.lks[l] == s.lks[l] || (s'.lks[l] in {None, Some(c)} && s.lks[l] in {None, Some(c)}))
    && (s'.procs[k].lock == s.procs[k].lock
         || (s.procs[k].lock in {None, Some(c)} && s'.procs[k].lock in {None, Some(c)}))
    && (s.procs[k].on in {None, Some(c)} ==> s'.procs[k].on in {None, Some(c)})
    && (s.procs[k].on !in {None, Some(c)} ==> s'.procs[k] == s.procs[k].(lock := s'.procs[k].lock))
  }

  lemma OtherCpu(s: State, c: nat, k: nat, s': State, d: nat)
    requires Local(s, c, k, s') && CpuOk(s, d) && d != c
    ensures CpuOk(s', d)
  {
    assert HoldsNoLk(s, d) ==> HoldsNoLk(s', d);
    var pc := s.procs[s.cpus[d].sched.k].pc;
    assert HoldsLk(pc) && HoldsOnly(s, d, pc.lk) ==> HoldsOnly(s', d, pc.lk);
  }

  /** No process falls asleep again within the same sleep. */
  ghost predicate SleepMono(s: State, s': State, k: nat)
    requires k < |s.procs| && |s'.procs| == |s.procs|
  {
    && s.procs[k].epoch <= s'.procs[k].epoch
    && (s.procs[k].epoch == s'.procs[k].epoch ==> forall chan: nat :: Asleep(s', k, chan) ==> Asleep(s, k, chan))
  }

  lemma SameWakeOk(s: State, c: nat, k: nat, s': State, d: nat)
    requires Local(s, c, k, s') && SleepMono(s, s', k) && WakeOk(s, d) && s'.cpus[d].wake == s.cpus[d].wake
    ensures WakeOk(s', d)
  {
  }

  /** The whole invariant follows from what happens to c and k. */
  lemma LocalKeeps(s: State, c: nat, k: nat, s': State)
    requires Inv(s) && Local(s, c, k, s') && SleepMono(s, s', k)
    requires CpuOk(s', c) && ProcOk(s', k) && WakeOk(s', c)
    requires forall p: nat | p != k ::
               (Reason(s, c, p) ==> Reason(s', c, p)) && (Engaged(s, c, p) ==> Engaged(s', c, p))
    ensures Inv(s')
  {
    forall d: nat | d < |s'.cpus|
      ensures CpuOk(s', d) && WakeOk(s', d)
    {
      if d != c {
        assert CpuOk(s, d) && WakeOk(s, d);
        OtherCpu(s, c, k, s', d);
        SameWakeOk(s, c, k, s', d);
      }
    }
    forall p: nat | p < |s'.procs|
      ensures ProcOk(s', p)
    {
      if p != k {
        OtherProc(s, c, k, s', p);
      }
    }
    forall l: nat | l < |s'.lks|
      ensures LkOk(s', l)
    {
      assert LkOk(s, l);
    }
  }

  lemma OtherProc(s: State, c: nat, k: nat, s': State, p: nat)
    requires Local(s, c, k, s') && p != k && p < |s.procs| && ProcOk(s, p)
    requires (Reason(s, c, p) ==> Reason(s', c, p)) && (Engaged(s, c, p) ==> Engaged(s', c, p))
    ensures ProcOk(s', p)
  {
  }

  // ------------------------------------------------ every step keeps Inv

  lemma InitInv(s: State)
    requires Init(s)
    ensures Inv(s)
  {
  }

  lemma SchedKeeps(s: State, c: nat, step: Step, s': State)
    requires Inv(s) && WellSized(s) && c < |s.cpus| && SchedStep(s, c, step, s')
    ensures Inv(s')
  {
    var k := s.cpus[c].sched.k;
    assert CpuOk(s, c) && ProcOk(s, k) && WakeOk(s, c);
    assert s.procs[k].on.Some? ==> CpuOk(s, s.procs[k].on.value);
    LocalKeeps(s, c, k, s');
  }

  predicate FallsAsleep(step: Step) {
    step.SleepStart? || step.SleepLock? || step.SleepUnlockLk? || step.SleepSetChan? || step.SleepMark?
        || step.SleepSwitch?
  }

  predicate Resumes(step: Step) {
    step.SleepClear? || step.SleepUnlock? || step.SleepRelock? || step.YieldDone? || step.ForkRetDone?
  }

  predicate Exits(step: Step) {
    step.ExitStart? || step.ExitLock? || step.ExitMark? || step.ExitUnlockLk? || step.ExitSwitch?
  }

  lemma FallAsleepKeeps(s: State, c: nat, step: Step, s': State)
    requires Inv(s) && WellSized(s) && c < |s.cpus| && ProcStep(s, c, step, s') && FallsAsleep(step)
    ensures Inv(s')
  {
    var k := s.cpus[c].sched.k;
    assert CpuOk(s, c) && ProcOk(s, k) && WakeOk(s, c);
    LocalKeeps(s, c, k, s');
  }

  lemma ResumeKeeps(s: State, c: nat, step: Step, s': State)
    requires Inv(s) && WellSized(s) && c < |s.cpus| && ProcStep(s, c, step, s') && Resumes(step)
    ensures Inv(s')
  {
    var k := s.cpus[c].sched.k;
    assert CpuOk(s, c) && ProcOk(s, k) && WakeOk(s, c);
    hide Inv, CpuOk, ProcOk, WakeOk, ProcStep;
    ResumeOk(s, c, step, s');
    ResumeLocal(s, c, step, s');
    SameWakeOk(s, c, k, s', c);
    LocalKeeps(s, c, k, s');
  }

  lemma ResumeLocal(s: State, c: nat, step: Step, s': State)
    requires WellSized(s) && CpuOk(s, c) && ProcStep(s, c, step, s') && Resumes(step)
    ensures s'.cpus == s.cpus && Local(s, c, s.cpus[c].sched.k, s') && SleepMono(s, s', s.cpus[c].sched.k)
  {
  }

  lemma ResumeOk(s: State, c: nat, step: Step, s': State)
    requires WellSized(s) && CpuOk(s, c) && ProcOk(s, s.cpus[c].sched.k) && ProcStep(s, c, step, s') && Resumes(step)
    ensures CpuOk(s', c) && ProcOk(s', s.cpus[c].sched.k)
  {
  }

  lemma ExitKeeps(s: State, c: nat, step: Step, s': State)
    requires Inv(s) && WellSized(s) && c < |s.cpus| && ProcStep(s, c, step, s') && Exits(step)
    ensures Inv(s')
  {
    var k := s.cpus[c].sched.k;
    assert CpuOk(s, c) && ProcOk(s, k) && WakeOk(s, c);
    LocalKeeps(s, c, k, s');
  }

  lemma YieldKeeps(s: State, c: nat, step: Step, s': State)
    requires Inv(s) && WellSized(s) && c < |s.cpus| && ProcStep(s, c, step, s') && !FallsAsleep(step)
             && !Resumes(step) && !Exits(step)
    ensures Inv(s')
  {
    var k := s.cpus[c].sched.k;
    assert CpuOk(s, c) && ProcOk(s, k) && WakeOk(s, c);
    LocalKeeps(s, c, k, s');
  }

  /** The steps of wakeup that do not look at a process. */
  lemma WakeMoveKeeps(s: State, c: nat, step: Step, s': State)
    requires Inv(s) && WellSized(s) && c < |s.cpus| && WakeStep(s, c, step, s')
    requires step.WakeStart? || step.WakeSkip? || step.WakeDone?
    ensures Inv(s')
  {
    var u := s.cpus[c];
    var k := u.sched.k;
    assert CpuOk(s, c) && ProcOk(s, k) && WakeOk(s, c);
    if step.WakeSkip? {
      var w := u.wake.value;
      forall p | p in w.targets
        ensures TargetOk(s', w.(k := w.k + 1), p)
      {
        assert TargetOk(s, w, p);
      }
    } else if step.WakeStart? {
      forall p | p in Targets(s, step.chan)
        ensures TargetOk(s', s'.cpus[c].wake.value, p)
      {
      }
    }
    LocalKeeps(s, c, k, s');
  }

  /** The steps of wakeup on process k. */
  lemma WakeVisitKeeps(s: State, c: nat, step: Step, s': State)
    requires Inv(s) && WellSized(s) && c < |s.cpus| && WakeStep(s, c, step, s')
    requires step.WakeLock? || step.WakeMark? || step.WakeUnlock?
    ensures Inv(s')
  {
    var u := s.cpus[c];
    var w := u.wake.value;
    assert CpuOk(s, c) && ProcOk(s, w.k) && WakeOk(s, c);
    assert s.procs[w.k].on.Some? ==> CpuOk(s, s.procs[w.k].on.value);
    VisitTargets(s, c, step, s');
    LocalKeeps(s, c, w.k, s');
  }

  lemma VisitTargets(s: State, c: nat, step: Step, s': State)
    requires Inv(s) && WellSized(s) && c < |s.cpus| && WakeStep(s, c, step, s')
    requires step.WakeLock? || step.WakeMark? || step.WakeUnlock?
    ensures WakeOk(s', c)
  {
    var w := s.cpus[c].wake.value;
    assert CpuOk(s, c) && ProcOk(s, w.k) && WakeOk(s, c);
    assert s.procs[w.k].on.Some? ==> CpuOk(s, s.procs[w.k].on.value);
    forall p | p in w.targets
      ensures TargetOk(s', s'.cpus[c].wake.value, p)
    {
      assert TargetOk(s, w, p);
      assert p != w.k ==> (Asleep(s', p, w.chan) <==> Asleep(s, p, w.chan));
    }
  }

  lemma TableKeeps(s: State, c: nat, step: Step, s': State)
    requires Inv(s) && WellSized(s) && c < |s.cpus| && TableStep(s, step, s')
    ensures Inv(s')
  {
    var k := step.k;
    assert CpuOk(s, c) && ProcOk(s, k) && WakeOk(s, c);
    assert s.procs[k].on.Some? ==> CpuOk(s, s.procs[k].on.value);
    hide Inv, CpuOk, ProcOk, WakeOk, TableStep;
    TableOk(s, c, step, s');
    TableLocal(s, c, step, s');
    SameWakeOk(s, c, k, s', c);
    LocalKeeps(s, c, k, s');
  }

  lemma TableLocal(s: State, c: nat, step: Step, s': State)
    requires TableStep(s, step, s') && CpuOk(s, c) && ProcOk(s, step.k)
             && (s.procs[step.k].on.Some? ==> CpuOk(s, s.procs[step.k].on.value))
    ensures s'.cpus == s.cpus && Local(s, c, step.k, s') && SleepMono(s, s', step.k)
  {
  }

  lemma TableOk(s: State, c: nat, step: Step, s': State)
    requires WellSized(s) && TableStep(s, step, s') && CpuOk(s, c) && ProcOk(s, step.k)
             && (s.procs[step.k].on.Some? ==> CpuOk(s, s.procs[step.k].on.value))
    ensures CpuOk(s', c) && ProcOk(s', step.k)
  {
  }

  lemma StepKeeps(s: State, c: nat, step: Step, s': State)
    requires Inv(s) && Next(s, c, step, s')
    ensures Inv(s')
  {
    if SchedStep(s, c, step, s') {
      SchedKeeps(s, c, step, s');
    } else if ProcStep(s, c, step, s') {
      if FallsAsleep(step) {
        FallAsleepKeeps(s, c, step, s');
      } else if Resumes(step) {
        ResumeKeeps(s, c, step, s');
      } else if Exits(step) {
        ExitKeeps(s, c, step, s');
      } else {
        YieldKeeps(s, c, step, s');
      }
    } else if TableStep(s, step, s') {
      TableKeeps(s, c, step, s');
    } else if step.WakeLock? || step.WakeMark? || step.WakeUnlock? {
      WakeVisitKeeps(s, c, step, s');
    } else {
      WakeMoveKeeps(s, c, step, s');
    }
  }

  // ------------------------------------------------------------ main results

  /** A run: step i is taken by CPU who[i]. */
  ghost predicate IsRun(run: seq<State>, who: seq<nat>, steps: seq<Step>) {
    && |run| == |steps| + 1 && |who| == |steps|
    && forall i: nat {:trigger Linked(run, who, steps, i)} | i < |run| :: Linked(run, who, steps, i)
  }

  ghost predicate Linked(run: seq<State>, who: seq<nat>, steps: seq<Step>, i: nat)
    requires |run| == |steps| + 1 && |who| == |steps| && i < |run|
  {
    if i == 0 then Init(run[0]) else Next(run[i - 1], who[i - 1], steps[i - 1], run[i])
  }

  lemma {:induction false} RunInv(run: seq<State>, who: seq<nat>, steps: seq<Step>, i: nat)
    requires IsRun(run, who, steps) && i < |run|
    ensures Inv(run[i])
  {
    assert Linked(run, who, steps, i);
    if i == 0 {
      InitInv(run[0]);
    } else {
      RunInv(run, who, steps, i - 1);
      StepKeeps(run[i - 1], who[i - 1], steps[i - 1], run[i]);
    }
  }

  ghost predicate RunsOn(s: State, p: nat, c: nat) { c < |s.cpus| && s.cpus[c].proc == Some(p) }

  /** Single execution: at most one CPU has a process as its c->proc, and whenever p->lock
      is free, p is RUNNING exactly when one has. */
  lemma SingleExecution(run: seq<State>, who: seq<nat>, steps: seq<Step>, i: nat, p: nat)
    requires IsRun(run, who, steps) && i < |run| && p < |run[i].procs|
    ensures forall c: nat, d: nat | RunsOn(run[i], p, c) && RunsOn(run[i], p, d) :: c == d
    ensures run[i].procs[p].lock.None? ==> (run[i].procs[p].state == RUNNING <==> exists c: nat :: RunsOn(run[i], p, c))
  {
    var s := run[i];
    RunInv(run, who, steps, i);
    forall c: nat | RunsOn(s, p, c)
      ensures s.procs[p].on == Some(c) && (s.procs[p].lock.None? ==> s.procs[p].state == RUNNING)
    {
      assert CpuOk(s, c);
    }
    assert ProcOk(s, p);
    if s.procs[p].lock.None? && s.procs[p].state == RUNNING {
      var c := s.procs[p].on.value;
      assert CpuOk(s, c);
      assert RunsOn(s, p, c);
    }
  }

  /** sched is called with p->lock and no other lock held and with the state changed, so
      none of its panics can happen. */
  lemma SchedIsSafe(run: seq<State>, who: seq<nat>, steps: seq<Step>, i: nat, c: nat, k: nat)
    requires IsRun(run, who, steps) && i < |run| && Executing(run[i], c, k)
    requires var pc := run[i].procs[k].pc; pc.YieldSwtch? || pc.SleepSwtch? || pc.ExitSwtch?
    ensures run[i].procs[k].lock == Some(c) && run[i].procs[k].state != RUNNING
    ensures HoldsNoLk(run[i], c)
    ensures forall p: nat | p < |run[i].procs| && p != k :: run[i].procs[p].lock != Some(c)
  {
    var s := run[i];
    RunInv(run, who, steps, i);
    assert CpuOk(s, c);
    forall p: nat | p < |s.procs| && p != k
      ensures s.procs[p].lock != Some(c)
    {
      assert ProcOk(s, p);
    }
  }

  /** CPU c is about to acquire a process lock inside wakeup. */
  ghost predicate WaitsInWake(s: State, c: nat) {
    && c < |s.cpus| && s.cpus[c].wake.Some?
    && var w := s.cpus[c].wake.value;
       w.phase.WakeAcquire? && w.k < |s.procs| && s.cpus[c].proc != Some(w.k)
  }

  /** A CPU never waits for a process lock that it already holds. */
  lemma NoSelfDeadlock(run: seq<State>, who: seq<nat>, steps: seq<Step>, i: nat, c: nat)
    requires IsRun(run, who, steps) && i < |run| && c < |run[i].cpus|
    ensures var s := run[i];
            var u := s.cpus[c];
            && u.sched.k < |s.procs|
            && (u.sched.Acquire? && u.wake.None? ==> s.procs[u.sched.k].lock != Some(c))
            && (Executing(s, c, u.sched.k) && !LockHolds(s.procs[u.sched.k].pc) ==> s.procs[u.sched.k].lock != Some(c))
            && (WaitsInWake(s, c) ==> s.procs[u.wake.value.k].lock != Some(c))
  {
    var s := run[i];
    RunInv(run, who, steps, i);
    assert CpuOk(s, c);
    assert ProcOk(s, s.cpus[c].sched.k);
    assert s.cpus[c].wake.Some? && s.cpus[c].wake.value.k < |s.procs| ==> ProcOk(s, s.cpus[c].wake.value.k);
  }

  /** Between its start and its end, a wakeup keeps its channel and its targets. */
  lemma {:induction false} WakeInProgress(run: seq<State>, who: seq<nat>, steps: seq<Step>, c: nat, chan: nat,
                          i: nat, j: nat)
    requires IsRun(run, who, steps) && i < j <= |steps|
    requires who[i] == c && steps[i] == WakeStart(chan)
    requires forall m | i < m < j :: !(who[m] == c && steps[m] == WakeDone)
    ensures c < |run[j].cpus| && run[j].cpus[c].wake.Some?
    ensures run[j].cpus[c].wake.value.chan == chan && run[j].cpus[c].wake.value.targets == Targets(run[i], chan)
    decreases j
  {
    assert Linked(run, who, steps, j);
    assert Next(run[j - 1], who[j - 1], steps[j - 1], run[j]);
    if i + 1 < j {
      hide Next;
      WakeInProgress(run, who, steps, c, chan, i, j - 1);
      assert !(who[j - 1] == c && steps[j - 1] == WakeDone);
      WakeOnward(run[j - 1], who[j - 1], steps[j - 1], run[j], c);
    }
  }

  /** Only a processor's own wakeup steps touch its wakeup. */
  lemma WakeStays(s: State, d: nat, step: Step, s': State, c: nat)
    requires WellSized(s) && d < |s.cpus| && (c < |s.cpus| || c < |s'.cpus|)
    requires SchedStep(s, d, step, s') || ProcStep(s, d, step, s') || TableStep(s, step, s')
    ensures c < |s.cpus| && c < |s'.cpus| && s'.cpus[c].wake == s.cpus[c].wake
    ensures !step.WakeStart? && !step.WakeDone?
  {
    hide ProcStep;
    if ProcStep(s, d, step, s') {
      ProcWakeStays(s, d, step, s', c);
    }
  }

  lemma ProcWakeStays(s: State, d: nat, step: Step, s': State, c: nat)
    requires WellSized(s) && d < |s.cpus| && (c < |s.cpus| || c < |s'.cpus|) && ProcStep(s, d, step, s')
    ensures c < |s.cpus| && c < |s'.cpus| && s'.cpus[c].wake == s.cpus[c].wake
    ensures !step.WakeStart? && !step.WakeDone?
  {
  }

  lemma WakeOnward(s: State, d: nat, step: Step, s': State, c: nat)
    requires Next(s, d, step, s') && (c < |s.cpus| || c < |s'.cpus|)
    ensures c < |s.cpus| && c < |s'.cpus|
    ensures d == c && step.WakeStart? ==> s'.cpus[c].wake.Some? && s'.cpus[c].wake.value.chan == step.chan
    ensures d == c && step.WakeDone? ==> s'.cpus[c].wake.None?
    ensures !(d == c && step.WakeStart?) && !(d == c && step.WakeDone?) ==>
              var w, w' := s.cpus[c].wake, s'.cpus[c].wake;
              w'.Some? == w.Some? && (w.Some? ==> w'.value.chan == w.value.chan && w'.value.targets == w.value.targets)
  {
    hide SchedStep, ProcStep, TableStep;
    if SchedStep(s, d, step, s') || ProcStep(s, d, step, s') || TableStep(s, step, s') {
      WakeStays(s, d, step, s', c);
    }
  }

  /** No lost wakeup. Whoever had released its lock inside sleep(chan, lk) when wakeup(chan)
      began, on whatever CPU and in whatever interleaving, is no longer in that sleep when
      the call is over. */
  lemma NoLostWakeup(run: seq<State>, who: seq<nat>, steps: seq<Step>, c: nat, chan: nat, i: nat, j: nat, p: nat)
    requires IsRun(run, who, steps) && i < j < |steps|
    requires who[i] == c && steps[i] == WakeStart(chan) && who[j] == c && steps[j] == WakeDone
    requires forall m | i < m < j :: !(who[m] == c && steps[m] == WakeDone)
    requires Asleep(run[i], p, chan)
    ensures Woken(run[j + 1], p, chan, run[i].procs[p].epoch)
  {
    WakeInProgress(run, who, steps, c, chan, i, j);
    RunInv(run, who, steps, j);
    assert Linked(run, who, steps, j + 1);
    assert WakeOk(run[j], c);
    var w := run[j].cpus[c].wake.value;
    assert p in w.targets;
    assert TargetOk(run[j], w, p);
  }

  /** Process p has called sleep(chan, lk) and nobody has woken it. */
  ghost predicate Sleeps(s: State, p: nat, chan: nat, lk: nat) {
    && p < |s.procs|
    && var pc := s.procs[p].pc;
       || pc == SleepAcquire(chan, lk) || pc == SleepReleaseLk(chan, lk) || pc == SleepChan(chan, lk)
       || pc == SleepState(chan, lk) || pc == SleepSwtch(chan, lk)
       || (pc == SleepTidy(chan, lk) && s.procs[p].state == SLEEPING)
  }

  /** Whoever holds lk finds every other caller of sleep(chan, lk) already past its release of lk. */
  lemma HolderFindsSleepers(s: State, c: nat, p: nat, chan: nat, lk: nat)
    requires Inv(s) && lk < |s.lks| && s.lks[lk] == Some(c) && c < |s.cpus| && s.cpus[c].sched.k != p
    requires Sleeps(s, p, chan, lk)
    ensures Asleep(s, p, chan)
  {
    assert ProcOk(s, p);
    var pc := s.procs[p].pc;
    if pc.SleepAcquire? || pc.SleepReleaseLk? {
      assert CpuOk(s, s.procs[p].on.value);
    }
  }

  /** No lost wakeup, as a user of the condition lock sees it: wakeup(chan) by a holder of lk
      reaches every other process that has called sleep(chan, lk). */
  lemma WakeupUnderLock(run: seq<State>, who: seq<nat>, steps: seq<Step>, c: nat, chan: nat, lk: nat, i: nat, j: nat,
                        p: nat)
    requires IsRun(run, who, steps) && i < j < |steps|
    requires who[i] == c && steps[i] == WakeStart(chan) && who[j] == c && steps[j] == WakeDone
    requires forall m | i < m < j :: !(who[m] == c && steps[m] == WakeDone)
    requires lk < |run[i].lks| && run[i].lks[lk] == Some(c) && c < |run[i].cpus| && run[i].cpus[c].sched.k != p
    requires Sleeps(run[i], p, chan, lk)
    ensures Woken(run[j + 1], p, chan, run[i].procs[p].epoch)
  {
    RunInv(run, who, steps, i);
    HolderFindsSleepers(run[i], c, p, chan, lk);
    NoLostWakeup(run, who, steps, c, chan, i, j, p);
  }

  // ------------------------------------------------- what sleep gives back

  /** Process p is inside sleep(chan, lk), possibly interrupted on its way out. */
  ghost predicate InSleep(s: State, p: nat, chan: nat, lk: nat) {
    && p < |s.procs|
    && var q := s.procs[p];
       && q.state in {SLEEPING, RUNNABLE, RUNNING}
       && (|| q.pc == SleepAcquire(chan, lk) || q.pc == SleepReleaseLk(chan, lk) || q.pc == SleepChan(chan, lk)
           || q.pc == SleepState(chan, lk) || q.pc == SleepSwtch(chan, lk) || q.pc == SleepTidy(chan, lk)
           || (q.chan == 0 && GoingOut(q.pc, chan, lk)))
  }

  predicate GoingOut(pc: Pc, chan: nat, lk: nat) {
    || pc == SleepRelease(chan, lk) || pc == SleepReacquire(chan, lk)
    || ((pc.YieldAcquire? || pc.YieldSet? || pc.YieldSwtch? || pc.YieldRelease?) && pc.ret == ToReacquire(chan, lk))
  }

  /** CPU c executes p, which is outside sleep and holds lk and no other lock. */
  ghost predicate OutWithLock(s: State, p: nat, lk: nat, c: nat) {
    && Executing(s, c, p) && s.procs[p].pc.Idle? && s.procs[p].state == RUNNING && s.procs[p].chan == 0
    && lk < |s.lks| && forall m | 0 <= m < |s.lks| :: s.lks[m] == Some(c) <==> m == lk
  }

  /** The only way out of sleep is through acquire(lk). */
  lemma SleepStep(s: State, c: nat, step: Step, s': State, p: nat, chan: nat, lk: nat)
    requires Inv(s) && Next(s, c, step, s') && InSleep(s, p, chan, lk)
    ensures InSleep(s', p, chan, lk) || OutWithLock(s', p, lk, c)
  {
    assert CpuOk(s, c);
    hide Inv, ProcStep, SchedStep, WakeStep, TableStep;
    if s.cpus[c].sched.k != p {
      OtherStep(s, c, step, s', p);
    } else if ProcStep(s, c, step, s') {
      OwnStep(s, c, step, s', chan, lk);
    } else {
      AroundStep(s, c, step, s', p);
    }
  }

  /** The process's own statements, on the CPU that executes it. */
  lemma OwnStep(s: State, c: nat, step: Step, s': State, chan: nat, lk: nat)
    requires WellSized(s) && CpuOk(s, c) && ProcStep(s, c, step, s') && InSleep(s, s.cpus[c].sched.k, chan, lk)
    ensures InSleep(s', s.cpus[c].sched.k, chan, lk) || OutWithLock(s', s.cpus[c].sched.k, lk, c)
  {
    if Resumes(step) {
      OwnResume(s, c, step, s', chan, lk);
    }
  }

  lemma OwnResume(s: State, c: nat, step: Step, s': State, chan: nat, lk: nat)
    requires WellSized(s) && CpuOk(s, c) && ProcStep(s, c, step, s') && InSleep(s, s.cpus[c].sched.k, chan, lk)
             && Resumes(step)
    ensures InSleep(s', s.cpus[c].sched.k, chan, lk) || OutWithLock(s', s.cpus[c].sched.k, lk, c)
  {
  }

  /** What the scheduler and wakeup on its own CPU, and the table's other users, do to it. */
  lemma AroundStep(s: State, c: nat, step: Step, s': State, p: nat)
    requires Next(s, c, step, s') && !ProcStep(s, c, step, s') && p == s.cpus[c].sched.k < |s.procs|
    ensures |s'.procs| == |s.procs|
    ensures s'.procs[p] == s.procs[p].(lock := s'.procs[p].lock, on := s'.procs[p].on, state := s'.procs[p].state)
            || s.procs[p].state == UNUSED || s.procs[p].state == ZOMBIE
    ensures s'.procs[p].state == s.procs[p].state || s'.procs[p].state in {RUNNING, RUNNABLE}
            || s.procs[p].state == UNUSED || s.procs[p].state == ZOMBIE
  {
  }

  /** What a CPU can do to a process that it does not run: lock, unlock, wake, spawn, reap, kill. */
  lemma OtherStep(s: State, c: nat, step: Step, s': State, p: nat)
    requires Next(s, c, step, s') && p < |s.procs| && s.cpus[c].sched.k != p
    ensures |s'.procs| == |s.procs|
    ensures s'.procs[p] == s.procs[p].(lock := s'.procs[p].lock) ||
            (s.procs[p].state == SLEEPING && s'.procs[p] == s.procs[p].(state := RUNNABLE)) ||
            s.procs[p].state == UNUSED || s.procs[p].state == ZOMBIE
  {
    if SchedStep(s, c, step, s') {
      SchedTouches(s, c, step, s', p);
    } else if ProcStep(s, c, step, s') {
      ProcTouches(s, c, step, s', p);
    } else {
      hide SchedStep, ProcStep;
    }
  }

  lemma SchedTouches(s: State, c: nat, step: Step, s': State, p: nat)
    requires WellSized(s) && c < |s.cpus| && SchedStep(s, c, step, s') && p < |s.procs|
    ensures |s'.procs| == |s.procs|
    ensures s.cpus[c].sched.k != p || s.procs[p].state != RUNNABLE ==> s'.procs[p].state == s.procs[p].state
    ensures s.cpus[c].sched.k != p ==> s'.procs[p] == s.procs[p]
  {
  }

  lemma ProcTouches(s: State, c: nat, step: Step, s': State, p: nat)
    requires WellSized(s) && c < |s.cpus| && ProcStep(s, c, step, s') && p < |s.procs|
    ensures |s'.procs| == |s.procs|
    ensures s.cpus[c].sched.k != p ==> s'.procs[p] == s.procs[p]
  {
  }

  /** The executing process is marked SLEEPING only at its sched. */
  lemma AsleepStays(s: State, c: nat, step: Step, s': State)
    requires WellSized(s) && CpuOk(s, c) && ProcStep(s, c, step, s') && s.procs[s.cpus[c].sched.k].state == SLEEPING
    ensures s'.procs[s.cpus[c].sched.k].state == SLEEPING
  {
  }

  /** sleep(chan, lk) returns with lk held by the CPU that now runs the process, with no other
      lock, and with p->chan cleared, however the process was woken, moved between CPUs and
      interrupted meanwhile. */
  lemma SleepReturnsLocked(run: seq<State>, who: seq<nat>, steps: seq<Step>, i: nat, j: nat, p: nat, chan: nat, lk: nat)
    returns (c: nat)
    requires IsRun(run, who, steps) && i + 1 < j <= |steps| && steps[i] == SleepStart(chan, lk)
    requires who[i] < |run[i].cpus| && run[i].cpus[who[i]].sched == Away(p)
    requires p < |run[j].procs| && run[j].procs[p].pc.Idle?
    requires forall m | i < m < j :: p < |run[m].procs| && !run[m].procs[p].pc.Idle?
    ensures c < |run[j].cpus| && run[j].cpus[c].proc == Some(p) && lk < |run[j].lks| && run[j].lks[lk] == Some(c)
    ensures forall m | 0 <= m < |run[j].lks| && m != lk :: run[j].lks[m] != Some(c)
    ensures run[j].procs[p].chan == 0 && run[j].procs[p].state == RUNNING
  {
    hide Inv, Next;
    StaysInSleep(run, who, steps, i, j - 1, p, chan, lk);
    RunInv(run, who, steps, j - 1);
    assert Linked(run, who, steps, j);
    SleepStep(run[j - 1], who[j - 1], steps[j - 1], run[j], p, chan, lk);
    c := who[j - 1];
    RunInv(run, who, steps, j);
    ExecutingHas(run[j], c, p);
  }

  lemma ExecutingHas(s: State, c: nat, p: nat)
    requires Inv(s) && Executing(s, c, p)
    ensures s.cpus[c].proc == Some(p)
  {
    assert CpuOk(s, c);
  }

  lemma {:induction false} StaysInSleep(run: seq<State>, who: seq<nat>, steps: seq<Step>, i: nat, j: nat, p: nat,
                                        chan: nat, lk: nat)
    requires IsRun(run, who, steps) && i < j <= |steps| && steps[i] == SleepStart(chan, lk)
    requires who[i] < |run[i].cpus| && run[i].cpus[who[i]].sched == Away(p)
    requires forall m | i < m <= j :: p < |run[m].procs| && !run[m].procs[p].pc.Idle?
    ensures InSleep(run[j], p, chan, lk)
    decreases j
  {
    RunInv(run, who, steps, j - 1);
    assert Linked(run, who, steps, j);
    if i + 1 < j {
      StaysInSleep(run, who, steps, i, j - 1, p, chan, lk);
      SleepStep(run[j - 1], who[j - 1], steps[j - 1], run[j], p, chan, lk);
    } else {
      assert CpuOk(run[i], who[i]);
    }
  }

  /** A sleeping process is woken by kill, or by a wakeup of the very channel that it called sleep
      with, which began before and is still in progress; and then it is RUNNABLE. */
  lemma WokenByItsChannel(run: seq<State>, who: seq<nat>, steps: seq<Step>, i: nat, p: nat) returns (m: nat)
    requires IsRun(run, who, steps) && i < |steps| && p < |run[i].procs| && run[i].procs[p].state == SLEEPING
    requires |run[i + 1].procs| == |run[i].procs| && run[i + 1].procs[p].state != SLEEPING
    ensures run[i + 1].procs[p].state == RUNNABLE
    ensures var pc := run[i].procs[p].pc; pc.SleepTidy? || pc.SleepSwtch?
    ensures steps[i] != Kill(p) ==>
              && m < i && steps[m] == WakeStart(run[i].procs[p].pc.chan) && who[m] == who[i]
              && forall n | m < n < i :: !(who[n] == who[i] && steps[n] == WakeDone)
  {
    hide Inv, Next;
    RunInv(run, who, steps, i);
    assert Linked(run, who, steps, i + 1);
    AwakeStep(run[i], who[i], steps[i], run[i + 1], p);
    m := 0;
    if steps[i] != Kill(p) {
      m := WakeBegan(run, who, steps, i, who[i]);
    }
  }

  lemma AwakeStep(s: State, c: nat, step: Step, s': State, p: nat)
    requires Inv(s) && Next(s, c, step, s') && p < |s.procs| == |s'.procs|
    requires s.procs[p].state == SLEEPING && s'.procs[p].state != SLEEPING
    ensures s'.procs[p].state == RUNNABLE && (s.procs[p].pc.SleepTidy? || s.procs[p].pc.SleepSwtch?)
    ensures step != Kill(p) ==>
              c < |s.cpus| && s.cpus[c].wake.Some? && s.cpus[c].wake.value.chan == s.procs[p].pc.chan
  {
    assert CpuOk(s, c) && ProcOk(s, p);
    assert s.procs[p].on.Some? ==> CpuOk(s, s.procs[p].on.value);
    hide Inv, SchedStep, ProcStep;
    if SchedStep(s, c, step, s') {
      SchedTouches(s, c, step, s', p);
    } else if ProcStep(s, c, step, s') {
      ProcTouches(s, c, step, s', p);
      if s.cpus[c].sched.k == p {
        AsleepStays(s, c, step, s');
      }
    }
  }

  /** A wakeup in progress was begun, on this channel, and has not ended. */
  lemma {:induction false} WakeBegan(run: seq<State>, who: seq<nat>, steps: seq<Step>, i: nat, c: nat) returns (m: nat)
    requires IsRun(run, who, steps) && i <= |steps| && c < |run[i].cpus| && run[i].cpus[c].wake.Some?
    ensures m < i && steps[m] == WakeStart(run[i].cpus[c].wake.value.chan) && who[m] == c
    ensures forall n | m < n < i :: !(who[n] == c && steps[n] == WakeDone)
    decreases i
  {
    assert Linked(run, who, steps, i);
    hide Next;
    if i > 0 {
      WakeOnward(run[i - 1], who[i - 1], steps[i - 1], run[i], c);
      if who[i - 1] == c && steps[i - 1].WakeStart? {
        m := i - 1;
      } else {
        m := WakeBegan(run, who, steps, i - 1, c);
      }
    }
  }

  // ------------------------------------------------------------ the scheduler

  /** How often CPU c has let go of a process in its scheduler loop, in steps i to j - 1. */
  ghost function Passes(who: seq<nat>, steps: seq<Step>, c: nat, i: nat, j: nat): nat
    requires j <= |steps| == |who|
    decreases j
  {
    if j <= i then 0
    else Passes(who, steps, c, i, j - 1) + if who[j - 1] == c && steps[j - 1].SchedRelease? then 1 else 0
  }

  /** The scheduler goes round the table: it comes by every process, in order. */
  lemma {:induction false} RoundRobin(run: seq<State>, who: seq<nat>, steps: seq<Step>, c: nat, i: nat, j: nat)
    requires IsRun(run, who, steps) && i <= j <= |steps| && c < |run[i].cpus|
    ensures c < |run[j].cpus| && |run[j].procs| == |run[i].procs| > 0
    ensures run[j].cpus[c].sched.k == (run[i].cpus[c].sched.k + Passes(who, steps, c, i, j)) % |run[i].procs|
    decreases j
  {
    hide Next, Inv;
    RunInv(run, who, steps, i);
    InTable(run[i], c);
    if i < j {
      RoundRobin(run, who, steps, c, i, j - 1);
      assert Linked(run, who, steps, j);
      PlaceStep(run[j - 1], who[j - 1], steps[j - 1], run[j], c);
      AddMod(run[i].cpus[c].sched.k + Passes(who, steps, c, i, j - 1), |run[i].procs|);
    } else {
      SmallMod(run[i].cpus[c].sched.k, |run[i].procs|);
    }
  }

  lemma InTable(s: State, c: nat)
    requires Inv(s) && c < |s.cpus|
    ensures s.cpus[c].sched.k < |s.procs|
  {
    assert CpuOk(s, c);
  }

  lemma SmallMod(k: nat, n: nat)
    requires k < n
    ensures k % n == k
  {
  }

  lemma AddMod(k: nat, n: nat)
    requires n > 0
    ensures (k + 1) % n == if k % n + 1 == n then 0 else k % n + 1
  {
    var q, r := k / n, k % n;
    if r + 1 == n {
      assert k + 1 == (q + 1) * n + 0;
      DivisionIs(k + 1, q + 1, 0, n);
    } else {
      DivisionIs(k + 1, q, r + 1, n);
    }
  }

  lemma DivisionIs(a: nat, q: nat, r: nat, n: nat)
    requires r < n && a == q * n + r
    ensures a % n == r
  {
    var q', r' := a / n, a % n;
    assert q' * n + r' == q * n + r;
    if q' < q {
      MultiplesApart(q', q, n);
    } else if q < q' {
      MultiplesApart(q, q', n);
    }
  }

  lemma MultiplesApart(x: nat, y: nat, n: nat)
    requires x < y
    ensures x * n + n <= y * n
  {
    assert y * n == x * n + n + (y - x - 1) * n;
  }

  /** Only the release at the end of a turn moves the scheduler on. */
  lemma PlaceStep(s: State, d: nat, step: Step, s': State, c: nat)
    requires Next(s, d, step, s') && c < |s.cpus|
    ensures c < |s'.cpus| && |s'.procs| == |s.procs|
    ensures var k := s.cpus[c].sched.k;
            s'.cpus[c].sched.k ==
            if d == c && step.SchedRelease? then (if k + 1 == |s.procs| then 0 else k + 1) else k
  {
    if ProcStep(s, d, step, s') {
      ProcPlace(s, d, step, s', c);
    } else {
      hide ProcStep;
    }
  }

  lemma ProcPlace(s: State, d: nat, step: Step, s': State, c: nat)
    requires WellSized(s) && d < |s.cpus| && c < |s.cpus| && ProcStep(s, d, step, s')
    ensures c < |s'.cpus| && |s'.procs| == |s.procs| && s'.cpus[c].sched.k == s.cpus[c].sched.k && !step.SchedRelease?
    ensures s.cpus[d].sched.Away? && (c != d ==> s'.cpus[c] == s.cpus[c])
  {
  }

  /** The scheduler runs the process that it comes by exactly if that is RUNNABLE: the CPU then
      goes on to execute it, and otherwise leaves it as it is. */
  lemma TestStep(s: State, c: nat, s': State)
    requires Next(s, c, SchedTest, s')
    ensures var k := s.cpus[c].sched.k;
            && k < |s.procs| && k < |s'.procs| && c < |s'.cpus|
            && (s.procs[k].state == RUNNABLE ==> s'.cpus[c].sched == SetProc(k))
            && (s.procs[k].state != RUNNABLE ==> s'.cpus[c].sched == Release(k) && s'.procs[k] == s.procs[k])
  {
  }

  lemma SchedulerChooses(run: seq<State>, who: seq<nat>, steps: seq<Step>, i: nat, j: nat, c: nat, k: nat)
    requires IsRun(run, who, steps) && i < j <= |steps| && who[i] == c && steps[i] == SchedTest
    requires c < |run[i].cpus| && run[i].cpus[c].sched.k == k < |run[i].procs|
    requires c < |run[j].cpus| && !run[j].cpus[c].sched.SetProc? && !run[j].cpus[c].sched.Switch?
    requires forall m | i < m < j ::
               c < |run[m].cpus| && (run[m].cpus[c].sched.SetProc? || run[m].cpus[c].sched.Switch?)
    ensures k < |run[i + 1].procs| && k < |run[j].procs|
    ensures run[i].procs[k].state == RUNNABLE ==>
              run[j].cpus[c].sched == Away(k) && run[j].cpus[c].proc == Some(k) && run[j].procs[k].state == RUNNING
    ensures run[i].procs[k].state != RUNNABLE ==>
              j == i + 1 && run[j].cpus[c].sched == Release(k) && run[j].procs[k] == run[i].procs[k]
  {
    assert Linked(run, who, steps, i + 1);
    hide Inv;
    TestStep(run[i], c, run[i + 1]);
    hide Next;
    if run[i].procs[k].state == RUNNABLE {
      StillSwitching(run, who, steps, i, j - 1, c, k);
      RunInv(run, who, steps, j - 1);
      assert Linked(run, who, steps, j);
      SwitchStep(run[j - 1], who[j - 1], steps[j - 1], run[j], c);
      RunInv(run, who, steps, j);
      AwayRuns(run[j], c);
    }
  }

  lemma {:induction false} StillSwitching(run: seq<State>, who: seq<nat>, steps: seq<Step>, i: nat, j: nat, c: nat,
                          k: nat)
    requires IsRun(run, who, steps) && i < j <= |steps| && who[i] == c && steps[i] == SchedTest
    requires c < |run[i].cpus| && run[i].cpus[c].sched.k == k < |run[i].procs| && run[i].procs[k].state == RUNNABLE
    requires forall m | i < m <= j ::
               c < |run[m].cpus| && (run[m].cpus[c].sched.SetProc? || run[m].cpus[c].sched.Switch?)
    ensures run[j].cpus[c].sched.k == k
    decreases j
  {
    assert Linked(run, who, steps, j);
    if i + 1 < j {
      hide Next;
      StillSwitching(run, who, steps, i, j - 1, c, k);
      PlaceStep(run[j - 1], who[j - 1], steps[j - 1], run[j], c);
      RunInv(run, who, steps, j - 1);
      NoRelease(run[j - 1], who[j - 1], steps[j - 1], run[j], c);
    }
  }

  lemma NoRelease(s: State, d: nat, step: Step, s': State, c: nat)
    requires Next(s, d, step, s') && c < |s.cpus| && (s.cpus[c].sched.SetProc? || s.cpus[c].sched.Switch?)
    ensures !(d == c && step.SchedRelease?)
  {
    hide ProcStep;
    if ProcStep(s, d, step, s') && step.SchedRelease? {
      ProcPlace(s, d, step, s', c);
    }
  }

  lemma SwitchStep(s: State, d: nat, step: Step, s': State, c: nat)
    requires Inv(s) && Next(s, d, step, s') && c < |s.cpus| && (s.cpus[c].sched.SetProc? || s.cpus[c].sched.Switch?)
    requires c < |s'.cpus| && !s'.cpus[c].sched.SetProc? && !s'.cpus[c].sched.Switch?
    ensures s'.cpus[c].sched == Away(s.cpus[c].sched.k)
    ensures s.cpus[c].sched.k < |s'.procs| && s'.procs[s.cpus[c].sched.k].state == RUNNING
  {
    assert CpuOk(s, c) && CpuOk(s, d);
    hide Inv, ProcStep;
    if ProcStep(s, d, step, s') {
      ProcPlace(s, d, step, s', c);
    }
  }

  lemma AwayRuns(s: State, c: nat)
    requires Inv(s) && c < |s.cpus| && s.cpus[c].sched.Away?
    ensures s.cpus[c].sched.k < |s.procs| && s.cpus[c].proc == Some(s.cpus[c].sched.k)
  {
    assert CpuOk(s, c);
  }
}
