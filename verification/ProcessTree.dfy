/**
 fork, exit, wait and reparent as an interleaving of atomic steps over the process
 table. wait_lock is taken and released by steps of its own; what the code does under one
 p->lock is one step. LIVE stands for SLEEPING, RUNNABLE and RUNNING; a process asleep
 in wait is told by its pc. Process ids are unbounded.
 */
module ProcessTree {
  import opened Options

  datatype ProcState = UNUSED | USED | LIVE | ZOMBIE

  /** Where a process's kernel thread is, between the steps of fork, exit and wait. */
  datatype Pc =
    | User
    | ForkAlloc(child: nat)                  // np allocated
    | ForkLocked(child: nat)                 // wait_lock held, np->parent to be set
    | ForkSet(child: nat)                    // wait_lock to be released
    | ForkDone(child: nat)                   // np->state to be set
    | ExitScan(k: nat)                       // reparent, at process k
    | ExitMoved(k: nat)                      // k given to init, init to be woken
    | ExitNotify | ExitMark | ExitRelease
    | WaitScan(k: nat, kids: bool)           // wait's loop, at process k
    | WaitDone(r: int)                       // wait_lock to be released, r returned
    | WaitAsleep | WaitWoken
    | Dead

  /** `maker` is history: the process that allocated this one. */
  datatype Proc = Proc(state: ProcState, parent: Option<nat>, pid: nat, xstate: int, pc: Pc, maker: nat)

  /** `exited` and `reaped` are history: the status each pid exited with, and the status
      that wait reported for it. */
  datatype State = State(procs: seq<Proc>, lock: Option<nat>, init: nat, nextpid: nat, exited: map<nat, int>,
      reaped: map<nat, int>)

  const UnusedProc := Proc(UNUSED, None, 0, 0, Dead, 0)

  // ------------------------------------------------------------------- steps

  datatype Step =
    | Fork(child: nat) | ForkFail | ForkLock | ForkParent | ForkUnlock | ForkRun
    | ExitLock | ExitVisit | ExitWakeInit | ExitScanned | ExitWakeParent | ExitZombie(status: int) | ExitUnlock
    | WaitLock | WaitVisit | WaitReap | WaitCopyFail | WaitNoKids | WaitKilled | WaitSleep | WaitRelock | WaitUnlock
    | Rouse                                  // kill, or another wakeup of this process

  function Set(s: State, p: nat, x: Proc): State
    requires p < |s.procs|
  {
    s.(procs := s.procs[p := x])
  }

  function At(s: State, p: nat, pc: Pc): State
    requires p < |s.procs|
  {
    Set(s, p, s.procs[p].(pc := pc))
  }

  /** wakeup(q): only a process asleep in wait on its own address notices. */
  function Wakeup(s: State, q: nat): State {
    if q < |s.procs| && s.procs[q].pc.WaitAsleep? then At(s, q, WaitWoken) else s
  }

  ghost predicate Child(s: State, m: nat, p: nat) { m < |s.procs| && s.procs[m].parent == Some(p) }

  ghost predicate ForkStep(s: State, p: nat, step: Step, s': State)
    requires p < |s.procs|
  {
    var q := s.procs[p];
    match step
    case Fork(c) =>
      && q.pc.User? && c < |s.procs| && s.procs[c].state == UNUSED
      && s' == At(Set(s, c, s.procs[c].(state := USED, pid := s.nextpid, maker := p)).(nextpid := s.nextpid + 1), p,
           ForkAlloc(c))
    case ForkFail => q.pc.ForkAlloc? && q.pc.child < |s.procs| && s' == At(Set(s, q.pc.child, UnusedProc), p, User)
    case ForkLock => q.pc.ForkAlloc? && s.lock.None? && s' == At(s, p, ForkLocked(q.pc.child)).(lock := Some(p))
    case ForkParent =>
      && q.pc.ForkLocked? && q.pc.child < |s.procs|
      && s' == At(Set(s, q.pc.child, s.procs[q.pc.child].(parent := Some(p))), p, ForkSet(q.pc.child))
    case ForkUnlock => q.pc.ForkSet? && s' == At(s, p, ForkDone(q.pc.child)).(lock := None)
    case ForkRun =>
      && q.pc.ForkDone? && q.pc.child < |s.procs|
      && s' == At(Set(s, q.pc.child, s.procs[q.pc.child].(state := LIVE, pc := User)), p, User)
    case _ => false
  }

  ghost predicate ExitStep(s: State, p: nat, step: Step, s': State)
    requires p < |s.procs|
  {
    var q := s.procs[p];
    match step
    case ExitLock => q.pc.User? && p != s.init && s.lock.None? && s' == At(s, p, ExitScan(0)).(lock := Some(p))
    case ExitVisit =>
      && q.pc.ExitScan? && q.pc.k < |s.procs|
      && (Child(s, q.pc.k, p) ==>
           s' == At(Set(s, q.pc.k, s.procs[q.pc.k].(parent := Some(s.init))), p, ExitMoved(q.pc.k)))
      && (!Child(s, q.pc.k, p) ==> s' == At(s, p, ExitScan(q.pc.k + 1)))
    case ExitWakeInit => q.pc.ExitMoved? && s' == At(Wakeup(s, s.init), p, ExitScan(q.pc.k + 1))
    case ExitScanned => q.pc.ExitScan? && q.pc.k == |s.procs| && s' == At(s, p, ExitNotify)
    case ExitWakeParent => q.pc.ExitNotify? && q.parent.Some? && s' == At(Wakeup(s, q.parent.value), p, ExitMark)
    case ExitZombie(status) =>
      && q.pc.ExitMark?
      && s' == Set(s, p, q.(state := ZOMBIE, xstate := status, pc := ExitRelease)).(exited := s.exited[q.pid := status])
    case ExitUnlock => q.pc.ExitRelease? && s' == At(s, p, Dead).(lock := None)
    case _ => false
  }

  ghost predicate WaitStep(s: State, p: nat, step: Step, s': State)
    requires p < |s.procs|
  {
    var q := s.procs[p];
    match step
    case WaitLock => q.pc.User? && s.lock.None? && s' == At(s, p, WaitScan(0, false)).(lock := Some(p))
    case WaitVisit =>
      && q.pc.WaitScan? && q.pc.k < |s.procs|
      && (Child(s, q.pc.k, p) ==> s.procs[q.pc.k].state != ZOMBIE)
      && s' == At(s, p, WaitScan(q.pc.k + 1, q.pc.kids || Child(s, q.pc.k, p)))
    case WaitReap =>
      && q.pc.WaitScan? && Child(s, q.pc.k, p) && s.procs[q.pc.k].state == ZOMBIE
      && var z := s.procs[q.pc.k];
         s' == At(Set(s, q.pc.k, UnusedProc), p, WaitDone(z.pid)).(reaped := s.reaped[z.pid := z.xstate])
    case WaitCopyFail =>
      q.pc.WaitScan? && Child(s, q.pc.k, p) && s.procs[q.pc.k].state == ZOMBIE && s' == At(s, p, WaitDone(-1))
    case WaitNoKids => q.pc.WaitScan? && q.pc.k == |s.procs| && !q.pc.kids && s' == At(s, p, WaitDone(-1))
    case WaitKilled => q.pc.WaitScan? && q.pc.k == |s.procs| && s' == At(s, p, WaitDone(-1))
    case WaitSleep =>
      q.pc.WaitScan? && q.pc.k == |s.procs| && q.pc.kids && s' == At(s, p, WaitAsleep).(lock := None)
    case WaitRelock => q.pc.WaitWoken? && s.lock.None? && s' == At(s, p, WaitScan(0, false)).(lock := Some(p))
    case WaitUnlock => q.pc.WaitDone? && s' == At(s, p, User).(lock := None)
    case Rouse => q.pc.WaitAsleep? && s' == At(s, p, WaitWoken)
    case _ => false
  }

  ghost predicate Next(s: State, p: nat, step: Step, s': State) {
    && p < |s.procs|
    && (ForkStep(s, p, step, s') || ExitStep(s, p, step, s') || WaitStep(s, p, step, s'))
  }

  /** The table as userinit leaves it: init alone. */
  ghost predicate Init(s: State) {
    && s.init < |s.procs| && s.lock.None? && s.exited == map[] && s.reaped == map[]
    && s.procs[s.init] == Proc(LIVE, None, 1, 0, User, s.init) && s.nextpid == 2
    && forall p | 0 <= p < |s.procs| && p != s.init :: s.procs[p] == UnusedProc
  }

  // --------------------------------------------------------------- invariant

  predicate Holds(pc: Pc) {
    || pc.ForkLocked? || pc.ForkSet? || pc.ExitScan? || pc.ExitMoved? || pc.ExitNotify? || pc.ExitMark?
    || pc.ExitRelease?
    || pc.WaitScan? || pc.WaitDone?
  }

  predicate Forks(pc: Pc) { pc.ForkAlloc? || pc.ForkLocked? || pc.ForkSet? || pc.ForkDone? }

  predicate Exits(pc: Pc) { pc.ExitScan? || pc.ExitMoved? || pc.ExitNotify? || pc.ExitMark? || pc.ExitRelease? }

  ghost predicate Zombie(s: State, m: nat, p: nat) { Child(s, m, p) && s.procs[m].state == ZOMBIE }

  ghost predicate Alive(s: State, p: nat) { p < |s.procs| && s.procs[p].state == LIVE }

  /** A process's place in the tree. */
  ghost predicate TreeOk(s: State, p: nat) {
    && p < |s.procs|
    && var q := s.procs[p];
       && (q.state == UNUSED ==> q.parent.None?)
       && (q.state == USED ==>
             && Alive(s, q.maker) && Forks(s.procs[q.maker].pc) && s.procs[q.maker].pc.child == p
             && s.procs[q.maker].pid < q.pid
             && q.parent == (if s.procs[q.maker].pc.ForkSet? || s.procs[q.maker].pc.ForkDone? then Some(q.maker)
                  else None))
       && (q.state in {LIVE, ZOMBIE} && p != s.init ==>
            q.parent.Some? && Alive(s, q.parent.value) && s.procs[q.parent.value].pid < q.pid)
       && (p == s.init ==> q.state == LIVE && q.parent.None? && !Exits(q.pc))
  }

  ghost predicate ThreadOk(s: State, p: nat) {
    && p < |s.procs|
    && var q := s.procs[p];
       && (q.state == LIVE <==> !(q.pc.ExitRelease? || q.pc.Dead?))
       && (q.pc.ExitRelease? ==> q.state == ZOMBIE)
       && (Holds(q.pc) <==> s.lock == Some(p))
       && (Forks(q.pc) ==>
            q.pc.child < |s.procs| && s.procs[q.pc.child].state == USED && s.procs[q.pc.child].maker == p)
  }

  ghost predicate NoChildBelow(s: State, p: nat, k: nat) {
    forall m: nat {:trigger Child(s, m, p)} | m < k :: !Child(s, m, p)
  }

  ghost predicate NoZombieBelow(s: State, p: nat, k: nat) {
    forall m: nat {:trigger Zombie(s, m, p)} | m < k :: !Zombie(s, m, p)
  }

  ghost predicate HasChildBelow(s: State, p: nat, k: nat) {
    exists m: nat {:trigger Child(s, m, p)} :: m < k && Child(s, m, p)
  }

  /** How far a scan of the table has come, and what a sleeper in wait may rely on. */
  ghost predicate ScanOk(s: State, p: nat) {
    && p < |s.procs|
    && match s.procs[p].pc
       case ExitScan(k) => NoChildBelow(s, p, k)
       case ExitMoved(k) => NoChildBelow(s, p, k + 1)
       case ExitNotify => NoChildBelow(s, p, |s.procs|)
       case ExitMark => NoChildBelow(s, p, |s.procs|) && ParentAwake(s, p)
       case ExitRelease => ParentAwake(s, p)
       case WaitScan(k, kids) => k <= |s.procs| && (kids <==> HasChildBelow(s, p, k)) && NoZombieBelow(s, p, k)
       case WaitAsleep => HasChildBelow(s, p, |s.procs|) && forall m: nat | Zombie(s, m, p) :: JustMoved(s, m, p)
       case _ => true
  }

  ghost predicate ParentAwake(s: State, p: nat) {
    && p < |s.procs|
    && (s.procs[p].parent.Some? && s.procs[p].parent.value < |s.procs| ==>
         !s.procs[s.procs[p].parent.value].pc.WaitAsleep?)
  }

  /** Zombie m has just been given to init by the holder of wait_lock, which wakes init next. */
  ghost predicate JustMoved(s: State, m: nat, p: nat) {
    p == s.init && s.lock.Some? && s.lock.value < |s.procs| && s.procs[s.lock.value].pc == ExitMoved(m)
  }

  ghost predicate PidOk(s: State, p: nat) {
    && p < |s.procs| && s.init < |s.procs|
    && var q := s.procs[p];
       && (q.state != UNUSED ==> 0 < q.pid < s.nextpid && (p != s.init ==> s.procs[s.init].pid < q.pid))
       && (q.state in {LIVE, USED} ==> q.pid !in s.exited)
       && (q.state == ZOMBIE ==> q.pid in s.exited && s.exited[q.pid] == q.xstate && q.pid !in s.reaped)
  }

  ghost predicate PidsDiffer(s: State, p: nat, q: nat) {
    && p < |s.procs| && q < |s.procs|
    && (p != q && s.procs[p].state != UNUSED && s.procs[q].state != UNUSED ==> s.procs[p].pid != s.procs[q].pid)
  }

  ghost predicate HistoryOk(s: State) {
    && (forall x | x in s.exited :: x < s.nextpid)
    && (forall x | x in s.reaped :: x in s.exited && s.reaped[x] == s.exited[x])
  }

  ghost predicate Trees(s: State) {
    s.init < |s.procs| && forall p: nat {:trigger TreeOk(s, p)} | p < |s.procs| :: TreeOk(s, p)
  }

  ghost predicate Threads(s: State) {
    forall p: nat {:trigger ThreadOk(s, p)} | p < |s.procs| :: ThreadOk(s, p)
  }

  ghost predicate Scans(s: State) {
    forall p: nat {:trigger ScanOk(s, p)} | p < |s.procs| :: ScanOk(s, p)
  }

  ghost predicate Pids(s: State) {
    && HistoryOk(s)
    && (forall p: nat {:trigger PidOk(s, p)} | p < |s.procs| :: PidOk(s, p))
    && (forall p: nat, q: nat {:trigger PidsDiffer(s, p, q)} | p < |s.procs| && q < |s.procs| :: PidsDiffer(s, p, q))
  }

  ghost predicate Inv(s: State) {
    Trees(s) && Threads(s) && Scans(s) && Pids(s) && (s.lock.Some? ==> s.lock.value < |s.procs|)
  }

  // ------------------------------------------------ steps that only move a thread

  /** Process m has the same children, and the same zombies among them, before and after. */
  ghost predicate SameKids(s: State, s': State, m: nat) {
    && |s'.procs| == |s.procs|
    && (forall x: nat {:trigger Child(s', x, m)} :: Child(s', x, m) <==> Child(s, x, m))
    && (forall x: nat {:trigger Zombie(s', x, m)} :: Zombie(s', x, m) <==> Zombie(s, x, m))
  }

  lemma SameScan(s: State, s': State, m: nat)
    requires ScanOk(s, m) && SameKids(s, s', m) && s'.procs[m].pc == s.procs[m].pc
    requires s.procs[m].pc.ExitMark? || s.procs[m].pc.ExitRelease? ==> ParentAwake(s', m)
    requires s.procs[m].pc.WaitAsleep? ==>
               forall x: nat {:trigger JustMoved(s', x, m)} | JustMoved(s, x, m) :: JustMoved(s', x, m)
    ensures ScanOk(s', m)
  {
    var n := |s.procs|;
    var pc := s.procs[m].pc;
    var k := if pc.ExitScan? || pc.ExitMoved? || pc.WaitScan? then pc.k else 0;
    assert NoChildBelow(s, m, k) ==> NoChildBelow(s', m, k);
    assert NoChildBelow(s, m, k + 1) ==> NoChildBelow(s', m, k + 1);
    assert NoChildBelow(s, m, n) ==> NoChildBelow(s', m, n);
    assert NoZombieBelow(s, m, k) ==> NoZombieBelow(s', m, k);
    SameHasChild(s, s', m, k);
    SameHasChild(s, s', m, n);
  }

  lemma SameHasChild(s: State, s': State, m: nat, k: nat)
    requires SameKids(s, s', m)
    ensures HasChildBelow(s, m, k) <==> HasChildBelow(s', m, k)
  {
    if HasChildBelow(s, m, k) {
      var x: nat :| x < k && Child(s, x, m);
      assert Child(s', x, m);
    }
  }

  /** Only p's pc and perhaps wait_lock change. */
  ghost predicate Moves(s: State, p: nat, pc: Pc, s': State) {
    && p < |s.procs| && s' == s.(procs := s.procs[p := s.procs[p].(pc := pc)], lock := s'.lock)
    && (s'.lock == s.lock || (s.lock in {None, Some(p)} && s'.lock in {None, Some(p)}))
  }

  /** What fork has done so far: the child, and whether it has its parent. */
  function Stage(pc: Pc): Option<(nat, bool)> {
    if Forks(pc) then Some((pc.child, pc.ForkSet? || pc.ForkDone?)) else None
  }

  lemma MoveTrees(s: State, p: nat, pc: Pc, s': State)
    requires Trees(s) && Moves(s, p, pc, s') && Stage(pc) == Stage(s.procs[p].pc) && (p == s.init ==> !Exits(pc))
    ensures Trees(s')
  {
    forall m: nat | m < |s'.procs|
      ensures TreeOk(s', m)
    {
      assert TreeOk(s, m);
    }
  }

  lemma MoveThreads(s: State, p: nat, pc: Pc, s': State)
    requires Threads(s) && Moves(s, p, pc, s') && ThreadOk(s', p)
    ensures Threads(s')
  {
    forall m: nat | m < |s'.procs|
      ensures ThreadOk(s', m)
    {
      assert ThreadOk(s, m);
    }
  }

  lemma MovePids(s: State, p: nat, pc: Pc, s': State)
    requires Pids(s) && Moves(s, p, pc, s')
    ensures Pids(s')
  {
    forall m: nat | m < |s'.procs|
      ensures PidOk(s', m)
    {
      assert PidOk(s, m);
    }
    forall m: nat, n: nat | m < |s'.procs| && n < |s'.procs|
      ensures PidsDiffer(s', m, n)
    {
      assert PidsDiffer(s, m, n);
    }
  }

  lemma MoveScans(s: State, p: nat, pc: Pc, s': State)
    requires Inv(s) && Moves(s, p, pc, s') && ScanOk(s', p)
    requires pc.WaitAsleep? ==> s.lock == Some(p)
    requires s.procs[p].pc.ExitMoved? && s.init < |s.procs| ==> !s.procs[s.init].pc.WaitAsleep?
    ensures Scans(s')
  {
    assert ThreadOk(s, p);
    forall m: nat | m < |s'.procs|
      ensures ScanOk(s', m)
    {
      if m != p {
        assert ScanOk(s, m) && ThreadOk(s, m);
        MoveKids(s, p, pc, s', m);
        assert s.lock == Some(m) ==> !pc.WaitAsleep?;
        assert s.procs[m].pc.ExitMark? || s.procs[m].pc.ExitRelease? ==> ParentAwake(s, m);
        SameScan(s, s', m);
      }
    }
  }

  lemma MoveKids(s: State, p: nat, pc: Pc, s': State, m: nat)
    requires Moves(s, p, pc, s')
    ensures SameKids(s, s', m)
  {
    forall x: nat
      ensures Child(s', x, m) <==> Child(s, x, m)
      ensures Zombie(s', x, m) <==> Zombie(s, x, m)
    {
    }
  }

  lemma MoveKeeps(s: State, p: nat, pc: Pc, s': State)
    requires Inv(s) && Moves(s, p, pc, s') && ThreadOk(s', p) && ScanOk(s', p)
    requires Stage(pc) == Stage(s.procs[p].pc) && (p == s.init ==> !Exits(pc))
    requires pc.WaitAsleep? ==> s.lock == Some(p)
    requires s.procs[p].pc.ExitMoved? && s.init < |s.procs| ==> !s.procs[s.init].pc.WaitAsleep?
    ensures Inv(s')
  {
    MoveTrees(s, p, pc, s');
    MoveThreads(s, p, pc, s');
    MoveScans(s, p, pc, s');
    MovePids(s, p, pc, s');
  }

  lemma WakeupKeeps(s: State, q: nat)
    requires Inv(s)
    ensures Inv(Wakeup(s, q)) && |Wakeup(s, q).procs| == |s.procs| && Wakeup(s, q).lock == s.lock
    ensures q < |s.procs| ==> !Wakeup(s, q).procs[q].pc.WaitAsleep?
  {
    if q < |s.procs| && s.procs[q].pc.WaitAsleep? {
      assert ThreadOk(s, q);
      MoveKeeps(s, q, WaitWoken, Wakeup(s, q));
    }
  }

  // ------------------------------------------- steps that edit the table

  /** Only the records of p and c change, and wait_lock stays. */
  ghost predicate Edits(s: State, p: nat, c: nat, s': State) {
    && p < |s.procs| && c < |s.procs| && |s'.procs| == |s.procs| && s'.init == s.init && s'.lock == s.lock
    && forall x | 0 <= x < |s.procs| && x != p && x != c :: s'.procs[x] == s.procs[x]
  }

  /** A living process goes on living, and its fork of any child but c is not affected. */
  ghost predicate Lives(s: State, x: nat, c: nat, s': State) {
    Alive(s, x) ==>
      && Alive(s', x) && s'.procs[x].pid == s.procs[x].pid
      && (Forks(s.procs[x].pc) && s.procs[x].pc.child != c ==> s'.procs[x].pc == s.procs[x].pc)
  }

  lemma EditTrees(s: State, p: nat, c: nat, s': State)
    requires Trees(s) && Edits(s, p, c, s') && TreeOk(s', p) && TreeOk(s', c) && Lives(s, p, c, s')
             && Lives(s, c, c, s')
    ensures Trees(s')
  {
    forall m: nat | m < |s'.procs|
      ensures TreeOk(s', m)
    {
      assert TreeOk(s, m);
    }
  }

  lemma EditThreads(s: State, p: nat, c: nat, s': State)
    requires Threads(s) && Edits(s, p, c, s') && ThreadOk(s', p) && ThreadOk(s', c)
    requires s.procs[p].state == USED ==> s'.procs[p].state == USED && s'.procs[p].maker == s.procs[p].maker
    requires s.procs[c].state == USED ==>
               s.procs[c].maker == p || (s'.procs[c].state == USED && s'.procs[c].maker == s.procs[c].maker)
    ensures Threads(s')
  {
    forall m: nat | m < |s'.procs|
      ensures ThreadOk(s', m)
    {
      assert ThreadOk(s, m);
    }
  }

  lemma EditScans(s: State, p: nat, c: nat, s': State)
    requires Inv(s) && Edits(s, p, c, s') && ScanOk(s', p) && ScanOk(s', c)
    requires forall m: nat {:trigger SameKids(s, s', m)} | m < |s.procs| && m != p && m != c ::
               SameKids(s, s', m) || ScanOk(s', m)
    requires s'.procs[p].pc.WaitAsleep? ==> s.procs[p].pc.WaitAsleep?
    requires s'.procs[c].pc.WaitAsleep? ==> s.procs[c].pc.WaitAsleep?
    requires !s.procs[p].pc.ExitMoved? && (s.procs[c].pc.ExitMoved? ==> s'.procs[c].pc == s.procs[c].pc)
    ensures Scans(s')
  {
    forall m: nat | m < |s'.procs|
      ensures ScanOk(s', m)
    {
      if m != p && m != c && !ScanOk(s', m) {
        assert ScanOk(s, m) && ThreadOk(s, m) && SameKids(s, s', m);
        SameScan(s, s', m);
      }
    }
  }

  /** A record that stays in use keeps its pid. */
  ghost predicate KeepsPid(s: State, x: nat, s': State) {
    && x < |s.procs| && x < |s'.procs|
    && (s'.procs[x].state != UNUSED ==> s.procs[x].state != UNUSED && s'.procs[x].pid == s.procs[x].pid)
  }

  lemma EditPids(s: State, p: nat, c: nat, s': State)
    requires Trees(s) && Pids(s) && Edits(s, p, c, s') && KeepsPid(s, p, s') && KeepsPid(s, c, s') && PidOk(s', p)
             && PidOk(s', c)
    requires s'.exited == s.exited && s'.reaped == s.reaped && s'.nextpid == s.nextpid && Alive(s', s.init)
    ensures Pids(s')
  {
    forall m: nat | m < |s'.procs|
      ensures PidOk(s', m)
    {
      assert PidOk(s, m);
    }
    forall m: nat, n: nat | m < |s'.procs| && n < |s'.procs|
      ensures PidsDiffer(s', m, n)
    {
      assert PidsDiffer(s, m, n);
    }
  }

  // -------------------------------------------------------------------- fork

  lemma ForkKeeps(s: State, p: nat, c: nat, s': State)
    requires Inv(s) && p < |s.procs| && ForkStep(s, p, Fork(c), s')
    ensures Inv(s')
  {
    assert ThreadOk(s, p) && ThreadOk(s, c) && TreeOk(s, p) && TreeOk(s, c) && PidOk(s, p) && PidOk(s, s.init)
        && TreeOk(s, s.init);
    hide Trees, Threads, Scans, Pids;
    EditTrees(s, p, c, s');
    EditThreads(s, p, c, s');
    ForkKids(s, p, Fork(c), s');
    EditScans(s, p, c, s');
    NewPid(s, p, c, s');
  }

  lemma NewPid(s: State, p: nat, c: nat, s': State)
    requires Inv(s) && p < |s.procs| && ForkStep(s, p, Fork(c), s')
    ensures Pids(s')
  {
    assert TreeOk(s, s.init) && PidOk(s, s.init) && PidOk(s, p) && ThreadOk(s, p);
    forall m: nat | m < |s'.procs|
      ensures PidOk(s', m)
    {
      assert PidOk(s, m);
    }
    forall m: nat, n: nat | m < |s'.procs| && n < |s'.procs|
      ensures PidsDiffer(s', m, n)
    {
      assert PidsDiffer(s, m, n) && PidOk(s, m) && PidOk(s, n);
    }
  }

  lemma ForkKids(s: State, p: nat, step: Step, s': State)
    requires Inv(s) && p < |s.procs| && ForkStep(s, p, step, s')
    ensures forall m: nat {:trigger SameKids(s, s', m)} | m != p :: SameKids(s, s', m)
  {
    assert ThreadOk(s, p);
    var c := if step.Fork? then step.child else s.procs[p].pc.child;
    assert TreeOk(s, c);
    forall m: nat | m != p
      ensures SameKids(s, s', m)
    {
      forall x: nat
        ensures Child(s', x, m) <==> Child(s, x, m)
        ensures Zombie(s', x, m) <==> Zombie(s, x, m)
      {
      }
    }
  }

  lemma ForkEditKeeps(s: State, p: nat, step: Step, s': State)
    requires Inv(s) && p < |s.procs| && ForkStep(s, p, step, s')
             && (step.ForkFail? || step.ForkParent? || step.ForkRun?)
    ensures Inv(s')
  {
    ForkEditTrees(s, p, step, s');
    ForkEditThreads(s, p, step, s');
    ForkEditScans(s, p, step, s');
    ForkEditPids(s, p, step, s');
  }

  lemma ForkEditThreads(s: State, p: nat, step: Step, s': State)
    requires Inv(s) && p < |s.procs| && ForkStep(s, p, step, s')
             && (step.ForkFail? || step.ForkParent? || step.ForkRun?)
    ensures Threads(s')
  {
    assert ThreadOk(s, p);
    var c := s.procs[p].pc.child;
    assert ThreadOk(s, c) && TreeOk(s, p) && TreeOk(s, c);
    EditThreads(s, p, c, s');
  }

  lemma ForkEditPids(s: State, p: nat, step: Step, s': State)
    requires Inv(s) && p < |s.procs| && ForkStep(s, p, step, s')
             && (step.ForkFail? || step.ForkParent? || step.ForkRun?)
    ensures Pids(s')
  {
    assert ThreadOk(s, p);
    var c := s.procs[p].pc.child;
    assert ThreadOk(s, c) && TreeOk(s, p) && TreeOk(s, c) && PidOk(s, p) && PidOk(s, c) && TreeOk(s, s.init);
    EditPids(s, p, c, s');
  }

  lemma ForkEditScans(s: State, p: nat, step: Step, s': State)
    requires Inv(s) && p < |s.procs| && ForkStep(s, p, step, s')
             && (step.ForkFail? || step.ForkParent? || step.ForkRun?)
    ensures Scans(s')
  {
    assert ThreadOk(s, p);
    var c := s.procs[p].pc.child;
    assert ThreadOk(s, c);
    ForkKids(s, p, step, s');
    EditScans(s, p, c, s');
  }

  lemma ForkEditTrees(s: State, p: nat, step: Step, s': State)
    requires Inv(s) && p < |s.procs| && ForkStep(s, p, step, s')
             && (step.ForkFail? || step.ForkParent? || step.ForkRun?)
    ensures Trees(s')
  {
    assert ThreadOk(s, p);
    var c := s.procs[p].pc.child;
    assert TreeOk(s, p) && TreeOk(s, c);
    EditTrees(s, p, c, s');
  }

  lemma ForkMoveKeeps(s: State, p: nat, step: Step, s': State)
    requires Inv(s) && p < |s.procs| && ForkStep(s, p, step, s') && (step.ForkLock? || step.ForkUnlock?)
    ensures Inv(s')
  {
    assert ThreadOk(s, p) && TreeOk(s, p);
    MoveKeeps(s, p, s'.procs[p].pc, s');
  }

  // -------------------------------------------------------------------- exit

  lemma ExitMoveKeeps(s: State, p: nat, step: Step, s': State)
    requires Inv(s) && p < |s.procs| && ExitStep(s, p, step, s')
    requires step.ExitLock? || step.ExitScanned? || step.ExitUnlock?
             || (step.ExitVisit? && !Child(s, s.procs[p].pc.k, p))
    ensures Inv(s')
  {
    assert ThreadOk(s, p) && TreeOk(s, p) && ScanOk(s, p) && TreeOk(s, s.init);
    MoveKids(s, p, s'.procs[p].pc, s', p);
    assert NoChildBelow(s', p, 0);
    MoveKeeps(s, p, s'.procs[p].pc, s');
  }

  lemma ExitWakeInitKeeps(s: State, p: nat, s': State)
    requires Inv(s) && p < |s.procs| && ExitStep(s, p, ExitWakeInit, s')
    ensures Inv(s')
  {
    var t := Wakeup(s, s.init);
    WakeupKeeps(s, s.init);
    assert ThreadOk(s, p) && TreeOk(s, p) && TreeOk(s, s.init) && ThreadOk(t, p) && ScanOk(t, p);
    MoveKids(t, p, s'.procs[p].pc, s', p);
    MoveKeeps(t, p, s'.procs[p].pc, s');
  }

  lemma ExitWakeParentKeeps(s: State, p: nat, s': State)
    requires Inv(s) && p < |s.procs| && ExitStep(s, p, ExitWakeParent, s')
    ensures Inv(s')
  {
    var q := s.procs[p].parent.value;
    var t := Wakeup(s, q);
    WakeupKeeps(s, q);
    assert ThreadOk(s, p) && TreeOk(s, p) && ThreadOk(t, p) && ScanOk(t, p);
    MoveKids(t, p, ExitMark, s', p);
    MoveKeeps(t, p, ExitMark, s');
  }

  /** The step of reparent that gives child k to init. */
  lemma ReparentKeeps(s: State, p: nat, k: nat, s': State)
    requires Inv(s) && p < |s.procs| && ExitStep(s, p, ExitVisit, s') && k == s.procs[p].pc.k && Child(s, k, p)
    ensures Inv(s')
  {
    assert ThreadOk(s, p) && ThreadOk(s, k) && TreeOk(s, p) && TreeOk(s, k) && TreeOk(s, s.init) && PidOk(s, p)
        && PidOk(s, k);
    EditTrees(s, p, k, s');
    EditThreads(s, p, k, s');
    ReparentScans(s, p, k, s');
    EditPids(s, p, k, s');
  }

  lemma ReparentScans(s: State, p: nat, k: nat, s': State)
    requires Inv(s) && p < |s.procs| && ExitStep(s, p, ExitVisit, s') && k == s.procs[p].pc.k && Child(s, k, p)
    ensures Scans(s')
  {
    var init := s.init;
    assert ThreadOk(s, p) && ThreadOk(s, k) && TreeOk(s, p) && TreeOk(s, k) && TreeOk(s, init) && ThreadOk(s, init);
    assert ScanOk(s, p) && ScanOk(s, k) && ScanOk(s, init);
    forall m: nat | m != p && m != init
      ensures SameKids(s, s', m)
    {
      forall x: nat
        ensures Child(s', x, m) <==> Child(s, x, m)
        ensures Zombie(s', x, m) <==> Zombie(s, x, m)
      {
      }
    }
    SameScan(s, s', k);
    forall x: nat | x < k + 1
      ensures !Child(s', x, p)
    {
      assert x < k ==> !Child(s, x, p);
    }
    InitScan(s, p, k, s');
    EditScans(s, p, k, s');
  }

  lemma InitScan(s: State, p: nat, k: nat, s': State)
    requires Inv(s) && p < |s.procs| && ExitStep(s, p, ExitVisit, s') && k == s.procs[p].pc.k && Child(s, k, p)
    ensures ScanOk(s', s.init)
  {
    var init := s.init;
    assert ThreadOk(s, p) && TreeOk(s, init) && ThreadOk(s, init) && ScanOk(s, init);
    if s.procs[init].pc.WaitAsleep? {
      forall m: nat | Zombie(s', m, init)
        ensures JustMoved(s', m, init)
      {
        assert m != k ==> Zombie(s, m, init);
      }
      var x: nat :| x < |s.procs| && Child(s, x, init);
      assert Child(s', x, init);
    }
  }

  lemma ZombieKeeps(s: State, p: nat, status: int, s': State)
    requires Inv(s) && p < |s.procs| && ExitStep(s, p, ExitZombie(status), s')
    ensures Inv(s')
  {
    assert ThreadOk(s, p) && TreeOk(s, p) && ScanOk(s, p) && TreeOk(s, s.init);
    forall m: nat | m < |s'.procs|
      ensures TreeOk(s', m)
    {
      assert TreeOk(s, m) && !Child(s, m, p) && ThreadOk(s, m);
    }
    EditThreads(s, p, p, s');
    ZombieScans(s, p, status, s');
    ZombiePids(s, p, status, s');
  }

  lemma ZombieScans(s: State, p: nat, status: int, s': State)
    requires Inv(s) && p < |s.procs| && ExitStep(s, p, ExitZombie(status), s')
    ensures Scans(s')
  {
    assert ThreadOk(s, p) && TreeOk(s, p) && ScanOk(s, p);
    forall m: nat | m < |s.procs| && m != p
      ensures SameKids(s, s', m) || ScanOk(s', m)
    {
      assert ThreadOk(s, m);
      if !Child(s, p, m) {
        forall x: nat
          ensures Child(s', x, m) <==> Child(s, x, m)
          ensures Zombie(s', x, m) <==> Zombie(s, x, m)
        {
        }
        assert SameKids(s, s', m);
      }
    }
    EditScans(s, p, p, s');
  }

  lemma ZombiePids(s: State, p: nat, status: int, s': State)
    requires Inv(s) && p < |s.procs| && ExitStep(s, p, ExitZombie(status), s')
    ensures Pids(s')
  {
    assert ThreadOk(s, p) && PidOk(s, p);
    forall m: nat | m < |s'.procs|
      ensures PidOk(s', m)
    {
      assert PidOk(s, m) && PidsDiffer(s, m, p);
    }
    forall m: nat, n: nat | m < |s'.procs| && n < |s'.procs|
      ensures PidsDiffer(s', m, n)
    {
      assert PidsDiffer(s, m, n);
    }
  }

  // -------------------------------------------------------------------- wait

  lemma WaitMoveKeeps(s: State, p: nat, step: Step, s': State)
    requires Inv(s) && p < |s.procs| && WaitStep(s, p, step, s') && !step.WaitReap?
    ensures Inv(s')
  {
    assert ThreadOk(s, p) && TreeOk(s, p) && ScanOk(s, p);
    WaitScanOk(s, p, step, s');
    MoveKeeps(s, p, s'.procs[p].pc, s');
  }

  lemma WaitScanOk(s: State, p: nat, step: Step, s': State)
    requires Inv(s) && p < |s.procs| && WaitStep(s, p, step, s') && !step.WaitReap?
    ensures ScanOk(s', p)
  {
    assert ThreadOk(s, p) && ScanOk(s, p);
    MoveKids(s, p, s'.procs[p].pc, s', p);
    if step.WaitVisit? {
      var k := s.procs[p].pc.k;
      assert Child(s', k, p) <==> Child(s, k, p);
      assert Zombie(s', k, p) <==> Zombie(s, k, p);
      SameHasChild(s, s', p, k);
      SameHasChild(s, s', p, k + 1);
      assert HasChildBelow(s, p, k + 1) <==> HasChildBelow(s, p, k) || Child(s, k, p);
    } else if step.WaitSleep? {
      SameHasChild(s, s', p, |s.procs|);
      assert NoZombieBelow(s, p, |s.procs|);
      assert forall m: nat | m < |s.procs| :: !Zombie(s, m, p);
    }
  }

  lemma ReapKeeps(s: State, p: nat, s': State)
    requires Inv(s) && p < |s.procs| && WaitStep(s, p, WaitReap, s')
    ensures Inv(s')
  {
    var k := s.procs[p].pc.k;
    assert ThreadOk(s, p) && ThreadOk(s, k) && TreeOk(s, p) && TreeOk(s, k) && TreeOk(s, s.init);
    EditTrees(s, p, k, s');
    EditThreads(s, p, k, s');
    forall m: nat | m != p
      ensures SameKids(s, s', m)
    {
      forall x: nat
        ensures Child(s', x, m) <==> Child(s, x, m)
        ensures Zombie(s', x, m) <==> Zombie(s, x, m)
      {
      }
    }
    EditScans(s, p, k, s');
    ReapPids(s, p, s');
  }

  lemma ReapPids(s: State, p: nat, s': State)
    requires Inv(s) && p < |s.procs| && WaitStep(s, p, WaitReap, s')
    ensures Pids(s')
  {
    var k := s.procs[p].pc.k;
    assert ThreadOk(s, p) && PidOk(s, k) && TreeOk(s, s.init);
    forall m: nat | m < |s'.procs|
      ensures PidOk(s', m)
    {
      assert PidOk(s, m) && PidsDiffer(s, m, k);
    }
    forall m: nat, n: nat | m < |s'.procs| && n < |s'.procs|
      ensures PidsDiffer(s', m, n)
    {
      assert PidsDiffer(s, m, n);
    }
  }

  lemma StepKeeps(s: State, p: nat, step: Step, s': State)
    requires Inv(s) && Next(s, p, step, s')
    ensures Inv(s')
  {
    if ForkStep(s, p, step, s') {
      if step.Fork? {
        ForkKeeps(s, p, step.child, s');
      } else if step.ForkLock? || step.ForkUnlock? {
        ForkMoveKeeps(s, p, step, s');
      } else {
        ForkEditKeeps(s, p, step, s');
      }
    } else if ExitStep(s, p, step, s') {
      if step.ExitZombie? {
        ZombieKeeps(s, p, step.status, s');
      } else if step.ExitWakeInit? {
        ExitWakeInitKeeps(s, p, s');
      } else if step.ExitWakeParent? {
        ExitWakeParentKeeps(s, p, s');
      } else if step.ExitVisit? && Child(s, s.procs[p].pc.k, p) {
        ReparentKeeps(s, p, s.procs[p].pc.k, s');
      } else {
        ExitMoveKeeps(s, p, step, s');
      }
    } else if step.WaitReap? {
      ReapKeeps(s, p, s');
    } else {
      WaitMoveKeeps(s, p, step, s');
    }
  }

  // ------------------------------------------------------------ main results

  /** A run: step i is taken by process who[i]. */
  ghost predicate IsRun(run: seq<State>, who: seq<nat>, steps: seq<Step>) {
    && |run| == |steps| + 1 && |who| == |steps|
    && forall i: nat {:trigger Linked(run, who, steps, i)} | i < |run| :: Linked(run, who, steps, i)
  }

  ghost predicate Linked(run: seq<State>, who: seq<nat>, steps: seq<Step>, i: nat)
    requires |run| == |steps| + 1 && |who| == |steps| && i < |run|
  {
    if i == 0 then Init(run[0]) else Next(run[i - 1], who[i - 1], steps[i - 1], run[i])
  }

  lemma InitInv(s: State)
    requires Init(s)
    ensures Inv(s)
  {
  }

  lemma {:induction false} RunInv(run: seq<State>, who: seq<nat>, steps: seq<Step>, i: nat)
    requires IsRun(run, who, steps) && i < |run|
    ensures Inv(run[i])
  {
    assert Linked(run, who, steps, i);
    if i == 0 {
      InitInv(run[0]);
    } else {
      RunInv(run, who, steps, i - 1);
      StepKeeps(run[i - 1], who[i - 1], steps[i - 1], run[i]);
    }
  }

  /** The n-th ancestor of p, if it has one. */
  ghost function Ancestor(s: State, p: nat, n: nat): Option<nat>
    decreases n
  {
    if n == 0 then Some(p)
    else if p < |s.procs| && s.procs[p].parent.Some? then Ancestor(s, s.procs[p].parent.value, n - 1)
    else None
  }

  lemma {:induction false} ReachesInit(s: State, p: nat) returns (n: nat)
    requires Inv(s) && p < |s.procs| && s.procs[p].state in {LIVE, ZOMBIE}
    ensures Ancestor(s, p, n) == Some(s.init)
    decreases s.procs[p].pid
  {
    if p == s.init {
      n := 0;
    } else {
      assert TreeOk(s, p);
      var m := ReachesInit(s, s.procs[p].parent.value);
      n := m + 1;
    }
  }

  /** Process tree. In every reachable state, whoever holds wait_lock, every living or zombie
      process but init has a living parent, and following parents leads to init. */
  lemma ProcessesFormATree(run: seq<State>, who: seq<nat>, steps: seq<Step>, i: nat, p: nat)
    requires IsRun(run, who, steps) && i < |run| && p < |run[i].procs| && run[i].procs[p].state in {LIVE, ZOMBIE}
    ensures Alive(run[i], run[i].init)
    ensures p != run[i].init ==> run[i].procs[p].parent.Some? && Alive(run[i], run[i].procs[p].parent.value)
    ensures exists n: nat :: Ancestor(run[i], p, n) == Some(run[i].init)
  {
    RunInv(run, who, steps, i);
    assert TreeOk(run[i], p) && TreeOk(run[i], run[i].init);
    var n := ReachesInit(run[i], p);
  }

  /** No zombie is slept through: while wait_lock is free, a process asleep in wait has a
      living child and no zombie. */
  lemma WaitersMissNothing(run: seq<State>, who: seq<nat>, steps: seq<Step>, i: nat, p: nat)
    requires IsRun(run, who, steps) && i < |run| && p < |run[i].procs| && run[i].lock.None?
             && run[i].procs[p].pc.WaitAsleep?
    ensures exists m: nat :: Child(run[i], m, p) && Alive(run[i], m)
    ensures forall m: nat :: !Zombie(run[i], m, p)
  {
    var s := run[i];
    RunInv(run, who, steps, i);
    assert ScanOk(s, p);
    var m: nat :| m < |s.procs| && Child(s, m, p);
    assert TreeOk(s, m) && !Zombie(s, m, p);
    assert Child(s, m, p) && Alive(s, m);
  }

  /** wait gives up for want of children exactly when its scan leaves it none: it says so only
      of a process that is nobody's parent, and goes to sleep only as somebody's. */
  lemma WaitKnowsItsChildren(run: seq<State>, who: seq<nat>, steps: seq<Step>, i: nat)
    requires IsRun(run, who, steps) && i < |steps|
    ensures steps[i].WaitNoKids? ==> forall m: nat :: !Child(run[i], m, who[i])
    ensures steps[i].WaitSleep? ==> exists m: nat :: Child(run[i], m, who[i])
    ensures steps[i].WaitNoKids? || steps[i].WaitKilled? ==>
              who[i] < |run[i + 1].procs| && run[i + 1].procs[who[i]].pc == WaitDone(-1)
  {
    RunInv(run, who, steps, i);
    assert Linked(run, who, steps, i + 1);
    assert ScanOk(run[i], who[i]);
    assert steps[i].WaitNoKids? ==> !HasChildBelow(run[i], who[i], |run[i].procs|);
  }

  /** Histories only grow. */
  lemma {:induction false} HistoryGrows(run: seq<State>, who: seq<nat>, steps: seq<Step>, i: nat, j: nat)
    requires IsRun(run, who, steps) && i <= j < |run|
    ensures forall x | x in run[i].exited :: x in run[j].exited && run[j].exited[x] == run[i].exited[x]
    ensures forall x | x in run[i].reaped :: x in run[j].reaped && run[j].reaped[x] == run[i].reaped[x]
    decreases j
  {
    if i < j {
      HistoryGrows(run, who, steps, i, j - 1);
      assert Linked(run, who, steps, j);
      HistoryStep(run, who, steps, j - 1);
    }
  }

  lemma HistoryStep(run: seq<State>, who: seq<nat>, steps: seq<Step>, j: nat)
    requires IsRun(run, who, steps) && j < |steps|
    ensures forall x | x in run[j].exited :: x in run[j + 1].exited && run[j + 1].exited[x] == run[j].exited[x]
    ensures forall x | x in run[j].reaped :: x in run[j + 1].reaped && run[j + 1].reaped[x] == run[j].reaped[x]
  {
    hide Next, Inv;
    RunInv(run, who, steps, j);
    assert Linked(run, who, steps, j + 1);
    HistoryKept(run[j], who[j], steps[j], run[j + 1]);
  }

  /** A pid that exits or is reaped is new. */
  lemma HistoryKept(s: State, p: nat, step: Step, s': State)
    requires Inv(s) && Next(s, p, step, s')
    ensures forall x | x in s.exited :: x in s'.exited && s'.exited[x] == s.exited[x]
    ensures forall x | x in s.reaped :: x in s'.reaped && s'.reaped[x] == s.reaped[x]
  {
    assert ThreadOk(s, p);
    hide Inv, Child;
    PidHolds(s, p);
    if step.ExitZombie? {
    } else if step.WaitReap? {
      ReapedIsNew(s, p);
    } else {
      OthersKeepHistory(s, p, step, s');
    }
  }

  lemma OthersKeepHistory(s: State, p: nat, step: Step, s': State)
    requires Next(s, p, step, s') && !step.ExitZombie? && !step.WaitReap?
    ensures s'.exited == s.exited && s'.reaped == s.reaped
  {
    hide Child;
  }

  lemma ReapedIsNew(s: State, p: nat)
    requires Inv(s) && p < |s.procs| && s.procs[p].pc.WaitScan?
             && Child(s, s.procs[p].pc.k, p) && s.procs[s.procs[p].pc.k].state == ZOMBIE
    ensures s.procs[s.procs[p].pc.k].pid !in s.reaped
  {
    assert PidOk(s, s.procs[p].pc.k);
  }

  lemma PidHolds(s: State, k: nat)
    requires Inv(s) && k < |s.procs|
    ensures PidOk(s, k)
  {
  }

  /** The process that step j, a WaitReap, frees. */
  ghost function Reaped(run: seq<State>, who: seq<nat>, steps: seq<Step>, j: nat): (z: Proc)
    requires IsRun(run, who, steps) && j < |steps| && steps[j].WaitReap?
    ensures z in run[j].procs && z.state == ZOMBIE && z.parent == Some(who[j])
  {
    assert Linked(run, who, steps, j + 1);
    run[j].procs[run[j].procs[who[j]].pc.k]
  }

  /** No zombie is reaped twice. */
  lemma ReapedOnce(run: seq<State>, who: seq<nat>, steps: seq<Step>, i: nat, j: nat)
    requires IsRun(run, who, steps) && i < j < |steps| && steps[i].WaitReap? && steps[j].WaitReap?
    ensures Reaped(run, who, steps, i).pid != Reaped(run, who, steps, j).pid
  {
    assert Linked(run, who, steps, i + 1) && Linked(run, who, steps, j + 1);
    assert Reaped(run, who, steps, i).pid in run[i + 1].reaped;
    HistoryGrows(run, who, steps, i + 1, j);
    RunInv(run, who, steps, j);
    assert PidOk(run[j], run[j].procs[who[j]].pc.k);
  }

  /** Step e is the call of exit(status) by the process with this pid. */
  ghost predicate ExitedAs(run: seq<State>, who: seq<nat>, steps: seq<Step>, e: nat, pid: nat, status: int) {
    && e < |steps| && |run| == |steps| + 1 && |who| == |steps|
    && steps[e] == ExitZombie(status) && who[e] < |run[e].procs| && run[e].procs[who[e]].pid == pid
  }

  lemma {:induction false} ExitedBy(run: seq<State>, who: seq<nat>, steps: seq<Step>, j: nat, x: nat)
    requires IsRun(run, who, steps) && j < |run| && x in run[j].exited
    ensures exists e: nat :: e < j && ExitedAs(run, who, steps, e, x, run[j].exited[x])
  {
    assert Linked(run, who, steps, j);
    if x in run[j - 1].exited {
      HistoryStep(run, who, steps, j - 1);
      ExitedBy(run, who, steps, j - 1, x);
    } else {
      assert ExitedAs(run, who, steps, j - 1, x, run[j].exited[x]);
    }
  }

  ghost predicate HasPid(s: State, m: nat, pid: nat) {
    m < |s.procs| && s.procs[m].state != UNUSED && s.procs[m].pid == pid
  }

  /** No process but these has this pid. */
  ghost predicate OnlyAt(s: State, at: set<nat>, pid: nat) { forall m: nat | HasPid(s, m, pid) :: m in at }

  /** wait reports the pid of a zombie child and the status which that very process gave to
      exit. */
  lemma WaitReportsExit(run: seq<State>, who: seq<nat>, steps: seq<Step>, j: nat)
    requires IsRun(run, who, steps) && j < |steps| && steps[j].WaitReap?
    ensures var z := Reaped(run, who, steps, j);
            && who[j] < |run[j + 1].procs| && run[j + 1].procs[who[j]].pc == WaitDone(z.pid)
            && z.pid in run[j + 1].reaped && run[j + 1].reaped[z.pid] == z.xstate
            && OnlyAt(run[j + 1], {}, z.pid)
            && exists e: nat :: e < j && ExitedAs(run, who, steps, e, z.pid, z.xstate)
  {
    assert Linked(run, who, steps, j + 1);
    RunInv(run, who, steps, j);
    var k := run[j].procs[who[j]].pc.k;
    assert PidOk(run[j], k) && TreeOk(run[j], k);
    var s' := run[j + 1];
    forall m: nat
      ensures !HasPid(s', m, run[j].procs[k].pid)
    {
      assert m < |run[j].procs| ==> PidsDiffer(run[j], m, k);
    }
    ExitedBy(run, who, steps, j, run[j].procs[k].pid);
  }

  // ------------------------------------------------------ parents and children

  /** fork makes a child of the caller, under a pid that no process has or had; and a fork that
      fails leaves no process behind. */
  lemma ForkMakesChild(run: seq<State>, who: seq<nat>, steps: seq<Step>, i: nat) returns (c: nat)
    requires IsRun(run, who, steps) && i < |steps| && (steps[i].ForkRun? || steps[i].ForkFail?)
    ensures c < |run[i].procs| == |run[i + 1].procs|
    ensures steps[i].ForkFail? ==> run[i + 1].procs[c].state == UNUSED && run[i + 1].procs[c].parent.None?
    ensures steps[i].ForkRun? ==>
              && Alive(run[i + 1], c) && run[i + 1].procs[c].parent == Some(who[i])
              && run[i + 1].procs[c].pid !in run[i + 1].exited && run[i + 1].procs[c].pid !in run[i + 1].reaped
              && OnlyAt(run[i + 1], {c}, run[i + 1].procs[c].pid)
  {
    var s, p := run[i], who[i];
    RunInv(run, who, steps, i);
    assert Linked(run, who, steps, i + 1);
    assert ThreadOk(s, p);
    c := s.procs[p].pc.child;
    assert TreeOk(s, c) && PidOk(s, c);
    var s' := run[i + 1];
    if steps[i].ForkRun? {
      forall m: nat | HasPid(s', m, s'.procs[c].pid)
        ensures m in {c}
      {
        assert PidsDiffer(s, m, c);
      }
    }
  }

  /** A parent loses a child only by reaping it or by its own exit, which gives it to init. */
  lemma ParentStep(s: State, p: nat, step: Step, s': State, m: nat)
    requires Inv(s) && Next(s, p, step, s') && m < |s.procs| && s.procs[m].state in {LIVE, ZOMBIE}
    ensures |s'.procs| == |s.procs| && s'.init == s.init
    ensures s'.procs[m].parent == s.procs[m].parent ||
            (step.ExitVisit? && s.procs[m].parent == Some(p) && s'.procs[m].parent == Some(s.init)) ||
            (step.WaitReap? && s.procs[m].parent == Some(p) && s'.procs[m].state == UNUSED)
    ensures s'.procs[m].state == UNUSED || s'.procs[m].pid == s.procs[m].pid
  {
    assert ThreadOk(s, p);
    hide Inv, ForkStep, ExitStep, WaitStep;
    if ForkStep(s, p, step, s') {
      ForkParents(s, p, step, s', m);
    } else if ExitStep(s, p, step, s') {
      ExitParents(s, p, step, s', m);
    } else {
      WaitParents(s, p, step, s', m);
    }
  }

  lemma ForkParents(s: State, p: nat, step: Step, s': State, m: nat)
    requires ThreadOk(s, p) && ForkStep(s, p, step, s') && m < |s.procs| && s.procs[m].state in {LIVE, ZOMBIE}
    ensures |s'.procs| == |s.procs| && s'.init == s.init
    ensures s'.procs[m].parent == s.procs[m].parent && s'.procs[m].pid == s.procs[m].pid
  {
  }

  lemma ExitParents(s: State, p: nat, step: Step, s': State, m: nat)
    requires p < |s.procs| && ExitStep(s, p, step, s') && m < |s.procs|
    ensures |s'.procs| == |s.procs| && s'.init == s.init && s'.procs[m].pid == s.procs[m].pid
    ensures s'.procs[m].parent == s.procs[m].parent ||
            (step.ExitVisit? && s.procs[m].parent == Some(p) && s'.procs[m].parent == Some(s.init))
  {
  }

  lemma WaitParents(s: State, p: nat, step: Step, s': State, m: nat)
    requires p < |s.procs| && WaitStep(s, p, step, s') && m < |s.procs|
    ensures |s'.procs| == |s.procs| && s'.init == s.init
    ensures (s'.procs[m].parent == s.procs[m].parent && s'.procs[m].pid == s.procs[m].pid) ||
            (step.WaitReap? && s.procs[m].parent == Some(p) && s'.procs[m].state == UNUSED)
  {
  }

  /** Process m is living or a zombie from state i to state j. */
  ghost predicate Around(run: seq<State>, i: nat, j: nat, m: nat) {
    i <= j < |run| && forall n | i <= n <= j :: m < |run[n].procs| && run[n].procs[m].state in {LIVE, ZOMBIE}
  }

  /** While its parent does not exit, a process keeps it. */
  lemma {:induction false} ChildStays(run: seq<State>, who: seq<nat>, steps: seq<Step>, i: nat, j: nat, m: nat, p: nat)
    requires IsRun(run, who, steps) && Around(run, i, j, m) && run[i].procs[m].parent == Some(p)
    requires forall n | i <= n < j :: !(who[n] == p && steps[n].ExitVisit?)
    ensures run[j].procs[m].parent == Some(p)
    decreases j
  {
    hide Inv, Next;
    if i < j {
      ChildStays(run, who, steps, i, j - 1, m, p);
      RunInv(run, who, steps, j - 1);
      assert Linked(run, who, steps, j);
      ParentStep(run[j - 1], who[j - 1], steps[j - 1], run[j], m);
    }
  }

  /** init stays init, and keeps its children. */
  lemma {:induction false} InitStays(run: seq<State>, who: seq<nat>, steps: seq<Step>, i: nat, j: nat)
    requires IsRun(run, who, steps) && i <= j < |run|
    ensures run[j].init == run[i].init && |run[j].procs| == |run[i].procs|
    decreases j
  {
    hide Inv;
    if i < j {
      InitStays(run, who, steps, i, j - 1);
      assert Linked(run, who, steps, j);
      SameInit(run[j - 1], who[j - 1], steps[j - 1], run[j]);
    }
  }

  lemma SameInit(s: State, p: nat, step: Step, s': State)
    requires Next(s, p, step, s')
    ensures s'.init == s.init && |s'.procs| == |s.procs|
  {
  }

  lemma {:induction false} ChildOrInit(run: seq<State>, who: seq<nat>, steps: seq<Step>, i: nat, j: nat, m: nat, p: nat)
    requires IsRun(run, who, steps) && Around(run, i, j, m) && run[i].procs[m].parent == Some(p)
    ensures run[j].procs[m].parent == Some(p) || run[j].procs[m].parent == Some(run[i].init)
    decreases j
  {
    hide Inv, Next;
    if i < j {
      ChildOrInit(run, who, steps, i, j - 1, m, p);
      InitStays(run, who, steps, i, j - 1);
      RunInv(run, who, steps, j - 1);
      assert Linked(run, who, steps, j);
      ParentStep(run[j - 1], who[j - 1], steps[j - 1], run[j], m);
    }
  }

  /** exit leaves no orphan: when a process becomes a zombie it is nobody's parent, and whoever was
      its child at any time before, and is still there, is init's. */
  lemma ExitGivesChildrenToInit(run: seq<State>, who: seq<nat>, steps: seq<Step>, i: nat, j: nat, m: nat)
    requires IsRun(run, who, steps) && j < |steps| && steps[j].ExitZombie?
    ensures forall k: nat :: !Child(run[j], k, who[j])
    ensures i <= j && Around(run, i, j, m) && run[i].procs[m].parent == Some(who[j]) ==>
              run[j].procs[m].parent == Some(run[j].init)
  {
    RunInv(run, who, steps, j);
    assert Linked(run, who, steps, j + 1);
    assert ScanOk(run[j], who[j]);
    hide Inv, Next;
    if i <= j && Around(run, i, j, m) && run[i].procs[m].parent == Some(who[j]) {
      ChildOrInit(run, who, steps, i, j, m, who[j]);
      InitStays(run, who, steps, i, j);
      assert !Child(run[j], m, who[j]);
    }
  }
}
