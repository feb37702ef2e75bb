/**
 The logging layer itself: the in-memory log header, the counters that
 `begin_op` and `end_op` keep, and the loops that copy blocks. Every atomic change
 is recorded in `run`, so what the methods do is a run of the protocol and the
 theorems about runs apply to every intermediate disk.
 */
module RedoLog {
  import opened LogProtocol

  class Log {
    const l: Layout
    var disk: Disk
    var cache: Disk        // what bread returns for each block
    var outstanding: int
    var committing: bool
    var n: int             // log.lh.n
    var block: array<int>  // log.lh.block

    ghost var run: seq<State>
    ghost var steps: seq<Step>

    ghost function Now(): State
      reads this
      requires run != []
    {
      run[|run| - 1]
    }

    /** The recorded run ends in a state whose visible part is the fields. */
    ghost predicate Valid()
      reads this, block
    {
      && IsRun(l, run, steps)
      && |disk| == |cache| == l.nblocks
      && block.Length == LOGSIZE && 0 <= n <= LOGSIZE
      && Now().disk == disk && Now().cache == cache
      && Now().lh == block[..n]
      && |Now().ops| == outstanding
      && (committing <==> Now().phase.WriteLog? || Now().phase.Install? || Now().phase.Done?)
    }

    ghost method Record(s: State, step: Step)
      requires IsRun(l, run, steps) && |Now().disk| == |Now().cache| == l.nblocks && Next(l, Now(), s, step)
      modifies this`run, this`steps
      ensures IsRun(l, run, steps)
      ensures run == old(run) + [s] && steps == old(steps) + [step]
    {
      Extend(l, run, steps, s, step);
      run, steps := run + [s], steps + [step];
    }

    /** Power-on: nothing is cached and the in-memory header is empty. */
    constructor (layout: Layout, d: Disk)
      requires layout.Valid() && |d| == layout.nblocks && WellFormedHeader(layout, d[layout.start])
      ensures Valid() && l == layout && disk == d && Now().phase == Boot
      ensures fresh(block)
    {
      l, disk, cache := layout, d, d;
      outstanding, committing, n := 0, false, 0;
      block := new int[LOGSIZE];
      run := [State(d, d, [], map[], Boot, Recovered(layout, d), [], 0, 0)];
      steps := [];
      new;
      assert block[..n] == [];
      assert Linked(l, run, steps, 0);
    }

    /** The machine loses everything but the disk. */
    method Crash()
      requires Valid()
      modifies this
      ensures Valid() && block == old(block)
      ensures disk == old(disk) && Now().phase == Boot && old(run) < run
    {
      ghost var s := Now();
      LogFacts(l, run, steps);
      cache, n, outstanding, committing := disk, 0, 0, false;
      Record(s.(cache := disk, lh := [], ops := map[], phase := Boot, hist := s.hist[..s.committed]),
          LogProtocol.Crash);
      assert block[..n] == [];
    }

    /** One turn of begin_op's loop; false means the caller sleeps and tries again. A log
        that is still recovering has not finished initlog, so no operation can call it. */
    method BeginOp() returns (ok: bool, ghost op: nat)
      requires Valid() && !Now().phase.Boot? && !Now().phase.Recover?
      modifies this
      ensures Valid() && block == old(block)
      ensures ok <==> old(!committing && n + (outstanding + 1) * MAXOPBLOCKS <= LOGSIZE)
      ensures ok ==> op !in old(Now()).ops && Now() == old(Now()).(ops := old(Now()).ops[op := 0], nextOp := op + 1)
      ensures run == old(run) + if ok then [Now()] else []
    {
      ok, op := false, 0;
      if committing {
      } else if n + (outstanding + 1) * MAXOPBLOCKS > LOGSIZE {
      } else {
        ok, op := true, Now().nextOp;
        assert op !in Now().ops by { LogFacts(l, run, steps); }
        outstanding := outstanding + 1;
        Record(Now().(ops := Now().ops[op := 0], nextOp := op + 1), Begin);
      }
    }

    /** The caller has put `data` into the buffer of block b and calls log_write. The
        result is false where the code panics. */
    method LogWrite(ghost op: nat, b: nat, data: Block) returns (ok: bool)
      requires Valid() && Now().phase.Running? && op in Now().ops && l.Home(b)
      requires b !in Now().lh ==> Now().ops[op] < MAXOPBLOCKS
      modifies this, block
      ensures Valid() && block == old(block)
      ensures ok <==> old(n) < LOGSIZE && old(n) < l.size - 1
      ensures l.size > LOGSIZE && b !in old(Now()).lh ==> ok
      ensures !ok ==> run == old(run)
      ensures ok ==> run == old(run) + [Now()]
      ensures ok ==> Now() == old(Now()).(cache := old(cache)[b := data],
                                          hist := old(Now()).hist + [Write(op, b, data)],
                                          lh := Now().lh, ops := Now().ops)
      ensures ok ==> Now().lh == if b in old(Now()).lh then old(Now()).lh else old(Now()).lh + [b]
    {
      hide Inv;
      ghost var s := Now();
      ghost var was := block[..];
      RoomFor(l, run, steps, op);
      if n >= LOGSIZE || n >= l.size - 1 {
        return false;
      }
      if outstanding < 1 {
        assert false;
      }
      var i := 0;
      while i < n
        invariant 0 <= i <= n
        invariant b !in block[..i]
      {
        if block[i] == b {
          break;
        }
        i := i + 1;
      }
      block[i] := b;
      cache := cache[b := data];
      if i == n {
        n := n + 1;
        assert block[..n] == was[..n - 1] + [b];
        Record(s.(cache := cache, hist := s.hist + [Write(op, b, data)], lh := s.lh + [b],
            ops := s.ops[op := s.ops[op] + 1]),
               LogProtocol.LogWrite(op, b, data));
      } else {
        assert block[..n] == was[..n];
        Record(s.(cache := cache, hist := s.hist + [Write(op, b, data)]), LogProtocol.LogWrite(op, b, data));
      }
      ok := true;
    }

    /** The header buffer after write_head has copied the in-memory header into it. */
    method FillHeader() returns (h: Block)
      requires l.start < |cache| && |cache[l.start].words| == WORDS && block.Length == LOGSIZE && 0 <= n <= LOGSIZE
      ensures h == PutHeader(cache[l.start], block[..n])
    {
      var was := cache[l.start].words;
      var words := was[0 := n];
      var i := 0;
      while i < n
        invariant 0 <= i <= n
        invariant words == [n] + block[..i] + was[1 + i..]
      {
        words := words[1 + i := block[i]];
        i := i + 1;
      }
      h := Block(words);
    }

    /** The body of write_log's loop. */
    method WriteLogBlock(tail: nat)
      requires Valid() && Now().phase == WriteLog(tail) && tail < n
      modifies this`disk, this`cache, this`run, this`steps
      ensures Valid() && run == old(run) + [Now()]
      ensures Now() == old(Now()).(disk := disk, cache := cache, phase := WriteLog(tail + 1))
      ensures LogBlocks(l, Now().lh) && n < l.size
      ensures disk == old(disk)[l.start + 1 + tail := old(cache)[Now().lh[tail]]]
      ensures cache == old(cache)[l.start + 1 + tail := old(cache)[Now().lh[tail]]]
    {
      LogFacts(l, run, steps);
      assert l.Home(Now().lh[tail]);
      var to := l.start + tail + 1;
      cache := cache[to := cache[block[tail]]];
      disk := disk[to := cache[to]];
      Record(Now().(disk := disk, cache := cache, phase := WriteLog(tail + 1)), LogProtocol.WriteLogBlock);
    }

    /** write_log: log block i gets the cached contents of the i-th logged block. */
    method WriteLogBlocks()
      requires Valid() && Now().phase == WriteLog(0)
      modifies this`disk, this`cache, this`run, this`steps
      ensures Valid() && old(run) <= run
      ensures Now() == old(Now()).(disk := disk, cache := cache, phase := WriteLog(n))
      ensures LogBlocks(l, Now().lh) && n < l.size
      ensures forall i | 0 <= i < n :: disk[l.start + 1 + i] == old(cache)[Now().lh[i]]
      ensures forall b | 0 <= b < l.nblocks && !(l.start < b <= l.start + n) ::
                disk[b] == old(disk)[b] && cache[b] == old(cache)[b]
    {
      var tail := 0;
      LogFacts(l, run, steps);
      while tail < n
        invariant 0 <= tail <= n && Valid() && old(run) <= run
        invariant Now() == old(Now()).(disk := disk, cache := cache, phase := WriteLog(tail))
        invariant forall i | 0 <= i < tail :: disk[l.start + 1 + i] == old(cache)[Now().lh[i]]
        invariant forall b | 0 <= b < l.nblocks && !(l.start < b <= l.start + tail) ::
                    disk[b] == old(disk)[b] && cache[b] == old(cache)[b]
      {
        assert l.Home(Now().lh[tail]);
        WriteLogBlock(tail);
        tail := tail + 1;
      }
    }

    /** The body of install_trans's loop. */
    method InstallOne(tail: nat, recovering: bool)
      requires Valid() && Now().phase == (if recovering then Recover(tail) else Install(tail)) && tail < n
      requires LogBlocks(l, Now().lh) && |Now().lh| < l.size
      modifies this`disk, this`cache, this`run, this`steps
      ensures Valid() && run == old(run) + [Now()]
      ensures Now() == old(Now()).(disk := disk, cache := cache,
              phase := if recovering then Recover(tail + 1) else Install(tail + 1))
      ensures disk == old(disk)[Now().lh[tail] := old(cache)[l.start + tail + 1]]
      ensures cache == old(cache)[Now().lh[tail] := old(cache)[l.start + tail + 1]]
    {
      ghost var s := Now();
      assert l.Home(s.lh[tail]);
      var from := cache[l.start + tail + 1];
      cache := cache[block[tail] := from];
      disk := disk[block[tail] := cache[block[tail]]];
      Record(s.(disk := disk, cache := cache, phase := if recovering then Recover(tail + 1) else Install(tail + 1)),
             if recovering then RecoverBlock else InstallBlock);
    }

    /** install_trans: each logged block gets the contents of its log block. */
    method InstallTrans(recovering: bool)
      requires Valid() && Now().phase == if recovering then Recover(0) else Install(0)
      modifies this`disk, this`cache, this`run, this`steps
      ensures Valid() && old(run) <= run
      ensures Now() == old(Now()).(disk := disk, cache := cache, phase := if recovering then Recover(n) else Install(n))
      ensures LogBlocks(l, Now().lh) && |Now().lh| < l.size
      ensures recovering ==> disk == Replay(l, old(disk), Now().lh, n)
      ensures !recovering ==> disk == cache == old(cache)
    {
      ghost var s := Now();
      var tail := 0;
      LogFacts(l, run, steps);
      while tail < n
        invariant 0 <= tail <= n && Valid() && old(run) <= run
        invariant Now() == s.(disk := disk, cache := cache,
                  phase := if recovering then Recover(tail) else Install(tail))
        invariant !recovering ==> cache == s.cache
        invariant recovering ==> disk == cache == Replay(l, s.disk, s.lh, tail)
      {
        if !recovering {
          Reinstall(l, run, steps);
        }
        assert l.Home(s.lh[tail]);
        InstallOne(tail, recovering);
        tail := tail + 1;
      }
      if !recovering {
        Installed(l, run, steps);
      }
    }

    /** The loop of read_head. */
    method CopyHeader(h: seq<int>, ghost listed: seq<nat>)
      requires block.Length == LOGSIZE && 0 <= n == |listed| <= LOGSIZE < |h|
               && forall i | 0 <= i < n :: h[1 + i] == listed[i]
      modifies block
      ensures block[..n] == listed
    {
      var i := 0;
      while i < n
        invariant 0 <= i <= n
        invariant block[..i] == listed[..i]
      {
        block[i] := h[1 + i];
        i := i + 1;
      }
    }

    /** read_head: the in-memory header becomes the one on disk. */
    method ReadHeader()
      requires Valid() && Now().phase == Boot
      modifies this, block
      ensures Valid() && block == old(block) && run == old(run) + [Now()]
      ensures disk == old(disk) && WellFormedHeader(l, disk[l.start])
      ensures Now() == old(Now()).(lh := HeaderBlocks(l, disk[l.start]), phase := Recover(0))
    {
      ghost var s := Now();
      CrashAtomicity(l, run, steps, |run| - 1);
      LogFacts(l, run, steps);
      var h := cache[l.start].words;
      ghost var listed := HeaderBlocks(l, cache[l.start]);
      n := h[0];
      CopyHeader(h, listed);
      Record(s.(lh := listed, phase := Recover(0)), ReadHead);
    }

    /** write_head in commit: the commit point. */
    method CommitHead()
      requires Valid() && Now().phase == WriteLog(n)
      modifies this`disk, this`cache, this`run, this`steps
      ensures Valid() && run == old(run) + [Now()]
      ensures Now() == old(Now()).(disk := disk, cache := cache, phase := Install(0), committed := |old(Now()).hist|)
    {
      LogFacts(l, run, steps);
      var h := FillHeader();
      cache, disk := cache[l.start := h], disk[l.start := h];
      Record(Now().(disk := disk, cache := cache, phase := Install(0), committed := |Now().hist|), WriteHead);
    }

    /** The second write_head of commit: the transaction is erased from the log. */
    method EraseCommitted()
      requires Valid() && Now().phase == Install(n) && disk == cache
      modifies this`disk, this`cache, this`n, this`run, this`steps
      ensures Valid() && run == old(run) + [Now()] && n == 0 && disk == cache
      ensures Now() == old(Now()).(disk := disk, cache := cache, lh := [], phase := Done)
    {
      LogFacts(l, run, steps);
      n := 0;
      var h := FillHeader();
      cache, disk := cache[l.start := h], disk[l.start := h];
      assert block[..n] == [];
      Record(Now().(disk := disk, cache := cache, lh := [], phase := Done), ClearHead);
    }

    /** commit: empties the log and makes everything written so far durable. */
    method Commit()
      requires Valid() && Now().phase == if n == 0 then Done else WriteLog(0)
      modifies this
      ensures Valid() && block == old(block) && old(run) <= run
      ensures n == 0 && outstanding == old(outstanding) && committing
      ensures Now() == old(Now()).(disk := disk, cache := cache, lh := [], phase := Done,
              committed := |old(Now()).hist|)
      ensures old(n) > 0 ==> disk == cache
    {
      if n > 0 {
        WriteLogBlocks();
        CommitHead();
        InstallTrans(false);
        EraseCommitted();
      } else {
        LogFacts(l, run, steps);
      }
    }

    /** The first part of end_op: the operation is over, and the last one begins to commit. */
    method LeaveOp(ghost op: nat) returns (doCommit: bool)
      requires Valid() && Now().phase.Running? && op in Now().ops
      modifies this
      ensures Valid() && block == old(block) && run == old(run) + [Now()] && disk == old(disk) && n == old(n)
      ensures outstanding == old(outstanding) - 1 && doCommit == committing == (outstanding == 0)
      ensures Now() == old(Now()).(ops := old(Now()).ops - {op},
              phase := if !doCommit then Running else if n == 0 then Done else WriteLog(0))
    {
      ghost var s := Now();
      doCommit := false;
      outstanding := outstanding - 1;
      assert |s.ops - {op}| == outstanding by {
        assert s.ops.Keys == (s.ops - {op}).Keys + {op};
      }
      if committing {
        assert false;
      }
      if outstanding == 0 {
        doCommit, committing := true, true;
      }
      Record(s.(ops := s.ops - {op}, phase := if |s.ops| > 1 then Running
          else if s.lh == [] then Done else WriteLog(0)), End(op));
    }

    /** end_op. The last operation out commits; everything written by any operation is
        then durable and installed. */
    method EndOp(ghost op: nat)
      requires Valid() && Now().phase.Running? && op in Now().ops
      modifies this
      ensures Valid() && block == old(block) && old(run) < run
      ensures outstanding == old(outstanding) - 1 && !committing
      ensures Now().phase == Running && Now().ops == old(Now()).ops - {op} && Now().hist == old(Now()).hist
      ensures outstanding > 0 ==>
                disk == old(disk) && Now().lh == old(Now()).lh && Now().committed == old(Now()).committed
      ensures outstanding == 0 ==> n == 0 && Now().committed == |Now().hist|
    {
      var doCommit := LeaveOp(op);
      if doCommit {
        Commit();
        committing := false;
        Record(Now().(phase := Running), Finish);
      }
    }

    /** recover_from_log: finishes an interrupted commit and empties the log. */
    method RecoverFromLog()
      requires Valid() && Now().phase == Boot
      modifies this, block
      ensures Valid() && block == old(block) && old(run) < run
      ensures n == 0 && !committing && outstanding == 0
      ensures Now().phase == Running && Now().lh == [] && Now().ops == map[]
      ensures Now().hist == old(Now()).hist && Now().committed == old(Now()).committed && Now().base == old(Now()).base
      ensures WellFormedHeader(l, old(disk)[l.start])
      ensures cache == disk && SameHome(l, disk, Recovered(l, old(disk)))
      ensures |disk[l.start].words| == WORDS && HeaderCount(disk[l.start]) == 0
    {
      ReadHeader();
      InstallTrans(true);
      ghost var installed := disk;
      EraseRecovered();
      HeaderIsNotHome(l, installed, disk[l.start]);
    }

    /** The end of recover_from_log: write an empty header. */
    method EraseRecovered()
      requires Valid() && Now().phase == Recover(n)
      modifies this
      ensures Valid() && block == old(block) && run == old(run) + [Now()]
      ensures n == 0 && outstanding == 0 && !committing
      ensures Now() == old(Now()).(disk := disk, cache := cache, lh := [], phase := Running) && Now().ops == map[]
      ensures cache == disk && disk == old(disk)[l.start := disk[l.start]]
      ensures |disk[l.start].words| == WORDS && HeaderCount(disk[l.start]) == 0
    {
      LogFacts(l, run, steps);
      n := 0;
      var h := FillHeader();
      cache, disk := cache[l.start := h], disk[l.start := h];
      assert block[..n] == [];
      Record(Now().(disk := disk, cache := cache, lh := [], phase := Running), RecoverClear);
    }
  }
}
