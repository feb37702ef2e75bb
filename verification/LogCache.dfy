/**
 The log over the buffer cache: the steps of log.c as they act on real buffers, with the pins
 that log_write sets and install_trans gives up. Nothing that the log still needs can be
 recycled, and what the log protocol calls its cache is what bread returns.
 */
module LogCache {
  import P = LogProtocol
  import C = BufferCache

  /** The log, the buffers, and the home blocks that a client has changed under the buffer's lock
      and not yet given to log_write. */
  datatype Joint = Joint(s: P.State, v: C.View, open: set<nat>)

  ghost predicate Holds(v: C.View, dev: nat, b: nat, i: nat) {
    i < |v.bufs| && v.bufs[i].dev == dev && v.bufs[i].blockno == b
  }

  ghost predicate HoldsLocked(v: C.View, dev: nat, b: nat, i: nat) { Holds(v, dev, b, i) && v.bufs[i].locked }

  // ------------------------------------------------------------ the relation

  /** Block b is on disk what the protocol says, and bread returns what the protocol says. */
  ghost predicate BlockIs(dev: nat, s: P.State, v: C.View, open: set<nat>, b: nat) {
    && b < |s.disk| == |s.cache| && C.Lookup(v.disk, C.Key(dev, b)) == s.disk[b].words
    && (b !in open ==> C.Lookup(v.h.latest, C.Key(dev, b)) == s.cache[b].words)
  }

  /** Buffer i has one pin while the log needs its block, and else none; it differs from the disk
      only while it is pinned or its holder is changing it. */
  ghost predicate BufIs(l: P.Layout, dev: nat, s: P.State, v: C.View, open: set<nat>, i: nat) {
    && C.Sized(v) && i < |v.bufs|
    && var b := v.bufs[i].blockno;
       if v.bufs[i].dev == dev && b < l.nblocks
       then v.h.pins[i] == (if P.Unpinned(s, b) then 0 else 1)
           && (v.h.dirty[i] ==> !P.Unpinned(s, b) || (b in open && v.bufs[i].locked))
       else v.h.pins[i] == 0 && !v.h.dirty[i]
  }

  /** A block that the log needs is in a buffer. */
  ghost predicate PinHeld(l: P.Layout, dev: nat, s: P.State, v: C.View, b: nat) {
    !P.Unpinned(s, b) ==> b < l.nblocks && exists i: nat :: Holds(v, dev, b, i)
  }

  ghost predicate OpenHeld(l: P.Layout, dev: nat, v: C.View, b: nat) {
    l.Home(b) && exists i: nat :: HoldsLocked(v, dev, b, i)
  }

  ghost predicate Joined(l: P.Layout, dev: nat, j: Joint) {
    && dev > 0 && P.Inv(l, j.s) && C.Ok(j.v) && (j.open != {} ==> j.s.phase.Running?)
    && (forall b: nat {:trigger BlockIs(dev, j.s, j.v, j.open, b)} | b < l.nblocks :: BlockIs(dev, j.s, j.v, j.open, b))
    && (forall i: nat {:trigger BufIs(l, dev, j.s, j.v, j.open, i)} | i < |j.v.bufs| ::
         BufIs(l, dev, j.s, j.v, j.open, i))
    && (forall b: nat {:trigger PinHeld(l, dev, j.s, j.v, b)} :: PinHeld(l, dev, j.s, j.v, b))
    && (forall b: nat {:trigger OpenHeld(l, dev, j.v, b)} | b in j.open :: OpenHeld(l, dev, j.v, b))
  }

  // -------------------------------------------------------- what buffers do

  ghost function Changed(v: C.View, i: nat, data: C.Data): C.View
    requires C.Sized(v) && i < |v.bufs|
  {
    v.(bufs := v.bufs[i := v.bufs[i].(data := data)],
       h := v.h.(dirty := v.h.dirty[i := true], latest := v.h.latest[C.KeyOf(v.bufs[i]) := data]))
  }

  ghost function Written(v: C.View, i: nat): C.View
    requires C.Sized(v) && i < |v.bufs|
  {
    v.(disk := v.disk[C.KeyOf(v.bufs[i]) := v.bufs[i].data], h := v.h.(dirty := v.h.dirty[i := false]))
  }

  /** memmove into a buffer, and bwrite. */
  ghost function Put(v: C.View, i: nat, data: C.Data): C.View
    requires C.Sized(v) && i < |v.bufs|
  {
    Written(Changed(v, i, data), i)
  }

  ghost function WithPin(v: C.View, i: nat): C.View
    requires C.Sized(v) && i < |v.bufs|
  {
    v.(bufs := v.bufs[i := v.bufs[i].(refcnt := v.bufs[i].refcnt + 1)],
        h := v.h.(pins := v.h.pins[i := v.h.pins[i] + 1]))
  }

  ghost function WithoutPin(v: C.View, i: nat): C.View
    requires C.Sized(v) && i < |v.bufs| && v.bufs[i].refcnt > 0 && v.h.pins[i] > 0
  {
    v.(bufs := v.bufs[i := v.bufs[i].(refcnt := v.bufs[i].refcnt - 1)],
        h := v.h.(pins := v.h.pins[i := v.h.pins[i] - 1]))
  }

  lemma PutKeeps(v: C.View, i: nat, data: C.Data)
    requires C.Ok(v) && i < |v.bufs| && v.bufs[i].locked
    ensures C.Ok(Put(v, i, data))
  {
    C.WriteKeeps(v, i, data, Changed(v, i, data));
    C.BwriteKeeps(Changed(v, i, data), i, Put(v, i, data));
  }

  lemma PinKeeps(v: C.View, i: nat)
    requires C.Ok(v) && i < |v.bufs| && v.bufs[i].locked
    ensures C.Ok(WithPin(v, i))
  {
    C.InUse(v, i);
    C.UseKeeps(v, i, WithPin(v, i));
  }

  /** The locked buffer was just written, so its pin may go. */
  lemma UnpinKeeps(v: C.View, i: nat)
    requires C.Ok(v) && i < |v.bufs| && v.bufs[i].locked && C.Sized(v) && v.h.pins[i] > 0
    ensures v.bufs[i].refcnt > 0 && C.Ok(WithoutPin(v, i))
  {
    C.InUse(v, i);
    C.UseKeeps(v, i, WithoutPin(v, i));
  }

  // ------------------------------------------------------------------- steps

  datatype Step =
    | Buffers                                // bget, bread or brelse by anybody
    | Change(i: nat, data: C.Data)           // a client changes the home block it has locked
    | Bare(step: P.Step)                     // begin_op, end_op, the end of commit, read_head
    | LogWrite(op: nat, i: nat)
    | CopyToLog(i: nat, k: nat)              // write_log, from buffer i to buffer k
    | PutHead(step: P.Step, k: nat)          // the three calls of write_head, through buffer k
    | Install(i: nat, k: nat)                // install_trans, from buffer k to buffer i
    | Recover(i: nat, k: nat)                // the same in recovery
    | CrashAll

  ghost predicate Shaped(l: P.Layout, j: Joint) { l.Valid() && |j.s.disk| == |j.s.cache| == l.nblocks && C.Sized(j.v) }

  /** What the buffers go through when the log does not act. A client that has changed a block
      does not release it before log_write. */
  ghost predicate BuffersStep(dev: nat, j: Joint, j': Joint) {
    && j'.s == j.s && j'.open == j.open && C.Ok(j'.v) && C.Quiet(j.v, j'.v)
    && forall i: nat {:trigger j'.v.bufs[i]} | i < |j.v.bufs| && j.v.bufs[i].locked && j.v.bufs[i].dev == dev
         && j.v.bufs[i].blockno in j.open ::
         j'.v.bufs[i].locked
  }

  /** An operation gives its changes to log_write before it ends. */
  ghost predicate BareStep(l: P.Layout, j: Joint, step: P.Step, j': Joint)
    requires Shaped(l, j)
  {
    && (step.Begin? || step.End? || step.Finish? || step.ReadHead?) && (step.End? && |j.s.ops| <= 1 ==> j.open == {})
    && P.Next(l, j.s, j'.s, step) && j'.v == j.v && j'.open == j.open
  }

  ghost predicate LogWriteStep(l: P.Layout, dev: nat, j: Joint, op: nat, i: nat, j': Joint)
    requires Shaped(l, j)
  {
    && i < |j.v.bufs| && j.v.bufs[i].locked && j.v.bufs[i].dev == dev
    && var b := j.v.bufs[i].blockno;
       && P.Next(l, j.s, j'.s, P.LogWrite(op, b, P.Block(j.v.bufs[i].data)))
       && j'.v == (if b in j.s.lh then j.v else WithPin(j.v, i)) && j'.open == j.open - {b}
  }

  ghost predicate CopyStep(l: P.Layout, dev: nat, j: Joint, i: nat, k: nat, j': Joint)
    requires Shaped(l, j)
  {
    && j.s.phase.WriteLog? && j.s.phase.tail < |j.s.lh|
    && HoldsLocked(j.v, dev, j.s.lh[j.s.phase.tail], i) && HoldsLocked(j.v, dev, l.start + 1 + j.s.phase.tail, k)
    && P.Next(l, j.s, j'.s, P.WriteLogBlock) && j'.v == Put(j.v, k, j.v.bufs[i].data) && j'.open == j.open
  }

  ghost predicate HeadStep(l: P.Layout, dev: nat, j: Joint, step: P.Step, k: nat, j': Joint)
    requires Shaped(l, j)
  {
    && (step.WriteHead? || step.ClearHead? || step.RecoverClear?) && HoldsLocked(j.v, dev, l.start, k)
    && P.Next(l, j.s, j'.s, step) && |j.v.bufs[k].data| == P.WORDS && |j.s.lh| <= P.LOGSIZE
    && j'.v == Put(j.v, k, P.PutHeader(P.Block(j.v.bufs[k].data), if step.WriteHead? then j.s.lh else []).words)
    && j'.open == j.open
  }

  /** memmove, bwrite and, outside recovery, bunpin. */
  ghost predicate InstallStep(l: P.Layout, dev: nat, j: Joint, i: nat, k: nat, recovering: bool, j': Joint)
    requires Shaped(l, j)
  {
    && (if recovering then j.s.phase.Recover? else j.s.phase.Install?) && j.s.phase.tail < |j.s.lh|
    && HoldsLocked(j.v, dev, j.s.lh[j.s.phase.tail], i) && HoldsLocked(j.v, dev, l.start + 1 + j.s.phase.tail, k)
    && P.Next(l, j.s, j'.s, if recovering then P.RecoverBlock else P.InstallBlock) && j'.open == j.open
    && var v := Put(j.v, i, j.v.bufs[k].data);
       if recovering then j'.v == v else v.bufs[i].refcnt > 0 && v.h.pins[i] > 0 && j'.v == WithoutPin(v, i)
  }

  /** Every buffer is as binit leaves it. */
  ghost predicate Rebooted(v: C.View) {
    C.Ok(v) && v.h.latest == v.disk && forall i: nat {:trigger v.bufs[i]} | i < |v.bufs| ::
      v.h.pins[i] == 0 && !v.h.dirty[i]
  }

  ghost predicate CrashStep(l: P.Layout, j: Joint, j': Joint)
    requires Shaped(l, j)
  {
    P.Next(l, j.s, j'.s, P.Crash) && Rebooted(j'.v) && j'.v.disk == j.v.disk && j'.open == {}
  }

  ghost predicate Next(l: P.Layout, dev: nat, j: Joint, step: Step, j': Joint)
    requires Shaped(l, j)
  {
    match step
    case Buffers => BuffersStep(dev, j, j')
    case Change(i, data) =>
      && j.s.phase.Running? && i < |j.v.bufs| && j.v.bufs[i].locked && j.v.bufs[i].dev == dev
      && l.Home(j.v.bufs[i].blockno)
      && j' == Joint(j.s, Changed(j.v, i, data), j.open + {j.v.bufs[i].blockno})
    case Bare(p) => BareStep(l, j, p, j')
    case LogWrite(op, i) => LogWriteStep(l, dev, j, op, i, j')
    case CopyToLog(i, k) => CopyStep(l, dev, j, i, k, j')
    case PutHead(p, k) => HeadStep(l, dev, j, p, k, j')
    case Install(i, k) => InstallStep(l, dev, j, i, k, false, j')
    case Recover(i, k) => InstallStep(l, dev, j, i, k, true, j')
    case CrashAll => CrashStep(l, j, j')
  }

  // ------------------------------------------------------ what steps keep

  /** A block of a real device has one buffer. */
  lemma OneHolder(v: C.View, dev: nat, b: nat, i: nat, k: nat)
    requires C.Ok(v) && dev > 0 && Holds(v, dev, b, i) && Holds(v, dev, b, k)
    ensures i == k
  {
    if i != k {
      C.KeysUnique(v, i, k);
    }
  }

  /** Whoever has locked a buffer sees what the protocol calls the cached block. */
  lemma LockedData(l: P.Layout, dev: nat, j: Joint, b: nat, i: nat)
    requires Joined(l, dev, j) && HoldsLocked(j.v, dev, b, i) && b < l.nblocks && b !in j.open
    ensures j.v.bufs[i].data == j.s.cache[b].words
  {
    assert C.CountOk(j.v, i) && C.DataOk(j.v, i) && BlockIs(dev, j.s, j.v, j.open, b);
  }

  /** bget takes no buffer whose block the log needs or a client is changing. */
  lemma RecycledIsUnpinned(l: P.Layout, dev: nat, j: Joint, b: nat, i: nat)
    requires Joined(l, dev, j) && Holds(j.v, dev, b, i) && b < l.nblocks && j.v.bufs[i].refcnt == 0
    ensures P.Unpinned(j.s, b) && b !in j.open && P.Next(l, j.s, j.s, P.Evict(b))
  {
    assert C.CountOk(j.v, i) && BufIs(l, dev, j.s, j.v, j.open, i);
    if b in j.open {
      assert OpenHeld(l, dev, j.v, b);
      var k: nat :| HoldsLocked(j.v, dev, b, k);
      OneHolder(j.v, dev, b, i, k);
    }
    assert j.s.cache[b] == j.s.disk[b];
    assert j.s.cache[b := j.s.disk[b]] == j.s.cache;
  }

  /** brelse is allowed once log_write has been called: a changed buffer is pinned. */
  lemma ReleaseAllowed(l: P.Layout, dev: nat, j: Joint, i: nat)
    requires Joined(l, dev, j) && i < |j.v.bufs| && !(j.v.bufs[i].dev == dev && j.v.bufs[i].blockno in j.open)
    ensures C.Sized(j.v) && (j.v.h.dirty[i] ==> j.v.h.pins[i] > 0)
  {
    assert BufIs(l, dev, j.s, j.v, j.open, i);
  }

  /** install_trans finds the pin that it gives up. */
  lemma UnpinAllowed(l: P.Layout, dev: nat, j: Joint, i: nat)
    requires Joined(l, dev, j) && j.s.phase.Install? && j.s.phase.tail < |j.s.lh|
             && HoldsLocked(j.v, dev, j.s.lh[j.s.phase.tail], i)
    ensures C.Sized(j.v) && j.v.h.pins[i] == 1 && j.v.bufs[i].refcnt > 0
  {
    var b := j.s.lh[j.s.phase.tail];
    assert j.s.lh[j.s.phase.tail..][0] == b && l.Home(b);
    assert BufIs(l, dev, j.s, j.v, j.open, i) && C.CountOk(j.v, i);
  }

  lemma BuffersKeep(l: P.Layout, dev: nat, j: Joint, j': Joint)
    requires Joined(l, dev, j) && BuffersStep(dev, j, j')
    ensures Joined(l, dev, j')
  {
    forall b: nat | b < l.nblocks
      ensures BlockIs(dev, j'.s, j'.v, j'.open, b)
    {
      assert BlockIs(dev, j.s, j.v, j.open, b);
    }
    forall i: nat | i < |j'.v.bufs|
      ensures BufIs(l, dev, j'.s, j'.v, j'.open, i)
    {
      QuietBuf(l, dev, j, j', i);
    }
    forall b: nat
      ensures PinHeld(l, dev, j'.s, j'.v, b)
    {
      assert PinHeld(l, dev, j.s, j.v, b);
      if !P.Unpinned(j.s, b) {
        var i: nat :| Holds(j.v, dev, b, i);
        assert BufIs(l, dev, j.s, j.v, j.open, i) && C.CountOk(j.v, i);
        assert C.KeyOf(j'.v.bufs[i]) == C.KeyOf(j.v.bufs[i]);
        assert Holds(j'.v, dev, b, i);
      }
    }
    forall b: nat | b in j'.open
      ensures OpenHeld(l, dev, j'.v, b)
    {
      assert OpenHeld(l, dev, j.v, b);
      var i: nat :| HoldsLocked(j.v, dev, b, i);
      assert C.CountOk(j.v, i);
      assert C.KeyOf(j'.v.bufs[i]) == C.KeyOf(j.v.bufs[i]);
      assert HoldsLocked(j'.v, dev, b, i);
    }
  }

  lemma QuietBuf(l: P.Layout, dev: nat, j: Joint, j': Joint, i: nat)
    requires Joined(l, dev, j) && BuffersStep(dev, j, j') && i < |j'.v.bufs|
    ensures BufIs(l, dev, j'.s, j'.v, j'.open, i)
  {
    assert BufIs(l, dev, j.s, j.v, j.open, i) && C.CountOk(j.v, i) && C.CountOk(j'.v, i);
    assert PinHeld(l, dev, j.s, j.v, j'.v.bufs[i].blockno);
  }

  lemma ChangeKeeps(l: P.Layout, dev: nat, j: Joint, i: nat, data: C.Data, j': Joint)
    requires Joined(l, dev, j) && Next(l, dev, j, Change(i, data), j')
    ensures Joined(l, dev, j')
  {
    var b0 := j.v.bufs[i].blockno;
    C.WriteKeeps(j.v, i, data, j'.v);
    forall b: nat | b < l.nblocks
      ensures BlockIs(dev, j'.s, j'.v, j'.open, b)
    {
      assert BlockIs(dev, j.s, j.v, j.open, b);
    }
    forall k: nat | k < |j'.v.bufs|
      ensures BufIs(l, dev, j'.s, j'.v, j'.open, k)
    {
      assert BufIs(l, dev, j.s, j.v, j.open, k);
    }
    SameHolders(l, dev, j, j');
    assert HoldsLocked(j'.v, dev, b0, i);
  }

  /** Buffers keep their blocks and locks, and the log needs no new block. */
  lemma SameHolders(l: P.Layout, dev: nat, j: Joint, j': Joint)
    requires Joined(l, dev, j) && |j'.v.bufs| == |j.v.bufs|
    requires forall k: nat {:trigger j'.v.bufs[k]} | k < |j.v.bufs| ::
               C.KeyOf(j'.v.bufs[k]) == C.KeyOf(j.v.bufs[k]) && (j.v.bufs[k].locked ==> j'.v.bufs[k].locked)
    ensures forall b: nat {:trigger PinHeld(l, dev, j'.s, j'.v, b)} | !P.Unpinned(j.s, b) ::
              PinHeld(l, dev, j'.s, j'.v, b)
    ensures forall b: nat {:trigger PinHeld(l, dev, j'.s, j'.v, b)} | P.Unpinned(j'.s, b) ::
              PinHeld(l, dev, j'.s, j'.v, b)
    ensures forall b: nat {:trigger OpenHeld(l, dev, j'.v, b)} | b in j.open :: OpenHeld(l, dev, j'.v, b)
  {
    forall b: nat | !P.Unpinned(j.s, b)
      ensures PinHeld(l, dev, j'.s, j'.v, b)
    {
      assert PinHeld(l, dev, j.s, j.v, b);
      var i: nat :| Holds(j.v, dev, b, i);
      assert C.KeyOf(j'.v.bufs[i]) == C.KeyOf(j.v.bufs[i]);
      assert Holds(j'.v, dev, b, i);
    }
    forall b: nat | b in j.open
      ensures OpenHeld(l, dev, j'.v, b)
    {
      assert OpenHeld(l, dev, j.v, b);
      var i: nat :| HoldsLocked(j.v, dev, b, i);
      assert C.KeyOf(j'.v.bufs[i]) == C.KeyOf(j.v.bufs[i]);
      assert HoldsLocked(j'.v, dev, b, i);
    }
  }

  lemma BareKeeps(l: P.Layout, dev: nat, j: Joint, step: P.Step, j': Joint)
    requires Joined(l, dev, j) && BareStep(l, j, step, j')
    ensures Joined(l, dev, j')
  {
    hide C.Ok;
    P.StepKeeps(l, j.s, j'.s, step);
    forall b: nat
      ensures P.Unpinned(j'.s, b) <==> P.Unpinned(j.s, b)
    {
    }
    forall b: nat | b < l.nblocks
      ensures BlockIs(dev, j'.s, j'.v, j'.open, b)
    {
      assert BlockIs(dev, j.s, j.v, j.open, b);
    }
    forall k: nat | k < |j'.v.bufs|
      ensures BufIs(l, dev, j'.s, j'.v, j'.open, k)
    {
      assert BufIs(l, dev, j.s, j.v, j.open, k);
    }
    SameHolders(l, dev, j, j');
  }

  lemma InvSizes(l: P.Layout, s: P.State)
    requires P.Inv(l, s)
    ensures l.Valid() && |s.disk| == |s.cache| == l.nblocks
  {
  }

  lemma LogWriteKeeps(l: P.Layout, dev: nat, j: Joint, op: nat, i: nat, j': Joint)
    requires Joined(l, dev, j) && LogWriteStep(l, dev, j, op, i, j')
    ensures Joined(l, dev, j')
  {
    hide C.Ok, P.Inv, BufIs;
    InvSizes(l, j.s);
    var b0 := j.v.bufs[i].blockno;
    P.StepKeeps(l, j.s, j'.s, P.LogWrite(op, b0, P.Block(j.v.bufs[i].data)));
    PinKeeps(j.v, i);
    C.InUse(j.v, i);
    forall b: nat | b < l.nblocks
      ensures BlockIs(dev, j'.s, j'.v, j'.open, b)
    {
      assert BlockIs(dev, j.s, j.v, j.open, b);
    }
    forall k: nat | k < |j'.v.bufs|
      ensures BufIs(l, dev, j'.s, j'.v, j'.open, k)
    {
      LogWriteBuf(l, dev, j, op, i, j', k);
    }
    SameHolders(l, dev, j, j');
    assert Holds(j'.v, dev, b0, i);
  }

  lemma LogWriteBuf(l: P.Layout, dev: nat, j: Joint, op: nat, i: nat, j': Joint, k: nat)
    requires C.Ok(j.v) && dev > 0 && Shaped(l, j) && LogWriteStep(l, dev, j, op, i, j')
    requires k < |j.v.bufs| && BufIs(l, dev, j.s, j.v, j.open, k)
    ensures BufIs(l, dev, j'.s, j'.v, j'.open, k)
  {
    if Holds(j.v, dev, j.v.bufs[i].blockno, k) {
      OneHolder(j.v, dev, j.v.bufs[i].blockno, i, k);
    }
  }

  /** A locked buffer is filled with what the protocol writes to its block, disk and cache. */
  lemma PutJoins(l: P.Layout, dev: nat, j: Joint, b0: nat, i: nat, data: P.Block, s': P.State)
    requires Joined(l, dev, j) && HoldsLocked(j.v, dev, b0, i) && b0 < l.nblocks && j.open == {}
    requires s'.disk == j.s.disk[b0 := data] && s'.cache == j.s.cache[b0 := data]
    ensures var v := Put(j.v, i, data.words);
            && C.Ok(v) && (forall b: nat {:trigger BlockIs(dev, s', v, {}, b)} | b < l.nblocks ::
                 BlockIs(dev, s', v, {}, b))
            && |v.bufs| == |j.v.bufs| && v.h.pins == j.v.h.pins && !v.h.dirty[i]
            && forall k: nat {:trigger v.bufs[k]} | k < |v.bufs| ::
                 v.bufs[k] == j.v.bufs[k].(data := v.bufs[k].data) && (v.h.dirty[k] ==> j.v.h.dirty[k])
  {
    var v := Put(j.v, i, data.words);
    PutKeeps(j.v, i, data.words);
    forall b: nat | b < l.nblocks
      ensures BlockIs(dev, s', v, {}, b)
    {
      assert BlockIs(dev, j.s, j.v, j.open, b);
    }
  }

  /** The same buffers and pins, for a log that needs the same blocks. */
  lemma PutKeepsPins(l: P.Layout, dev: nat, j: Joint, b0: nat, i: nat, data: P.Block, j': Joint)
    requires Joined(l, dev, j) && HoldsLocked(j.v, dev, b0, i) && b0 < l.nblocks && j.open == j'.open == {}
             && P.Inv(l, j'.s)
    requires j'.s.disk == j.s.disk[b0 := data] && j'.s.cache == j.s.cache[b0 := data] && j'.v == Put(j.v, i, data.words)
    requires forall b: nat {:trigger P.Unpinned(j'.s, b)} :: P.Unpinned(j'.s, b) <==> P.Unpinned(j.s, b)
    ensures Joined(l, dev, j')
  {
    PutJoins(l, dev, j, b0, i, data, j'.s);
    forall k: nat | k < |j'.v.bufs|
      ensures BufIs(l, dev, j'.s, j'.v, j'.open, k)
    {
      assert BufIs(l, dev, j.s, j.v, j.open, k);
      assert j'.v.bufs[k] == j.v.bufs[k].(data := j'.v.bufs[k].data);
    }
    SameHolders(l, dev, j, j');
  }

  lemma EntryPlaces(l: P.Layout, s: P.State, t: nat)
    requires P.Inv(l, s) && t < |s.lh|
    ensures l.Home(s.lh[t]) && l.start + 1 + t < l.nblocks == |s.disk| == |s.cache| && l.Valid()
  {
  }

  lemma CopyKeeps(l: P.Layout, dev: nat, j: Joint, i: nat, k: nat, j': Joint)
    requires Joined(l, dev, j) && CopyStep(l, dev, j, i, k, j')
    ensures Joined(l, dev, j')
  {
    hide C.Ok, P.Inv;
    var from := j.s.lh[j.s.phase.tail];
    P.StepKeeps(l, j.s, j'.s, P.WriteLogBlock);
    EntryPlaces(l, j.s, j.s.phase.tail);
    LockedData(l, dev, j, from, i);
    PutKeepsPins(l, dev, j, l.start + 1 + j.s.phase.tail, k, j.s.cache[from], j');
  }

  lemma HeadKeeps(l: P.Layout, dev: nat, j: Joint, step: P.Step, k: nat, j': Joint)
    requires Joined(l, dev, j) && HeadStep(l, dev, j, step, k, j')
    ensures Joined(l, dev, j')
  {
    P.StepKeeps(l, j.s, j'.s, step);
    LockedData(l, dev, j, l.start, k);
    assert P.Block(j.v.bufs[k].data) == j.s.cache[l.start];
    HeadUnpins(l, j.s, j'.s, step);
    PutKeepsPins(l, dev, j, l.start, k, j'.s.disk[l.start], j');
  }

  /** Writing the header changes nothing about what the log needs. */
  lemma HeadUnpins(l: P.Layout, s: P.State, s': P.State, step: P.Step)
    requires l.Valid() && |s.disk| == |s.cache| == l.nblocks
             && (step.WriteHead? || step.ClearHead? || step.RecoverClear?) && P.Next(l, s, s', step)
    ensures forall b: nat {:trigger P.Unpinned(s', b)} :: P.Unpinned(s', b) <==> P.Unpinned(s, b)
  {
    assert s.lh[0..] == s.lh && s.lh[|s.lh|..] == [];
  }

  lemma RecoverKeeps(l: P.Layout, dev: nat, j: Joint, i: nat, k: nat, j': Joint)
    requires Joined(l, dev, j) && InstallStep(l, dev, j, i, k, true, j')
    ensures Joined(l, dev, j')
  {
    hide C.Ok, P.Inv;
    var b0, from := j.s.lh[j.s.phase.tail], l.start + 1 + j.s.phase.tail;
    P.StepKeeps(l, j.s, j'.s, P.RecoverBlock);
    EntryPlaces(l, j.s, j.s.phase.tail);
    LockedData(l, dev, j, from, k);
    PutKeepsPins(l, dev, j, b0, i, j.s.cache[from], j');
  }

  lemma InstallKeeps(l: P.Layout, dev: nat, j: Joint, i: nat, k: nat, j': Joint)
    requires Joined(l, dev, j) && InstallStep(l, dev, j, i, k, false, j')
    ensures Joined(l, dev, j')
  {
    hide C.Ok, P.Inv, BufIs, PinHeld, OpenHeld;
    var t := j.s.phase.tail;
    var b0, from := j.s.lh[t], l.start + 1 + t;
    P.StepKeeps(l, j.s, j'.s, P.InstallBlock);
    EntryPlaces(l, j.s, t);
    LockedData(l, dev, j, from, k);
    UnpinAllowed(l, dev, j, i);
    PutJoins(l, dev, j, b0, i, j.s.cache[from], j'.s);
    UnpinKeeps(Put(j.v, i, j.v.bufs[k].data), i);
    InstalledUnpins(l, j.s, j'.s);
    forall b: nat | b < l.nblocks
      ensures BlockIs(dev, j'.s, j'.v, j'.open, b)
    {
      assert BlockIs(dev, j'.s, Put(j.v, i, j.v.bufs[k].data), {}, b);
    }
    forall q: nat | q < |j'.v.bufs|
      ensures BufIs(l, dev, j'.s, j'.v, j'.open, q)
    {
      InstalledBuf(l, dev, j, i, k, j', q);
    }
    SameHolders(l, dev, j, j');
  }

  lemma InstalledBuf(l: P.Layout, dev: nat, j: Joint, i: nat, k: nat, j': Joint, q: nat)
    requires C.Ok(j.v) && dev > 0 && Shaped(l, j) && InstallStep(l, dev, j, i, k, false, j') && j.open == {}
             && j.s.lh[j.s.phase.tail] < l.nblocks
    requires forall b: nat {:trigger P.Unpinned(j'.s, b)} ::
               P.Unpinned(j'.s, b) <==> P.Unpinned(j.s, b) || b == j.s.lh[j.s.phase.tail]
    requires q < |j.v.bufs| && BufIs(l, dev, j.s, j.v, j.open, q) && j.v.h.pins[i] == 1
    ensures BufIs(l, dev, j'.s, j'.v, j'.open, q)
  {
    hide C.Ok, P.Next;
    var b0 := j.s.lh[j.s.phase.tail];
    if q != i && Holds(j.v, dev, b0, q) {
      OneHolder(j.v, dev, b0, i, q);
    }
  }

  /** Installing an entry frees its block and no other. */
  lemma InstalledUnpins(l: P.Layout, s: P.State, s': P.State)
    requires P.Inv(l, s) && s.phase.Install? && s.phase.tail < |s.lh| && P.Next(l, s, s', P.InstallBlock)
    ensures forall b: nat {:trigger P.Unpinned(s', b)} ::
              P.Unpinned(s', b) <==> P.Unpinned(s, b) || b == s.lh[s.phase.tail]
  {
    forall b: nat
      ensures P.Unpinned(s', b) <==> P.Unpinned(s, b) || b == s.lh[s.phase.tail]
    {
      FromTail(s.lh, s.phase.tail, b);
    }
  }

  lemma FromTail(lh: seq<nat>, t: nat, b: nat)
    requires t < |lh| && forall i, k | 0 <= i < k < |lh| :: lh[i] != lh[k]
    ensures b in lh[t + 1..] <==> b in lh[t..] && b != lh[t]
  {
    assert lh[t..] == [lh[t]] + lh[t + 1..];
  }

  lemma CrashKeeps(l: P.Layout, dev: nat, j: Joint, j': Joint)
    requires Joined(l, dev, j) && CrashStep(l, j, j')
    ensures Joined(l, dev, j')
  {
    P.StepKeeps(l, j.s, j'.s, P.Crash);
    forall b: nat | b < l.nblocks
      ensures BlockIs(dev, j'.s, j'.v, j'.open, b)
    {
      assert BlockIs(dev, j.s, j.v, j.open, b);
    }
    forall k: nat | k < |j'.v.bufs|
      ensures BufIs(l, dev, j'.s, j'.v, j'.open, k)
    {
      assert j'.v.bufs[k] == j'.v.bufs[k];
    }
  }

  lemma StepKeeps(l: P.Layout, dev: nat, j: Joint, step: Step, j': Joint)
    requires Joined(l, dev, j) && Next(l, dev, j, step, j')
    ensures Joined(l, dev, j')
  {
    match step
    case Buffers => BuffersKeep(l, dev, j, j');
    case Change(i, data) => ChangeKeeps(l, dev, j, i, data, j');
    case Bare(p) => BareKeeps(l, dev, j, p, j');
    case LogWrite(op, i) => LogWriteKeeps(l, dev, j, op, i, j');
    case CopyToLog(i, k) => CopyKeeps(l, dev, j, i, k, j');
    case PutHead(p, k) => HeadKeeps(l, dev, j, p, k, j');
    case Install(i, k) => InstallKeeps(l, dev, j, i, k, j');
    case Recover(i, k) => RecoverKeeps(l, dev, j, i, k, j');
    case CrashAll => CrashKeeps(l, dev, j, j');
  }

  // --------------------------------------------------------------- runs

  /** Power-on over a disk with a well-formed log. */
  ghost predicate Init(l: P.Layout, dev: nat, j: Joint) {
    && dev > 0 && P.Init(l, j.s) && Rebooted(j.v) && j.open == {}
    && forall b: nat {:trigger j.s.disk[b]} | b < l.nblocks :: C.Lookup(j.v.disk, C.Key(dev, b)) == j.s.disk[b].words
  }

  ghost predicate IsRun(l: P.Layout, dev: nat, run: seq<Joint>, steps: seq<Step>) {
    && |run| == |steps| + 1 && Init(l, dev, run[0])
    && forall n: nat {:trigger steps[n]} | n < |steps| ::
         Shaped(l, run[n]) && Next(l, dev, run[n], steps[n], run[n + 1])
  }

  /** What the log protocol sees of a step: nothing, or one step of its own. */
  ghost function Seen(j: Joint, step: Step): seq<P.Step> {
    match step
    case Buffers => []
    case Change(_, _) => []
    case Bare(p) => [p]
    case LogWrite(op, i) => if i < |j.v.bufs| then [P.LogWrite(op, j.v.bufs[i].blockno, P.Block(j.v.bufs[i].data))]
        else []
    case CopyToLog(_, _) => [P.WriteLogBlock]
    case PutHead(p, _) => [p]
    case Install(_, _) => [P.InstallBlock]
    case Recover(_, _) => [P.RecoverBlock]
    case CrashAll => [P.Crash]
  }

  /** What the log protocol sees of the first n steps: its own steps, and its states after them. */
  ghost function LogSteps(run: seq<Joint>, steps: seq<Step>, n: nat): seq<P.Step>
    requires n <= |steps| < |run|
  {
    if n == 0 then [] else LogSteps(run, steps, n - 1) + Seen(run[n - 1], steps[n - 1])
  }

  ghost function LogStates(run: seq<Joint>, steps: seq<Step>, n: nat): seq<P.State>
    requires n <= |steps| < |run|
  {
    if n == 0 then [run[0].s]
    else LogStates(run, steps, n - 1) + if Seen(run[n - 1], steps[n - 1]) == [] then [] else [run[n].s]
  }

  /** Every run of the log over real buffers is a run of the log protocol, with bread's view of
      the buffers as its cache: the protocol's states, at its own steps and at no others, are
      those of the run. */
  lemma {:induction false} JointRefines(l: P.Layout, dev: nat, run: seq<Joint>, steps: seq<Step>, n: nat)
    requires IsRun(l, dev, run, steps) && n <= |steps|
    ensures Joined(l, dev, run[n])
    ensures P.IsRun(l, LogStates(run, steps, n), LogSteps(run, steps, n))
    ensures LogStates(run, steps, n)[|LogSteps(run, steps, n)|] == run[n].s
  {
    hide Joined, P.IsRun, P.Init, Next, Shaped;
    if n == 0 {
      var j := run[0];
      P.InitInv(l, j.s);
      InitJoined(l, dev, j);
      RunStarts(l, j.s);
    } else {
      JointRefines(l, dev, run, steps, n - 1);
      assert steps[n - 1] == steps[n - 1];
      OneMore(l, dev, run, steps, n - 1);
    }
  }

  lemma RunStarts(l: P.Layout, s: P.State)
    requires P.Init(l, s)
    ensures P.IsRun(l, [s], [])
  {
    assert P.Linked(l, [s], [], 0);
  }

  lemma OneMore(l: P.Layout, dev: nat, run: seq<Joint>, steps: seq<Step>, n: nat)
    requires n < |steps| < |run| && Shaped(l, run[n]) && Next(l, dev, run[n], steps[n], run[n + 1])
    requires Joined(l, dev, run[n]) && P.IsRun(l, LogStates(run, steps, n), LogSteps(run, steps, n))
             && LogStates(run, steps, n)[|LogSteps(run, steps, n)|] == run[n].s
    ensures Joined(l, dev, run[n + 1])
    ensures P.IsRun(l, LogStates(run, steps, n + 1), LogSteps(run, steps, n + 1))
            && LogStates(run, steps, n + 1)[|LogSteps(run, steps, n + 1)|] == run[n + 1].s
  {
    hide Joined, Next, P.Next, P.IsRun, Seen;
    var j, step, j' := run[n], steps[n], run[n + 1];
    var states, log := LogStates(run, steps, n), LogSteps(run, steps, n);
    StepKeeps(l, dev, j, step, j');
    StepSeen(l, dev, j, step, j');
    RunSize(l, states, log);
    if Seen(j, step) == [] {
      assert states + [] == states && log + [] == log;
    } else {
      P.Extend(l, states, log, j'.s, Seen(j, step)[0]);
      assert log + Seen(j, step) == log + [Seen(j, step)[0]];
    }
  }

  /** The protocol sees at most one step, and if none, no change. */
  lemma StepSeen(l: P.Layout, dev: nat, j: Joint, step: Step, j': Joint)
    requires Shaped(l, j) && Next(l, dev, j, step, j')
    ensures if Seen(j, step) == [] then j'.s == j.s
            else |Seen(j, step)| == 1 && P.Next(l, j.s, j'.s, Seen(j, step)[0])
  {
    hide P.Next;
  }

  lemma RunSize(l: P.Layout, run: seq<P.State>, steps: seq<P.Step>)
    requires P.IsRun(l, run, steps)
    ensures |run| == |steps| + 1
  {
  }

  /** What the protocol has seen it goes on having seen. */
  lemma {:induction false} SeenBefore(run: seq<Joint>, steps: seq<Step>, m: nat, n: nat)
    requires m <= n <= |steps| < |run|
    ensures LogSteps(run, steps, m) <= LogSteps(run, steps, n) && LogStates(run, steps, m) <= LogStates(run, steps, n)
  {
    if m < n {
      SeenBefore(run, steps, m, n - 1);
    }
  }

  /** The protocol's state at every point of the run. */
  lemma StateSeen(l: P.Layout, dev: nat, run: seq<Joint>, steps: seq<Step>, m: nat, n: nat)
    requires IsRun(l, dev, run, steps) && m <= n <= |steps|
    ensures |LogSteps(run, steps, m)| <= |LogSteps(run, steps, n)| < |LogStates(run, steps, n)|
            && LogStates(run, steps, n)[|LogSteps(run, steps, m)|] == run[m].s
  {
    JointRefines(l, dev, run, steps, m);
    JointRefines(l, dev, run, steps, n);
    SeenBefore(run, steps, m, n);
  }

  lemma InitJoined(l: P.Layout, dev: nat, j: Joint)
    requires Init(l, dev, j) && P.Inv(l, j.s)
    ensures Joined(l, dev, j)
  {
    forall b: nat | b < l.nblocks
      ensures BlockIs(dev, j.s, j.v, j.open, b)
    {
      assert j.s.disk[b] == j.s.disk[b];
    }
    forall k: nat | k < |j.v.bufs|
      ensures BufIs(l, dev, j.s, j.v, j.open, k)
    {
      assert j.v.bufs[k] == j.v.bufs[k];
    }
  }

  /** In every run with crashes, over any use of the buffers by any number of clients, recovery of
      the disk under the buffers gives a prefix of whole operations. */
  lemma BuffersCrashAtomic(l: P.Layout, dev: nat, run: seq<Joint>, steps: seq<Step>, n: nat)
    requires IsRun(l, dev, run, steps) && n <= |steps|
    ensures var s := run[n].s;
            && |s.disk| == |s.base| == l.nblocks && P.WellFormedHeader(l, s.disk[l.start]) && s.committed <= |s.hist|
            && P.GoodHist(l, s.hist)
            && P.SameHome(l, P.Recovered(l, s.disk), P.Apply(l, s.base, s.hist[..s.committed])) && P.WholeOperations(s)
    ensures forall b: nat {:trigger BlockIs(dev, run[n].s, run[n].v, run[n].open, b)} | b < l.nblocks ::
              BlockIs(dev, run[n].s, run[n].v, run[n].open, b)
  {
    JointRefines(l, dev, run, steps, n);
    P.CrashAtomicity(l, LogStates(run, steps, n), LogSteps(run, steps, n), |LogSteps(run, steps, n)|);
  }

  /** What is durable under the buffers stays durable, and only a commit's header write adds to it. */
  lemma BuffersDurable(l: P.Layout, dev: nat, run: seq<Joint>, steps: seq<Step>, m: nat, n: nat)
    requires IsRun(l, dev, run, steps) && m <= n <= |steps|
    ensures run[m].s.committed <= |run[m].s.hist| && run[n].s.committed <= |run[n].s.hist|
    ensures run[m].s.base == run[n].s.base
    ensures run[m].s.hist[..run[m].s.committed] <= run[n].s.hist[..run[n].s.committed]
    ensures (forall k: nat {:trigger Commits(steps, k)} | m <= k < n :: !Commits(steps, k)) ==>
              run[m].s.hist[..run[m].s.committed] == run[n].s.hist[..run[n].s.committed]
  {
    hide P.IsRun;
    JointRefines(l, dev, run, steps, n);
    StateSeen(l, dev, run, steps, m, n);
    var i, j := |LogSteps(run, steps, m)|, |LogSteps(run, steps, n)|;
    P.Durability(l, LogStates(run, steps, n), LogSteps(run, steps, n), i, j);
    if forall k: nat {:trigger Commits(steps, k)} | m <= k < n :: !Commits(steps, k) {
      NoHeadWritten(l, dev, run, steps, m, n);
    }
  }

  ghost predicate Commits(steps: seq<Step>, k: nat) { k < |steps| && steps[k].PutHead? && steps[k].step == P.WriteHead }

  lemma {:induction false} NoHeadWritten(l: P.Layout, dev: nat, run: seq<Joint>, steps: seq<Step>, m: nat, n: nat)
    requires IsRun(l, dev, run, steps) && m <= n <= |steps|
    requires forall k: nat {:trigger Commits(steps, k)} | m <= k < n :: !Commits(steps, k)
    ensures forall i | |LogSteps(run, steps, m)| <= i < |LogSteps(run, steps, n)| ::
              LogSteps(run, steps, n)[i] != P.WriteHead
  {
    if m < n {
      NoHeadWritten(l, dev, run, steps, m, n - 1);
      SeenBefore(run, steps, m, n - 1);
      assert Next(l, dev, run[n - 1], steps[n - 1], run[n]) && !Commits(steps, n - 1);
    }
  }

  /** The header write makes everything given to log_write durable, when no operation is
      outstanding and no client has a change that log_write does not know. */
  lemma BuffersCommit(l: P.Layout, dev: nat, run: seq<Joint>, steps: seq<Step>, n: nat)
    requires IsRun(l, dev, run, steps) && Commits(steps, n)
    ensures run[n + 1].s.committed == |run[n + 1].s.hist| && run[n + 1].s.hist == run[n].s.hist
    ensures run[n].s.ops == run[n + 1].s.ops == map[] && run[n].open == run[n + 1].open == {}
  {
    JointRefines(l, dev, run, steps, n);
    assert Next(l, dev, run[n], steps[n], run[n + 1]);
  }

  /** While the log is at rest or in use, bread returns every write given to log_write, of a block
      that no client is changing. */
  lemma BreadSeesHistory(l: P.Layout, dev: nat, run: seq<Joint>, steps: seq<Step>, n: nat, b: nat)
    requires IsRun(l, dev, run, steps) && n <= |steps| && run[n].s.phase == P.Running && l.Home(b) && b !in run[n].open
    ensures var s := run[n].s;
            && P.GoodHist(l, s.hist) && b < |s.base| == l.nblocks
            && C.Lookup(run[n].v.h.latest, C.Key(dev, b)) == P.Apply(l, s.base, s.hist)[b].words
  {
    JointRefines(l, dev, run, steps, n);
    P.AtRest(l, LogStates(run, steps, n), LogSteps(run, steps, n), |LogSteps(run, steps, n)|);
    assert BlockIs(dev, run[n].s, run[n].v, run[n].open, b);
  }
}
