/**
 The redo log of the file system as a state machine over atomic disk writes.

 A disk is a sequence of blocks; each `bwrite` replaces one block atomically and
 the machine may crash between any two of them, also while it is recovering.
 `cache` is what `bread` would return for each block; a block that is not pinned
 may be evicted at any time, which makes its cached contents the disk's.
 `hist` and `committed` are history: every write made by an operation, in order,
 and how many of them are durable.
 */
module LogProtocol {

  const MAXOPBLOCKS: nat := 10
  const LOGSIZE: nat := 30
  const WORDS: nat := 256 // a 1024-byte block as 4-byte words

  datatype Block = Block(words: seq<int>)
  type Disk = seq<Block>

  /** Where the log lives: the header block `start`, then `size - 1` log blocks. */
  datatype Layout = Layout(start: nat, size: nat, nblocks: nat) {
    ghost predicate Valid() { 0 < size && start + size <= nblocks }
    predicate Home(b: int) { 0 <= b < nblocks && !(start <= b < start + size) }
  }

  /** The number of blocks a header claims. */
  function HeaderCount(h: Block): int
    requires |h.words| == WORDS
  {
    h.words[0]
  }

  ghost predicate WellFormedHeader(l: Layout, h: Block) {
    && |h.words| == WORDS
    && 0 <= HeaderCount(h) <= LOGSIZE
    && HeaderCount(h) < l.size
    && LogBlocks(l, h.words[1..1 + HeaderCount(h)])
  }

  /** The block numbers a header lists. */
  function HeaderBlocks(l: Layout, h: Block): (blocks: seq<nat>)
    requires WellFormedHeader(l, h)
    ensures |blocks| == HeaderCount(h) && LogBlocks(l, blocks)
  {
    var listed := h.words[1..1 + HeaderCount(h)];
    assert forall i | 0 <= i < |listed| :: l.Home(listed[i]);
    seq(|listed|, i requires 0 <= i < |listed| => listed[i])
  }

  /** write_head changes the count and the first `|blocks|` entries of the header buffer, nothing else. */
  function PutHeader(h: Block, blocks: seq<int>): Block
    requires |h.words| == WORDS && |blocks| <= LOGSIZE
  {
    Block([|blocks|] + blocks + h.words[1 + |blocks|..])
  }

  /** Distinct home blocks. */
  ghost predicate LogBlocks(l: Layout, blocks: seq<int>) {
    && (forall i | 0 <= i < |blocks| :: l.Home(blocks[i]))
    && (forall i, j | 0 <= i < j < |blocks| :: blocks[i] != blocks[j])
  }

  datatype Write = Write(op: nat, block: nat, data: Block)

  datatype Phase =
    | Running               // committing == 0
    | WriteLog(tail: nat)   // in write_log, `tail` log blocks written
    | Install(tail: nat)    // header written, `tail` home blocks installed
    | Done                  // commit has returned, committing still 1
    | Boot                  // after a crash, before read_head
    | Recover(tail: nat)    // in recover_from_log, `tail` home blocks installed

  /** `ops` maps each outstanding operation to the number of blocks it has appended. */
  datatype State = State(
    disk: Disk, cache: Disk, lh: seq<nat>, ops: map<nat, nat>, phase: Phase,
    base: Disk, hist: seq<Write>, committed: nat, nextOp: nat)

  // ---------------------------------------------------------------- meaning

  ghost predicate SameHome(l: Layout, d: Disk, e: Disk)
    requires |d| == |e| == l.nblocks
  {
    forall b | 0 <= b < l.nblocks && l.Home(b) :: d[b] == e[b]
  }

  ghost predicate GoodWrite(l: Layout, w: Write) { l.Home(w.block) }

  ghost predicate GoodHist(l: Layout, hist: seq<Write>) {
    forall i | 0 <= i < |hist| :: GoodWrite(l, hist[i])
  }

  /** The disk an atomic store would hold after the writes in `hist`. */
  ghost function Apply(l: Layout, base: Disk, hist: seq<Write>): (d: Disk)
    requires |base| == l.nblocks && GoodHist(l, hist)
    ensures |d| == l.nblocks
  {
    if hist == [] then base
    else
      var w := hist[|hist| - 1];
      assert GoodWrite(l, w);
      Apply(l, base, hist[..|hist| - 1])[w.block := w.data]
  }

  /** The disk after the first `t` logged blocks were copied to their homes. */
  ghost function Replay(l: Layout, d: Disk, blocks: seq<nat>, t: nat): (r: Disk)
    requires l.Valid() && |d| == l.nblocks
    requires LogBlocks(l, blocks) && t <= |blocks| < l.size
    ensures |r| == l.nblocks
  {
    if t == 0 then d
    else
      var r := Replay(l, d, blocks, t - 1);
      r[blocks[t - 1] := r[l.start + t]]
  }

  /** What an uninterrupted recovery turns the disk into, apart from the header. */
  ghost function Recovered(l: Layout, d: Disk): (r: Disk)
    requires l.Valid() && |d| == l.nblocks && WellFormedHeader(l, d[l.start])
    ensures |r| == l.nblocks
  {
    var blocks := HeaderBlocks(l, d[l.start]);
    Replay(l, d, blocks, |blocks|)
  }

  /** `e` holds, on home blocks, what the log blocks overlaid on `d` would give. */
  ghost predicate Overlay(l: Layout, d: Disk, blocks: seq<nat>, e: Disk)
    requires l.Valid() && |d| == |e| == l.nblocks
    requires LogBlocks(l, blocks) && |blocks| < l.size
  {
    && (forall i | 0 <= i < |blocks| :: e[blocks[i]] == d[l.start + 1 + i])
    && (forall b | 0 <= b < l.nblocks && l.Home(b) && b !in blocks :: e[b] == d[b])
  }

  // ------------------------------------------------------------------ steps

  /** Power-on with any disk whose header is well formed. */
  ghost predicate Init(l: Layout, s: State) {
    && l.Valid()
    && |s.disk| == l.nblocks
    && WellFormedHeader(l, s.disk[l.start])
    && s == State(s.disk, s.disk, [], map[], Boot, Recovered(l, s.disk), [], 0, 0)
  }

  /** log_write's guard, tested before absorption is tried. */
  predicate HasRoom(l: Layout, n: nat) { n < LOGSIZE && n < l.size - 1 }

  /** A buffer that may be recycled: not pinned by a log entry that is still to be installed. */
  ghost predicate Unpinned(s: State, b: nat) {
    match s.phase
    case Install(t) => t <= |s.lh| ==> b !in s.lh[t..]
    case Boot | Recover(_) => true
    case _ => b !in s.lh
  }

  datatype Step =
    | Begin
    | LogWrite(op: nat, block: nat, data: Block)
    | End(op: nat)
    | WriteLogBlock
    | WriteHead
    | InstallBlock
    | ClearHead
    | Finish
    | Evict(block: nat)
    | Crash
    | ReadHead
    | RecoverBlock
    | RecoverClear

  ghost predicate Next(l: Layout, s: State, s': State, step: Step)
    requires l.Valid() && |s.disk| == |s.cache| == l.nblocks
  {
    match step
    case Begin =>
      && s.phase == Running
      && |s.lh| + (|s.ops| + 1) * MAXOPBLOCKS <= LOGSIZE
      && s' == s.(ops := s.ops[s.nextOp := 0], nextOp := s.nextOp + 1)
    case LogWrite(op, b, data) =>
      && s.phase == Running
      && op in s.ops && l.Home(b) && HasRoom(l, |s.lh|)
      && (b in s.lh ==>
            s' == s.(cache := s.cache[b := data], hist := s.hist + [Write(op, b, data)]))
      && (b !in s.lh ==>
            && s.ops[op] < MAXOPBLOCKS
            && s' == s.(cache := s.cache[b := data], hist := s.hist + [Write(op, b, data)],
                        lh := s.lh + [b], ops := s.ops[op := s.ops[op] + 1]))
    case End(op) =>
      && s.phase == Running && op in s.ops
      && s' == s.(ops := s.ops - {op},
                  phase := if |s.ops| > 1 then Running else if s.lh == [] then Done else WriteLog(0))
    case WriteLogBlock =>
      && s.phase.WriteLog? && s.phase.tail < |s.lh| && l.start + 1 + s.phase.tail < l.nblocks
      && s.lh[s.phase.tail] < l.nblocks
      && var data := s.cache[s.lh[s.phase.tail]];
         var b := l.start + 1 + s.phase.tail;
         s' == s.(disk := s.disk[b := data], cache := s.cache[b := data], phase := WriteLog(s.phase.tail + 1))
    case WriteHead =>
      && s.phase == WriteLog(|s.lh|) && |s.lh| <= LOGSIZE && |s.cache[l.start].words| == WORDS
      && var h := PutHeader(s.cache[l.start], s.lh);
         s' == s.(disk := s.disk[l.start := h], cache := s.cache[l.start := h], phase := Install(0),
                  committed := |s.hist|)
    case InstallBlock =>
      && s.phase.Install? && s.phase.tail < |s.lh| && l.start + 1 + s.phase.tail < l.nblocks
      && s.lh[s.phase.tail] < l.nblocks
      && var data := s.cache[l.start + 1 + s.phase.tail];
         var b := s.lh[s.phase.tail];
         s' == s.(disk := s.disk[b := data], cache := s.cache[b := data], phase := Install(s.phase.tail + 1))
    case ClearHead =>
      && s.phase == Install(|s.lh|) && |s.cache[l.start].words| == WORDS
      && var h := PutHeader(s.cache[l.start], []);
         s' == s.(disk := s.disk[l.start := h], cache := s.cache[l.start := h], lh := [], phase := Done)
    case Finish =>
      s.phase == Done && s' == s.(phase := Running)
    case Evict(b) =>
      b < l.nblocks && Unpinned(s, b) && s' == s.(cache := s.cache[b := s.disk[b]])
    case Crash =>
      && s.committed <= |s.hist|
      && s' == s.(cache := s.disk, lh := [], ops := map[], phase := Boot, hist := s.hist[..s.committed])
    case ReadHead =>
      && s.phase == Boot && WellFormedHeader(l, s.cache[l.start])
      && s' == s.(lh := HeaderBlocks(l, s.cache[l.start]), phase := Recover(0))
    case RecoverBlock =>
      && s.phase.Recover? && s.phase.tail < |s.lh| && l.start + 1 + s.phase.tail < l.nblocks
      && s.lh[s.phase.tail] < l.nblocks
      && var data := s.cache[l.start + 1 + s.phase.tail];
         var b := s.lh[s.phase.tail];
         s' == s.(disk := s.disk[b := data], cache := s.cache[b := data], phase := Recover(s.phase.tail + 1))
    case RecoverClear =>
      && s.phase == Recover(|s.lh|) && |s.cache[l.start].words| == WORDS
      && var h := PutHeader(s.cache[l.start], []);
         s' == s.(disk := s.disk[l.start := h], cache := s.cache[l.start := h], lh := [], phase := Running)
  }

  /** A run from power-on, with the step taken at each point. */
  ghost predicate IsRun(l: Layout, run: seq<State>, steps: seq<Step>) {
    && l.Valid() && |run| == |steps| + 1
    && (forall i | 0 <= i < |run| :: Linked(l, run, steps, i))
  }

  /** State i of a run is initial, or the result of the step before it. */
  ghost predicate Linked(l: Layout, run: seq<State>, steps: seq<Step>, i: nat)
    requires l.Valid() && |run| == |steps| + 1 && i < |run|
  {
    if i == 0 then Init(l, run[0])
    else |run[i - 1].disk| == |run[i - 1].cache| == l.nblocks && Next(l, run[i - 1], run[i], steps[i - 1])
  }

  /** Taking one more step from the end of a run gives a run. */
  lemma Extend(l: Layout, run: seq<State>, steps: seq<Step>, s: State, step: Step)
    requires IsRun(l, run, steps)
    requires var now := run[|run| - 1];
             |now.disk| == |now.cache| == l.nblocks && Next(l, now, s, step)
    ensures IsRun(l, run + [s], steps + [step])
  {
    forall i | 0 <= i < |run| + 1
      ensures Linked(l, run + [s], steps + [step], i)
    {
      if i < |run| {
        assert Linked(l, run, steps, i);
      }
    }
  }

  // -------------------------------------------------------------- invariant

  /** Blocks the outstanding operations may still append. */
  ghost function Unspent(ops: map<nat, nat>): nat {
    if ops == map[] then 0
    else
      var op :| op in ops;
      (if ops[op] <= MAXOPBLOCKS then MAXOPBLOCKS - ops[op] else 0) + Unspent(ops - {op})
  }

  ghost predicate Bounded(ops: map<nat, nat>) {
    forall op | op in ops :: ops[op] <= MAXOPBLOCKS
  }

  /** Operations are durable entirely or not at all. */
  ghost predicate WholeOperations(s: State) {
    && s.committed <= |s.hist|
    && (forall i, j | 0 <= i < s.committed <= j < |s.hist| :: s.hist[i].op != s.hist[j].op)
    && (forall i | 0 <= i < s.committed :: s.hist[i].op !in s.ops)
    && (forall i | 0 <= i < |s.hist| :: s.hist[i].op < s.nextOp)
    && (forall op | op in s.ops :: op < s.nextOp)
  }

  /** Every write that is not yet durable has its block in the in-memory header. */
  ghost predicate Pending(s: State) {
    forall i | s.committed <= i < |s.hist| :: s.hist[i].block in s.lh
  }

  /** The reservation made by begin_op covers everything still to be appended. */
  ghost predicate Reserved(l: Layout, s: State) {
    && Bounded(s.ops)
    && |s.lh| + Unspent(s.ops) <= LOGSIZE
    && |s.lh| < l.size
    && LogBlocks(l, s.lh)
    && (!s.phase.Running? ==> s.ops == map[])
  }

  /** What disk and cache hold in each phase, given the durable and the current meaning. */
  ghost predicate Coherent(l: Layout, phase: Phase, disk: Disk, cache: Disk, lh: seq<nat>, durable: Disk, current: Disk)
    requires l.Valid() && |disk| == |cache| == |durable| == |current| == l.nblocks
    requires LogBlocks(l, lh) && |lh| < l.size
  {
    match phase
    case Running | WriteLog(_) | Done =>
      && |disk[l.start].words| == WORDS && HeaderCount(disk[l.start]) == 0
      && SameHome(l, disk, durable)
      && SameHome(l, cache, current)
      && Clean(disk, cache, lh)
      && (phase.WriteLog? ==> phase.tail <= |lh| && Logged(l, disk, cache, lh, phase.tail))
      && (phase.Done? ==> lh == [])
    case Install(t) =>
      && t <= |lh|
      && HeaderLists(l, disk[l.start], lh)
      && SameHome(l, cache, durable)
      && Clean(disk, cache, lh[t..])
      && Logged(l, disk, cache, lh, |lh|)
    case Boot =>
      && cache == disk
      && WellFormedHeader(l, disk[l.start])
      && Overlay(l, disk, HeaderBlocks(l, disk[l.start]), durable)
    case Recover(t) =>
      && t <= |lh| && cache == disk
      && HeaderLists(l, disk[l.start], lh)
      && Overlay(l, disk, lh, durable)
      && (forall i | 0 <= i < t :: disk[lh[i]] == disk[l.start + 1 + i])
  }

  ghost predicate HeaderLists(l: Layout, h: Block, blocks: seq<nat>) {
    WellFormedHeader(l, h) && HeaderBlocks(l, h) == blocks
  }

  /** The first `t` log blocks hold what will be installed. */
  ghost predicate Logged(l: Layout, disk: Disk, cache: Disk, lh: seq<nat>, t: nat)
    requires l.Valid() && |disk| == |cache| == l.nblocks
    requires LogBlocks(l, lh) && t <= |lh| < l.size
  {
    forall i | 0 <= i < t ::
      disk[l.start + 1 + i] == cache[l.start + 1 + i] == cache[lh[i]]
  }

  /** Cached and stored contents agree on every block that is not one of `except`. */
  ghost predicate Clean(disk: Disk, cache: Disk, except: seq<nat>)
    requires |disk| == |cache|
  {
    forall b | 0 <= b < |disk| && b !in except :: disk[b] == cache[b]
  }

  ghost predicate Inv(l: Layout, s: State) {
    && l.Valid()
    && |s.disk| == |s.cache| == |s.base| == l.nblocks
    && GoodHist(l, s.hist)
    && WholeOperations(s)
    && Pending(s)
    && Reserved(l, s)
    && (s.phase.Install? || s.phase.Boot? || s.phase.Recover? ==> s.committed == |s.hist|)
    && Coherent(l, s.phase, s.disk, s.cache, s.lh, Apply(l, s.base, s.hist[..s.committed]), Apply(l, s.base, s.hist))
  }

  // ------------------------------------------------------ supporting lemmas

  lemma {:induction false} UnspentRemove(ops: map<nat, nat>, op: nat)
    requires op in ops && Bounded(ops)
    ensures Unspent(ops) == MAXOPBLOCKS - ops[op] + Unspent(ops - {op})
    decreases ops
  {
    var x :| x in ops && Unspent(ops) == (if ops[x] <= MAXOPBLOCKS then MAXOPBLOCKS - ops[x]
        else 0) + Unspent(ops - {x});
    if x != op {
      UnspentRemove(ops - {x}, op);
      UnspentRemove(ops - {op}, x);
      assert ops - {x} - {op} == ops - {op} - {x};
    }
  }

  lemma UnspentPut(ops: map<nat, nat>, op: nat, k: nat)
    requires Bounded(ops) && k <= MAXOPBLOCKS
    ensures Unspent(ops[op := k]) == MAXOPBLOCKS - k + Unspent(ops - {op})
  {
    UnspentRemove(ops[op := k], op);
    assert ops[op := k] - {op} == ops - {op};
  }

  lemma {:induction false} UnspentAtMost(ops: map<nat, nat>)
    requires Bounded(ops)
    ensures Unspent(ops) <= |ops| * MAXOPBLOCKS
  {
    if ops != map[] {
      var op :| op in ops;
      UnspentRemove(ops, op);
      UnspentAtMost(ops - {op});
      assert ops.Keys == (ops - {op}).Keys + {op};
    }
  }

  /** Replay puts log block i at the home of entry i and touches nothing else. */
  lemma {:induction false} ReplayAt(l: Layout, d: Disk, blocks: seq<nat>, t: nat)
    requires l.Valid() && |d| == l.nblocks
    requires LogBlocks(l, blocks) && t <= |blocks| < l.size
    ensures forall i | 0 <= i < t :: Replay(l, d, blocks, t)[blocks[i]] == d[l.start + 1 + i]
    ensures forall b | 0 <= b < l.nblocks && b !in blocks[..t] :: Replay(l, d, blocks, t)[b] == d[b]
  {
    if t > 0 {
      ReplayAt(l, d, blocks, t - 1);
      assert blocks[..t] == blocks[..t - 1] + [blocks[t - 1]];
      assert l.Home(blocks[t - 1]);
      assert l.start + t !in blocks[..t - 1];
    }
  }

  lemma HeaderRoundTrip(l: Layout, h: Block, blocks: seq<nat>)
    requires |h.words| == WORDS && LogBlocks(l, blocks) && |blocks| <= LOGSIZE && |blocks| < l.size
    ensures WellFormedHeader(l, PutHeader(h, blocks))
    ensures HeaderBlocks(l, PutHeader(h, blocks)) == blocks
  {
    assert PutHeader(h, blocks).words[1..1 + |blocks|] == blocks;
  }

  lemma HeaderIsNotHome(l: Layout, d: Disk, h: Block)
    requires l.Valid() && |d| == l.nblocks
    ensures SameHome(l, d[l.start := h], d)
  {
  }

  lemma ApplySnoc(l: Layout, base: Disk, hist: seq<Write>, w: Write)
    requires |base| == l.nblocks && GoodHist(l, hist) && GoodWrite(l, w)
    ensures GoodHist(l, hist + [w])
    ensures Apply(l, base, hist + [w]) == Apply(l, base, hist)[w.block := w.data]
  {
    assert (hist + [w])[..|hist|] == hist;
  }

  // ------------------------------------- what each disk write keeps coherent

  lemma LogWriteCoherent(l: Layout, disk: Disk, cache: Disk, lh: seq<nat>, lh': seq<nat>, durable: Disk, current: Disk,
                         b: nat, data: Block)
    requires l.Valid() && |disk| == |cache| == |durable| == |current| == l.nblocks && LogBlocks(l, lh) && |lh| < l.size
    requires LogBlocks(l, lh') && |lh'| < l.size && l.Home(b) && lh' == (if b in lh then lh else lh + [b])
    requires Coherent(l, Running, disk, cache, lh, durable, current)
    ensures Coherent(l, Running, disk, cache[b := data], lh', durable, current[b := data])
  {
  }

  lemma WriteLogCoherent(l: Layout, disk: Disk, cache: Disk, lh: seq<nat>, durable: Disk, current: Disk, t: nat,
                         disk': Disk, cache': Disk)
    requires l.Valid() && |disk| == |cache| == |durable| == |current| == l.nblocks && LogBlocks(l, lh)
             && t < |lh| < l.size
    requires Coherent(l, WriteLog(t), disk, cache, lh, durable, current)
    requires var b, data := l.start + 1 + t, cache[lh[t]];
             disk' == disk[b := data] && cache' == cache[b := data]
    ensures Coherent(l, WriteLog(t + 1), disk', cache', lh, durable, current)
  {
  }

  lemma WriteHeadCoherent(l: Layout, disk: Disk, cache: Disk, lh: seq<nat>, durable: Disk, current: Disk,
                          disk': Disk, cache': Disk)
    requires l.Valid() && |disk| == |cache| == |durable| == |current| == l.nblocks
    requires LogBlocks(l, lh) && |lh| < l.size && |lh| <= LOGSIZE
    requires Coherent(l, WriteLog(|lh|), disk, cache, lh, durable, current)
    requires |cache[l.start].words| == WORDS
    requires var h := PutHeader(cache[l.start], lh); disk' == disk[l.start := h] && cache' == cache[l.start := h]
    ensures Coherent(l, Install(0), disk', cache', lh, current, current)
  {
    hide PutHeader, HeaderBlocks, WellFormedHeader;
    HeaderRoundTrip(l, cache[l.start], lh);
    assert lh[0..] == lh;
  }

  lemma InstallCoherent(l: Layout, disk: Disk, cache: Disk, lh: seq<nat>, durable: Disk, current: Disk, t: nat,
                        disk': Disk)
    requires l.Valid() && |disk| == |cache| == |durable| == |current| == l.nblocks && LogBlocks(l, lh)
             && t < |lh| < l.size
    requires Coherent(l, Install(t), disk, cache, lh, durable, current)
    requires disk' == disk[lh[t] := cache[l.start + 1 + t]]
    ensures cache[lh[t] := cache[l.start + 1 + t]] == cache
    ensures Coherent(l, Install(t + 1), disk', cache, lh, durable, current)
  {
    assert lh[t..] == [lh[t]] + lh[t + 1..];
  }

  lemma ClearCoherent(l: Layout, disk: Disk, cache: Disk, lh: seq<nat>, durable: Disk)
    requires l.Valid() && |disk| == |cache| == |durable| == l.nblocks && LogBlocks(l, lh) && |lh| < l.size
    requires Coherent(l, Install(|lh|), disk, cache, lh, durable, durable)
    requires |cache[l.start].words| == WORDS
    ensures var h := PutHeader(cache[l.start], []);
            Coherent(l, Done, disk[l.start := h], cache[l.start := h], [], durable, durable)
  {
    assert lh[|lh|..] == [];
  }

  lemma CrashCoherent(l: Layout, phase: Phase, disk: Disk, cache: Disk, lh: seq<nat>, durable: Disk, current: Disk)
    requires l.Valid() && |disk| == |cache| == |durable| == |current| == l.nblocks && LogBlocks(l, lh) && |lh| < l.size
    requires Coherent(l, phase, disk, cache, lh, durable, current)
    ensures Coherent(l, Boot, disk, disk, [], durable, durable)
  {
    match phase
    case Running | WriteLog(_) | Done =>
      assert HeaderBlocks(l, disk[l.start]) == [];
    case Install(t) =>
    case _ =>
  }

  lemma RecoverCoherent(l: Layout, disk: Disk, cache: Disk, lh: seq<nat>, durable: Disk, t: nat)
    requires l.Valid() && |disk| == |cache| == |durable| == l.nblocks && LogBlocks(l, lh) && t < |lh| < l.size
    requires Coherent(l, Recover(t), disk, cache, lh, durable, durable)
    ensures var d := disk[lh[t] := disk[l.start + 1 + t]];
            cache == disk && Coherent(l, Recover(t + 1), d, d, lh, durable, durable)
  {
    hide WellFormedHeader, HeaderBlocks;
  }

  lemma RecoverClearCoherent(l: Layout, disk: Disk, lh: seq<nat>, durable: Disk)
    requires l.Valid() && |disk| == |durable| == l.nblocks && LogBlocks(l, lh) && |lh| < l.size
    requires Coherent(l, Recover(|lh|), disk, disk, lh, durable, durable)
    ensures var d := disk[l.start := PutHeader(disk[l.start], [])];
            Coherent(l, Running, d, d, [], durable, durable)
  {
    forall b | 0 <= b < l.nblocks && l.Home(b)
      ensures durable[b] == disk[b]
    {
      if b in lh {
        var i :| 0 <= i < |lh| && lh[i] == b;
      }
    }
  }

  // ------------------------------------------------ every step keeps Inv

  lemma InitInv(l: Layout, s: State)
    requires Init(l, s)
    ensures Inv(l, s)
  {
    assert s.hist[..s.committed] == [];
    var blocks := HeaderBlocks(l, s.disk[l.start]);
    ReplayAt(l, s.disk, blocks, |blocks|);
    assert blocks[..|blocks|] == blocks;
  }

  lemma BeginReserves(l: Layout, s: State, s': State)
    requires l.Valid() && |s.disk| == |s.cache| == l.nblocks && Next(l, s, s', Begin) && Reserved(l, s)
             && s.nextOp !in s.ops
    ensures Reserved(l, s')
  {
    UnspentPut(s.ops, s.nextOp, 0);
    assert s.ops - {s.nextOp} == s.ops;
    UnspentAtMost(s.ops);
  }

  lemma BeginKeeps(l: Layout, s: State, s': State)
    requires Inv(l, s) && Next(l, s, s', Begin)
    ensures Inv(l, s')
  {
    hide Coherent, Apply, GoodHist, Reserved;
    BeginReserves(l, s, s');
  }

  lemma LogWriteReserves(l: Layout, s: State, s': State, op: nat, b: nat, data: Block)
    requires Inv(l, s) && Next(l, s, s', LogWrite(op, b, data))
    ensures Reserved(l, s')
  {
    hide Coherent, Apply, GoodHist, WholeOperations;
    if b !in s.lh {
      UnspentPut(s.ops, op, s.ops[op] + 1);
      UnspentRemove(s.ops, op);
    }
  }

  lemma LogWriteKeeps(l: Layout, s: State, s': State, op: nat, b: nat, data: Block)
    requires Inv(l, s) && Next(l, s, s', LogWrite(op, b, data))
    ensures Inv(l, s')
  {
    hide Coherent, Apply;
    LogWriteReserves(l, s, s', op, b, data);
    assert WholeOperations(s');
    ApplySnoc(l, s.base, s.hist, Write(op, b, data));
    assert s'.hist[..s'.committed] == s.hist[..s.committed];
    LogWriteCoherent(l, s.disk, s.cache, s.lh, s'.lh, Apply(l, s.base, s.hist[..s.committed]),
        Apply(l, s.base, s.hist), b, data);
  }

  lemma EndKeeps(l: Layout, s: State, s': State, op: nat)
    requires Inv(l, s) && Next(l, s, s', End(op))
    ensures Inv(l, s')
  {
    UnspentRemove(s.ops, op);
    assert |s.ops| == |s'.ops| + 1 by {
      assert s.ops.Keys == s'.ops.Keys + {op};
    }
  }

  lemma WriteHeadKeeps(l: Layout, s: State, s': State)
    requires Inv(l, s) && Next(l, s, s', WriteHead)
    ensures Inv(l, s')
  {
    hide Coherent, Apply;
    WriteHeadCoherent(l, s.disk, s.cache, s.lh, Apply(l, s.base, s.hist[..s.committed]), Apply(l, s.base, s.hist),
        s'.disk, s'.cache);
    assert s'.hist[..s'.committed] == s.hist;
  }

  lemma CrashKeeps(l: Layout, s: State, s': State)
    requires Inv(l, s) && Next(l, s, s', Crash)
    ensures Inv(l, s')
  {
    hide Coherent, Apply;
    CrashCoherent(l, s.phase, s.disk, s.cache, s.lh, Apply(l, s.base, s.hist[..s.committed]), Apply(l, s.base, s.hist));
    assert s'.hist[..s'.committed] == s'.hist;
  }

  /** A step that changes only disk, cache and phase needs only coherence. */
  lemma DiskStepKeeps(l: Layout, s: State, disk: Disk, cache: Disk, phase: Phase)
    requires Inv(l, s) && |disk| == |cache| == l.nblocks
    requires (s.phase.WriteLog? && phase.WriteLog?) || (s.phase.Install? && phase.Install?)
    requires Coherent(l, phase, disk, cache, s.lh, Apply(l, s.base, s.hist[..s.committed]), Apply(l, s.base, s.hist))
    ensures Inv(l, s.(disk := disk, cache := cache, phase := phase))
  {
  }

  lemma WriteLogKeeps(l: Layout, s: State, s': State)
    requires Inv(l, s) && Next(l, s, s', WriteLogBlock)
    ensures Inv(l, s')
  {
    hide Coherent, Apply;
    var t := s.phase.tail;
    WriteLogCoherent(l, s.disk, s.cache, s.lh, Apply(l, s.base, s.hist[..s.committed]), Apply(l, s.base, s.hist), t,
        s'.disk, s'.cache);
    DiskStepKeeps(l, s, s'.disk, s'.cache, s'.phase);
  }

  lemma InstallKeeps(l: Layout, s: State, s': State)
    requires Inv(l, s) && Next(l, s, s', InstallBlock)
    ensures Inv(l, s')
  {
    var t := s.phase.tail;
    hide Coherent, Apply, GoodHist;
    InstallCoherent(l, s.disk, s.cache, s.lh, Apply(l, s.base, s.hist[..s.committed]), Apply(l, s.base, s.hist), t,
        s'.disk);
    DiskStepKeeps(l, s, s'.disk, s'.cache, s'.phase);
  }

  lemma ClearHeadKeeps(l: Layout, s: State, s': State)
    requires Inv(l, s) && Next(l, s, s', ClearHead)
    ensures Inv(l, s')
  {
    hide Coherent, Apply, GoodHist;
    assert s.hist[..s.committed] == s.hist;
    ClearCoherent(l, s.disk, s.cache, s.lh, Apply(l, s.base, s.hist));
  }

  lemma EvictKeeps(l: Layout, s: State, s': State, b: nat)
    requires Inv(l, s) && Next(l, s, s', Evict(b))
    ensures s' == s
  {
    assert s.cache[b] == s.disk[b];
  }

  lemma ReadHeadKeeps(l: Layout, s: State, s': State)
    requires Inv(l, s) && Next(l, s, s', ReadHead)
    ensures Inv(l, s')
  {
    hide Apply, GoodHist;
    assert s.hist[..s.committed] == s.hist == s'.hist[..s'.committed];
  }

  lemma RecoverBlockKeeps(l: Layout, s: State, s': State)
    requires Inv(l, s) && Next(l, s, s', RecoverBlock)
    ensures Inv(l, s')
  {
    hide Apply, GoodHist, Coherent;
    assert s.hist[..s.committed] == s.hist == s'.hist[..s'.committed];
    RecoverCoherent(l, s.disk, s.cache, s.lh, Apply(l, s.base, s.hist), s.phase.tail);
  }

  lemma RecoverClearKeeps(l: Layout, s: State, s': State)
    requires Inv(l, s) && Next(l, s, s', RecoverClear)
    ensures Inv(l, s')
  {
    hide Apply, GoodHist;
    assert s.hist[..s.committed] == s.hist == s'.hist[..s'.committed];
    RecoverClearCoherent(l, s.disk, s.lh, Apply(l, s.base, s.hist));
  }

  lemma FinishKeeps(l: Layout, s: State, s': State)
    requires Inv(l, s) && Next(l, s, s', Finish)
    ensures Inv(l, s')
  {
    hide Apply, GoodHist;
  }

  lemma StepKeeps(l: Layout, s: State, s': State, step: Step)
    requires Inv(l, s) && Next(l, s, s', step)
    ensures Inv(l, s')
  {
    hide Inv, Next;
    match step
    case Begin => BeginKeeps(l, s, s');
    case LogWrite(op, b, data) => LogWriteKeeps(l, s, s', op, b, data);
    case End(op) => EndKeeps(l, s, s', op);
    case Evict(b) => EvictKeeps(l, s, s', b);
    case WriteHead => WriteHeadKeeps(l, s, s');
    case Crash => CrashKeeps(l, s, s');
    case ReadHead => ReadHeadKeeps(l, s, s');
    case RecoverBlock => RecoverBlockKeeps(l, s, s');
    case RecoverClear => RecoverClearKeeps(l, s, s');
    case WriteLogBlock => WriteLogKeeps(l, s, s');
    case InstallBlock => InstallKeeps(l, s, s');
    case ClearHead => ClearHeadKeeps(l, s, s');
    case Finish => FinishKeeps(l, s, s');
  }

  // ----------------------------------------------------------- main results

  lemma {:induction false} RunInv(l: Layout, run: seq<State>, steps: seq<Step>, i: nat)
    requires IsRun(l, run, steps) && i < |run|
    ensures Inv(l, run[i])
  {
    assert Linked(l, run, steps, i);
    if i == 0 {
      InitInv(l, run[0]);
    } else {
      RunInv(l, run, steps, i - 1);
      StepKeeps(l, run[i - 1], run[i], steps[i - 1]);
    }
  }

  /** The facts about the last state that the code relies on. */
  lemma LogFacts(l: Layout, run: seq<State>, steps: seq<Step>)
    requires IsRun(l, run, steps)
    ensures var s := run[|run| - 1];
            && |s.disk| == |s.cache| == l.nblocks
            && LogBlocks(l, s.lh) && |s.lh| <= LOGSIZE && |s.lh| < l.size
            && s.committed <= |s.hist|
            && |s.cache[l.start].words| == WORDS
            && (s.phase.Boot? || s.phase.Recover? ==> s.cache == s.disk)
            && (s.phase != Running ==> s.ops == map[])
            && (s.lh == [] ==> s.committed == |s.hist|)
            && (forall op | op in s.ops :: op < s.nextOp)
  {
    RunInv(l, run, steps, |run| - 1);
    var s := run[|run| - 1];
    assert forall i | 0 <= i < |s.lh| :: l.Home(s.lh[i]);
  }

  /** An operation that may still append finds the log not yet full. */
  lemma RoomFor(l: Layout, run: seq<State>, steps: seq<Step>, op: nat)
    requires IsRun(l, run, steps) && op in run[|run| - 1].ops
    ensures run[|run| - 1].ops[op] < MAXOPBLOCKS ==> |run[|run| - 1].lh| < LOGSIZE
  {
    RunInv(l, run, steps, |run| - 1);
    UnspentRemove(run[|run| - 1].ops, op);
  }

  /** The blocks that an operation has given to log_write. */
  ghost function BlocksOf(hist: seq<Write>, op: nat): set<nat> {
    set i | 0 <= i < |hist| && hist[i].op == op :: hist[i].block
  }

  /** An operation appends a block at most once. */
  lemma {:induction false} Appends(l: Layout, run: seq<State>, steps: seq<Step>, i: nat, op: nat)
    requires IsRun(l, run, steps) && i < |run| && op in run[i].ops
    ensures run[i].ops[op] <= |BlocksOf(run[i].hist, op)|
  {
    assert Linked(l, run, steps, i);
    if i > 0 {
      RunInv(l, run, steps, i - 1);
      if op in run[i - 1].ops {
        Appends(l, run, steps, i - 1, op);
      }
      AppendsStep(l, run[i - 1], run[i], steps[i - 1], op);
    }
  }

  lemma AppendsStep(l: Layout, s: State, s': State, step: Step, op: nat)
    requires Inv(l, s) && Next(l, s, s', step) && op in s'.ops
    requires op in s.ops ==> s.ops[op] <= |BlocksOf(s.hist, op)|
    ensures s'.ops[op] <= |BlocksOf(s'.hist, op)|
  {
    if step.LogWrite? {
      AppendsWrite(s, op, step.op, step.block, step.data);
    }
  }

  /** A block that is not in the header is new to every outstanding operation. */
  lemma AppendsWrite(s: State, op: nat, writer: nat, b: nat, data: Block)
    requires WholeOperations(s) && Pending(s) && op in s.ops
    ensures |BlocksOf(s.hist + [Write(writer, b, data)], op)| >=
            |BlocksOf(s.hist, op)| + (if op == writer && b !in s.lh then 1 else 0)
  {
    var was, now := BlocksOf(s.hist, op), BlocksOf(s.hist + [Write(writer, b, data)], op);
    assert forall i | 0 <= i < |s.hist| :: (s.hist + [Write(writer, b, data)])[i] == s.hist[i];
    assert was <= now;
    if op == writer {
      assert (s.hist + [Write(writer, b, data)])[|s.hist|].block == b;
      assert now == was + {b};
    } else {
      assert now == was;
    }
  }

  /** An operation that gives log_write no more than MAXOPBLOCKS different blocks stays within its
      reservation: each of them can be appended, if it is not there, and the header is not full. */
  lemma ReservationSuffices(l: Layout, run: seq<State>, steps: seq<Step>, i: nat, op: nat, lg: set<nat>, b: nat)
    requires IsRun(l, run, steps) && i < |run| && op in run[i].ops
    requires BlocksOf(run[i].hist, op) <= lg && |lg| <= MAXOPBLOCKS && b in lg && b !in run[i].lh
    ensures run[i].ops[op] < MAXOPBLOCKS && |run[i].lh| < LOGSIZE
  {
    var s := run[i];
    RunInv(l, run, steps, i);
    Appends(l, run, steps, i, op);
    NotYet(s, op, b);
    Fewer(BlocksOf(s.hist, op), lg, b);
    UnspentRemove(s.ops, op);
  }

  lemma NotYet(s: State, op: nat, b: nat)
    requires WholeOperations(s) && Pending(s) && op in s.ops && b !in s.lh
    ensures b !in BlocksOf(s.hist, op)
  {
  }

  lemma Fewer(a: set<nat>, b: set<nat>, x: nat)
    requires a <= b && x in b && x !in a
    ensures |a| < |b|
  {
    SubsetSize(a, b - {x});
  }

  lemma {:induction false} SubsetSize(a: set<nat>, b: set<nat>)
    requires a <= b
    ensures |a| <= |b|
    decreases a
  {
    if a != {} {
      var x :| x in a;
      SubsetSize(a - {x}, b - {x});
    }
  }

  /** During a commit, the home buffer already holds what install_trans copies into it. */
  lemma Reinstall(l: Layout, run: seq<State>, steps: seq<Step>)
    requires IsRun(l, run, steps)
    requires var s := run[|run| - 1]; s.phase.Install? && s.phase.tail < |s.lh|
    ensures var s := run[|run| - 1];
            && |s.cache| == l.nblocks
            && l.start + 1 + s.phase.tail < l.nblocks && s.lh[s.phase.tail] < l.nblocks
            && s.cache[s.lh[s.phase.tail] := s.cache[l.start + 1 + s.phase.tail]] == s.cache
  {
    var s := run[|run| - 1];
    RunInv(l, run, steps, |run| - 1);
    assert l.Home(s.lh[s.phase.tail]);
  }

  /** After the last install, disk and cache agree everywhere. */
  lemma Installed(l: Layout, run: seq<State>, steps: seq<Step>)
    requires IsRun(l, run, steps)
    requires var s := run[|run| - 1]; s.phase == Install(|s.lh|)
    ensures run[|run| - 1].disk == run[|run| - 1].cache
  {
    RunInv(l, run, steps, |run| - 1);
    assert run[|run| - 1].lh[|run[|run| - 1].lh|..] == [];
  }

  lemma OverlayIsRecovered(l: Layout, d: Disk, blocks: seq<nat>, e: Disk)
    requires l.Valid() && |d| == |e| == l.nblocks && LogBlocks(l, blocks) && |blocks| < l.size
    requires HeaderLists(l, d[l.start], blocks) && Overlay(l, d, blocks, e)
    ensures SameHome(l, Recovered(l, d), e)
  {
    ReplayAt(l, d, blocks, |blocks|);
    assert blocks[..|blocks|] == blocks;
    forall b | 0 <= b < l.nblocks && l.Home(b)
      ensures Recovered(l, d)[b] == e[b]
    {
      if b in blocks {
        var i :| 0 <= i < |blocks| && blocks[i] == b;
      }
    }
  }

  /** Crash atomicity. At every point of every run, with any number of crashes before
      it, also inside recovery, recovering the disk as it is now gives exactly the
      durable prefix of the history, and that prefix consists of whole operations. */
  lemma CrashAtomicity(l: Layout, run: seq<State>, steps: seq<Step>, i: nat)
    requires IsRun(l, run, steps) && i < |run|
    ensures |run[i].disk| == |run[i].cache| == l.nblocks && WellFormedHeader(l, run[i].disk[l.start])
    ensures run[i].committed <= |run[i].hist| && GoodHist(l, run[i].hist) && |run[i].base| == l.nblocks
    ensures SameHome(l, Recovered(l, run[i].disk), Apply(l, run[i].base, run[i].hist[..run[i].committed]))
    ensures WholeOperations(run[i])
  {
    var s := run[i];
    RunInv(l, run, steps, i);
    var durable := Apply(l, s.base, s.hist[..s.committed]);
    CrashCoherent(l, s.phase, s.disk, s.cache, s.lh, durable, Apply(l, s.base, s.hist));
    OverlayIsRecovered(l, s.disk, HeaderBlocks(l, s.disk[l.start]), durable);
  }

  /** Once the log is at rest again, stored and recovered contents agree and
      `bread` sees every write of the history. */
  lemma AtRest(l: Layout, run: seq<State>, steps: seq<Step>, i: nat)
    requires IsRun(l, run, steps) && i < |run| && run[i].phase == Running
    ensures GoodHist(l, run[i].hist) && |run[i].base| == l.nblocks && run[i].committed <= |run[i].hist|
    ensures |run[i].disk| == |run[i].cache| == l.nblocks
    ensures SameHome(l, run[i].disk, Apply(l, run[i].base, run[i].hist[..run[i].committed]))
    ensures SameHome(l, run[i].cache, Apply(l, run[i].base, run[i].hist))
  {
    RunInv(l, run, steps, i);
  }

  /** What is durable stays durable: only the header write of a commit extends the
      durable prefix, and then by everything written so far. */
  lemma {:induction false} Durability(l: Layout, run: seq<State>, steps: seq<Step>, i: nat, j: nat)
    requires IsRun(l, run, steps) && i <= j < |run|
    ensures run[i].committed <= |run[i].hist| && run[j].committed <= |run[j].hist|
    ensures run[i].base == run[j].base
    ensures run[i].hist[..run[i].committed] <= run[j].hist[..run[j].committed]
    ensures (forall k | i <= k < j :: steps[k] != WriteHead)
            ==> run[i].hist[..run[i].committed] == run[j].hist[..run[j].committed]
    decreases j
  {
    RunDurable(l, run, steps, j);
    if i < j {
      Durability(l, run, steps, i, j - 1);
    }
  }

  /** The header write makes everything written so far durable, at a moment when no
      operation is outstanding. */
  lemma CommitPoint(l: Layout, run: seq<State>, steps: seq<Step>, i: nat)
    requires IsRun(l, run, steps) && i < |steps| && steps[i] == WriteHead
    ensures run[i + 1].committed == |run[i + 1].hist| && run[i + 1].hist == run[i].hist
    ensures run[i].ops == run[i + 1].ops == map[]
  {
    RunInv(l, run, steps, i);
    assert Linked(l, run, steps, i + 1);
  }

  lemma {:induction false} RunDurable(l: Layout, run: seq<State>, steps: seq<Step>, j: nat)
    requires IsRun(l, run, steps) && j < |run|
    ensures run[j].committed <= |run[j].hist|
    ensures j > 0 ==>
              && run[j - 1].committed <= |run[j - 1].hist|
              && run[j - 1].base == run[j].base
              && run[j - 1].hist[..run[j - 1].committed] <= run[j].hist[..run[j].committed]
              && (steps[j - 1] != WriteHead ==>
                    run[j - 1].hist[..run[j - 1].committed] == run[j].hist[..run[j].committed])
  {
    assert Linked(l, run, steps, j);
    if j > 0 {
      RunDurable(l, run, steps, j - 1);
      DurableStep(l, run[j - 1], run[j], steps[j - 1]);
    }
  }

  lemma DurableStep(l: Layout, s: State, s': State, step: Step)
    requires l.Valid() && |s.disk| == |s.cache| == l.nblocks && s.committed <= |s.hist| && Next(l, s, s', step)
    ensures s.base == s'.base && s'.committed <= |s'.hist|
    ensures s.hist[..s.committed] <= s'.hist[..s'.committed]
    ensures step != WriteHead ==> s.hist[..s.committed] == s'.hist[..s'.committed]
  {
    match step
    case LogWrite(op, b, data) => assert s'.hist[..s'.committed] == s.hist[..s.committed];
    case Crash => assert s'.hist[..s'.committed] == s.hist[..s.committed];
    case WriteHead => assert s'.hist[..s'.committed] == s.hist;
    case _ =>
  }

  /** Group commit. In every reachable state the log holds distinct home blocks, they
      and everything the outstanding operations may still append fit in the log, and
      the log is written and installed only while no operation is outstanding. */
  lemma GroupCommit(l: Layout, run: seq<State>, steps: seq<Step>, i: nat)
    requires IsRun(l, run, steps) && i < |run|
    ensures LogBlocks(l, run[i].lh)
    ensures |run[i].lh| + Unspent(run[i].ops) <= LOGSIZE
    ensures run[i].phase != Running ==> run[i].ops == map[]
  {
    RunInv(l, run, steps, i);
  }

  /** An operation within its budget is about to append `b` and finds no room. */
  ghost predicate AppendPanics(l: Layout, s: State, op: nat, b: nat) {
    s.phase == Running && op in s.ops && s.ops[op] < MAXOPBLOCKS && l.Home(b) && b !in s.lh && !HasRoom(l, |s.lh|)
  }

  ghost predicate AppendSafe(l: Layout) {
    forall s, op: nat, b: nat | Reachable(l, s) :: !AppendPanics(l, s, op, b)
  }

  ghost predicate Reachable(l: Layout, s: State) {
    exists run: seq<State>, steps: seq<Step> :: IsRun(l, run, steps) && run[|run| - 1] == s
  }

  /** No append within budget ever panics exactly when the log area has room for more
      than LOGSIZE blocks; the image built by mkfs has log.size == LOGSIZE. */
  lemma AppendSafeIff(l: Layout)
    requires l.Valid() && l.nblocks >= l.size + LOGSIZE
    ensures AppendSafe(l) <==> l.size > LOGSIZE
  {
    if l.size > LOGSIZE {
      forall s, op: nat, b: nat | Reachable(l, s)
        ensures !AppendPanics(l, s, op, b)
      {
        if AppendPanics(l, s, op, b) {
          var run: seq<State>, steps: seq<Step> :| IsRun(l, run, steps) && run[|run| - 1] == s;
          RunInv(l, run, steps, |run| - 1);
          UnspentRemove(s.ops, op);
        }
      }
    } else {
      var m := l.size - 1;
      var run, steps := Fill(l, m);
      var s := run[|run| - 1];
      assert Reachable(l, s);
      assert AppendPanics(l, s, m / MAXOPBLOCKS, HomeBlock(l, m)) by {
        assert m / MAXOPBLOCKS in s.ops;
        assert forall i | 0 <= i < m :: s.lh[i] != HomeBlock(l, m);
      }
    }
  }

  /** The guard runs before absorption: with a full log, rewriting a block that is
      already logged panics as well, however large the log area is. */
  lemma AbsorbedWriteCanPanic(l: Layout) returns (run: seq<State>, steps: seq<Step>)
    requires l.Valid() && l.nblocks >= l.size + LOGSIZE && l.size > LOGSIZE
    ensures IsRun(l, run, steps)
    ensures var s := run[|run| - 1];
            s.phase == Running && 0 in s.ops && s.lh != [] && !HasRoom(l, |s.lh|)
  {
    run, steps := Fill(l, LOGSIZE);
  }

  /** The k-th block outside the log area. */
  function HomeBlock(l: Layout, k: nat): nat { if k < l.start then k else k + l.size }

  function Appended(m: nat, op: nat): nat {
    if m <= op * MAXOPBLOCKS then 0 else if m >= (op + 1) * MAXOPBLOCKS then MAXOPBLOCKS else m - op * MAXOPBLOCKS
  }

  /** Three operations that together append the first `m` home blocks. */
  lemma {:induction false} Fill(l: Layout, m: nat) returns (run: seq<State>, steps: seq<Step>)
    requires l.Valid() && l.nblocks >= l.size + LOGSIZE && m <= LOGSIZE && m <= l.size - 1
    ensures IsRun(l, run, steps)
    ensures var s := run[|run| - 1];
            && s.phase == Running && s.lh == seq(m, i requires 0 <= i => HomeBlock(l, i))
            && s.ops == map[0 := Appended(m, 0), 1 := Appended(m, 1), 2 := Appended(m, 2)]
  {
    if m == 0 {
      run, steps := FillStart(l);
    } else {
      var run0, steps0 := Fill(l, m - 1);
      RunInv(l, run0, steps0, |run0| - 1);
      var s', step := FillStep(l, run0[|run0| - 1], m - 1);
      Extend(l, run0, steps0, s', step);
      run, steps := run0 + [s'], steps0 + [step];
    }
  }

  lemma FillStart(l: Layout) returns (run: seq<State>, steps: seq<Step>)
    requires l.Valid()
    ensures IsRun(l, run, steps)
    ensures var s := run[|run| - 1];
            s.phase == Running && s.lh == [] && s.ops == map[0 := 0, 1 := 0, 2 := 0]
  {
    var zero := Block(seq(WORDS, j => 0));
    var d: Disk := seq(l.nblocks, i => zero);
    assert zero.words[1..1] == [] && HeaderBlocks(l, zero) == [] && PutHeader(zero, []) == zero;
    assert d[l.start := zero] == d;
    var s0 := State(d, d, [], map[], Boot, Recovered(l, d), [], 0, 0);
    var s1 := s0.(phase := Recover(0));
    var s2 := s0.(phase := Running);
    var s3 := s2.(ops := map[0 := 0], nextOp := 1);
    var s4 := s3.(ops := map[0 := 0, 1 := 0], nextOp := 2);
    var s5 := s4.(ops := map[0 := 0, 1 := 0, 2 := 0], nextOp := 3);
    assert s3.ops == s2.ops[0 := 0] && s4.ops == s3.ops[1 := 0] && s5.ops == s4.ops[2 := 0];
    assert |s2.ops| == 0 && |s3.ops| == 1;
    assert |s4.ops| == 2 by { assert s4.ops.Keys == {0, 1}; }
    assert Linked(l, [s0], [], 0);
    assert IsRun(l, [s0], []);
    hide IsRun;
    Extend(l, [s0], [], s1, ReadHead);
    Extend(l, [s0] + [s1], [] + [ReadHead], s2, RecoverClear);
    Extend(l, [s0] + [s1] + [s2], [] + [ReadHead] + [RecoverClear], s3, Begin);
    Extend(l, [s0] + [s1] + [s2] + [s3], [] + [ReadHead] + [RecoverClear] + [Begin], s4, Begin);
    Extend(l, [s0] + [s1] + [s2] + [s3] + [s4], [] + [ReadHead] + [RecoverClear] + [Begin] + [Begin], s5, Begin);
    run := [s0] + [s1] + [s2] + [s3] + [s4] + [s5];
    steps := [] + [ReadHead] + [RecoverClear] + [Begin] + [Begin] + [Begin];
  }

  lemma AppendOne(m: nat)
    requires m < LOGSIZE
    ensures m / MAXOPBLOCKS < 3 && Appended(m, m / MAXOPBLOCKS) < MAXOPBLOCKS
    ensures forall op: nat {:trigger Appended(m, op)} | op < 3 ::
              Appended(m + 1, op) == Appended(m, op) + if op == m / MAXOPBLOCKS then 1 else 0
  {
  }

  lemma FillStep(l: Layout, s: State, m: nat) returns (s': State, step: Step)
    requires l.Valid() && l.nblocks >= l.size + LOGSIZE && m < LOGSIZE && m < l.size - 1
    requires |s.disk| == |s.cache| == l.nblocks
    requires s.phase == Running && s.lh == seq(m, i requires 0 <= i => HomeBlock(l, i))
    requires s.ops == map[0 := Appended(m, 0), 1 := Appended(m, 1), 2 := Appended(m, 2)]
    ensures Next(l, s, s', step) && |s'.disk| == |s'.cache| == l.nblocks
    ensures s'.phase == Running && s'.lh == seq(m + 1, i requires 0 <= i => HomeBlock(l, i))
    ensures s'.ops == map[0 := Appended(m + 1, 0), 1 := Appended(m + 1, 1), 2 := Appended(m + 1, 2)]
  {
    hide Appended;
    var op, b, data := m / MAXOPBLOCKS, HomeBlock(l, m), Block([]);
    AppendOne(m);
    step := LogWrite(op, b, data);
    s' := s.(cache := s.cache[b := data], hist := s.hist + [Write(op, b, data)],
             lh := s.lh + [b], ops := s.ops[op := s.ops[op] + 1]);
    assert forall i | 0 <= i < m :: s.lh[i] != b;
  }
}
