/**
 filewrite over the log: what a crash at any moment of a call leaves in the file. The chunks of
 the call are operations of the log, whose history holds what they gave to log_write.
 */
module FileCrash {
  import P = LogProtocol
  import opened DiskBlocks
  import opened FileSpace
  import opened FileLayer

  // ------------------------------------------------------ the disk of a view

  /** A block as the words that the log copies. */
  function Words(b: Block): seq<int> {
    if |b| == BSIZE then seq(NINDIRECT, j requires 0 <= j < NINDIRECT => Word(b, j)) else []
  }

  predicate HoldsInodes(l: Layout, n: nat, c: nat) { l.inodestart <= c && IPB * (c - l.inodestart) < n }

  /** The inodes in block c. */
  function Slots(l: Layout, inodes: seq<Inode>, c: nat): seq<Inode>
    requires HoldsInodes(l, |inodes|, c)
  {
    var lo := IPB * (c - l.inodestart);
    if lo + IPB <= |inodes| then inodes[lo..lo + IPB] else inodes[lo..]
  }

  /** How inodes are laid out in a block of the disk, with what no operation on their contents
      changes: types and link counts. */
  type Packing = (nat, seq<Inode>) -> seq<int>

  ghost predicate Faithful(pack: Packing) {
    forall c: nat, a: seq<Inode>, b: seq<Inode> {:trigger pack(c, a), pack(c, b)} |
      |a| == |b| && pack(c, a) == pack(c, b) :: a == b
  }

  ghost function BlockImage(l: Layout, pack: Packing, v: View, c: nat): P.Block
    requires c < |v.blocks|
  {
    P.Block(if HoldsInodes(l, |v.inodes|, c) then pack(c, Slots(l, v.inodes, c)) else Words(v.blocks[c]))
  }

  ghost function Image(l: Layout, pack: Packing, v: View): (d: P.Disk)
    ensures |d| == |v.blocks|
  {
    seq(|v.blocks|, c requires 0 <= c < |v.blocks| => BlockImage(l, pack, v, c))
  }

  /** A block that was not given to log_write is on disk as it was. */
  lemma ImageKept(l: Layout, pack: Packing, v: View, v': View, lg: set<nat>, c: nat)
    requires Saved(l, v, v', lg) && c < |v.blocks| && c !in lg
    ensures BlockImage(l, pack, v', c) == BlockImage(l, pack, v, c)
  {
    if HoldsInodes(l, |v.inodes|, c) {
      var lo := IPB * (c - l.inodestart);
      forall j: nat | lo <= j < lo + IPB && j < |v.inodes|
        ensures v'.inodes[j] == v.inodes[j]
      {
        assert IBlock(l, j) == c;
      }
      assert Slots(l, v'.inodes, c) == Slots(l, v.inodes, c);
    }
  }

  // ------------------------------------------------ what an operation writes

  /** The last write of block c among these is of this data. */
  ghost predicate LastWrite(seg: seq<P.Write>, c: nat, data: P.Block) {
    exists k: nat :: LastAt(seg, c, data, k)
  }

  ghost predicate LastAt(seg: seq<P.Write>, c: nat, data: P.Block, k: nat) {
    k < |seg| && seg[k].block == c && seg[k].data == data && forall m | k < m < |seg| :: seg[m].block != c
  }

  /** The calls of log_write of one operation, which gives it the blocks lg and leaves them as in image. */
  ghost predicate Journal(seg: seq<P.Write>, lg: set<nat>, image: P.Disk) {
    && (forall a, b | 0 <= a < b < |seg| :: seg[a].op == seg[b].op)
    && (forall a | 0 <= a < |seg| :: seg[a].block in lg)
    && (forall c: nat {:trigger c in lg} | c in lg && c < |image| :: LastWrite(seg, c, image[c]))
  }

  lemma {:induction false} ApplyLast(l: P.Layout, base: P.Disk, hist: seq<P.Write>, c: nat, data: P.Block, k: nat)
    requires |base| == l.nblocks && P.GoodHist(l, hist) && c < l.nblocks && LastAt(hist, c, data, k)
    ensures P.Apply(l, base, hist)[c] == data
  {
    var n := |hist| - 1;
    if k < n {
      assert hist[n].block != c;
      ApplyLast(l, base, hist[..n], c, data, k);
    }
  }

  lemma {:induction false} ApplyOther(l: P.Layout, base: P.Disk, hist: seq<P.Write>, c: nat)
    requires |base| == l.nblocks && P.GoodHist(l, hist) && c < l.nblocks
             && forall k | 0 <= k < |hist| :: hist[k].block != c
    ensures P.Apply(l, base, hist)[c] == base[c]
  {
    if hist != [] {
      ApplyOther(l, base, hist[..|hist| - 1], c);
    }
  }

  lemma {:induction false} ApplyAfter(l: P.Layout, base: P.Disk, a: seq<P.Write>, b: seq<P.Write>)
    requires |base| == l.nblocks && P.GoodHist(l, a + b)
    ensures P.GoodHist(l, a) && P.GoodHist(l, b)
            && P.Apply(l, base, a + b) == P.Apply(l, P.Apply(l, base, a), b)
    decreases |b|
  {
    GoodParts(l, a, b);
    if b == [] {
      assert a + b == a;
    } else {
      var n := |b| - 1;
      assert (a + b)[..|a + b| - 1] == a + b[..n];
      GoodParts(l, a + b[..n], b[n..]);
      assert a + b[..n] + b[n..] == a + b;
      ApplyAfter(l, base, a, b[..n]);
    }
  }

  lemma GoodParts(l: P.Layout, a: seq<P.Write>, b: seq<P.Write>)
    requires P.GoodHist(l, a + b)
    ensures P.GoodHist(l, a) && P.GoodHist(l, b)
  {
    forall i | 0 <= i < |a|
      ensures P.GoodWrite(l, a[i])
    {
      assert (a + b)[i] == a[i];
    }
    forall i | 0 <= i < |b|
      ensures P.GoodWrite(l, b[i])
    {
      assert (a + b)[|a| + i] == b[i];
    }
  }

  /** An operation from v to v' that logs every block it changes takes v's disk to that of v'. */
  lemma JournalApplies(pl: P.Layout, l: Layout, pack: Packing, base: P.Disk, v: View, v': View, lg: set<nat>,
                       seg: seq<P.Write>)
    requires |base| == |v.blocks| == |v'.blocks| == pl.nblocks && P.GoodHist(pl, seg) && Saved(l, v, v', lg)
    requires Journal(seg, lg, Image(l, pack, v')) && P.SameHome(pl, base, Image(l, pack, v))
    ensures P.SameHome(pl, P.Apply(pl, base, seg), Image(l, pack, v'))
  {
    forall c | 0 <= c < pl.nblocks && pl.Home(c)
      ensures P.Apply(pl, base, seg)[c] == Image(l, pack, v')[c]
    {
      if c in lg {
        assert LastWrite(seg, c, Image(l, pack, v')[c]);
        var k: nat :| LastAt(seg, c, Image(l, pack, v')[c], k);
        ApplyLast(pl, base, seg, c, Image(l, pack, v')[c], k);
      } else {
        ApplyOther(pl, base, seg, c);
        ImageKept(l, pack, v, v', lg, c);
      }
    }
  }

  // ------------------------------------------------------- the log's history

  /** The writes of the first k operations. */
  function Flat(segs: seq<seq<P.Write>>, k: nat): seq<P.Write>
    requires k <= |segs|
  {
    if k == 0 then [] else Flat(segs, k - 1) + segs[k - 1]
  }

  /** The log's history holds, after what came before the call and is durable, the operations of
      the call that have ended, and then writes of an operation that has not. */
  ghost predicate Recorded(pl: P.Layout, l: Layout, pack: Packing, s: P.State, views: seq<View>, logs: seq<set<nat>>,
                           before: seq<P.Write>, segs: seq<seq<P.Write>>, rest: seq<P.Write>) {
    && |segs| <= |logs| && |views| == |logs| + 1 && |views[0].blocks| == |s.base| == pl.nblocks
    && s.hist == before + Flat(segs, |segs|) + rest && |before| <= s.committed
    && P.GoodHist(pl, before) && P.SameHome(pl, P.Apply(pl, s.base, before), Image(l, pack, views[0]))
    && (forall k: nat {:trigger segs[k]} | k < |segs| :: Journal(segs[k], logs[k], Image(l, pack, views[k + 1])))
    && (forall k | 0 <= k < |rest| :: rest[k].op in s.ops)
  }

  lemma {:induction false} FlatPrefix(segs: seq<seq<P.Write>>, k: nat, n: nat)
    requires k <= n <= |segs|
    ensures Flat(segs, k) <= Flat(segs, n)
  {
    if k < n {
      FlatPrefix(segs, k, n - 1);
    }
  }

  /** The operation in whose writes position c lies. */
  lemma {:induction false} Within(segs: seq<seq<P.Write>>, n: nat, c: nat) returns (k: nat)
    requires n <= |segs| && c <= |Flat(segs, n)|
    ensures k <= n && |Flat(segs, k)| <= c && (k < n ==> c < |Flat(segs, k + 1)|)
  {
    if c == |Flat(segs, n)| {
      k := n;
    } else if c >= |Flat(segs, n - 1)| {
      k := n - 1;
    } else {
      k := Within(segs, n - 1, c);
    }
  }

  /** What is durable ends where an operation ends. */
  lemma DurableOps(s: P.State, before: seq<P.Write>, segs: seq<seq<P.Write>>, rest: seq<P.Write>) returns (k: nat)
    requires P.WholeOperations(s) && s.hist == before + Flat(segs, |segs|) + rest && |before| <= s.committed
    requires forall k: nat {:trigger segs[k]} | k < |segs| ::
               forall a, b | 0 <= a < b < |segs[k]| :: segs[k][a].op == segs[k][b].op
    requires forall k | 0 <= k < |rest| :: rest[k].op in s.ops
    ensures k <= |segs| && s.committed == |before| + |Flat(segs, k)| && s.hist[..s.committed] == before + Flat(segs, k)
  {
    var all := |before| + |Flat(segs, |segs|)|;
    forall j | all <= j < |s.hist|
      ensures s.hist[j].op in s.ops
    {
      assert s.hist[j] == rest[j - all];
    }
    assert all < |s.hist| ==> s.hist[all].op in s.ops;
    k := Within(segs, |segs|, s.committed - |before|);
    FlatPrefix(segs, k, |segs|);
    if k < |segs| {
      OneOp(s.hist, before, segs, rest, k);
      Boundary(s, |before| + |Flat(segs, k)|, |before| + |Flat(segs, k + 1)|);
    }
  }

  /** The writes of operation k lie together. */
  lemma OneOp(hist: seq<P.Write>, before: seq<P.Write>, segs: seq<seq<P.Write>>, rest: seq<P.Write>, k: nat)
    requires hist == before + Flat(segs, |segs|) + rest && k < |segs|
    requires forall a, b | 0 <= a < b < |segs[k]| :: segs[k][a].op == segs[k][b].op
    ensures var lo, hi := |before| + |Flat(segs, k)|, |before| + |Flat(segs, k + 1)|;
            hi <= |hist| && forall j | lo <= j < hi :: hist[j].op == hist[lo].op
  {
    FlatPrefix(segs, k + 1, |segs|);
    var lo, hi := |before| + |Flat(segs, k)|, |before| + |Flat(segs, k + 1)|;
    forall j | lo <= j < hi
      ensures hist[j] == segs[k][j - lo]
    {
      assert hist[j] == Flat(segs, |segs|)[j - |before|] == Flat(segs, k + 1)[j - |before|];
    }
  }

  /** The durable prefix does not end within the writes of one operation. */
  lemma Boundary(s: P.State, lo: nat, hi: nat)
    requires P.WholeOperations(s) && lo <= s.committed < hi <= |s.hist|
    requires forall j | lo <= j < hi :: s.hist[j].op == s.hist[lo].op
    ensures s.committed == lo
  {
    assert s.hist[s.committed].op == s.hist[lo].op;
  }

  lemma GoodSoFar(pl: P.Layout, hist: seq<P.Write>, before: seq<P.Write>, segs: seq<seq<P.Write>>, rest: seq<P.Write>,
                  k: nat)
    requires hist == before + Flat(segs, |segs|) + rest && P.GoodHist(pl, hist) && k <= |segs|
    ensures P.GoodHist(pl, before + Flat(segs, k))
  {
    FlatPrefix(segs, k, |segs|);
    var done := before + Flat(segs, k);
    assert hist == done + hist[|done|..];
    GoodParts(pl, done, hist[|done|..]);
  }

  lemma {:induction false} OpsApply(pl: P.Layout, l: Layout, pack: Packing, i: nat, start: nat, src: seq<int>,
                          s: P.State,
                                    views: seq<View>, logs: seq<set<nat>>, before: seq<P.Write>,
                                    segs: seq<seq<P.Write>>, rest: seq<P.Write>, k: nat)
    requires Recorded(pl, l, pack, s, views, logs, before, segs, rest) && Ops(l, i, start, src, views, logs)
             && P.GoodHist(pl, s.hist) && k <= |segs|
    ensures |views[k].blocks| == pl.nblocks && P.GoodHist(pl, before + Flat(segs, k))
            && P.SameHome(pl, P.Apply(pl, s.base, before + Flat(segs, k)), Image(l, pack, views[k]))
  {
    hide P.GoodHist, Journal, Ok, WrittenUpTo, Image, P.Apply, P.SameHome;
    if k == 0 {
      assert before + Flat(segs, 0) == before;
    } else {
      OpsApply(pl, l, pack, i, start, src, s, views, logs, before, segs, rest, k - 1);
      var done := before + Flat(segs, k);
      GoodSoFar(pl, s.hist, before, segs, rest, k);
      var soFar := before + Flat(segs, k - 1);
      assert done == soFar + segs[k - 1];
      ApplyAfter(pl, s.base, soFar, segs[k - 1]);
      assert OpOk(l, i, start, src, views, logs, k - 1);
      JournalApplies(pl, l, pack, P.Apply(pl, s.base, soFar), views[k - 1], views[k], logs[k - 1], segs[k - 1]);
    }
  }

  // ------------------------------------------------------------ main results

  /** After a crash at any moment of filewrite, recovery gives the disk as it was after some number
      of whole chunks, those whose operations were durable. */
  lemma FilewriteCrash(pl: P.Layout, run: seq<P.State>, steps: seq<P.Step>, n: nat, l: Layout, pack: Packing, i: nat,
                       start: nat, src: seq<int>, views: seq<View>, logs: seq<set<nat>>,
                       before: seq<P.Write>, segs: seq<seq<P.Write>>, rest: seq<P.Write>) returns (k: nat)
    requires P.IsRun(pl, run, steps) && n < |run|
    requires Ops(l, i, start, src, views, logs) && i < |views[0].inodes|
    requires Recorded(pl, l, pack, run[n], views, logs, before, segs, rest)
    ensures pl.Valid() && k <= |segs| <= |logs| && run[n].committed == |before| + |Flat(segs, k)|
    ensures |run[n].disk| == |views[k].blocks| == pl.nblocks && P.WellFormedHeader(pl, run[n].disk[pl.start])
    ensures P.SameHome(pl, P.Recovered(pl, run[n].disk), Image(l, pack, views[k]))
    ensures WrittenUpTo(views[0], i, start, src, Upto(k, |src|), views[k])
  {
    hide OpOk, P.Recovered, P.WellFormedHeader, Journal, Image;
    var s := run[n];
    P.CrashAtomicity(pl, run, steps, n);
    SegsWhole(pl, l, pack, s, views, logs, before, segs, rest);
    k := DurableOps(s, before, segs, rest);
    OpsApply(pl, l, pack, i, start, src, s, views, logs, before, segs, rest, k);
    ChunkView(l, i, start, src, views, logs, k);
  }

  lemma SegsWhole(pl: P.Layout, l: Layout, pack: Packing, s: P.State, views: seq<View>, logs: seq<set<nat>>,
                  before: seq<P.Write>, segs: seq<seq<P.Write>>, rest: seq<P.Write>)
    requires Recorded(pl, l, pack, s, views, logs, before, segs, rest)
    ensures forall k: nat {:trigger segs[k]} | k < |segs| ::
              forall a, b | 0 <= a < b < |segs[k]| :: segs[k][a].op == segs[k][b].op
  {
  }

  lemma ChunkView(l: Layout, i: nat, start: nat, src: seq<int>, views: seq<View>, logs: seq<set<nat>>, k: nat)
    requires Ops(l, i, start, src, views, logs) && i < |views[0].inodes| && k <= |logs|
    ensures WrittenUpTo(views[0], i, start, src, Upto(k, |src|), views[k]) && (k > 0 ==> Ok(l, views[k], {}))
  {
    if k == 0 {
      NoneWritten(l, i, start, src, views[0]);
    } else {
      assert OpOk(l, i, start, src, views, logs, k - 1);
    }
  }

  /** Every chunk stays within the reservation of begin_op: a block of it that is not yet in the log
      can be appended. */
  lemma ChunkReserved(pl: P.Layout, run: seq<P.State>, steps: seq<P.Step>, n: nat, op: nat, l: Layout, i: nat,
                      start: nat, src: seq<int>, views: seq<View>, logs: seq<set<nat>>, k: nat, b: nat)
    requires P.IsRun(pl, run, steps) && n < |run| && op in run[n].ops
    requires Ops(l, i, start, src, views, logs) && k < |logs|
    requires P.BlocksOf(run[n].hist, op) <= logs[k] && b in logs[k] && b !in run[n].lh
    ensures run[n].ops[op] < MAXOPBLOCKS && |run[n].lh| < P.LOGSIZE
  {
    assert OpOk(l, i, start, src, views, logs, k);
    P.ReservationSuffices(pl, run, steps, n, op, logs[k], b);
  }

  // ------------------------------------------------- reading a disk back

  lemma Digit(a: int, x: int, b: int, y: int)
    requires 0 <= a < 0x100 && 0 <= b < 0x100 && a + 0x100 * x == b + 0x100 * y
    ensures a == b && x == y
  {
  }

  lemma WordTells(a: Block, b: Block, j: nat)
    requires IsBlock(a) && IsBlock(b) && j < NINDIRECT && Word(a, j) == Word(b, j)
    ensures a[4 * j] == b[4 * j] && a[4 * j + 1] == b[4 * j + 1] && a[4 * j + 2] == b[4 * j + 2]
            && a[4 * j + 3] == b[4 * j + 3]
  {
    var a0, a1, a2, a3 := a[4 * j], a[4 * j + 1], a[4 * j + 2], a[4 * j + 3];
    var b0, b1, b2, b3 := b[4 * j], b[4 * j + 1], b[4 * j + 2], b[4 * j + 3];
    Digit(a0, a1 + 0x100 * (a2 + 0x100 * a3), b0, b1 + 0x100 * (b2 + 0x100 * b3));
    Digit(a1, a2 + 0x100 * a3, b1, b2 + 0x100 * b3);
    Digit(a2, a3, b2, b3);
  }

  lemma WordsTell(a: Block, b: Block)
    requires IsBlock(a) && IsBlock(b) && Words(a) == Words(b)
    ensures a == b
  {
    forall k | 0 <= k < BSIZE
      ensures a[k] == b[k]
    {
      var j := k / 4;
      assert Words(a)[j] == Word(a, j) && Words(b)[j] == Word(b, j);
      WordTells(a, b, j);
    }
  }

  /** The log is below the data blocks and holds no inodes. */
  ghost predicate ClearOfLog(pl: P.Layout, l: Layout, n: nat) {
    pl.start + pl.size <= l.nmeta && forall i: nat {:trigger IBlock(l, i)} | i < n :: pl.Home(IBlock(l, i))
  }

  /** A file system u that a disk may be read as. */
  ghost predicate ReadAs(pl: P.Layout, l: Layout, pack: Packing, disk: P.Disk, n: nat, u: View) {
    && |u.blocks| == |disk| == pl.nblocks && |u.inodes| == n
    && (forall b: nat {:trigger u.blocks[b]} | b < |u.blocks| :: IsBlock(u.blocks[b]))
    && P.SameHome(pl, disk, Image(l, pack, u))
  }

  lemma InodesTell(pl: P.Layout, l: Layout, pack: Packing, disk: P.Disk, u: View, v: View)
    requires Faithful(pack) && Ok(l, v, {}) && ClearOfLog(pl, l, |v.inodes|)
    requires |v.blocks| == |disk| == pl.nblocks && P.SameHome(pl, disk, Image(l, pack, v))
             && ReadAs(pl, l, pack, disk, |v.inodes|, u)
    ensures u.inodes == v.inodes
  {
    forall j: nat | j < |v.inodes|
      ensures u.inodes[j] == v.inodes[j]
    {
      var c := IBlock(l, j);
      var lo := IPB * (c - l.inodestart);
      assert lo <= j < lo + IPB && pl.Home(c);
      assert Image(l, pack, u)[c] == disk[c] == Image(l, pack, v)[c];
      assert pack(c, Slots(l, u.inodes, c)) == pack(c, Slots(l, v.inodes, c));
      assert Slots(l, u.inodes, c)[j - lo] == u.inodes[j] && Slots(l, v.inodes, c)[j - lo] == v.inodes[j];
    }
  }

  lemma DataTell(pl: P.Layout, l: Layout, pack: Packing, disk: P.Disk, u: View, v: View, c: nat)
    requires Ok(l, v, {}) && ClearOfLog(pl, l, |v.inodes|) && l.nmeta <= c < l.size
    requires |v.blocks| == |disk| == pl.nblocks && P.SameHome(pl, disk, Image(l, pack, v))
             && ReadAs(pl, l, pack, disk, |v.inodes|, u)
    ensures u.blocks[c] == v.blocks[c]
  {
    assert pl.Home(c);
    assert l.inodestart <= c ==> IBlock(l, IPB * (c - l.inodestart)) == c;
    assert Image(l, pack, u)[c] == disk[c] == Image(l, pack, v)[c];
    assert IsBlock(u.blocks[c]) && IsBlock(v.blocks[c]);
    WordsTell(u.blocks[c], v.blocks[c]);
  }

  /** Two file systems with one disk have the same files. */
  lemma DiskTells(pl: P.Layout, l: Layout, pack: Packing, disk: P.Disk, u: View, v: View, j: nat)
    requires Faithful(pack) && Ok(l, v, {}) && ClearOfLog(pl, l, |v.inodes|) && j < |v.inodes|
    requires |v.blocks| == |disk| == pl.nblocks && P.SameHome(pl, disk, Image(l, pack, v))
             && ReadAs(pl, l, pack, disk, |v.inodes|, u)
    ensures j < |u.inodes| && Contents(u, j) == Contents(v, j)
  {
    hide Ok, Image, Faithful, P.SameHome;
    InodesTell(pl, l, pack, disk, u, v);
    forall bn: nat | Addr(v, j, bn) != 0
      ensures Addr(u, j, bn) == Addr(v, j, bn) && Addr(v, j, bn) < |v.blocks|
              && u.blocks[Addr(v, j, bn)] == v.blocks[Addr(v, j, bn)]
    {
      SlotTells(pl, l, pack, disk, u, v, j, bn);
    }
    OthersContents(l, v, j + 1, u, j);
  }

  lemma SlotTells(pl: P.Layout, l: Layout, pack: Packing, disk: P.Disk, u: View, v: View, j: nat, bn: nat)
    requires Ok(l, v, {}) && ClearOfLog(pl, l, |v.inodes|) && j < |v.inodes| && Addr(v, j, bn) != 0
    requires |v.blocks| == |disk| == pl.nblocks && P.SameHome(pl, disk, Image(l, pack, v))
             && ReadAs(pl, l, pack, disk, |v.inodes|, u) && u.inodes == v.inodes
    ensures Addr(u, j, bn) == Addr(v, j, bn) && Addr(v, j, bn) < |v.blocks|
            && u.blocks[Addr(v, j, bn)] == v.blocks[Addr(v, j, bn)]
  {
    BlockTells(l, v, {}, j, bn);
    assert |v.blocks| == l.size;
    hide Ok, Image, P.SameHome;
    DataTell(pl, l, pack, disk, u, v, Addr(v, j, bn));
    if bn >= NDIRECT {
      DataTell(pl, l, pack, disk, u, v, v.inodes[j].addrs[NDIRECT]);
    }
  }

  /** The files of u are those of v, with bytes s written to file i at start. */
  ghost predicate FilesAre(v: View, i: nat, start: nat, s: seq<int>, u: View) {
    && i < |v.inodes| == |u.inodes| && (s != [] ==> start <= |Contents(v, i)|)
    && Contents(u, i) == (if s == [] then Contents(v, i) else Splice(Contents(v, i), start, s))
    && forall j: nat {:trigger Contents(u, j)} | j < |v.inodes| && j != i :: Contents(u, j) == Contents(v, j)
  }

  /** Crash atomicity of filewrite: whatever the disk is read as after a crash at any moment of the
      call and recovery, the file holds the bytes of some number of whole chunks, those that the
      log had committed, and every other file is untouched. */
  lemma FilewriteAtomic(pl: P.Layout, run: seq<P.State>, steps: seq<P.Step>, n: nat, l: Layout, pack: Packing, i: nat,
                        start: nat, src: seq<int>, views: seq<View>, logs: seq<set<nat>>,
                        before: seq<P.Write>, segs: seq<seq<P.Write>>, rest: seq<P.Write>, u: View) returns (k: nat)
    requires P.IsRun(pl, run, steps) && n < |run|
    requires Ops(l, i, start, src, views, logs) && Ok(l, views[0], {}) && i < |views[0].inodes|
    requires Recorded(pl, l, pack, run[n], views, logs, before, segs, rest)
    requires Faithful(pack) && ClearOfLog(pl, l, |views[0].inodes|)
    requires |run[n].disk| == pl.nblocks && P.WellFormedHeader(pl, run[n].disk[pl.start])
             && ReadAs(pl, l, pack, P.Recovered(pl, run[n].disk), |views[0].inodes|, u)
    ensures k <= |segs| && run[n].committed == |before| + |Flat(segs, k)|
    ensures FilesAre(views[0], i, start, src[..Upto(k, |src|)], u)
  {
    hide P.IsRun, Recorded, OpOk, Ok, P.Recovered, P.WellFormedHeader, Image, Faithful, P.SameHome, ReadAs, WrittenUpTo;
    k := FilewriteCrash(pl, run, steps, n, l, pack, i, start, src, views, logs, before, segs, rest);
    ChunkView(l, i, start, src, views, logs, k);
    ChunkFiles(pl, l, pack, P.Recovered(pl, run[n].disk), views[0], i, start, src, Upto(k, |src|), views[k], u);
  }

  lemma ChunkFiles(pl: P.Layout, l: Layout, pack: Packing, disk: P.Disk, v: View, i: nat, start: nat, src: seq<int>,
                   k: nat, w: View, u: View)
    requires Faithful(pack) && Ok(l, w, {}) && ClearOfLog(pl, l, |v.inodes|) && i < |v.inodes|
    requires WrittenUpTo(v, i, start, src, k, w)
    requires |w.blocks| == |disk| == pl.nblocks && P.SameHome(pl, disk, Image(l, pack, w))
             && ReadAs(pl, l, pack, disk, |v.inodes|, u)
    ensures FilesAre(v, i, start, src[..k], u)
  {
    hide Ok, Image, Faithful, P.SameHome;
    forall j: nat | j < |w.inodes|
      ensures j < |u.inodes| && Contents(u, j) == Contents(w, j)
    {
      DiskTells(pl, l, pack, disk, u, w, j);
    }
  }
}
