/**
 balloc, bfree, bmap, itrunc, readi, writei and filewrite. Blocks are read and written through
 the cache, so `block` is the disk as the running operation sees it; the caller holds the lock
 of the inode it works on. A call that panics ends the run; such
 a method says so in its result, and when that happens.
 */
module FileLayer {
  import opened DiskBlocks
  import opened FileSpace
  import LogProtocol
  import opened Options

  const MAXOPBLOCKS := LogProtocol.MAXOPBLOCKS

  /** Every block that changed from v to v' is among lg, the blocks given to log_write. */
  ghost predicate Journaled(v: View, v': View, lg: set<nat>) {
    && |v'.blocks| == |v.blocks|
    && forall c: nat {:trigger v'.blocks[c]} | c < |v.blocks| && v'.blocks[c] != v.blocks[c] :: c in lg
  }

  lemma JournaledTrans(v: View, w: View, x: View, lg: set<nat>, more: set<nat>)
    requires Journaled(v, w, lg) && Journaled(w, x, more)
    ensures Journaled(v, x, lg + more)
  {
    forall c: nat | c < |v.blocks| && x.blocks[c] != v.blocks[c]
      ensures c in lg + more
    {
      assert w.blocks[c] == v.blocks[c] || c in lg;
    }
  }

  /** The same, and the inode block of every inode that changed. */
  ghost predicate Saved(l: Layout, v: View, v': View, lg: set<nat>) {
    && Journaled(v, v', lg) && |v'.inodes| == |v.inodes|
    && forall j: nat {:trigger v'.inodes[j]} | j < |v.inodes| && v'.inodes[j] != v.inodes[j] :: IBlock(l, j) in lg
  }

  // --------------------------------------------------- counting free blocks

  /** How many blocks have no owner. */
  ghost function Avail(l: Layout, v: View): int { l.size - |v.owner| }

  ghost function FreeBlocks(l: Layout, v: View): set<nat> {
    set c: nat | c < l.size && !BitAt(l, v.blocks, c)
  }

  ghost function Below(n: nat): (s: set<nat>)
    ensures |s| == n && forall c: nat {:trigger c in s} :: c in s <==> c < n
  {
    if n == 0 then {} else Below(n - 1) + {n - 1}
  }

  /** That is the number of clear bits in the bitmap. */
  lemma AvailCounts(l: Layout, v: View, held: set<nat>)
    requires Ok(l, v, held)
    ensures Avail(l, v) == |FreeBlocks(l, v)|
  {
    var free, used := FreeBlocks(l, v), v.owner.Keys;
    forall c: nat
      ensures c in used ==> c < l.size
      ensures c in free <==> c < l.size && c !in used
    {
      assert c in v.owner ==> OwnerOk(l, v, c);
      assert c < l.size ==> (BitAt(l, v.blocks, c) <==> c in v.owner);
    }
    Complement(l.size, free, used);
  }

  lemma Complement(n: nat, s: set<nat>, t: set<nat>)
    requires forall c: nat {:trigger c in s} {:trigger c in t} :: (c in t ==> c < n) && (c in s <==> c < n && c !in t)
    ensures |s| == n - |t|
  {
    assert Below(n) == s + t && s !! t;
  }

  /** With every block owned there is nothing left. */
  lemma NoneAvail(l: Layout, v: View)
    requires forall c: nat | c < l.size :: c in v.owner
    ensures Avail(l, v) <= 0
  {
    Included(Below(l.size), v.owner.Keys);
  }

  lemma Included(s: set<nat>, t: set<nat>)
    requires s <= t
    ensures |s| <= |t|
  {
    assert t == s + (t - s);
  }

  lemma NotOverdrawn(l: Layout, v: View)
    requires Ok(l, v, {})
    ensures Avail(l, v) >= 0
  {
    AvailCounts(l, v, {});
  }

  /** The blocks that bmap takes for block bn: itself, and the indirect block if there is none. */
  function Cost(v: View, i: nat, bn: nat): nat {
    if Addr(v, i, bn) != 0 then 0 else if bn < NDIRECT || IndOf(v, i) != 0 then 1 else 2
  }

  /** How many of blocks bn to hi of file i are not there. */
  function Holes(v: View, i: nat, bn: nat, hi: nat): nat
    decreases hi - bn
  {
    if bn >= hi then 0 else (if Addr(v, i, bn) == 0 then 1 else 0) + Holes(v, i, bn + 1, hi)
  }

  /** How many blocks file i must be given to have all of blocks bn to hi: those that are not there,
      and the indirect block if it is needed and there is none. */
  function Needed(v: View, i: nat, bn: nat, hi: nat): nat {
    Holes(v, i, bn, hi) + (if bn < hi && NDIRECT < hi && IndOf(v, i) == 0 then 1 else 0)
  }

  /** The free blocks that are left when file i has all of blocks bn to hi, block by block. */
  ghost function Balance(l: Layout, v: View, i: nat, bn: nat, hi: nat): int
    decreases hi - bn
  {
    if bn >= hi then Avail(l, v) else Balance(l, v, i, bn + 1, hi) - Price(v, i, bn, hi)
  }

  function Price(v: View, i: nat, bn: nat, hi: nat): nat {
    (if Addr(v, i, bn) == 0 then 1 else 0) + (if bn + 1 == hi && NDIRECT < hi && IndOf(v, i) == 0 then 1 else 0)
  }

  lemma BalanceDone(l: Layout, v: View, i: nat, bn: nat)
    ensures Balance(l, v, i, bn, bn) == Avail(l, v)
  {
  }

  lemma {:induction false} BalanceIs(l: Layout, v: View, i: nat, bn: nat, hi: nat)
    ensures Balance(l, v, i, bn, hi) == Avail(l, v) - Needed(v, i, bn, hi)
    decreases hi - bn
  {
    if bn < hi {
      BalanceIs(l, v, i, bn + 1, hi);
    }
  }

  lemma {:induction false} SameHoles(v: View, i: nat, bn: nat, hi: nat, w: View)
    requires forall n: nat {:trigger Addr(w, i, n)} | n >= bn :: Addr(w, i, n) == Addr(v, i, n)
    ensures Holes(w, i, bn, hi) == Holes(v, i, bn, hi)
    decreases hi - bn
  {
    if bn < hi {
      SameHoles(v, i, bn + 1, hi, w);
      assert Addr(w, i, bn) == Addr(v, i, bn);
    }
  }

  /** Too few blocks for block bn are too few for blocks bn to hi. */
  lemma Overdrawn(l: Layout, v: View, i: nat, bn: nat, hi: nat)
    requires bn < hi && Avail(l, v) < Cost(v, i, bn)
    ensures Balance(l, v, i, bn, hi) < 0
  {
    BalanceIs(l, v, i, bn, hi);
  }

  lemma CostBalance(l: Layout, v: View, i: nat, bn: nat)
    requires bn < MAXFILE
    ensures Balance(l, v, i, bn, bn + 1) == Avail(l, v) - Cost(v, i, bn)
  {
    BalanceIs(l, v, i, bn + 1, bn + 1);
  }

  /** A block that is there costs nothing. */
  lemma BalanceThere(l: Layout, v: View, i: nat, bn: nat, hi: nat)
    requires Addr(v, i, bn) != 0 && bn < hi
    ensures Balance(l, v, i, bn + 1, hi) == Balance(l, v, i, bn, hi)
  {
  }

  /** Providing block bn, and with it the indirect block, leaves the balance. */
  lemma BalanceKept(l: Layout, v: View, i: nat, bn: nat, hi: nat, w: View)
    requires forall n: nat {:trigger Addr(w, i, n)} | n != bn :: Addr(w, i, n) == Addr(v, i, n)
    requires bn < hi && Addr(v, i, bn) == 0 && |w.owner| == |v.owner| + Cost(v, i, bn)
    requires if bn < NDIRECT then IndOf(w, i) == IndOf(v, i) else IndOf(w, i) != 0
    ensures Balance(l, w, i, bn + 1, hi) == Balance(l, v, i, bn, hi)
  {
    SameHoles(v, i, bn + 1, hi, w);
    BalanceIs(l, v, i, bn, hi);
    BalanceIs(l, w, i, bn + 1, hi);
  }

  /** Changing the data of blocks that stay where they are leaves it too. */
  lemma BalanceSame(l: Layout, v: View, i: nat, bn: nat, hi: nat, w: View)
    requires forall n: nat {:trigger Addr(w, i, n)} :: Addr(w, i, n) == Addr(v, i, n)
    requires w.owner == v.owner && IndOf(w, i) == IndOf(v, i)
    ensures Balance(l, w, i, bn, hi) == Balance(l, v, i, bn, hi)
  {
    SameHoles(v, i, bn, hi, w);
    BalanceIs(l, v, i, bn, hi);
    BalanceIs(l, w, i, bn, hi);
  }

  /** A direct block, allocated in w and entered in the inode in x. */
  lemma BalanceDirect(l: Layout, v: View, i: nat, bn: nat, hi: nat, w: View, x: View)
    requires i < |v.inodes| && SameAddrs(v, w)
    requires forall n: nat {:trigger Addr(x, i, n)} | n != bn :: Addr(x, i, n) == Addr(w, i, n)
    requires bn < hi && bn < NDIRECT && Addr(v, i, bn) == 0 && |x.owner| == |v.owner| + 1 && IndOf(x, i) == IndOf(v, i)
    ensures Balance(l, x, i, bn + 1, hi) == Balance(l, v, i, bn, hi)
  {
    forall n: nat | n != bn
      ensures Addr(x, i, n) == Addr(v, i, n)
    {
      assert Addr(w, i, n) == Addr(v, i, n);
    }
    BalanceKept(l, v, i, bn, hi, x);
  }

  /** bmap has made sure that block bn of file i is at address a. */
  ghost predicate Mapping(l: Layout, v: View, i: nat, bn: nat, a: nat, v': View, lg: set<nat>) {
    && Ok(l, v', {}) && i < |v'.inodes| && bn < MAXFILE && a == Addr(v', i, bn) && l.nmeta <= a < l.size == |v'.blocks|
    && AllSame(v, v') && OtherInodes(v, i, v') && Journaled(v, v', lg)
    && (Addr(v, i, bn) != 0 ==> v' == v)
    && (Addr(v, i, bn) == 0 ==> v'.blocks[a] == Zero() && a !in v.owner)
    && Logs(l, v, i, bn, a, v', lg)
  }

  ghost predicate OtherInodes(v: View, i: nat, v': View) {
    |v'.inodes| == |v.inodes| && forall j: nat {:trigger v'.inodes[j]} | j < |v.inodes| && j != i ::
      v'.inodes[j] == v.inodes[j]
  }

  /** The indirect block of file i, if it has one. */
  function IndOf(v: View, i: nat): nat {
    if i < |v.inodes| && |v.inodes[i].addrs| == NDIRECT + 1 then v.inodes[i].addrs[NDIRECT] else 0
  }

  /** The blocks that bmap gives to log_write: those of a new data block, and the indirect block,
      with its bitmap block if it is new too. */
  ghost predicate Logs(l: Layout, v: View, i: nat, bn: nat, a: nat, v': View, lg: set<nat>) {
    && (IndOf(v, i) != 0 ==> IndOf(v', i) == IndOf(v, i))
    && lg <= (if Addr(v, i, bn) != 0 then {} else {BBlock(l, a), a} + IndLogs(l, v, i, v'))
  }

  ghost function IndLogs(l: Layout, v: View, i: nat, v': View): set<nat> {
    if IndOf(v', i) == 0 then {} else if IndOf(v, i) != 0 then {IndOf(v', i)}
        else {IndOf(v', i), BBlock(l, IndOf(v', i))}
  }

  ghost predicate HasIndirect(l: Layout, v: View, i: nat, a: nat, v': View, lg: set<nat>) {
    && Ok(l, v', {}) && a == IndOf(v', i) != 0 && AllSame(v, v') && OtherInodes(v, i, v')
    && Journaled(v, v', lg)
    && (forall bn: nat {:trigger Addr(v', i, bn)} :: Addr(v', i, bn) == Addr(v, i, bn))
    && (forall b: nat {:trigger b in v'.owner} | b in v.owner :: b in v'.owner)
    && (IndOf(v, i) != 0 ==> v' == v && lg == {})
    && (IndOf(v, i) == 0 ==> lg == {BBlock(l, a), a} && |v'.owner| == |v.owner| + 1)
  }

  /** Block bn of file i, not there before, is now at a, as its indirect block tells. */
  ghost predicate Filled(l: Layout, v: View, i: nat, bn: nat, a: nat, v': View, lg: set<nat>) {
    && Ok(l, v', {}) && i < |v'.inodes| && bn < MAXFILE && a == Addr(v', i, bn) && l.nmeta <= a < l.size == |v'.blocks|
    && AllSame(v, v') && v'.inodes == v.inodes && a !in v.owner && v'.blocks[a] == Zero() && Journaled(v, v', lg)
    && lg == {BBlock(l, a), a, IndOf(v, i)} && |v'.owner| == |v.owner| + 1
    && forall n: nat {:trigger Addr(v', i, n)} | n != bn :: Addr(v', i, n) == Addr(v, i, n)
  }

  /** A block that is there stays as it is. */
  lemma SameMaps(l: Layout, v: View, i: nat, bn: nat)
    requires Ok(l, v, {}) && i < |v.inodes| && bn < MAXFILE && Addr(v, i, bn) != 0
    ensures Mapping(l, v, i, bn, Addr(v, i, bn), v, {})
  {
    BlockTells(l, v, {}, i, bn);
    AllSameRefl(l, v);
  }

  lemma FilledMaps(l: Layout, v: View, i: nat, bn: nat, e: nat, w: View, a: nat, x: View, lg: set<nat>, more: set<nat>)
    requires i < |v.inodes| && NDIRECT <= bn && HasIndirect(l, v, i, e, w, lg) && Addr(w, i, bn) == 0
             && Filled(l, w, i, bn, a, x, more)
    ensures Mapping(l, v, i, bn, a, x, lg + more) && |x.owner| == |v.owner| + Cost(v, i, bn)
  {
    SameTrans(v, w, x);
    JournaledTrans(v, w, x, lg, more);
    assert Addr(w, i, bn) == Addr(v, i, bn);
  }

  lemma BalanceFilled(l: Layout, v: View, i: nat, bn: nat, hi: nat, e: nat, w: View, a: nat, x: View, lg: set<nat>,
                      more: set<nat>)
    requires i < |v.inodes| && NDIRECT <= bn < hi && HasIndirect(l, v, i, e, w, lg) && Addr(w, i, bn) == 0
             && Filled(l, w, i, bn, a, x, more)
    ensures Balance(l, x, i, bn + 1, hi) == Balance(l, v, i, bn, hi)
  {
    assert Addr(w, i, bn) == Addr(v, i, bn);
    forall n: nat | n != bn
      ensures Addr(x, i, n) == Addr(v, i, n)
    {
      assert Addr(w, i, n) == Addr(v, i, n);
    }
    BalanceKept(l, v, i, bn, hi, x);
  }

  /** The word was there, so the indirect block was too. */
  lemma WordThere(l: Layout, v: View, i: nat, bn: nat, e: nat, w: View, lg: set<nat>)
    requires HasIndirect(l, v, i, e, w, lg) && NDIRECT <= bn && Addr(w, i, bn) != 0
    ensures Addr(v, i, bn) != 0 && w == v && lg == {}
  {
    assert Addr(w, i, bn) == Addr(v, i, bn);
  }

  lemma NoIndirectBlock(v: View, i: nat, bn: nat)
    requires NDIRECT <= bn && IndOf(v, i) == 0
    ensures Addr(v, i, bn) == 0
  {
  }

  lemma WordMissing(l: Layout, v: View, i: nat, bn: nat, e: nat, w: View, lg: set<nat>)
    requires HasIndirect(l, v, i, e, w, lg) && NDIRECT <= bn && Addr(w, i, bn) == 0 && Avail(l, w) <= 0
    ensures Avail(l, v) < Cost(v, i, bn)
  {
    assert Addr(w, i, bn) == Addr(v, i, bn);
  }

  /** A held block is not the file's indirect block. */
  lemma NotIndirect(l: Layout, v: View, held: set<nat>, i: nat, b: nat)
    requires Ok(l, v, held) && i < |v.inodes| && b in held
    ensures IndOf(v, i) != b || b == 0
  {
    assert IndOk(v, i);
  }

  lemma ReadBlock(l: Layout, v: View, i: nat, off: nat)
    requires Ok(l, v, {}) && i < |v.inodes| && off < v.inodes[i].size
    ensures off / BSIZE < MAXFILE && Addr(v, i, off / BSIZE) != 0
  {
    assert MappedOk(v, i, off / BSIZE) && v.inodes[i] == v.inodes[i];
  }

  /** Within one block, position and block number move together. */
  lemma ChunkAt(off: nat, m: nat, k: nat)
    requires off % BSIZE + m <= BSIZE && off <= k < off + m
    ensures k / BSIZE == off / BSIZE && k % BSIZE == off % BSIZE + (k - off)
  {
  }

  lemma ChunkRead(v: View, i: nat, off: nat, m: nat)
    requires i < |v.inodes| && off % BSIZE + m <= BSIZE && off + m <= v.inodes[i].size
    requires var a := Addr(v, i, off / BSIZE); 0 < a < |v.blocks| && |v.blocks[a]| == BSIZE
    ensures v.blocks[Addr(v, i, off / BSIZE)][off % BSIZE..off % BSIZE + m] == Contents(v, i)[off..off + m]
  {
    forall k: nat | off <= k < off + m
      ensures Contents(v, i)[k] == v.blocks[Addr(v, i, off / BSIZE)][off % BSIZE + (k - off)]
    {
      ChunkAt(off, m, k);
    }
  }

  ghost predicate IsBytes(s: seq<int>) { forall k | 0 <= k < |s| :: 0 <= s[k] < 256 }

  /** How many of n bytes at off go into the block of off. */
  function Room(off: nat, n: nat): nat { if n < BSIZE - off % BSIZE then n else BSIZE - off % BSIZE }

  lemma RoomEnds(off: nat, n: nat)
    requires n > 0
    ensures 0 < Room(off, n) <= n && off % BSIZE + Room(off, n) <= BSIZE
            && ((off + Room(off, n)) % BSIZE == 0 || Room(off, n) == n)
  {
  }

  function Patched(b: Block, o: nat, s: seq<int>): Block
    requires o + |s| <= |b|
  {
    b[..o] + s + b[o + |s|..]
  }

  ghost predicate OtherFiles(v: View, i: nat, v': View) {
    forall j: nat {:trigger SameFile(v, v', j)} | j < |v.inodes| && j != i :: SameFile(v, v', j)
  }

  lemma OtherTrans(v: View, w: View, i: nat, x: View)
    requires |v.inodes| == |w.inodes| && OtherFiles(v, i, w) && OtherFiles(w, i, x)
    ensures OtherFiles(v, i, x)
  {
    forall j: nat | j < |v.inodes| && j != i
      ensures SameFile(v, x, j)
    {
      assert SameFile(v, w, j) && SameFile(w, x, j);
      SameFileTrans(v, w, x, j);
    }
  }

  /** Bytes s have been stored at off in file i; its size is not yet set, and every other byte
      that was mapped is as it was. */
  ghost predicate Stored(v: View, i: nat, off: nat, s: seq<int>, v': View) {
    && i < |v.inodes| == |v'.inodes| && v'.inodes[i].size == v.inodes[i].size
    && (forall k: nat {:trigger ByteAt(v', i, k)} | off <= k < off + |s| ::
         Addr(v', i, k / BSIZE) != 0 && ByteAt(v', i, k) == s[k - off])
    && (forall k: nat {:trigger ByteAt(v', i, k)} | !(off <= k < off + |s|) && Addr(v, i, k / BSIZE) != 0 ::
         ByteAt(v', i, k) == ByteAt(v, i, k))
    && (forall bn: nat {:trigger Addr(v', i, bn)} | Addr(v, i, bn) != 0 :: Addr(v', i, bn) != 0)
  }

  lemma StoreBytes(l: Layout, v: View, w: View, i: nat, off: nat, s: seq<int>, v': View)
    requires i < |v.inodes| && AllSame(v, w) && Ok(l, w, {}) && Ok(l, v', {}) && v'.inodes == w.inodes
             && |v'.blocks| == |w.blocks|
    requires 0 < |s| && off % BSIZE + |s| <= BSIZE
    requires var a := Addr(w, i, off / BSIZE);
             && 0 < a < |w.blocks| && |w.blocks[a]| == BSIZE
             && v'.blocks == w.blocks[a := Patched(w.blocks[a], off % BSIZE, s)]
    requires forall n: nat {:trigger Addr(v', i, n)} :: Addr(v', i, n) == Addr(w, i, n)
    requires OtherBlocks(w, i, off / BSIZE, v')
    ensures Stored(v, i, off, s, v')
  {
    assert SameFile(v, w, i);
    forall k: nat | off <= k < off + |s|
      ensures Addr(v', i, k / BSIZE) != 0 && ByteAt(v', i, k) == s[k - off]
    {
      ChunkAt(off, |s|, k);
    }
    forall k: nat | !(off <= k < off + |s|) && Addr(v, i, k / BSIZE) != 0
      ensures ByteAt(v', i, k) == ByteAt(v, i, k)
    {
      assert Addr(w, i, k / BSIZE) == Addr(v, i, k / BSIZE);
      assert Addr(v', i, k / BSIZE) == Addr(w, i, k / BSIZE);
      if k / BSIZE == off / BSIZE {
        assert k % BSIZE < off % BSIZE || k % BSIZE >= off % BSIZE + |s|;
      }
    }
    forall bn: nat | Addr(v, i, bn) != 0
      ensures Addr(v', i, bn) != 0
    {
      assert Addr(w, i, bn) == Addr(v, i, bn);
    }
  }

  /** The blocks that one turn of writei's loop gives to log_write. */
  ghost predicate ChunkLogs(l: Layout, v: View, i: nat, bn: nat, a: nat, v': View, lg: set<nat>) {
    && (IndOf(v, i) != 0 ==> IndOf(v', i) == IndOf(v, i))
    && lg <= {a} + (if Addr(v, i, bn) != 0 then {} else {BBlock(l, a)} + IndLogs(l, v, i, v'))
  }

  /** One turn of writei's loop has stored s at off, in the block at a. */
  ghost predicate Turn(l: Layout, v: View, i: nat, off: nat, s: seq<int>, a: nat, x: View, lg: set<nat>) {
    && OtherInodes(v, i, x) && OtherFiles(v, i, x) && Stored(v, i, off, s, x)
    && ChunkLogs(l, v, i, off / BSIZE, a, x, lg) && Journaled(v, x, lg)
  }

  ghost function Copied(w: View, a: nat, o: nat, s: seq<int>): View
    requires a < |w.blocks| && o + |s| <= |w.blocks[a]|
  {
    w.(blocks := w.blocks[a := Patched(w.blocks[a], o, s)])
  }

  lemma CopyBalance(l: Layout, w: View, i: nat, bn: nat, hi: nat, o: nat, s: seq<int>)
    requires Ok(l, w, {}) && i < |w.inodes| && bn < MAXFILE && IsBytes(s) && o + |s| <= BSIZE
    requires var a := Addr(w, i, bn); 0 < a < |w.blocks| && IsBlock(w.blocks[a])
    ensures Balance(l, Copied(w, Addr(w, i, bn), o, s), i, bn + 1, hi) == Balance(l, w, i, bn + 1, hi)
  {
    var x := Copied(w, Addr(w, i, bn), o, s);
    StoreKeeps(l, w, {}, i, bn, Patched(w.blocks[Addr(w, i, bn)], o, s), x);
    BalanceSame(l, w, i, bn + 1, hi, x);
  }

  /** bmap from v to w, and the copy of s. */
  lemma TurnDone(l: Layout, v: View, i: nat, off: nat, s: seq<int>, a: nat, w: View, lg: set<nat>)
    requires i < |v.inodes| && s != [] && IsBytes(s) && off % BSIZE + |s| <= BSIZE
    requires Mapping(l, v, i, off / BSIZE, a, w, lg) && IsBlock(w.blocks[a]) && 0 < a
    ensures var x := Copied(w, a, off % BSIZE, s); Ok(l, x, {}) && Turn(l, v, i, off, s, a, x, lg + {a})
  {
    var x := Copied(w, a, off % BSIZE, s);
    StoreKeeps(l, w, {}, i, off / BSIZE, Patched(w.blocks[a], off % BSIZE, s), x);
    StoreBytes(l, v, w, i, off, s, x);
    OtherTrans(v, w, i, x);
    JournaledTrans(v, w, x, lg, {a});
  }

  lemma StoredNone(v: View, i: nat, off: nat)
    requires i < |v.inodes|
    ensures Stored(v, i, off, [], v)
  {
  }

  lemma StoredMore(v: View, i: nat, start: nat, s: seq<int>, w: View, t: seq<int>, x: View)
    requires Stored(v, i, start, s, w) && Stored(w, i, start + |s|, t, x)
    ensures Stored(v, i, start, s + t, x)
  {
    forall k: nat | start <= k < start + |s + t|
      ensures Addr(x, i, k / BSIZE) != 0 && ByteAt(x, i, k) == (s + t)[k - start]
    {
      if k < start + |s| {
        assert ByteAt(w, i, k) == s[k - start] && Addr(w, i, k / BSIZE) != 0;
      } else {
        assert ByteAt(x, i, k) == t[k - (start + |s|)];
      }
    }
    forall k: nat | !(start <= k < start + |s + t|) && Addr(v, i, k / BSIZE) != 0
      ensures ByteAt(x, i, k) == ByteAt(v, i, k)
    {
      assert ByteAt(w, i, k) == ByteAt(v, i, k) && Addr(w, i, k / BSIZE) != 0;
    }
    forall bn: nat | Addr(v, i, bn) != 0
      ensures Addr(x, i, bn) != 0
    {
      assert Addr(w, i, bn) != 0;
    }
  }

  /** Bytes c with s put at off, over what is there and past the end. */
  function Splice(c: seq<int>, off: nat, s: seq<int>): seq<int>
    requires off <= |c|
  {
    c[..off] + s + (if off + |s| < |c| then c[off + |s|..] else [])
  }

  /** Byte by byte: a write replaces its own range and nothing else, and grows the file only to its end. */
  lemma SpliceIs(v: View, i: nat, start: nat, s: seq<int>, x: View)
    requires i < |v.inodes| && i < |x.inodes| && start <= v.inodes[i].size
             && Contents(x, i) == Splice(Contents(v, i), start, s)
    ensures x.inodes[i].size == if start + |s| > v.inodes[i].size then start + |s| else v.inodes[i].size
    ensures forall k: nat {:trigger ByteAt(x, i, k)} | k < x.inodes[i].size ::
              ByteAt(x, i, k) == if start <= k < start + |s| then s[k - start] else ByteAt(v, i, k)
  {
    assert |Contents(x, i)| == x.inodes[i].size;
    forall k: nat | k < x.inodes[i].size
      ensures ByteAt(x, i, k) == if start <= k < start + |s| then s[k - start] else ByteAt(v, i, k)
    {
      assert ByteAt(x, i, k) == Contents(x, i)[k];
    }
  }

  /** The blocks below the new size are mapped. */
  lemma StoredMapped(l: Layout, v: View, i: nat, start: nat, s: seq<int>, w: View, n: nat)
    requires Ok(l, v, {}) && Stored(v, i, start, s, w) && start <= v.inodes[i].size
    requires n * BSIZE < v.inodes[i].size || n * BSIZE < start + |s|
    ensures Addr(w, i, n) != 0
  {
    if n * BSIZE < v.inodes[i].size {
      assert MappedOk(v, i, n);
    } else {
      assert (n * BSIZE) / BSIZE == n;
      assert ByteAt(w, i, n * BSIZE) == s[n * BSIZE - start];
    }
  }

  /** Setting the size makes the stored bytes the file's contents. */
  lemma StoredContents(l: Layout, v: View, i: nat, start: nat, s: seq<int>, w: View, x: View)
    requires Ok(l, v, {}) && Stored(v, i, start, s, w) && start <= v.inodes[i].size && i < |x.inodes|
    requires x.inodes[i].size == if start + |s| > v.inodes[i].size then start + |s| else v.inodes[i].size
    requires x.blocks == w.blocks && forall n: nat {:trigger Addr(x, i, n)} :: Addr(x, i, n) == Addr(w, i, n)
    ensures Contents(x, i) == Splice(Contents(v, i), start, s)
  {
    forall k: nat | k < x.inodes[i].size
      ensures Contents(x, i)[k] == Splice(Contents(v, i), start, s)[k]
    {
      assert Addr(x, i, k / BSIZE) == Addr(w, i, k / BSIZE);
      assert ByteAt(x, i, k) == ByteAt(w, i, k);
      if !(start <= k < start + |s|) {
        assert MappedOk(v, i, k / BSIZE);
      }
    }
  }

  lemma OthersContents(l: Layout, v: View, i: nat, x: View, j: nat)
    requires Ok(l, v, {}) && SameFile(v, x, j) && j != i
    ensures Contents(x, j) == Contents(v, j)
  {
    forall k: nat | k < v.inodes[j].size
      ensures ByteAt(x, j, k) == ByteAt(v, j, k)
    {
      assert MappedOk(v, j, k / BSIZE);
      assert Addr(x, j, k / BSIZE) == Addr(v, j, k / BSIZE);
    }
  }

  // -------------------------------------------------- counting logged blocks

  /** The blocks that n bytes at off touch, and how many of them may be new. */
  function Touched(off: nat, n: nat): nat {
    if n == 0 then 0 else (off + n - 1) / BSIZE - off / BSIZE + 1
  }

  function Fresh(off: nat, n: nat): nat {
    if n == 0 then 0 else if off % BSIZE == 0 then Touched(off, n) else Touched(off, n) - 1
  }

  /** Data blocks, bitmap blocks of new ones, the indirect block, its bitmap block, the inode. */
  function Budget(off: nat, n: nat): nat { Touched(off, n) + Fresh(off, n) + 3 }

  lemma ChunkFits(off: nat, n: nat)
    requires n <= 3 * BSIZE
    ensures Budget(off, n) <= MAXOPBLOCKS
  {
  }

  /** A turn touches one more block. */
  lemma TouchedMore(start: nat, tot: nat, m: nat)
    requires tot == 0 || (start + tot) % BSIZE == 0
    requires 0 < m <= BSIZE - (start + tot) % BSIZE
    ensures Touched(start, tot + m) == Touched(start, tot) + 1
    ensures Fresh(start, tot + m) == Fresh(start, tot) + (if tot == 0 && start % BSIZE != 0 then 0 else 1)
  {
    var off := start + tot;
    assert (off + m - 1) / BSIZE == off / BSIZE;
    assert tot > 0 ==> (off - 1) / BSIZE == off / BSIZE - 1;
  }

  /** The end of the blocks that n bytes at off touch. */
  function End(off: nat, n: nat): nat { if n == 0 then off / BSIZE else (off + n - 1) / BSIZE + 1 }

  /** How many blocks a write of n bytes at off must allocate. */
  function NeededFor(v: View, i: nat, off: nat, n: nat): nat { Needed(v, i, off / BSIZE, End(off, n)) }

  /** After tot of the n bytes at start, writei's loop is about to enter block bn, or at the end. */
  ghost predicate At(start: nat, n: nat, tot: nat, bn: nat) {
    && tot <= n && (tot == 0 || tot == n || (start + tot) % BSIZE == 0)
    && (if tot < n then bn == (start + tot) / BSIZE < End(start, n) else bn == End(start, n))
  }

  /** A turn ends at a block's end or at the end of the write. */
  lemma AtNext(start: nat, n: nat, tot: nat, bn: nat)
    requires At(start, n, tot, bn) && tot < n
    ensures var m := Room(start + tot, n - tot); 0 < m <= n - tot && At(start, n, tot + m, bn + 1)
  {
  }

  ghost predicate Resized(w: View, i: nat, x: View) {
    && i < |w.inodes| && x.blocks == w.blocks && x.owner == w.owner
    && |x.inodes| == |w.inodes| && x.inodes[i].addrs == w.inodes[i].addrs
  }

  lemma ResizeBalance(l: Layout, w: View, i: nat, bn: nat, hi: nat, x: View)
    requires Resized(w, i, x)
    ensures Balance(l, x, i, bn, hi) == Balance(l, w, i, bn, hi)
  {
    BalanceSame(l, w, i, bn, hi, x);
  }

  /** The block in which a write has ended is there. */
  lemma BalanceBack(l: Layout, v: View, i: nat, start: nat, n: nat, hi: nat)
    requires Ok(l, v, {}) && i < |v.inodes| && (n == 0 || start + n <= v.inodes[i].size) && End(start, n) <= hi
    ensures Balance(l, v, i, (start + n) / BSIZE, hi) == Balance(l, v, i, End(start, n), hi)
  {
    if n > 0 && (start + n) % BSIZE != 0 {
      StartsMapped(l, v, i, start + n);
      BalanceThere(l, v, i, (start + n) / BSIZE, hi);
    }
  }

  /** The balance from the block of byte off on. */
  ghost function BalanceFrom(l: Layout, v: View, i: nat, off: nat, hi: nat): int { Balance(l, v, i, off / BSIZE, hi) }

  lemma BalanceFirst(l: Layout, v: View, i: nat, start: nat, n: nat)
    ensures BalanceFrom(l, v, i, start, End(start, n)) == Avail(l, v) - NeededFor(v, i, start, n)
  {
    BalanceIs(l, v, i, start / BSIZE, End(start, n));
  }

  lemma BalanceLast(l: Layout, v: View, i: nat, start: nat, n: nat)
    requires Ok(l, v, {}) && i < |v.inodes| && (n == 0 || start + n <= v.inodes[i].size)
    ensures BalanceFrom(l, v, i, start + n, End(start, n)) == Avail(l, v) >= 0
  {
    BalanceBack(l, v, i, start, n, End(start, n));
    BalanceDone(l, v, i, End(start, n));
    NotOverdrawn(l, v);
  }

  /** A write that starts within a block starts in a block that is there. */
  lemma StartsMapped(l: Layout, v: View, i: nat, start: nat)
    requires Ok(l, v, {}) && i < |v.inodes| && start <= v.inodes[i].size && start % BSIZE != 0
    ensures Addr(v, i, start / BSIZE) != 0
  {
    assert MappedOk(v, i, start / BSIZE);
  }

  /** The log of a write so far: data blocks, bitmap blocks, indirect blocks. */
  ghost predicate LogIs(l: Layout, v: View, i: nat, w: View, data: set<nat>, maps: set<nat>, lg: set<nat>) {
    && (IndOf(v, i) != 0 ==> IndOf(w, i) == IndOf(v, i))
    && lg <= data + maps + IndLogs(l, v, i, w)
  }

  lemma LogMore(l: Layout, v: View, i: nat, w: View, data: set<nat>, maps: set<nat>, lg: set<nat>, bn: nat, a: nat,
                x: View,
                more: set<nat>)
    requires LogIs(l, v, i, w, data, maps, lg) && ChunkLogs(l, w, i, bn, a, x, more)
    ensures LogIs(l, v, i, x, data + {a}, if Addr(w, i, bn) != 0 then maps else maps + {BBlock(l, a)}, lg + more)
  {
    assert IndLogs(l, v, i, w) <= IndLogs(l, v, i, x);
    assert IndLogs(l, w, i, x) <= IndLogs(l, v, i, x);
  }

  lemma AddOne(s: set<nat>, a: nat)
    ensures |s + {a}| <= |s| + 1
  {
    if a in s {
      assert s + {a} == s;
    }
  }

  /** How many blocks a write logs, the inode's included. */
  lemma CountAll(l: Layout, v: View, i: nat, w: View, data: set<nat>, maps: set<nat>, lg: set<nat>, ib: nat)
    requires LogIs(l, v, i, w, data, maps, lg)
    ensures |lg + {ib}| <= |data| + |maps| + 3
  {
    var ind := IndLogs(l, v, i, w);
    assert |ind| <= 2 by {
      AddOne({IndOf(w, i)}, BBlock(l, IndOf(w, i)));
      assert {IndOf(w, i)} + {BBlock(l, IndOf(w, i))} == {IndOf(w, i), BBlock(l, IndOf(w, i))};
    }
    UnionSize(data, maps);
    UnionSize(data + maps, ind);
    AddOne(data + maps + ind, ib);
    Included(lg + {ib}, data + maps + ind + {ib});
  }

  lemma UnionSize(s: set<nat>, t: set<nat>)
    ensures |s + t| <= |s| + |t|
  {
    assert |s + t| == |s| + |t| - |s * t|;
  }

  /** Bytes s of a write at start have been stored, with so many blocks logged. */
  ghost predicate Progress(l: Layout, v: View, i: nat, start: nat, s: seq<int>, w: View, data: set<nat>,
                           maps: set<nat>, lg: set<nat>) {
    && Stored(v, i, start, s, w) && OtherInodes(v, i, w) && OtherFiles(v, i, w) && LogIs(l, v, i, w, data, maps, lg)
    && |data| <= Touched(start, |s|) && |maps| <= Fresh(start, |s|)
  }

  ghost predicate ProgressTo(l: Layout, v: View, i: nat, start: nat, src: seq<int>, tot: nat, w: View,
                             data: set<nat>, maps: set<nat>, lg: set<nat>) {
    tot <= |src| && Progress(l, v, i, start, src[..tot], w, data, maps, lg)
  }

  lemma NoProgress(l: Layout, v: View, i: nat, start: nat, src: seq<int>)
    requires Ok(l, v, {}) && i < |v.inodes|
    ensures ProgressTo(l, v, i, start, src, 0, v, {}, {}, {}) && Journaled(v, v, {})
  {
    AllSameRefl(l, v);
    StoredNone(v, i, start);
  }

  /** One turn of writei's loop, between w and x. */
  lemma WriteTurn(l: Layout, v: View, i: nat, start: nat, s: seq<int>, off: nat, w: View, t: seq<int>, x: View,
                  data: set<nat>, maps: set<nat>, lg: set<nat>, a: nat, more: set<nat>)
    requires Ok(l, v, {}) && i < |v.inodes| && start <= v.inodes[i].size && (s == [] ==> w == v) && off == start + |s|
    requires Progress(l, v, i, start, s, w, data, maps, lg)
    requires Stored(w, i, off, t, x) && OtherInodes(w, i, x) && OtherFiles(w, i, x)
             && ChunkLogs(l, w, i, off / BSIZE, a, x, more)
    requires (s == [] || off % BSIZE == 0) && 0 < |t| <= BSIZE - off % BSIZE
    ensures Progress(l, v, i, start, s + t, x, data + {a},
                     if Addr(w, i, off / BSIZE) != 0 then maps else maps + {BBlock(l, a)}, lg + more)
  {
    StoredMore(v, i, start, s, w, t, x);
    OtherTrans(v, w, i, x);
    LogMore(l, v, i, w, data, maps, lg, off / BSIZE, a, x, more);
    if s == [] && start % BSIZE != 0 {
      StartsMapped(l, v, i, start);
    }
    TurnCounts(start, |s|, |t|, data, maps, a, BBlock(l, a), Addr(w, i, off / BSIZE) == 0);
  }

  lemma TurnCounts(start: nat, tot: nat, m: nat, data: set<nat>, maps: set<nat>, a: nat, b: nat, added: bool)
    requires |data| <= Touched(start, tot) && |maps| <= Fresh(start, tot)
    requires (tot == 0 || (start + tot) % BSIZE == 0) && 0 < m <= BSIZE - (start + tot) % BSIZE
    requires tot == 0 && start % BSIZE != 0 ==> !added
    ensures |data + {a}| <= Touched(start, tot + m) && |if added then maps + {b} else maps| <= Fresh(start, tot + m)
  {
    TouchedMore(start, tot, m);
    AddOne(data, a);
    AddOne(maps, b);
  }

  /** writei's reasons to return -1. */
  predicate Refused(size: nat, off: nat, n: nat) {
    off > size || off + n >= U32 || off + n > MAXFILE * BSIZE
  }

  ghost predicate OthersKept(v: View, i: nat, x: View) {
    && OtherInodes(v, i, x)
    && forall j: nat {:trigger Contents(x, j)} | j < |v.inodes| && j != i :: Contents(x, j) == Contents(v, j)
  }

  lemma Others(l: Layout, v: View, i: nat, w: View, x: View)
    requires Ok(l, v, {}) && OtherInodes(v, i, w) && OtherFiles(v, i, w) && OtherInodes(w, i, x) && x.blocks == w.blocks
    requires forall j: nat, n: nat {:trigger Addr(x, j, n)} | j < |w.inodes| :: Addr(x, j, n) == Addr(w, j, n)
    ensures OthersKept(v, i, x)
  {
    forall j: nat | j < |v.inodes| && j != i
      ensures Contents(x, j) == Contents(v, j)
    {
      assert SameFile(v, w, j);
      OthersContents(l, v, i, w, j);
      forall k: nat | k < x.inodes[j].size
        ensures ByteAt(x, j, k) == ByteAt(w, j, k)
      {
        assert Addr(x, j, k / BSIZE) == Addr(w, j, k / BSIZE);
      }
      assert w.inodes[j] == x.inodes[j];
    }
  }

  // ------------------------------------------------------------------ itrunc

  /** The state with file i's size read as 0. */
  ghost function Cut(v: View, i: nat): View
    requires i < |v.inodes|
  {
    v.(inodes := v.inodes[i := v.inodes[i].(size := 0)])
  }

  /** The first k direct addresses are cleared. */
  ghost predicate Emptied(before: Inode, k: nat, after: Inode) {
    && |before.addrs| == |after.addrs| == NDIRECT + 1 && k <= NDIRECT && after.size == before.size
    && (forall n: nat | n < k :: after.addrs[n] == 0)
    && (forall n: nat | k <= n <= NDIRECT :: after.addrs[n] == before.addrs[n])
  }

  ghost predicate DirectOf(o: Owner, i: nat, k: nat) { o.Data? && o.inum == i && o.bn < k }

  /** Owners without the first k direct blocks of file i. */
  ghost function WithoutDirect(owner: map<nat, Owner>, i: nat, k: nat): map<nat, Owner> {
    map c | c in owner && !DirectOf(owner[c], i, k) :: owner[c]
  }

  /** The k-th direct block, if there is one, is the only one owned as such. */
  lemma DirectOwner(l: Layout, v: View, i: nat, k: nat)
    requires Ok(l, v, {}) && i < |v.inodes| && k < NDIRECT && |v.inodes[i].addrs| == NDIRECT + 1
    ensures forall c {:trigger v.owner[c]} | c in v.owner && v.owner[c] == Data(i, k) ::
              c == v.inodes[i].addrs[k] && c != 0
  {
    forall c | c in v.owner && v.owner[c] == Data(i, k)
      ensures c == v.inodes[i].addrs[k] && c != 0
    {
      assert OwnerOk(l, v, c);
    }
  }

  lemma WithoutOne(owner: map<nat, Owner>, i: nat, k: nat, w: map<nat, Owner>, a: nat, x: map<nat, Owner>)
    requires w == WithoutDirect(owner, i, k)
    requires forall c {:trigger w[c]} | c in w && w[c] == Data(i, k) :: c == a && c != 0
    requires if a == 0 then x == w else a in w && w[a] == Data(i, k) && x == w - {a}
    ensures x == WithoutDirect(owner, i, k + 1)
  {
    var y := WithoutDirect(owner, i, k + 1);
    forall c | c in x || c in y
      ensures c in x && c in y && x[c] == y[c]
    {
      assert c in w ==> w[c] == owner[c];
    }
  }

  /** The state with file i's size read as 0 and its indirect block ignored. */
  ghost function CutInd(v: View, i: nat): View
    requires i < |v.inodes| && |v.inodes[i].addrs| == NDIRECT + 1
  {
    v.(inodes := v.inodes[i := Inode(v.inodes[i].addrs[NDIRECT := 0], 0)])
  }

  lemma HeldBlock(l: Layout, v: View, held: set<nat>, b: nat)
    requires Ok(l, v, held) && b in held
    ensures b in v.owner && b < l.size
  {
    assert b in v.owner && OwnerOk(l, v, b);
  }

  lemma BitmapIsMeta(l: Layout, v: View, b: nat)
    requires Shaped(l, v) && b < l.size
    ensures BBlock(l, b) < l.nmeta
  {
  }

  ghost function WithoutHanging(owner: map<nat, Owner>, i: nat): map<nat, Owner> {
    map c | c in owner && !Hangs(owner, i, c) :: owner[c]
  }

  /** Of what hung off the indirect block, that block and the blocks from its word j on. */
  ghost predicate HungFrom(owner: map<nat, Owner>, i: nat, j: nat, c: nat) {
    Hangs(owner, i, c) && (owner[c].Ind? || owner[c].bn >= NDIRECT + j)
  }

  ghost function StillHung(owner: map<nat, Owner>, i: nat, j: nat): set<nat> {
    set c | c in owner && HungFrom(owner, i, j, c)
  }

  /** The owners after the blocks of the words before j have been freed. */
  ghost function Unhung(owner: map<nat, Owner>, i: nat, j: nat): map<nat, Owner> {
    map c | c in owner && (Hangs(owner, i, c) ==> HungFrom(owner, i, j, c)) ::
      if Hangs(owner, i, c) then Held else owner[c]
  }

  lemma HangsAll(owner: map<nat, Owner>, i: nat)
    ensures StillHung(owner, i, 0) == Hanging(owner, i) && Unhung(owner, i, 0) == CutOff(owner, i)
  {
  }

  /** A file without indirect block has nothing hanging off one. */
  lemma NoIndirect(l: Layout, v: View, i: nat)
    requires Ok(l, v, {}) && i < |v.inodes| && |v.inodes[i].addrs| == NDIRECT + 1
    ensures v.inodes[i].addrs[NDIRECT] == 0 ==> WithoutHanging(v.owner, i) == v.owner
  {
    if v.inodes[i].addrs[NDIRECT] == 0 {
      forall c | c in v.owner
        ensures !Hangs(v.owner, i, c)
      {
        assert OwnerOk(l, v, c);
      }
    }
  }

  /** Word j of the indirect block is the one block that hangs there. */
  lemma HungAt(l: Layout, v: View, i: nat, j: nat)
    requires Ok(l, v, {}) && i < |v.inodes| && |v.inodes[i].addrs| == NDIRECT + 1 && v.inodes[i].addrs[NDIRECT] != 0
             && j < NINDIRECT
    ensures var a := v.inodes[i].addrs[NDIRECT];
            && l.nmeta <= a < |v.blocks| && IsBlock(v.blocks[a])
            && var w := Word(v.blocks[a], j);
               && w >= 0 && (w != 0 ==> w in v.owner && v.owner[w] == Data(i, NDIRECT + j) && w >= l.nmeta)
               && (forall c {:trigger v.owner[c]} | c in v.owner && v.owner[c] == Data(i, NDIRECT + j) ::
                    c == w && c != 0)
  {
    var a := v.inodes[i].addrs[NDIRECT];
    BlockTells(l, v, {}, i, NDIRECT + j);
    WordRange(v.blocks[a], j);
    assert SlotOk(v, i, NDIRECT + j);
    forall c | c in v.owner && v.owner[c] == Data(i, NDIRECT + j)
      ensures c == Word(v.blocks[a], j) && c != 0
    {
      assert OwnerOk(l, v, c);
    }
  }

  lemma UnhungOne(owner: map<nat, Owner>, i: nat, j: nat, w: nat, x: map<nat, Owner>, y: map<nat, Owner>)
    requires x == Unhung(owner, i, j) && (if w == 0 then y == x else y == x - {w})
    requires w != 0 ==> w in owner && owner[w] == Data(i, NDIRECT + j)
    requires forall c {:trigger owner[c]} | c in owner && owner[c] == Data(i, NDIRECT + j) :: c == w && c != 0
    ensures y == Unhung(owner, i, j + 1)
    ensures StillHung(owner, i, j + 1) == if w == 0 then StillHung(owner, i, j) else StillHung(owner, i, j) - {w}
  {
    forall c | c in owner
      ensures HungFrom(owner, i, j + 1, c) <==> HungFrom(owner, i, j, c) && (w == 0 || c != w)
    {
      assert owner[c] == Data(i, NDIRECT + j) ==> c == w;
    }
    var z := Unhung(owner, i, j + 1);
    forall c | c in y || c in z
      ensures c in y && c in z && y[c] == z[c]
    {
      assert c in owner;
    }
  }

  lemma HungLast(l: Layout, v: View, i: nat, a: nat)
    requires Ok(l, v, {}) && i < |v.inodes| && |v.inodes[i].addrs| == NDIRECT + 1
             && a == v.inodes[i].addrs[NDIRECT] != 0
    ensures StillHung(v.owner, i, NINDIRECT) == {a} && a in v.owner && v.owner[a] == Ind(i)
  {
    assert IndOk(v, i);
    forall c | c in StillHung(v.owner, i, NINDIRECT)
      ensures c == a
    {
      assert OwnerOk(l, v, c);
    }
    assert HungFrom(v.owner, i, NINDIRECT, a);
  }

  lemma UnhungLast(owner: map<nat, Owner>, i: nat, a: nat, y: map<nat, Owner>)
    requires StillHung(owner, i, NINDIRECT) == {a} && y == Unhung(owner, i, NINDIRECT) - {a}
    ensures y == WithoutHanging(owner, i)
  {
    var z := WithoutHanging(owner, i);
    forall c | c in y || c in z
      ensures c in y && c in z && y[c] == z[c]
    {
      assert c in owner;
      assert HungFrom(owner, i, NINDIRECT, c) <==> c in StillHung(owner, i, NINDIRECT);
    }
  }

  ghost predicate OwnedBy(o: Owner, i: nat) { (o.Data? || o.Ind?) && o.inum == i }

  ghost function WithoutFile(owner: map<nat, Owner>, i: nat): map<nat, Owner> {
    map c | c in owner && !OwnedBy(owner[c], i) :: owner[c]
  }

  lemma BothGone(owner: map<nat, Owner>, i: nat)
    ensures WithoutHanging(WithoutDirect(owner, i, NDIRECT), i) == WithoutFile(owner, i)
  {
    var d := WithoutDirect(owner, i, NDIRECT);
    var x, y := WithoutHanging(d, i), WithoutFile(owner, i);
    forall c | c in x || c in y
      ensures c in x && c in y && x[c] == y[c]
    {
      assert c in owner;
      assert c in d ==> d[c] == owner[c];
    }
  }

  /** The files other than i, through the two halves of itrunc. */
  lemma TruncOthers(l: Layout, v: View, i: nat, w: View, x: View, y: View)
    requires Ok(l, v, {}) && i < |v.inodes| == |w.inodes| == |x.inodes| == |y.inodes|
    requires OtherInodes(v, i, w) && OtherInodes(w, i, x) && OtherInodes(x, i, y) && y.blocks == x.blocks
    requires OtherFiles(Cut(v, i), i, Cut(w, i)) && OtherFiles(Cut(w, i), i, Cut(x, i))
    ensures OthersKept(v, i, y)
  {
    OtherTrans(Cut(v, i), Cut(w, i), i, Cut(x, i));
    forall j: nat | j < |v.inodes| && j != i
      ensures Contents(y, j) == Contents(v, j)
    {
      assert SameFile(Cut(v, i), Cut(x, i), j);
      assert y.inodes[j] == x.inodes[j] == v.inodes[j];
      forall k: nat | k < v.inodes[j].size
        ensures ByteAt(y, j, k) == ByteAt(v, j, k)
      {
        assert MappedOk(v, j, k / BSIZE);
        assert Addr(Cut(v, i), j, k / BSIZE) == Addr(v, j, k / BSIZE);
        assert Addr(Cut(x, i), j, k / BSIZE) == Addr(y, j, k / BSIZE);
      }
    }
  }

  // --------------------------------------------------------------- filewrite

  /** The most that filewrite gives to one operation. */
  const CHUNK := ((MAXOPBLOCKS - 1 - 1 - 2) / 2) * BSIZE

  /** The length of filewrite's next chunk. */
  function Chunk(left: nat): nat { if left > CHUNK then CHUNK else left }

  /** Bytes s are now at start in file i and nothing else has changed; with no bytes, nothing. */
  ghost predicate WrittenPart(v: View, i: nat, start: nat, s: seq<int>, w: View) {
    && i < |v.inodes| == |w.inodes|
    && (s == [] ==> w == v)
    && (s != [] ==>
         start <= v.inodes[i].size && Contents(w, i) == Splice(Contents(v, i), start, s) && OthersKept(v, i, w))
  }

  /** The same of the first k bytes of src. */
  ghost predicate WrittenUpTo(v: View, i: nat, start: nat, src: seq<int>, k: nat, w: View) {
    k <= |src| && WrittenPart(v, i, start, src[..k], w)
  }

  lemma SpliceMore(c: seq<int>, off: nat, s: seq<int>, t: seq<int>)
    requires off <= |c|
    ensures off + |s| <= |Splice(c, off, s)| && Splice(Splice(c, off, s), off + |s|, t) == Splice(c, off, s + t)
  {
  }

  lemma WrittenMore(v: View, i: nat, start: nat, s: seq<int>, w: View, t: seq<int>, x: View)
    requires WrittenPart(v, i, start, s, w) && i < |x.inodes| && t != [] && !Refused(w.inodes[i].size, start + |s|, |t|)
    requires Contents(x, i) == Splice(Contents(w, i), start + |s|, t) && OthersKept(w, i, x)
    ensures WrittenPart(v, i, start, s + t, x)
  {
    if s != [] {
      SpliceMore(Contents(v, i), start, s, t);
      forall j: nat | j < |v.inodes| && j != i
        ensures Contents(x, j) == Contents(v, j)
      {
        assert Contents(w, j) == Contents(v, j);
      }
    } else {
      assert s + t == t;
    }
  }

  /** The offset stays within what 32 bits can hold. */
  lemma SmallOff(l: Layout, v: View, i: nat, start: nat, s: seq<int>, w: View)
    requires WrittenPart(v, i, start, s, w) && Ok(l, w, {}) && start < U32
    ensures start + |s| < U32
  {
    if s != [] {
      SpliceMore(Contents(v, i), start, s, []);
      assert w.inodes[i].size <= MAXFILE * BSIZE;
    }
  }

  /** How many of n bytes the first k operations of filewrite cover. */
  function Upto(k: nat, n: nat): nat { if CHUNK * k < n then CHUNK * k else n }

  /** How many chunks that is. */
  function Parts(done: nat): nat { (done + 3071) / 3072 }

  lemma NextChunk(k: nat, n: nat)
    requires Upto(k, n) < n
    ensures Upto(k + 1, n) == Upto(k, n) + Chunk(n - Upto(k, n)) && 0 < Chunk(n - Upto(k, n)) <= CHUNK
            && Upto(k + 1, n) <= n
    ensures k == Parts(Upto(k, n)) && k + 1 == Parts(Upto(k + 1, n))
  {
  }

  /** The bytes that filewrite has written when the chunks from k on fit into the largest file no more. */
  function Fitting(start: nat, n: nat, k: nat): (r: nat)
    ensures Upto(k, n) <= r <= n
    decreases n - Upto(k, n)
  {
    if Upto(k, n) < n && start + Upto(k + 1, n) <= MAXFILE * BSIZE then Fitting(start, n, k + 1) else Upto(k, n)
  }

  /** How many of n bytes filewrite can write at start: whole chunks, none if that would leave a hole. */
  function Writable(size: nat, start: nat, n: nat): (r: nat)
    ensures r <= n
  {
    if start <= size then Fitting(start, n, 0) else 0
  }

  lemma WritableIs(size: nat, start: nat, n: nat)
    ensures Writable(size, start, n) == if start <= size then Fitting(start, n, 0) else 0
  {
  }

  /** Only whole chunks are written, and the next one would not fit. */
  lemma {:induction false} FittingIs(start: nat, n: nat, k: nat)
    requires start + Upto(k, n) <= 268 * 1024
    ensures start + Fitting(start, n, k) <= 268 * 1024
    ensures var done := Fitting(start, n, k);
            done < n ==>
              done % 3072 == 0 && start + done + (if n - done < 3072 then n - done else 3072) > 268 * 1024
    decreases n - Upto(k, n)
  {
    if Upto(k, n) < n && start + Upto(k + 1, n) <= MAXFILE * BSIZE {
      FittingIs(start, n, k + 1);
    }
  }

  /** What the file is after done bytes, byte by byte, and how many that are. */
  lemma FilewriteEnds(l: Layout, v: View, i: nat, start: nat, src: seq<int>, done: nat, w: View)
    requires Ok(l, v, {}) && i < |v.inodes| && WrittenUpTo(v, i, start, src, done, w)
             && done == Writable(v.inodes[i].size, start, |src|)
    ensures start > v.inodes[i].size ==> done == 0
    ensures start <= v.inodes[i].size ==>
              && start + done <= 268 * 1024
              && (done < |src| ==>
                   && done % 3072 == 0
                   && start + done + (if |src| - done < 3072 then |src| - done else 3072) > 268 * 1024)
    ensures (done == 0 ==> w == v) && Parts(done) == (done + 3071) / 3072
    ensures done > 0 ==>
              && i < |w.inodes|
              && w.inodes[i].size == (if start + done > v.inodes[i].size then start + done else v.inodes[i].size)
              && forall k: nat {:trigger ByteAt(w, i, k)} | k < w.inodes[i].size ::
                   ByteAt(w, i, k) == if start <= k < start + done then src[k - start] else ByteAt(v, i, k)
  {
    BlockTells(l, v, {}, i, 0);
    if start <= v.inodes[i].size {
      FittingIs(start, |src|, 0);
    }
    if done > 0 {
      SpliceIs(v, i, start, src[..done], w);
    }
  }

  /** A chunk is refused exactly when it is not among the writable bytes. */
  lemma ChunkAllowed(l: Layout, v: View, i: nat, start: nat, src: seq<int>, k: nat, w: View)
    requires Ok(l, w, {}) && WrittenUpTo(v, i, start, src, Upto(k, |src|), w) && Upto(k, |src|) < |src|
    requires Writable(v.inodes[i].size, start, |src|) ==
             (if start <= v.inodes[i].size then Fitting(start, |src|, k) else 0)
    ensures var done, all := Upto(k, |src|), Writable(v.inodes[i].size, start, |src|);
            var n1 := Chunk(|src| - done);
            && (Refused(w.inodes[i].size, start + done, n1) ==> all == done)
            && (!Refused(w.inodes[i].size, start + done, n1) ==>
                 && start <= v.inodes[i].size && all == Fitting(start, |src|, k + 1)
                 && done + n1 <= all && End(start + done, n1) <= End(start, all))
  {
    NextChunk(k, |src|);
    var done := Upto(k, |src|);
    if done > 0 {
      SpliceMore(Contents(v, i), start, src[..done], []);
    }
  }

  /** Operation k of filewrite, from views[k] to views[k + 1], logs logs[k]: every block that it
      changes, and no more than the log has reserved for it. After it the file has one chunk more. */
  ghost predicate OpOk(l: Layout, i: nat, start: nat, src: seq<int>, views: seq<View>, logs: seq<set<nat>>, k: nat) {
    && k < |logs| && |views| == |logs| + 1
    && |logs[k]| <= MAXOPBLOCKS && Saved(l, views[k], views[k + 1], logs[k]) && Ok(l, views[k + 1], {})
    && WrittenUpTo(views[0], i, start, src, Upto(k + 1, |src|), views[k + 1])
  }

  ghost predicate Ops(l: Layout, i: nat, start: nat, src: seq<int>, views: seq<View>, logs: seq<set<nat>>) {
    && |views| == |logs| + 1
    && forall k: nat {:trigger OpOk(l, i, start, src, views, logs, k)} | k < |logs| ::
         OpOk(l, i, start, src, views, logs, k)
  }

  lemma NoneWritten(l: Layout, i: nat, start: nat, src: seq<int>, v: View)
    requires i < |v.inodes|
    ensures Ops(l, i, start, src, [v], []) && WrittenUpTo(v, i, start, src, 0, v)
    ensures Upto(0, |src|) == 0 && Parts(0) == 0
  {
  }

  lemma OpIs(l: Layout, i: nat, start: nat, src: seq<int>, views: seq<View>, logs: seq<set<nat>>, x: View, lg: set<nat>)
    requires |views| == |logs| + 1 && |lg| <= MAXOPBLOCKS && Saved(l, views[|logs|], x, lg) && Ok(l, x, {})
    requires WrittenUpTo(views[0], i, start, src, Upto(|logs| + 1, |src|), x)
    ensures OpOk(l, i, start, src, views + [x], logs + [lg], |logs|)
  {
  }

  lemma OpsMore(l: Layout, i: nat, start: nat, src: seq<int>, views: seq<View>, logs: seq<set<nat>>, x: View,
                lg: set<nat>)
    requires Ops(l, i, start, src, views, logs) && OpOk(l, i, start, src, views + [x], logs + [lg], |logs|)
    ensures Ops(l, i, start, src, views + [x], logs + [lg])
  {
    forall k: nat | k < |logs| + 1
      ensures OpOk(l, i, start, src, views + [x], logs + [lg], k)
    {
      if k < |logs| {
        assert OpOk(l, i, start, src, views, logs, k);
      }
    }
  }

  class Fs {
    const layout: Layout
    const block: array<Block>
    const inode: array<Inode>
    ghost var owner: map<nat, Owner>

    ghost function Now(): View
      reads this, block, inode
    {
      View(block[..], inode[..], owner)
    }

    ghost predicate Valid(held: set<nat>)
      reads this, block, inode
    {
      Ok(layout, Now(), held)
    }

    /** No block is free. */
    ghost predicate Full()
      reads this
    {
      forall c: nat | c < layout.size :: c in owner
    }

    /** An empty file system: the bits of the metadata blocks are set, every inode is empty. */
    constructor (layout: Layout, ninodes: nat)
      requires LayoutOk(layout, ninodes)
      ensures Valid({}) && this.layout == layout && inode.Length == ninodes
              && forall i: nat | i < ninodes :: Contents(Now(), i) == []
    {
      this.layout := layout;
      block := new Block[layout.size](_ => Zero());
      inode := new Inode[ninodes](_ => Inode(seq(NDIRECT + 1, _ => 0), 0));
      owner := Metas(layout.nmeta);
      new;
      ghost var inodes, owner0 := inode[..], owner;
      ZeroWord(0);
      ZeroBits();
      for b := 0 to layout.nmeta
        invariant inode[..] == inodes && owner == owner0
        invariant AllBlocks(block[..])
        invariant forall c: nat {:trigger BitAt(layout, block[..], c)} | c < layout.size ::
                    BitAt(layout, block[..], c) <==> c < b
      {
        ghost var blocks := block[..];
        assert BBlock(layout, b) < layout.nmeta;
        block[BBlock(layout, b)] := WithBit(block[BBlock(layout, b)], b % BPB, true);
        BitSetOnly(layout, blocks, b, block[..], b);
        forall c: nat | c < layout.size
          ensures BitAt(layout, block[..], c) <==> c == b || BitAt(layout, blocks, c)
        {
          assert BBlock(layout, c) < layout.nmeta;
          BitSetOnly(layout, blocks, b, block[..], c);
        }
      }
      EmptyOk(layout, Now());
    }

    // ------------------------------------------------------- balloc and bfree

    /** The inner loop of balloc: the first clear bit of the bitmap block of b. */
    method ScanBitmap(b: nat) returns (bi: nat)
      requires b % BPB == 0 && b < layout.size && BBlock(layout, b) < block.Length
               && |block[BBlock(layout, b)]| == BSIZE
      ensures bi <= BPB && b + bi <= layout.size
              && (bi == BPB || b + bi == layout.size || !BitAt(layout, block[..], b + bi))
      ensures forall c: nat {:trigger BitAt(layout, block[..], c)} | b <= c < b + bi :: BitAt(layout, block[..], c)
    {
      bi := 0;
      while bi < BPB && b + bi < layout.size
        invariant bi <= BPB && b + bi <= layout.size
        invariant forall c: nat {:trigger BitAt(layout, block[..], c)} | b <= c < b + bi :: BitAt(layout, block[..], c)
      {
        assert BBlock(layout, b + bi) == BBlock(layout, b) && (b + bi) % BPB == bi;
        if !BitOf(block[BBlock(layout, b)][bi / 8], bi % 8) {
          assert !BitAt(layout, block[..], b + bi);
          return;
        }
        assert BitAt(layout, block[..], b + bi);
        bi := bi + 1;
      }
    }

    /** Mark, log, zero, log. */
    method TakeBlock(b: nat, ghost held: set<nat>) returns (ghost lg: set<nat>)
      requires Valid(held) && b < layout.size && b !in owner
      modifies this, block
      ensures Valid(held + {b}) && b !in held && layout.nmeta <= b && owner == old(owner)[b := Held]
              && block[..][b] == Zero()
      ensures AllSame(old(Now()), Now()) && SameAddrs(old(Now()), Now())
      ensures lg == {BBlock(layout, b), b} && Journaled(old(Now()), Now(), lg)
    {
      ghost var v := Now();
      InBitmap(layout, v, b);
      block[BBlock(layout, b)] := WithBit(block[BBlock(layout, b)], b % BPB, true);
      lg := {BBlock(layout, b)};
      block[b] := Zero();
      lg := lg + {b};
      owner := owner[b := Held];
      AllocKeeps(layout, v, held, b, Now());
    }

    /** balloc: the lowest free block, marked and zeroed; a panic exactly when there is none. */
    method Balloc(ghost held: set<nat>) returns (r: Option<nat>, ghost lg: set<nat>)
      requires Valid(held)
      modifies this, block
      ensures r.None? ==> Now() == old(Now()) && Full() && Avail(layout, Now()) <= 0 && lg == {}
      ensures r.Some? ==>
                var b := r.value;
                && Valid(held + {b}) && b !in held && layout.nmeta <= b < layout.size && b !in old(owner)
                && (forall c: nat | c < b :: c in old(owner))
                && owner == old(owner)[b := Held] && block[..][b] == Zero()
                && AllSame(old(Now()), Now()) && SameAddrs(old(Now()), Now())
                && lg == {BBlock(layout, b), b} && Journaled(old(Now()), Now(), lg)
    {
      ghost var v := Now();
      var b := 0;
      while b < layout.size
        invariant Now() == v && b % BPB == 0
        invariant forall c: nat | c < b && c < layout.size :: c in owner
        decreases layout.size - b
      {
        InBitmap(layout, v, b);
        var bi := ScanBitmap(b);
        forall c: nat | b <= c < b + bi
          ensures c in owner
        {
          assert BitAt(layout, block[..], c);
          BitTells(layout, v, c);
        }
        if bi < BPB && b + bi < layout.size {
          BitTells(layout, v, b + bi);
          lg := TakeBlock(b + bi, held);
          return Some(b + bi), lg;
        }
        b := b + BPB;
      }
      NoneAvail(layout, v);
      return None, {};
    }

    /** bfree: it panics exactly on a free block, and otherwise frees that block and no other. */
    method Bfree(b: nat) returns (panicked: bool, ghost lg: set<nat>)
      requires DiskOk(layout, block[..]) && b < layout.size
      modifies block
      ensures panicked <==> !BitAt(layout, old(block[..]), b)
      ensures panicked ==> Now() == old(Now()) && lg == {}
      ensures !panicked ==>
                && OneBit(layout, old(block[..]), b, false, block[..]) && lg == {BBlock(layout, b)}
                && Journaled(old(Now()), Now(), lg)
                && block[..] == old(block[..])[BBlock(layout, b) := block[..][BBlock(layout, b)]]
    {
      ghost var v := Now();
      var bp, bi := BBlock(layout, b), b % BPB;
      assert bp < layout.nmeta && IsBlock(v.blocks[bp]);
      panicked, lg := !BitOf(block[bp][bi / 8], bi % 8), {};
      if !panicked {
        block[bp] := WithBit(block[bp], bi, false);
        lg := {bp};
        OneBitChanges(layout, v.blocks, b, false, block[..]);
      }
    }

    // ------------------------------------------------------------------- bmap

    method BmapDirect(i: nat, bn: nat, ghost hi: nat) returns (r: Option<nat>, ghost lg: set<nat>)
      requires Valid({}) && i < inode.Length && bn < NDIRECT && bn < hi
      modifies this, block, inode
      ensures r.Some? ==> Mapping(layout, old(Now()), i, bn, r.value, Now(), lg)
      ensures r.Some? ==> Balance(layout, Now(), i, bn + 1, hi) == Balance(layout, old(Now()), i, bn, hi)
      ensures r.None? ==> Full() && Balance(layout, old(Now()), i, bn, hi) < 0
    {
      ghost var v := Now();
      BlockTells(layout, v, {}, i, bn);
      AllSameRefl(layout, v);
      var addr := inode[i].addrs[bn];
      lg := {};
      if addr == 0 {
        r, lg := Balloc({});
        if r.None? {
          Overdrawn(layout, v, i, bn, hi);
          return;
        }
        addr := r.value;
        ghost var w := Now();
        inode[i] := inode[i].(addrs := inode[i].addrs[bn := addr]);
        owner := owner[addr := Data(i, bn)];
        AttachDirect(layout, w, {addr}, i, bn, addr, Now());
        assert {} + {addr} == {addr} && {addr} - {addr} == {};
        SameTrans(v, w, Now());
        BalanceDirect(layout, v, i, bn, hi, w, Now());
      } else {
        BalanceThere(layout, v, i, bn, hi);
      }
      r := Some(addr);
    }

    /** The indirect block of file i, allocated if there is none. */
    method EnsureIndirect(i: nat) returns (r: Option<nat>, ghost lg: set<nat>)
      requires Valid({}) && i < inode.Length
      modifies this, block, inode
      ensures r.Some? ==> HasIndirect(layout, old(Now()), i, r.value, Now(), lg)
      ensures r.None? ==> Full() && Avail(layout, old(Now())) <= 0
      ensures IndOf(old(Now()), i) != 0 ==> r.Some?
    {
      ghost var v := Now();
      BlockTells(layout, v, {}, i, 0);
      AllSameRefl(layout, v);
      hide Ok;
      var addr := inode[i].addrs[NDIRECT];
      lg := {};
      if addr == 0 {
        r, lg := Balloc({});
        if r.None? {
          return;
        }
        addr := r.value;
        ghost var w := Now();
        inode[i] := inode[i].(addrs := inode[i].addrs[NDIRECT := addr]);
        owner := owner[addr := Ind(i)];
        AttachIndirect(layout, w, {addr}, i, addr, Now());
        assert {} + {addr} == {addr} && {addr} - {addr} == {};
        SameTrans(v, w, Now());
      }
      r := Some(addr);
    }

    /** Word j of the indirect block at addr gets a new block. */
    method FillWord(i: nat, j: nat, addr: nat) returns (r: Option<nat>, ghost lg: set<nat>)
      requires Valid({}) && i < inode.Length && j < NINDIRECT && addr == IndOf(Now(), i) != 0
               && Addr(Now(), i, NDIRECT + j) == 0
      modifies this, block
      ensures r.None? ==> Full() && Avail(layout, old(Now())) <= 0
      ensures r.Some? ==> Filled(layout, old(Now()), i, NDIRECT + j, r.value, Now(), lg)
    {
      hide Balance;
      ghost var v := Now();
      r, lg := Balloc({});
      if r.Some? {
        ghost var w := Now();
        BlockTells(layout, w, {r.value}, i, NDIRECT + j);
        block[addr] := PutWord(block[addr], j, r.value);
        lg := lg + {addr};
        owner := owner[r.value := Data(i, NDIRECT + j)];
        assert {} + {r.value} == {r.value} && {r.value} - {r.value} == {};
        NotIndirect(layout, w, {r.value}, i, r.value);
        AttachWord(layout, w, {r.value}, i, j, r.value, addr, Now());
        SameTrans(v, w, Now());
      }
    }

    method BmapIndirect(i: nat, bn: nat, ghost hi: nat) returns (r: Option<nat>, ghost lg: set<nat>)
      requires Valid({}) && i < inode.Length && NDIRECT <= bn < MAXFILE && bn < hi
      modifies this, block, inode
      ensures r.Some? ==> Mapping(layout, old(Now()), i, bn, r.value, Now(), lg)
      ensures r.Some? ==> Balance(layout, Now(), i, bn + 1, hi) == Balance(layout, old(Now()), i, bn, hi)
      ensures r.None? ==> Full() && Balance(layout, old(Now()), i, bn, hi) < 0
    {
      ghost var v := Now();
      var e;
      e, lg := EnsureIndirect(i);
      if e.None? {
        NoIndirectBlock(v, i, bn);
        Overdrawn(layout, v, i, bn, hi);
        return None, lg;
      }
      r, lg := BmapWord(i, bn, hi, e.value, v, lg);
    }

    /** The word of block bn in the indirect block e; lg0 is what making e has logged. */
    method BmapWord(i: nat, bn: nat, ghost hi: nat, e: nat, ghost v: View, ghost lg0: set<nat>)
      returns (r: Option<nat>, ghost lg: set<nat>)
      requires i < inode.Length == |v.inodes| && NDIRECT <= bn < MAXFILE && bn < hi && Ok(layout, v, {})
               && HasIndirect(layout, v, i, e, Now(), lg0)
      modifies this, block
      ensures r.Some? ==> Mapping(layout, v, i, bn, r.value, Now(), lg)
      ensures r.Some? ==> Balance(layout, Now(), i, bn + 1, hi) == Balance(layout, v, i, bn, hi)
      ensures r.None? ==> Full() && Balance(layout, v, i, bn, hi) < 0
    {
      ghost var w := Now();
      BlockTells(layout, w, {}, i, bn);
      WordRange(block[e], bn - NDIRECT);
      var addr := Word(block[e], bn - NDIRECT);
      lg := lg0;
      if addr != 0 {
        WordThere(layout, v, i, bn, e, w, lg0);
        SameMaps(layout, v, i, bn);
        BalanceThere(layout, v, i, bn, hi);
        return Some(addr), lg;
      }
      ghost var more;
      r, more := FillWord(i, bn - NDIRECT, e);
      if r.Some? {
        FilledMaps(layout, v, i, bn, e, w, r.value, Now(), lg0, more);
        BalanceFilled(layout, v, i, bn, hi, e, w, r.value, Now(), lg0, more);
        lg := lg0 + more;
      } else {
        WordMissing(layout, v, i, bn, e, w, lg0);
        Overdrawn(layout, v, i, bn, hi);
      }
    }

    /** bmap, in the course of providing blocks bn to hi. */
    method BmapFor(i: nat, bn: nat, ghost hi: nat) returns (r: Option<nat>, ghost lg: set<nat>)
      requires Valid({}) && i < inode.Length && bn < MAXFILE && bn < hi
      modifies this, block, inode
      ensures r.Some? ==> Mapping(layout, old(Now()), i, bn, r.value, Now(), lg)
      ensures r.Some? ==> Balance(layout, Now(), i, bn + 1, hi) == Balance(layout, old(Now()), i, bn, hi)
      ensures r.None? ==> Full() && Balance(layout, old(Now()), i, bn, hi) < 0
    {
      if bn < NDIRECT {
        r, lg := BmapDirect(i, bn, hi);
      } else {
        r, lg := BmapIndirect(i, bn, hi);
      }
    }

    /** bmap: block bn of file i, allocated if it was not there; nothing else moves. lg is what it
        gives to log_write. It panics exactly when too few blocks are free (and beyond the largest
        file), and else takes exactly those that it needs. */
    method Bmap(i: nat, bn: nat) returns (r: Option<nat>, ghost lg: set<nat>)
      requires Valid({}) && i < inode.Length && bn < MAXFILE
      modifies this, block, inode
      ensures r.Some? ==> Mapping(layout, old(Now()), i, bn, r.value, Now(), lg)
      ensures r.Some? ==> Avail(layout, Now()) == Avail(layout, old(Now())) - Cost(old(Now()), i, bn)
      ensures r.None? <==> Avail(layout, old(Now())) < Cost(old(Now()), i, bn)
      ensures r.None? ==> Full()
    {
      ghost var v := Now();
      r, lg := BmapFor(i, bn, bn + 1);
      CostBalance(layout, v, i, bn);
      if r.Some? {
        NotOverdrawn(layout, Now());
      }
    }

    // ------------------------------------------------------------------- readi

    /** One turn of readi's loop: as much of the rest as its first block holds. */
    method CopyOut(i: nat, off: nat, left: nat) returns (chunk: seq<int>)
      requires Valid({}) && i < inode.Length && left > 0 && off + left <= inode[i].size
      modifies this, block, inode
      ensures Now() == old(Now()) && 0 < |chunk| <= left && chunk == Contents(Now(), i)[off..off + |chunk|]
    {
      ghost var v := Now();
      ReadBlock(layout, v, i, off);
      NotOverdrawn(layout, v);
      var r, _ := Bmap(i, off / BSIZE);
      BlockTells(layout, v, {}, i, off / BSIZE);
      var m := if left < BSIZE - off % BSIZE then left else BSIZE - off % BSIZE;
      ChunkRead(v, i, off, m);
      chunk := block[r.value][off % BSIZE..off % BSIZE + m];
    }

    /** readi, when the copies succeed: the slice of the file's bytes, cut at its size; it
        changes nothing. */
    method Readi(i: nat, start: nat, count: nat) returns (data: seq<int>)
      requires Valid({}) && i < inode.Length && start < U32 && count < U32
      modifies this, block, inode
      ensures Now() == old(Now())
      ensures start > inode[i].size || start + count >= U32 ==> data == []
      ensures start <= inode[i].size && start + count < U32 ==>
                && |data| == (if count <= inode[i].size - start then count else inode[i].size - start)
                && forall k: nat | k < |data| :: data[k] == ByteAt(Now(), i, start + k)
    {
      ghost var v := Now();
      BlockTells(layout, v, {}, i, 0);
      var off, n := start, count;
      data := [];
      if off > inode[i].size || (off + n) % U32 < off {
        return;
      }
      if off + n > inode[i].size {
        n := inode[i].size - off;
      }
      var tot := 0;
      while tot < n
        invariant Now() == v && tot <= n && off == start + tot && start + n <= v.inodes[i].size
                  && data == Contents(v, i)[start..start + tot]
      {
        var chunk := CopyOut(i, off, n - tot);
        data := data + chunk;
        tot, off := tot + |chunk|, off + |chunk|;
      }
    }

    // ------------------------------------------------------------------ writei

    /** One turn of writei's loop; it fails only when no block is free. */
    method CopyIn(i: nat, off: nat, src: seq<int>, tot: nat, ghost hi: nat)
      returns (m: nat, ok: bool, ghost a: nat, ghost lg: set<nat>)
      requires Valid({}) && i < inode.Length && tot < |src| && off + |src| - tot <= MAXFILE * BSIZE && IsBytes(src)
      requires off / BSIZE < hi
      modifies this, block, inode
      ensures !ok ==> Full() && Balance(layout, old(Now()), i, off / BSIZE, hi) < 0
      ensures ok ==> Balance(layout, Now(), i, off / BSIZE + 1, hi) == Balance(layout, old(Now()), i, off / BSIZE, hi)
      ensures ok ==>
                && Valid({}) && m == Room(off, |src| - tot)
                && Turn(layout, old(Now()), i, off, src[tot..tot + m], a, Now(), lg)
    {
      hide Mapping, Turn, Ok, Balance;
      ghost var v := Now();
      var r;
      r, lg := BmapFor(i, off / BSIZE, hi);
      if r.None? {
        m, ok, a := 0, false, 0;
        return;
      }
      m := if |src| - tot < BSIZE - off % BSIZE then |src| - tot else BSIZE - off % BSIZE;
      lg := Store(i, r.value, off, src[tot..tot + m], v, lg, hi);
      a, ok := r.value, true;
    }

    method CopyBlock(a: nat, o: nat, s: seq<int>)
      requires a < block.Length && o + |s| <= |block[a]|
      modifies block
      ensures Now() == Copied(old(Now()), a, o, s)
    {
      block[a] := block[a][..o] + s + block[a][o + |s|..];
    }

    /** The copy into one block, and its log_write; lg0 is what bmap has logged since v. */
    method Store(i: nat, a: nat, off: nat, s: seq<int>, ghost v: View, ghost lg0: set<nat>, ghost hi: nat)
      returns (ghost lg: set<nat>)
      requires i < inode.Length == |v.inodes| && s != [] && IsBytes(s) && off % BSIZE + |s| <= BSIZE
      requires Mapping(layout, v, i, off / BSIZE, a, Now(), lg0)
      modifies block
      ensures Valid({}) && Turn(layout, v, i, off, s, a, Now(), lg)
      ensures Balance(layout, Now(), i, off / BSIZE + 1, hi) == Balance(layout, old(Now()), i, off / BSIZE + 1, hi)
    {
      hide Ok, Turn, Balance, Copied;
      ghost var w := Now();
      BlockTells(layout, w, {}, i, off / BSIZE);
      TurnDone(layout, v, i, off, s, a, w, lg0);
      CopyBalance(layout, w, i, off / BSIZE, hi, off % BSIZE, s);
      CopyBlock(a, off % BSIZE, s);
      lg := lg0 + {a};
    }

    /** A turn of writei's loop after tot bytes. */
    method WriteOne(i: nat, off: nat, src: seq<int>, tot: nat, ghost start: nat, ghost v: View, ghost data: set<nat>,
                    ghost maps: set<nat>, ghost lg: set<nat>, ghost hi: nat)
      returns (m: nat, ok: bool, ghost data': set<nat>, ghost maps': set<nat>, ghost lg': set<nat>)
      requires Valid({}) && i < inode.Length && tot < |src| && off == start + tot && start + |src| <= MAXFILE * BSIZE
               && IsBytes(src)
      requires Ok(layout, v, {}) && i < |v.inodes| && start <= v.inodes[i].size && (tot == 0 ==> Now() == v)
               && (tot == 0 || off % BSIZE == 0)
      requires ProgressTo(layout, v, i, start, src, tot, Now(), data, maps, lg) && Journaled(v, Now(), lg)
      requires off / BSIZE < hi
      modifies this, block, inode
      ensures !ok ==> Full() && Balance(layout, old(Now()), i, off / BSIZE, hi) < 0
      ensures ok ==> Balance(layout, Now(), i, off / BSIZE + 1, hi) == Balance(layout, old(Now()), i, off / BSIZE, hi)
      ensures ok ==> Valid({}) && m == Room(off, |src| - tot)
      ensures ok ==>
                ProgressTo(layout, v, i, start, src, tot + m, Now(), data', maps', lg') && Journaled(v, Now(), lg')
    {
      hide Progress, Ok, Balance, Journaled;
      ghost var w := Now();
      ghost var a, more;
      RoomEnds(off, |src| - tot);
      m, ok, a, more := CopyIn(i, off, src, tot, hi);
      data', maps' := data + {a}, if Addr(w, i, off / BSIZE) != 0 then maps else maps + {BBlock(layout, a)};
      lg' := lg + more;
      if ok {
        ghost var s, t := src[..tot], src[tot..tot + m];
        WriteTurn(layout, v, i, start, s, off, w, t, Now(), data, maps, lg, a, more);
        JournaledTrans(v, w, Now(), lg, more);
        assert s + t == src[..tot + m];
      }
    }

    /** writei's loop. Of the blocks lg given to log_write, `data` and `maps` are data and bitmap
        blocks. */
    method WriteLoop(i: nat, start: nat, src: seq<int>, ghost hi: nat)
      returns (ok: bool, ghost data: set<nat>, ghost maps: set<nat>, ghost lg: set<nat>)
      requires Valid({}) && i < inode.Length && start <= inode[i].size && start + |src| <= MAXFILE * BSIZE
               && IsBytes(src) && End(start, |src|) <= hi
      modifies this, block, inode
      ensures !ok ==> Full() && Balance(layout, old(Now()), i, start / BSIZE, hi) < 0
      ensures ok ==>
                Balance(layout, Now(), i, End(start, |src|), hi) == Balance(layout, old(Now()), i, start / BSIZE, hi)
      ensures ok ==>
                && Valid({}) && ProgressTo(layout, old(Now()), i, start, src, |src|, Now(), data, maps, lg)
                && Journaled(old(Now()), Now(), lg)
    {
      hide Progress, Balance, Ok, Journaled;
      ghost var v := Now();
      NoProgress(layout, v, i, start, src);
      data, maps, lg := {}, {}, {};
      ghost var bn: nat := start / BSIZE;
      ghost var rest := Balance(layout, v, i, bn, hi);
      var tot, off := 0, start;
      while tot < |src|
        invariant At(start, |src|, tot, bn) && off == start + tot && (tot == 0 ==> Now() == v)
        invariant Balance(layout, Now(), i, bn, hi) == rest
        invariant Valid({}) && ProgressTo(layout, v, i, start, src, tot, Now(), data, maps, lg)
                  && Journaled(v, Now(), lg)
      {
        AtNext(start, |src|, tot, bn);
        var m, done, data', maps', lg' := WriteOne(i, off, src, tot, start, v, data, maps, lg, hi);
        if !done {
          return false, data, maps, lg;
        }
        data, maps, lg, bn := data', maps', lg', bn + 1;
        tot, off := tot + m, off + m;
      }
      ok := true;
    }

    /** writei, in the course of providing the blocks up to hi. */
    method WriteiFor(i: nat, start: nat, src: seq<int>, ghost hi: nat)
      returns (r: int, panicked: bool, ghost lg: set<nat>)
      requires Valid({}) && i < inode.Length && start < U32 && |src| < U32 && IsBytes(src)
      requires !Refused(inode[i].size, start, |src|) ==> End(start, |src|) <= hi
      modifies this, block, inode
      ensures panicked ==> !Refused(old(inode[i].size), start, |src|)
      ensures panicked ==> Full() && BalanceFrom(layout, old(Now()), i, start, hi) < 0
      ensures !panicked && Refused(old(inode[i].size), start, |src|) ==> r == -1 && Now() == old(Now()) && lg == {}
      ensures !panicked && !Refused(old(inode[i].size), start, |src|) ==>
                && r == |src| && Valid({}) && Contents(Now(), i) == Splice(old(Contents(Now(), i)), start, src)
                && OthersKept(old(Now()), i, Now()) && start + |src| <= inode[i].size
                && Saved(layout, old(Now()), Now(), lg) && |lg| <= Budget(start, |src|)
      ensures !panicked && !Refused(old(inode[i].size), start, |src|) ==>
                BalanceFrom(layout, Now(), i, start + |src|, hi) == BalanceFrom(layout, old(Now()), i, start, hi)
    {
      hide Balance, OtherFiles, IndLogs;
      ghost var v := Now();
      BlockTells(layout, v, {}, i, 0);
      r, panicked, lg := -1, false, {};
      if start > inode[i].size || (start + |src|) % U32 < start || start + |src| > MAXFILE * BSIZE {
        return;
      }
      var ok, data, maps, written := WriteLoop(i, start, src, hi);
      if !ok {
        panicked := true;
        return;
      }
      ghost var w := Now();
      assert src[..|src|] == src;
      CountAll(layout, v, i, w, data, maps, written, IBlock(layout, i));
      lg := Extend(i, start + |src|, v, start, src);
      lg := written + lg;
      ResizeBalance(layout, w, i, End(start, |src|), hi, Now());
      BalanceBack(layout, Now(), i, start, |src|, hi);
      r := |src|;
    }

    /** writei, when the copies succeed. It refuses to leave a hole, to wrap and to exceed the
        largest file; otherwise exactly [start, start + n) of this file is replaced or appended.
        It gives the blocks lg to log_write: every block that it changes, and at most Budget. It
        panics exactly when fewer blocks are free than it needs, and else takes exactly those. */
    method Writei(i: nat, start: nat, src: seq<int>) returns (r: int, panicked: bool, ghost lg: set<nat>)
      requires Valid({}) && i < inode.Length && start < U32 && |src| < U32 && IsBytes(src)
      modifies this, block, inode
      ensures panicked <==>
                && !Refused(old(inode[i].size), start, |src|)
                && Avail(layout, old(Now())) < NeededFor(old(Now()), i, start, |src|)
      ensures panicked ==> Full()
      ensures !panicked && Refused(old(inode[i].size), start, |src|) ==> r == -1 && Now() == old(Now()) && lg == {}
      ensures !panicked && !Refused(old(inode[i].size), start, |src|) ==>
                && r == |src| && Valid({}) && Contents(Now(), i) == Splice(old(Contents(Now(), i)), start, src)
                && OthersKept(old(Now()), i, Now())
                && Saved(layout, old(Now()), Now(), lg) && |lg| <= Budget(start, |src|)
                && Avail(layout, Now()) == Avail(layout, old(Now())) - NeededFor(old(Now()), i, start, |src|)
      ensures !panicked ==>
                && (r == -1 || r == |src|)
                && (r == -1 <==> start > old(inode[i].size) || start + |src| >= U32 || start + |src| > 268 * 1024)
      ensures !panicked && r != -1 ==>
                && inode[i].size == (if start + |src| > old(inode[i].size) then start + |src| else old(inode[i].size))
                && forall k: nat {:trigger ByteAt(Now(), i, k)} | k < inode[i].size ::
                     ByteAt(Now(), i, k) == if start <= k < start + |src| then src[k - start]
                         else old(ByteAt(Now(), i, k))
    {
      hide Ok, BalanceFrom, Saved, OthersKept, Needed, End, Splice, Contents, ByteAt;
      BalanceFirst(layout, Now(), i, start, |src|);
      ghost var v := Now();
      ghost var size := inode[i].size;
      r, panicked, lg := WriteiFor(i, start, src, End(start, |src|));
      if !panicked && !Refused(size, start, |src|) {
        BalanceLast(layout, Now(), i, start, |src|);
        SpliceIs(v, i, start, src, Now());
      }
    }

    /** A write, and a read of the range just written. */
    method WriteThenRead(i: nat, start: nat, src: seq<int>) returns (r: int, panicked: bool, data: seq<int>)
      requires Valid({}) && i < inode.Length && start < U32 && |src| < U32 && IsBytes(src)
      modifies this, block, inode
      ensures !panicked && r != -1 ==> r == |src| && data == src
    {
      hide Ok, ByteAt, Contents, Splice, Saved, OthersKept;
      data := [];
      ghost var lg;
      r, panicked, lg := Writei(i, start, src);
      if !panicked && r != -1 {
        data := Readi(i, start, |src|);
      }
    }

    /** The end of writei: the new size, and iupdate. */
    method Extend(i: nat, off: nat, ghost v: View, ghost start: nat, ghost src: seq<int>) returns (ghost lg: set<nat>)
      requires Valid({}) && i < inode.Length && off == start + |src| <= MAXFILE * BSIZE
      requires Ok(layout, v, {}) && i < |v.inodes| && start <= v.inodes[i].size
      requires Stored(v, i, start, src, Now()) && OtherInodes(v, i, Now()) && OtherFiles(v, i, Now())
      modifies inode
      ensures Valid({}) && Contents(Now(), i) == Splice(Contents(v, i), start, src) && OthersKept(v, i, Now())
      ensures off <= inode[i].size && Resized(old(Now()), i, Now())
      ensures lg == {IBlock(layout, i)}
    {
      ghost var w := Now();
      if off > inode[i].size {
        inode[i] := inode[i].(size := off);
      }
      lg := {IBlock(layout, i)};
      ghost var x := Now();
      forall n: nat | n * BSIZE < x.inodes[i].size
        ensures Addr(w, i, n) != 0
      {
        StoredMapped(layout, v, i, start, src, w, n);
      }
      BlockTells(layout, v, {}, i, 0);
      ResizeKeeps(layout, w, {}, i, x.inodes[i].size, x);
      StoredContents(layout, v, i, start, src, w, x);
      Others(layout, v, i, w, x);
    }

    // ------------------------------------------------------------------ itrunc

    /** bfree and the clearing of one direct address. */
    method FreeDirect(i: nat, k: nat) returns (ghost lg: set<nat>)
      requires i < inode.Length && k < NDIRECT && Ok(layout, Cut(Now(), i), {}) && |inode[i].addrs| == NDIRECT + 1
               && inode[i].addrs[k] != 0
      modifies this, block, inode
      ensures Ok(layout, Cut(Now(), i), {}) && inode[i] == old(inode[i]).(addrs := old(inode[i].addrs)[k := 0])
      ensures owner == old(owner) - {old(inode[i].addrs)[k]} && old(inode[i].addrs)[k] in old(owner)
      ensures old(owner)[old(inode[i].addrs)[k]] == Data(i, k)
      ensures OtherInodes(old(Now()), i, Now()) && OtherFiles(Cut(old(Now()), i), i, Cut(Now(), i))
              && Journaled(old(Now()), Now(), lg)
    {
      ghost var c := Cut(Now(), i);
      var addr := inode[i].addrs[k];
      ghost var d := c.(inodes := c.inodes[i := c.inodes[i].(addrs := c.inodes[i].addrs[k := 0])],
          owner := c.owner[addr := Held]);
      DetachDirect(layout, c, {}, i, k, addr, d);
      InBitmap(layout, c, addr);
      BitTells(layout, c, addr);
      var panicked;
      panicked, lg := Bfree(addr);
      inode[i] := inode[i].(addrs := inode[i].addrs[k := 0]);
      owner := owner - {addr};
      assert {} + {addr} == {addr} && {addr} - {addr} == {};
      FreeKeeps(layout, d, {addr}, addr, Cut(Now(), i));
      OtherTrans(c, d, i, Cut(Now(), i));
    }

    method TruncDirect(i: nat) returns (ghost lg: set<nat>)
      requires i < inode.Length && Ok(layout, Cut(Now(), i), {})
      modifies this, block, inode
      ensures Ok(layout, Cut(Now(), i), {}) && Emptied(old(inode[..])[i], NDIRECT, inode[..][i])
      ensures owner == WithoutDirect(old(owner), i, NDIRECT)
      ensures OtherInodes(old(Now()), i, Now()) && OtherFiles(Cut(old(Now()), i), i, Cut(Now(), i))
              && Journaled(old(Now()), Now(), lg)
    {
      ghost var v := Now();
      BlockTells(layout, Cut(v, i), {}, i, 0);
      AllSameRefl(layout, Cut(v, i));
      lg := {};
      for k := 0 to NDIRECT
        invariant Ok(layout, Cut(Now(), i), {}) && Emptied(v.inodes[i], k, inode[i])
                  && owner == WithoutDirect(v.owner, i, k)
        invariant OtherInodes(v, i, Now()) && OtherFiles(Cut(v, i), i, Cut(Now(), i)) && Journaled(v, Now(), lg)
      {
        ghost var w := Now();
        DirectOwner(layout, Cut(w, i), i, k);
        if inode[i].addrs[k] != 0 {
          ghost var more := FreeDirect(i, k);
          OtherTrans(Cut(v, i), Cut(w, i), i, Cut(Now(), i));
          JournaledTrans(v, w, Now(), lg, more);
          lg := lg + more;
        }
        WithoutOne(v.owner, i, k, w.owner, w.inodes[i].addrs[k], owner);
      }
    }

    /** bfree of one block that hung off the indirect block. */
    method FreeHeld(i: nat, b: nat, ghost held: set<nat>) returns (ghost lg: set<nat>)
      requires i < inode.Length && |inode[i].addrs| == NDIRECT + 1 && Ok(layout, CutInd(Now(), i), held) && b in held
               && b >= layout.nmeta
      modifies this, block
      ensures Ok(layout, CutInd(Now(), i), held - {b}) && owner == old(owner) - {b}
      ensures OtherFiles(CutInd(old(Now()), i), i, CutInd(Now(), i)) && Journaled(old(Now()), Now(), lg)
      ensures forall c: nat {:trigger block[..][c]} | layout.nmeta <= c < block.Length ::
                block[..][c] == old(block[..])[c]
    {
      ghost var d := CutInd(Now(), i);
      HeldBlock(layout, d, held, b);
      InBitmap(layout, d, b);
      BitTells(layout, d, b);
      BitmapIsMeta(layout, d, b);
      var panicked;
      panicked, lg := Bfree(b);
      owner := owner - {b};
      FreeKeeps(layout, d, held, b, CutInd(Now(), i));
    }

    /** The loop of itrunc over the words of the indirect block. */
    method FreeHanging(i: nat, a: nat, ghost v: View) returns (ghost lg: set<nat>)
      requires i < inode.Length && |inode[i].addrs| == NDIRECT + 1 && i < |v.inodes| && Ok(layout, v, {})
               && |v.inodes[i].addrs| == NDIRECT + 1
      requires a == v.inodes[i].addrs[NDIRECT] != 0 && a < block.Length && |v.blocks| == block.Length
               && |v.inodes| == inode.Length && block[a] == v.blocks[a]
      requires Ok(layout, CutInd(Now(), i), StillHung(v.owner, i, 0)) && owner == Unhung(v.owner, i, 0)
               && OtherFiles(v, i, CutInd(Now(), i))
      modifies this, block
      ensures Ok(layout, CutInd(Now(), i), StillHung(v.owner, i, NINDIRECT)) && owner == Unhung(v.owner, i, NINDIRECT)
      ensures OtherFiles(v, i, CutInd(Now(), i)) && Journaled(old(Now()), Now(), lg)
    {
      ghost var u := Now();
      HungAt(layout, v, i, 0);
      var words := block[a];
      lg := {};
      for j := 0 to NINDIRECT
        invariant Ok(layout, CutInd(Now(), i), StillHung(v.owner, i, j))
        invariant owner == Unhung(v.owner, i, j) && OtherFiles(v, i, CutInd(Now(), i)) && Journaled(u, Now(), lg)
      {
        HungAt(layout, v, i, j);
        ghost var w := Now();
        if Word(words, j) != 0 {
          assert HungFrom(v.owner, i, j, Word(words, j));
          ghost var more := FreeHeld(i, Word(words, j), StillHung(v.owner, i, j));
          OtherTrans(v, CutInd(w, i), i, CutInd(Now(), i));
          JournaledTrans(u, w, Now(), lg, more);
          lg := lg + more;
        }
        UnhungOne(v.owner, i, j, Word(words, j), w.owner, owner);
      }
    }

    /** The indirect block and every block that it names. */
    method TruncIndirect(i: nat) returns (ghost lg: set<nat>)
      requires i < inode.Length && Ok(layout, Cut(Now(), i), {})
      modifies this, block, inode
      ensures Ok(layout, Cut(Now(), i), {}) && |old(inode[..])[i].addrs| == NDIRECT + 1
      ensures inode[..][i] == old(inode[..])[i].(addrs := old(inode[..])[i].addrs[NDIRECT := 0])
      ensures owner == WithoutHanging(old(owner), i)
      ensures OtherInodes(old(Now()), i, Now()) && OtherFiles(Cut(old(Now()), i), i, Cut(Now(), i))
              && Journaled(old(Now()), Now(), lg)
    {
      ghost var v := Cut(Now(), i);
      BlockTells(layout, v, {}, i, 0);
      AllSameRefl(layout, v);
      var a := inode[i].addrs[NDIRECT];
      NoIndirect(layout, v, i);
      lg := {};
      if a != 0 {
        owner := CutOff(owner, i);
        DetachIndirect(layout, v, i, CutInd(Now(), i));
        HangsAll(v.owner, i);
        ghost var u := Now();
        lg := FreeHanging(i, a, v);
        ghost var w := Now();
        ghost var more := FreeIndirect(i, a, v);
        JournaledTrans(u, w, Now(), lg, more);
        lg := lg + more;
      }
    }

    /** bfree and the clearing of the indirect address. */
    method FreeIndirect(i: nat, a: nat, ghost v: View) returns (ghost lg: set<nat>)
      requires i < inode.Length && |inode[i].addrs| == NDIRECT + 1 && i < |v.inodes| && Ok(layout, v, {})
               && |v.inodes[i].addrs| == NDIRECT + 1
      requires a == v.inodes[i].addrs[NDIRECT] != 0 && a >= layout.nmeta && OtherFiles(v, i, CutInd(Now(), i))
               && |v.inodes| == inode.Length
      requires Ok(layout, CutInd(Now(), i), StillHung(v.owner, i, NINDIRECT)) && owner == Unhung(v.owner, i, NINDIRECT)
      modifies this, block, inode
      ensures Ok(layout, Cut(Now(), i), {}) && owner == WithoutHanging(v.owner, i) && OtherFiles(v, i, Cut(Now(), i))
      ensures inode[..] == old(inode[..])[i := old(inode[i]).(addrs := old(inode[i]).addrs[NDIRECT := 0])]
              && Journaled(old(Now()), Now(), lg)
    {
      ghost var w := CutInd(Now(), i);
      HungLast(layout, v, i, a);
      lg := FreeHeld(i, a, {a});
      assert {a} - {a} == {};
      ghost var x := CutInd(Now(), i);
      inode[i] := inode[i].(addrs := inode[i].addrs[NDIRECT := 0]);
      assert Cut(Now(), i).inodes == x.inodes;
      OtherTrans(v, w, i, x);
      UnhungLast(v.owner, i, a, owner);
    }

    /** itrunc: the file is empty, exactly the blocks it owned are free, and no other file
        changes. It never frees a free block. */
    method Itrunc(i: nat) returns (ghost lg: set<nat>)
      requires Valid({}) && i < inode.Length
      modifies this, block, inode
      ensures Valid({}) && Contents(Now(), i) == [] && inode[..][i] == Inode(seq(NDIRECT + 1, _ => 0), 0)
      ensures owner == WithoutFile(old(owner), i) && OthersKept(old(Now()), i, Now())
      ensures Saved(layout, old(Now()), Now(), lg)
    {
      ghost var v := Now();
      ResizeKeeps(layout, v, {}, i, 0, Cut(v, i));
      lg := TruncDirect(i);
      ghost var w := Now();
      ghost var more := TruncIndirect(i);
      ghost var x := Now();
      JournaledTrans(v, w, x, lg, more);
      inode[i] := inode[i].(size := 0);
      lg := lg + more + {IBlock(layout, i)};
      BothGone(v.owner, i);
      assert Now() == Cut(x, i);
      ResizeKeeps(layout, Cut(x, i), {}, i, 0, Now());
      assert inode[i].addrs == seq(NDIRECT + 1, _ => 0);
      TruncOthers(layout, v, i, w, x, Now());
    }

    // --------------------------------------------------------------- filewrite

    /** One chunk of filewrite: an operation of its own. */
    method WriteChunk(i: nat, off: nat, src: seq<int>, k: nat, n1: nat, ghost v: View, ghost start: nat, ghost hi: nat)
      returns (r: int, panicked: bool, ghost lg: set<nat>)
      requires Valid({}) && i < inode.Length && start < U32 && off == start + k && 0 < n1 <= CHUNK
               && k + n1 <= |src| && IsBytes(src)
      requires WrittenUpTo(v, i, start, src, k, Now()) && (!Refused(inode[i].size, off, n1) ==> End(off, n1) <= hi)
      modifies this, block, inode
      ensures panicked ==>
                Full() && BalanceFrom(layout, old(Now()), i, off, hi) < 0 && !Refused(old(inode[i].size), off, n1)
      ensures !panicked ==> Valid({}) && (r == -1 || r == n1)
      ensures !panicked && r == -1 ==> Now() == old(Now()) && Refused(inode[i].size, off, n1)
      ensures !panicked && r != -1 ==> !Refused(old(inode[i].size), off, n1) && off + n1 <= inode[i].size
      ensures !panicked && r != -1 ==> WrittenUpTo(v, i, start, src, k + n1, Now())
      ensures !panicked && r != -1 ==> Saved(layout, old(Now()), Now(), lg) && |lg| <= MAXOPBLOCKS
      ensures !panicked && r != -1 ==>
                BalanceFrom(layout, Now(), i, off + n1, hi) == BalanceFrom(layout, old(Now()), i, off, hi)
    {
      hide BalanceFrom;
      ghost var w := Now();
      ghost var s, chunk := src[..k], src[k..k + n1];
      ChunkFits(off, n1);
      SmallOff(layout, v, i, start, s, w);
      r, panicked, lg := WriteiFor(i, off, src[k..k + n1], hi);
      if !panicked && r != -1 {
        WrittenMore(v, i, start, s, w, chunk, Now());
        assert s + chunk == src[..k + n1];
      }
    }

    /** filewrite to an inode: chunks of at most three blocks, each an operation of its own, from
        views[k] to views[k + 1], which logs no more than MAXOPBLOCKS blocks. The call panics
        exactly when fewer blocks are free than its writable bytes need; else it writes exactly
        these, takes exactly those, and fails exactly when a chunk was left over. */
    method Filewrite(i: nat, start: nat, src: seq<int>)
      returns (ret: int, off: nat, panicked: bool, ghost views: seq<View>, ghost logs: seq<set<nat>>)
      requires Valid({}) && i < inode.Length && start < U32 && |src| < 0x8000_0000 && IsBytes(src)
      modifies this, block, inode
      ensures Ops(layout, i, start, src, views, logs) && views[0] == old(Now())
      ensures var writable := Writable(old(inode[i].size), start, |src|);
              && (panicked <==> Avail(layout, old(Now())) < NeededFor(old(Now()), i, start, writable))
              && (panicked ==> Full() && Upto(|logs|, |src|) < writable)
              && (!panicked ==>
                   && Valid({}) && Now() == views[|logs|] && Upto(|logs|, |src|) == writable && off == start + writable
                   && ret == (if writable == |src| then |src| else -1)
                   && Avail(layout, Now()) == Avail(layout, old(Now())) - NeededFor(old(Now()), i, start, writable))
      ensures !panicked ==>
                var done := off - start;
                && 0 <= done <= |src| && |logs| == (done + 3071) / 3072
                && (start > old(inode[i].size) ==> done == 0)
                && (start <= old(inode[i].size) ==>
                     && start + done <= 268 * 1024
                     && (done < |src| ==>
                          && done % 3072 == 0
                          && start + done + (if |src| - done < 3072 then |src| - done else 3072) > 268 * 1024))
                && (done > 0 ==> inode[i].size == (if off > old(inode[i].size) then off else old(inode[i].size)))
                && (done > 0 ==> forall k: nat {:trigger ByteAt(Now(), i, k)} | k < inode[i].size ::
                       ByteAt(Now(), i, k) == if start <= k < off then src[k - start] else old(ByteAt(Now(), i, k)))
                && (done == 0 ==> Now() == old(Now()))
    {
      hide Ok, BalanceFrom, Ops, OpOk, WrittenUpTo, Saved, Refused, End, Needed, Upto, Chunk, Fitting, ByteAt, Writable,
           Parts;
      ghost var v := Now();
      ghost var writable := Writable(inode[i].size, start, |src|);
      WritableIs(inode[i].size, start, |src|);
      ghost var hi := End(start, writable);
      BalanceFirst(layout, v, i, start, writable);
      NoneWritten(layout, i, start, src, v);
      off, views, logs, panicked, ret := start, [v], [], false, -1;
      var k := 0;
      while k < |src|
        invariant k == Upto(|logs|, |src|) && off == start + k && Valid({}) && k <= writable && |logs| == Parts(k)
        invariant writable == if start <= v.inodes[i].size then Fitting(start, |src|, |logs|) else 0
        invariant k == 0 || off <= inode[i].size
        invariant BalanceFrom(layout, Now(), i, off, hi) == BalanceFrom(layout, v, i, start, hi)
        invariant |views| == |logs| + 1 && Ops(layout, i, start, src, views, logs) && views[0] == v
                  && Now() == views[|logs|]
        invariant WrittenUpTo(v, i, start, src, k, Now())
        decreases |src| - k
      {
        NextChunk(|logs|, |src|);
        ChunkAllowed(layout, v, i, start, src, |logs|, Now());
        var n1 := Chunk(|src| - k);
        var r, stuck, lg := WriteChunk(i, off, src, k, n1, v, start, hi);
        if stuck {
          panicked := true;
          return;
        }
        if r != n1 {
          break;
        }
        OpIs(layout, i, start, src, views, logs, Now(), lg);
        OpsMore(layout, i, start, src, views, logs, Now(), lg);
        off, k := off + r, k + r;
        views, logs := views + [Now()], logs + [lg];
      }
      BalanceLast(layout, Now(), i, start, writable);
      FilewriteEnds(layout, v, i, start, src, writable, Now());
      ret := if k == |src| then |src| else -1;
    }
  }
}
