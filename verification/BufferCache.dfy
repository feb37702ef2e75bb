/**
 The buffer cache. A thread's use of a buffer is cut where other threads may come in between:
 `Bget` under bcache.lock, then `Enter` once the buffer's sleep lock is free, then the client's
 work, then `Unlock` and `Drop`, the two halves of brelse. Any interleaving of threads is a
 sequence of calls of these methods.
 */
module BufferCache {
  import opened LruList
  import opened Options

  type Data = seq<int>

  datatype Key = Key(dev: nat, blockno: nat)

  datatype Buf = Buf(valid: bool, dev: nat, blockno: nat, refcnt: nat, data: Data, locked: bool)

  function KeyOf(b: Buf): Key { Key(b.dev, b.blockno) }

  function Lookup(m: map<Key, Data>, k: Key): Data { if k in m then m[k] else [] }

  /** History. Per buffer: the threads between bget and its lock, those between its release and
      the end of brelse, the pins, and whether it was changed since it was last on disk. And
      `latest`: what the clients last made of each block. */
  datatype Hist = Hist(order: seq<nat>, waiting: seq<nat>, leaving: seq<nat>, pins: seq<nat>, dirty: seq<bool>,
      latest: map<Key, Data>)

  datatype View = View(next: seq<nat>, prev: seq<nat>, bufs: seq<Buf>, disk: map<Key, Data>, h: Hist)

  // --------------------------------------------------------------- invariant

  /** As binit leaves a buffer: all of these have the same key. */
  predicate Pristine(b: Buf) { !b.valid && b.refcnt == 0 && b.dev == 0 && b.blockno == 0 }

  ghost predicate Sized(v: View) {
    var n := |v.bufs|;
    |v.h.waiting| == n && |v.h.leaving| == n && |v.h.pins| == n && |v.h.dirty| == n
  }

  ghost predicate CountOk(v: View, i: nat) {
    && Sized(v) && i < |v.bufs|
    && v.bufs[i].refcnt == v.h.waiting[i] + v.h.leaving[i] + v.h.pins[i] + (if v.bufs[i].locked then 1 else 0)
    && (v.bufs[i].locked ==> v.bufs[i].valid)
    && (v.h.dirty[i] ==> v.bufs[i].valid && (v.bufs[i].locked || v.h.pins[i] > 0))
  }

  ghost predicate DataOk(v: View, i: nat) {
    && Sized(v) && i < |v.bufs|
    && (v.bufs[i].valid ==>
          && v.bufs[i].data == Lookup(v.h.latest, KeyOf(v.bufs[i]))
          && (!v.h.dirty[i] ==> v.bufs[i].data == Lookup(v.disk, KeyOf(v.bufs[i]))))
  }

  /** Of two buffers with one key, the one further back in the list is pristine. */
  ghost predicate PairOk(v: View, a: nat, b: nat) {
    && a < |v.h.order| && b < |v.h.order| && v.h.order[a] < |v.bufs| && v.h.order[b] < |v.bufs|
    && (a < b && KeyOf(v.bufs[v.h.order[a]]) == KeyOf(v.bufs[v.h.order[b]]) ==> Pristine(v.bufs[v.h.order[b]]))
  }

  ghost predicate Dirty(v: View, i: nat, k: Key) {
    Sized(v) && i < |v.bufs| && v.h.dirty[i] && KeyOf(v.bufs[i]) == k
  }

  /** A block that is out of date on disk is in a changed buffer. */
  ghost predicate KeyOk(v: View, k: Key) {
    Lookup(v.h.latest, k) != Lookup(v.disk, k) ==> exists i: nat :: Dirty(v, i, k)
  }

  ghost predicate ListOk(v: View) {
    Linked(v.next, v.prev, |v.bufs|, v.h.order)
        && forall i: nat {:trigger i in v.h.order} | i < |v.bufs| :: i in v.h.order
  }

  ghost predicate Ok(v: View) {
    && Sized(v) && ListOk(v)
    && (forall i: nat {:trigger CountOk(v, i)} | i < |v.bufs| :: CountOk(v, i))
    && (forall i: nat {:trigger DataOk(v, i)} | i < |v.bufs| :: DataOk(v, i))
    && (forall a: nat, b: nat {:trigger PairOk(v, a, b)} | a < |v.h.order| && b < |v.h.order| :: PairOk(v, a, b))
    && (forall k: Key {:trigger KeyOk(v, k)} :: KeyOk(v, k))
  }

  // ------------------------------------------------------- what steps keep

  /** Only buffer i and the counts about it change. */
  ghost predicate OnlyBuf(v: View, i: nat, v': View) {
    && Sized(v) && Sized(v') && |v'.bufs| == |v.bufs| && i < |v.bufs|
    && v'.next == v.next && v'.prev == v.prev && v'.h.order == v.h.order
    && forall j: nat {:trigger v'.bufs[j]} | j < |v.bufs| && j != i ::
         && v'.bufs[j] == v.bufs[j] && v'.h.waiting[j] == v.h.waiting[j] && v'.h.leaving[j] == v.h.leaving[j]
         && v'.h.pins[j] == v.h.pins[j] && v'.h.dirty[j] == v.h.dirty[j]
  }

  lemma OthersCount(v: View, i: nat, v': View)
    requires Ok(v) && OnlyBuf(v, i, v') && CountOk(v', i)
    ensures forall j: nat {:trigger CountOk(v', j)} | j < |v'.bufs| :: CountOk(v', j)
  {
    forall j: nat | j < |v'.bufs|
      ensures CountOk(v', j)
    {
      assert CountOk(v, j);
      assert j != i ==> v'.bufs[j] == v.bufs[j];
    }
  }

  lemma PairsKept(v: View, i: nat, v': View)
    requires Ok(v) && OnlyBuf(v, i, v') && KeyOf(v'.bufs[i]) == KeyOf(v.bufs[i])
             && (Pristine(v.bufs[i]) ==> Pristine(v'.bufs[i]))
    ensures forall a: nat, b: nat {:trigger PairOk(v', a, b)} | a < |v'.h.order| && b < |v'.h.order| :: PairOk(v', a, b)
  {
    forall a: nat, b: nat | a < |v'.h.order| && b < |v'.h.order|
      ensures PairOk(v', a, b)
    {
      assert PairOk(v, a, b);
      var x, y := v.h.order[a], v.h.order[b];
      assert x != i ==> v'.bufs[x] == v.bufs[x];
      assert y != i ==> v'.bufs[y] == v.bufs[y];
    }
  }

  /** A step on one buffer in use that leaves contents and disk as they are. */
  lemma UseKeeps(v: View, i: nat, v': View)
    requires Ok(v) && OnlyBuf(v, i, v') && v'.h.latest == v.h.latest && v'.disk == v.disk
    requires KeyOf(v'.bufs[i]) == KeyOf(v.bufs[i]) && !Pristine(v.bufs[i]) && v'.h.dirty[i] == v.h.dirty[i]
    requires CountOk(v', i) && DataOk(v', i)
    ensures Ok(v')
  {
    OthersCount(v, i, v');
    PairsKept(v, i, v');
    forall j: nat | j < |v'.bufs|
      ensures DataOk(v', j)
    {
      assert DataOk(v, j);
      assert j != i ==> v'.bufs[j] == v.bufs[j];
    }
    forall k: Key
      ensures KeyOk(v', k)
    {
      assert KeyOk(v, k);
      if Lookup(v.h.latest, k) != Lookup(v.disk, k) {
        var j: nat :| Dirty(v, j, k);
        assert j != i ==> v'.bufs[j] == v.bufs[j];
        assert Dirty(v', j, k);
      }
    }
  }

  /** No other buffer with contents has the key of a buffer in use. */
  lemma SoleBuffer(v: View, i: nat, j: nat)
    requires Ok(v) && i < |v.bufs| && j < |v.bufs| && i != j && KeyOf(v.bufs[i]) == KeyOf(v.bufs[j])
             && !Pristine(v.bufs[i])
    ensures Pristine(v.bufs[j])
  {
    assert i in v.h.order && j in v.h.order;
    var a: nat :| a < |v.h.order| && v.h.order[a] == i;
    var b: nat :| b < |v.h.order| && v.h.order[b] == j;
    assert PairOk(v, a, b) && PairOk(v, b, a);
  }

  /** The client changes the contents of a buffer that it has locked. */
  lemma WriteKeeps(v: View, i: nat, data: Data, v': View)
    requires Ok(v) && i < |v.bufs| && v.bufs[i].locked
    requires v' == v.(bufs := v.bufs[i := v.bufs[i].(data := data)],
                      h := v.h.(dirty := v.h.dirty[i := true], latest := v.h.latest[KeyOf(v.bufs[i]) := data]))
    ensures Ok(v')
  {
    assert CountOk(v, i);
    OthersCount(v, i, v');
    PairsKept(v, i, v');
    forall j: nat | j < |v'.bufs|
      ensures DataOk(v', j)
    {
      assert DataOk(v, j);
      if j != i && KeyOf(v.bufs[i]) == KeyOf(v.bufs[j]) {
        SoleBuffer(v, i, j);
      }
    }
    forall k: Key
      ensures KeyOk(v', k)
    {
      assert KeyOk(v, k);
      if k == KeyOf(v.bufs[i]) {
        assert Dirty(v', i, k);
      } else if Lookup(v.h.latest, k) != Lookup(v.disk, k) {
        var j: nat :| Dirty(v, j, k);
        assert Dirty(v', j, k);
      }
    }
  }

  /** bwrite. */
  lemma BwriteKeeps(v: View, i: nat, v': View)
    requires Ok(v) && i < |v.bufs| && v.bufs[i].locked
    requires v' == v.(disk := v.disk[KeyOf(v.bufs[i]) := v.bufs[i].data], h := v.h.(dirty := v.h.dirty[i := false]))
    ensures Ok(v')
  {
    assert CountOk(v, i) && DataOk(v, i);
    OthersCount(v, i, v');
    PairsKept(v, i, v');
    forall j: nat | j < |v'.bufs|
      ensures DataOk(v', j)
    {
      assert DataOk(v, j);
      if j != i && KeyOf(v.bufs[i]) == KeyOf(v.bufs[j]) {
        SoleBuffer(v, i, j);
      }
    }
    forall k: Key
      ensures KeyOk(v', k)
    {
      assert KeyOk(v, k);
      if k != KeyOf(v.bufs[i]) && Lookup(v.h.latest, k) != Lookup(v.disk, k) {
        var j: nat :| Dirty(v, j, k);
        assert Dirty(v', j, k);
      }
    }
  }

  /** bget finds its block cached: the first buffer in the list with that key. */
  lemma HitKeeps(v: View, p: nat, v': View)
    requires Ok(v) && p < |v.h.order| && v.h.order[p] < |v.bufs|
    requires forall a: nat | a < p && v.h.order[a] < |v.bufs| ::
               KeyOf(v.bufs[v.h.order[a]]) != KeyOf(v.bufs[v.h.order[p]])
    requires var i := v.h.order[p];
             v' == v.(bufs := v.bufs[i := v.bufs[i].(refcnt := v.bufs[i].refcnt + 1)],
                 h := v.h.(waiting := v.h.waiting[i := v.h.waiting[i] + 1]))
    ensures Ok(v')
  {
    var i := v.h.order[p];
    assert CountOk(v, i);
    OthersCount(v, i, v');
    forall a: nat, b: nat | a < |v'.h.order| && b < |v'.h.order|
      ensures PairOk(v', a, b)
    {
      assert PairOk(v, a, b);
      assert a < p ==> v.h.order[a] < |v.bufs|;
    }
    SameContents(v, i, v');
  }

  /** Contents, disk and changed buffers stay. */
  lemma SameContents(v: View, i: nat, v': View)
    requires Ok(v) && OnlyBuf(v, i, v') && v'.h.latest == v.h.latest && v'.disk == v.disk
    requires v'.h.dirty[i] == v.h.dirty[i] && KeyOf(v'.bufs[i]) == KeyOf(v.bufs[i])
    requires v'.bufs[i].valid == v.bufs[i].valid && v'.bufs[i].data == v.bufs[i].data
    ensures forall j: nat {:trigger DataOk(v', j)} | j < |v'.bufs| :: DataOk(v', j)
    ensures forall k: Key {:trigger KeyOk(v', k)} :: KeyOk(v', k)
  {
    forall j: nat | j < |v'.bufs|
      ensures DataOk(v', j)
    {
      assert DataOk(v, j);
      assert j != i ==> v'.bufs[j] == v.bufs[j];
    }
    forall k: Key
      ensures KeyOk(v', k)
    {
      assert KeyOk(v, k);
      if Lookup(v.h.latest, k) != Lookup(v.disk, k) {
        var j: nat :| Dirty(v, j, k);
        assert j != i ==> v'.bufs[j] == v.bufs[j];
        assert Dirty(v', j, k);
      }
    }
  }

  ghost predicate Uncached(v: View, k: Key) {
    forall j: nat {:trigger v.bufs[j]} | j < |v.bufs| :: KeyOf(v.bufs[j]) != k
  }

  /** bget takes an unused buffer for a block that is not cached. */
  lemma RecycleKeeps(v: View, i: nat, k: Key, v': View)
    requires Ok(v) && i < |v.bufs| && v.bufs[i].refcnt == 0 && Uncached(v, k)
    requires v' == v.(bufs := v.bufs[i := Buf(false, k.dev, k.blockno, 1, v.bufs[i].data, v.bufs[i].locked)],
                      h := v.h.(waiting := v.h.waiting[i := v.h.waiting[i] + 1]))
    ensures Ok(v')
  {
    assert CountOk(v, i);
    OthersCount(v, i, v');
    forall a: nat, b: nat | a < |v'.h.order| && b < |v'.h.order|
      ensures PairOk(v', a, b)
    {
      assert PairOk(v, a, b);
      assert KeyOf(v.bufs[v.h.order[a]]) != k && KeyOf(v.bufs[v.h.order[b]]) != k;
    }
    forall j: nat | j < |v'.bufs|
      ensures DataOk(v', j)
    {
      assert DataOk(v, j);
    }
    forall c: Key
      ensures KeyOk(v', c)
    {
      assert KeyOk(v, c);
      if Lookup(v.h.latest, c) != Lookup(v.disk, c) {
        var j: nat :| Dirty(v, j, c);
        assert Dirty(v', j, c);
      }
    }
  }

  /** brelse moves a buffer that has become unused to the front of the list. */
  lemma ToFrontKeeps(v: View, p: nat, next': seq<nat>, prev': seq<nat>, v': View)
    requires Ok(v) && p < |v.h.order| && v.h.order[p] < |v.bufs|
    requires forall a: nat | a < p && v.h.order[a] < |v.bufs| ::
               KeyOf(v.bufs[v.h.order[a]]) != KeyOf(v.bufs[v.h.order[p]])
    requires v' == v.(next := next', prev := prev', h := v.h.(order := ToFront(v.h.order, p)))
    requires Linked(next', prev', |v.bufs|, ToFront(v.h.order, p))
    ensures Ok(v')
  {
    ToFrontPairs(v, p, v');
    forall i: nat | i < |v.bufs|
      ensures CountOk(v', i) && DataOk(v', i)
    {
      assert CountOk(v, i) && DataOk(v, i);
    }
    forall k: Key
      ensures KeyOk(v', k)
    {
      assert KeyOk(v, k);
      if Lookup(v.h.latest, k) != Lookup(v.disk, k) {
        var j: nat :| Dirty(v, j, k);
        assert Dirty(v', j, k);
      }
    }
  }

  lemma ToFrontPairs(v: View, p: nat, v': View)
    requires Ok(v) && p < |v.h.order| && v.h.order[p] < |v.bufs| && v'.bufs == v.bufs
             && v'.h.order == ToFront(v.h.order, p)
    requires forall a: nat | a < p && v.h.order[a] < |v.bufs| ::
               KeyOf(v.bufs[v.h.order[a]]) != KeyOf(v.bufs[v.h.order[p]])
    ensures forall i: nat {:trigger i in v'.h.order} | i < |v.bufs| :: i in v'.h.order
    ensures forall a: nat, b: nat {:trigger PairOk(v', a, b)} | a < |v'.h.order| && b < |v'.h.order| :: PairOk(v', a, b)
  {
    var order := v.h.order;
    forall i: nat | i < |v.bufs|
      ensures i in v'.h.order
    {
      assert i in order;
      var a: nat :| a < |order| && order[a] == i;
      assert v'.h.order[if a == p then 0 else if a < p then a + 1 else a] == i;
    }
    hide Ok;
    forall a: nat, b: nat | a < |v'.h.order| && b < |v'.h.order|
      ensures PairOk(v', a, b)
    {
      ToFrontPair(v, p, v', a, b);
    }
  }

  lemma ToFrontPair(v: View, p: nat, v': View, a: nat, b: nat)
    requires Ok(v) && p < |v.h.order| && v.h.order[p] < |v.bufs| && v'.bufs == v.bufs
             && v'.h.order == ToFront(v.h.order, p) && a < |v'.h.order| && b < |v'.h.order|
    requires forall a: nat | a < p && v.h.order[a] < |v.bufs| ::
               KeyOf(v.bufs[v.h.order[a]]) != KeyOf(v.bufs[v.h.order[p]])
    ensures PairOk(v', a, b)
  {
    var x, y := Was(p, a), Was(p, b);
    assert PairOk(v, x, y) && v'.h.order[a] == v.h.order[x] && v'.h.order[b] == v.h.order[y];
  }

  /** Where the a-th node was before the p-th moved to the front. */
  function Was(p: nat, a: nat): nat { if a == 0 then p else if a <= p then a - 1 else a }

  /** A buffer in use has no namesake in front of it. */
  lemma NoneBefore(v: View, p: nat)
    requires Ok(v) && p < |v.h.order| && v.h.order[p] < |v.bufs| && !Pristine(v.bufs[v.h.order[p]])
    ensures forall a: nat | a < p && v.h.order[a] < |v.bufs| ::
              KeyOf(v.bufs[v.h.order[a]]) != KeyOf(v.bufs[v.h.order[p]])
  {
    forall a: nat | a < p && v.h.order[a] < |v.bufs|
      ensures KeyOf(v.bufs[v.h.order[a]]) != KeyOf(v.bufs[v.h.order[p]])
    {
      assert PairOk(v, a, p);
    }
  }

  lemma InOrder(v: View, i: nat)
    requires Ok(v) && i < |v.bufs|
    ensures i in v.h.order
  {
  }

  lemma InUse(v: View, i: nat)
    requires Ok(v) && i < |v.bufs| && (v.bufs[i].locked || v.h.pins[i] > 0 || v.h.leaving[i] > 0)
    ensures v.bufs[i].refcnt > 0 && CountOk(v, i) && DataOk(v, i)
  {
    assert CountOk(v, i) && DataOk(v, i);
  }

  /** A buffer that somebody waits for and that has no contents yet may be read from disk. */
  lemma UpToDate(v: View, i: nat)
    requires Ok(v) && i < |v.bufs| && v.h.waiting[i] > 0
    ensures v.bufs[i].refcnt > 0 && CountOk(v, i) && DataOk(v, i)
    ensures !v.bufs[i].valid ==> Lookup(v.disk, KeyOf(v.bufs[i])) == Lookup(v.h.latest, KeyOf(v.bufs[i]))
  {
    assert CountOk(v, i) && DataOk(v, i);
    var k := KeyOf(v.bufs[i]);
    assert KeyOk(v, k);
    if !v.bufs[i].valid && Lookup(v.h.latest, k) != Lookup(v.disk, k) {
      var j: nat :| Dirty(v, j, k);
      assert CountOk(v, j);
      SoleBuffer(v, i, j);
    }
  }

  /** No two buffers hold the same block of a device other than 0. */
  lemma KeysUnique(v: View, i: nat, j: nat)
    requires Ok(v) && i < |v.bufs| && j < |v.bufs| && i != j && KeyOf(v.bufs[i]) == KeyOf(v.bufs[j])
    ensures v.bufs[i].dev == 0 && (Pristine(v.bufs[i]) || Pristine(v.bufs[j]))
  {
    if !Pristine(v.bufs[i]) {
      SoleBuffer(v, i, j);
    }
  }

  /** What binit leaves. */
  lemma FreshOk(v: View)
    requires Sized(v) && Linked(v.next, v.prev, |v.bufs|, v.h.order) && |v.h.order| == |v.bufs| && v.h.latest == v.disk
    requires forall i: nat | i < |v.bufs| :: v.h.order[i] == |v.bufs| - 1 - i
    requires forall i: nat | i < |v.bufs| :: Pristine(v.bufs[i]) && !v.bufs[i].locked
    requires forall i: nat | i < |v.bufs| ::
               v.h.waiting[i] == 0 && v.h.leaving[i] == 0 && v.h.pins[i] == 0 && !v.h.dirty[i]
    ensures Ok(v)
  {
    forall i: nat | i < |v.bufs|
      ensures i in v.h.order
    {
      assert v.h.order[|v.bufs| - 1 - i] == i;
    }
  }

  /** A scan of the list that has passed every node has passed every buffer. */
  lemma Scanned(v: View, k: Key)
    requires ListOk(v) && forall a: nat | a < |v.h.order| :: v.h.order[a] < |v.bufs| && KeyOf(v.bufs[v.h.order[a]]) != k
    ensures Uncached(v, k)
  {
    forall j: nat | j < |v.bufs|
      ensures KeyOf(v.bufs[j]) != k
    {
      assert j in v.h.order;
    }
  }

  /** Buffers in use keep their block and their contents. */
  ghost predicate UsersKeep(v: View, v': View) {
    && |v'.bufs| == |v.bufs|
    && forall i: nat {:trigger v'.bufs[i]} | i < |v.bufs| && v.bufs[i].refcnt > 0 ::
         KeyOf(v'.bufs[i]) == KeyOf(v.bufs[i]) && v'.bufs[i].valid == v.bufs[i].valid
             && v'.bufs[i].data == v.bufs[i].data
  }

  /** Nothing is written, pinned or unpinned, and a buffer gets another block only if nobody used
      it and the new block was not cached. */
  ghost predicate Quiet(v: View, v': View) {
    && |v'.bufs| == |v.bufs| && v'.disk == v.disk && v'.h.latest == v.h.latest && v'.h.pins == v.h.pins
    && v'.h.dirty == v.h.dirty
    && forall i: nat {:trigger v'.bufs[i]} | i < |v.bufs| ::
         KeyOf(v'.bufs[i]) == KeyOf(v.bufs[i]) || (v.bufs[i].refcnt == 0 && Uncached(v, KeyOf(v'.bufs[i])))
  }

  /** The p-th buffer in the list is the first with this key. */
  ghost predicate FirstAt(v: View, key: Key, p: nat) {
    && p < |v.h.order| && v.h.order[p] < |v.bufs| && KeyOf(v.bufs[v.h.order[p]]) == key
    && forall a: nat | a < p && v.h.order[a] < |v.bufs| :: KeyOf(v.bufs[v.h.order[a]]) != key
  }

  /** Buffer i is unused and every buffer behind it in the list is in use. */
  ghost predicate LeastRecent(v: View, i: nat) {
    exists p: nat :: LastUnused(v, i, p)
  }

  ghost predicate LastUnused(v: View, i: nat, p: nat) {
    && p < |v.h.order| && v.h.order[p] == i && i < |v.bufs| && v.bufs[i].refcnt == 0
    && forall a: nat | p < a < |v.h.order| && v.h.order[a] < |v.bufs| :: v.bufs[v.h.order[a]].refcnt > 0
  }

  class Bcache {
    const next: array<nat>                   // of the buffers, then of the list head
    const prev: array<nat>
    const buf: array<Buf>
    var disk: map<Key, Data>
    ghost var h: Hist

    ghost function Now(): View
      reads this, next, prev, buf
    {
      View(next[..], prev[..], buf[..], disk, h)
    }

    ghost predicate Valid()
      reads this, next, prev, buf
    {
      next != prev && Ok(Now())
    }

    /** binit: every buffer is pushed in front of the list. */
    constructor (nbuf: nat, disk: map<Key, Data>)
      ensures Valid() && buf.Length == nbuf && |h.order| == nbuf && this.disk == disk == h.latest
      ensures forall i: nat | i < nbuf :: Pristine(buf[i]) && h.order[i] == nbuf - 1 - i
    {
      next := new nat[nbuf + 1](_ => nbuf);
      prev := new nat[nbuf + 1](_ => nbuf);
      buf := new Buf[nbuf](_ => Buf(false, 0, 0, 0, [], false));
      this.disk := disk;
      h := Hist([], seq(nbuf, _ => 0), seq(nbuf, _ => 0), seq(nbuf, _ => 0), seq(nbuf, _ => false), disk);
      new;
      ghost var order: seq<nat> := [];
      ghost var h0, buf0 := h, buf[..];
      assert LinkOk(next[..], prev[..], nbuf, order, -1);
      for b := 0 to nbuf
        invariant h == h0 && this.disk == disk && buf[..] == buf0
        invariant next != prev && Linked(next[..], prev[..], nbuf, order) && |order| == b
        invariant forall k: nat | k < b :: order[k] == b - 1 - k
      {
        ghost var next0, prev0 := next[..], prev[..];
        assert LinkOk(next0, prev0, nbuf, order, -1);
        next[b] := next[nbuf];
        prev[b] := nbuf;
        prev[next[nbuf]] := b;
        next[nbuf] := b;
        LruList.PushFront(next0, prev0, nbuf, order, b, next[..], prev[..]);
        order := [b] + order;
      }
      h := h.(order := order);
      FreshOk(Now());
    }

    /** The first buffer in the list with this key. */
    method Find(key: Key) returns (r: Option<nat>)
      requires Valid()
      ensures r.None? ==> Uncached(Now(), key)
      ensures r.Some? ==> exists p: nat :: FirstAt(Now(), key, p) && h.order[p] == r.value
    {
      var n := buf.Length;
      ghost var order := h.order;
      ghost var k := 0;
      assert LinkOk(next[..], prev[..], n, order, -1);
      var b := next[n];
      while b != n
        invariant k <= |order| && b == Node(order, n, k)
        invariant forall a: nat | a < k :: order[a] < n && KeyOf(buf[order[a]]) != key
        decreases |order| - k
      {
        if buf[b].dev == key.dev && buf[b].blockno == key.blockno {
          assert FirstAt(Now(), key, k);
          return Some(b);
        }
        assert LinkOk(next[..], prev[..], n, order, k);
        b := next[b];
        k := k + 1;
      }
      Scanned(Now(), key);
      return None;
    }

    /** The last buffer in the list that nobody uses. */
    method FindUnused() returns (r: Option<nat>)
      requires Valid()
      ensures r.None? ==> forall i: nat | i < buf.Length :: buf[i].refcnt > 0
      ensures r.Some? ==> LeastRecent(Now(), r.value)
    {
      var n := buf.Length;
      ghost var order := h.order;
      ghost var k: int := |order| - 1;
      assert LinkOk(next[..], prev[..], n, order, k);
      var b := prev[n];
      while b != n
        invariant -1 <= k < |order| && b == Node(order, n, k)
        invariant forall a: nat | k < a < |order| :: order[a] < n && buf[order[a]].refcnt > 0
        decreases k
      {
        if buf[b].refcnt == 0 {
          assert LastUnused(Now(), b, k);
          return Some(b);
        }
        assert LinkOk(next[..], prev[..], n, order, k - 1);
        b := prev[b];
        k := k - 1;
      }
      forall i: nat | i < buf.Length
        ensures buf[i].refcnt > 0
      {
        assert i in order;
      }
      return None;
    }

    method Reuse(i: nat, ghost p: nat)
      requires Valid() && i < buf.Length && FirstAt(Now(), KeyOf(buf[i]), p) && h.order[p] == i
      modifies this`h, buf
      ensures Valid() && buf[..] == old(buf[..])[i := old(buf[..])[i].(refcnt := old(buf[..])[i].refcnt + 1)]
      ensures h == old(h).(waiting := old(h.waiting)[i := old(h.waiting)[i] + 1])
    {
      ghost var v := Now();
      buf[i] := buf[i].(refcnt := buf[i].refcnt + 1);
      h := h.(waiting := h.waiting[i := h.waiting[i] + 1]);
      HitKeeps(v, p, Now());
    }

    method Recycle(i: nat, key: Key)
      requires Valid() && i < buf.Length && buf[i].refcnt == 0 && Uncached(Now(), key)
      modifies this`h, buf
      ensures Valid() && buf[..] == old(buf[..])
              [i := Buf(false, key.dev, key.blockno, 1, old(buf[..])[i].data, old(buf[..])[i].locked)]
      ensures h == old(h).(waiting := old(h.waiting)[i := old(h.waiting)[i] + 1])
    {
      ghost var v := Now();
      buf[i] := Buf(false, key.dev, key.blockno, 1, buf[i].data, buf[i].locked);
      h := h.(waiting := h.waiting[i := h.waiting[i] + 1]);
      RecycleKeeps(v, i, key, Now());
    }

    /** bget under bcache.lock. The block's own buffer if it is cached; otherwise the least
        recently released of the unused ones; a panic exactly when there is neither. */
    method Bget(dev: nat, blockno: nat) returns (r: Option<nat>)
      requires Valid()
      modifies this`h, buf
      ensures Valid() && UsersKeep(old(Now()), Now()) && Quiet(old(Now()), Now()) && h == old(h).(waiting := h.waiting)
      ensures r.None? ==>
                && Now() == old(Now()) && Uncached(Now(), Key(dev, blockno))
                && forall i: nat | i < buf.Length :: buf[i].refcnt > 0
      ensures r.Some? ==>
                var i := r.value;
                && i < buf.Length && KeyOf(buf[i]) == Key(dev, blockno) && buf[i].refcnt == old(buf[..])[i].refcnt + 1
                && h.waiting == old(h.waiting)[i := old(h.waiting)[i] + 1]
                && (KeyOf(old(buf[..])[i]) != Key(dev, blockno) ==>
                     Uncached(old(Now()), Key(dev, blockno)) && LeastRecent(old(Now()), i))
    {
      var key := Key(dev, blockno);
      var hit := Find(key);
      if hit.Some? {
        ghost var p: nat :| FirstAt(Now(), key, p) && h.order[p] == hit.value;
        Reuse(hit.value, p);
        return hit;
      }
      var unused := FindUnused();
      if unused.Some? {
        Recycle(unused.value, key);
      }
      return unused;
    }

    /** The rest of bread, once the buffer's sleep lock is free: the caller sees what the clients
        last made of the block. */
    method Enter(i: nat)
      requires Valid() && i < buf.Length && i < |h.waiting| && h.waiting[i] > 0 && !buf[i].locked
      modifies this`h, buf
      ensures Valid() && Quiet(old(Now()), Now()) && buf[i].locked && buf[i].valid
              && KeyOf(buf[i]) == KeyOf(old(buf[..])[i])
      ensures buf[i].data == Lookup(h.latest, KeyOf(buf[i]))
      ensures old(buf[..])[i].valid ==> buf[i].data == old(buf[..])[i].data
      ensures buf[..] == old(buf[..])[i := buf[i]]
              && h == old(h).(waiting := old(h.waiting)[i := old(h.waiting)[i] - 1])
    {
      ghost var v := Now();
      UpToDate(v, i);
      if buf[i].valid {
        buf[i] := buf[i].(locked := true);
      } else {
        buf[i] := buf[i].(locked := true, valid := true, data := Lookup(disk, Key(buf[i].dev, buf[i].blockno)));
      }
      h := h.(waiting := h.waiting[i := h.waiting[i] - 1]);
      UseKeeps(v, i, Now());
    }

    /** The holder of the lock changes the contents. */
    method Change(i: nat, data: Data)
      requires Valid() && i < buf.Length && buf[i].locked
      modifies this`h, buf
      ensures Valid() && buf[..] == old(buf[..])[i := old(buf[..])[i].(data := data)]
      ensures h == old(h).(dirty := old(h.dirty)[i := true], latest := old(h.latest)[KeyOf(buf[i]) := data])
    {
      ghost var v := Now();
      buf[i] := buf[i].(data := data);
      h := h.(dirty := h.dirty[i := true], latest := h.latest[KeyOf(buf[i]) := data]);
      WriteKeeps(v, i, data, Now());
    }

    /** bwrite; without the lock it panics. */
    method Bwrite(i: nat)
      requires Valid() && i < buf.Length && buf[i].locked
      modifies this`disk, this`h
      ensures Valid() && disk == old(disk)[KeyOf(buf[i]) := buf[i].data]
              && h == old(h).(dirty := old(h.dirty)[i := false])
    {
      ghost var v := Now();
      disk := disk[Key(buf[i].dev, buf[i].blockno) := buf[i].data];
      h := h.(dirty := h.dirty[i := false]);
      BwriteKeeps(v, i, Now());
    }

    /** bpin, by a holder of the lock. */
    method Bpin(i: nat)
      requires Valid() && i < buf.Length && buf[i].locked
      modifies this`h, buf
      ensures Valid() && buf[..] == old(buf[..])[i := old(buf[..])[i].(refcnt := old(buf[..])[i].refcnt + 1)]
      ensures h == old(h).(pins := old(h.pins)[i := old(h.pins)[i] + 1])
    {
      ghost var v := Now();
      InUse(v, i);
      buf[i] := buf[i].(refcnt := buf[i].refcnt + 1);
      h := h.(pins := h.pins[i := h.pins[i] + 1]);
      UseKeeps(v, i, Now());
    }

    /** bunpin of a pinned buffer; the last pin of a changed buffer is not given up. */
    method Bunpin(i: nat)
      requires Valid() && i < buf.Length && i < |h.pins| == |h.dirty| && h.pins[i] > 0
      requires h.dirty[i] ==> buf[i].locked || h.pins[i] > 1
      modifies this`h, buf
      ensures Valid() && old(buf[..])[i].refcnt > 0
              && buf[..] == old(buf[..])[i := old(buf[..])[i].(refcnt := old(buf[..])[i].refcnt - 1)]
      ensures h == old(h).(pins := old(h.pins)[i := old(h.pins)[i] - 1])
    {
      ghost var v := Now();
      InUse(v, i);
      buf[i] := buf[i].(refcnt := buf[i].refcnt - 1);
      h := h.(pins := h.pins[i := h.pins[i] - 1]);
      UseKeeps(v, i, Now());
    }

    /** The first half of brelse; without the lock it panics. A changed buffer must be pinned. */
    method Unlock(i: nat)
      requires Valid() && i < buf.Length && buf[i].locked && i < |h.pins| == |h.dirty| && (h.dirty[i] ==> h.pins[i] > 0)
      modifies this`h, buf
      ensures Valid() && Quiet(old(Now()), Now()) && buf[..] == old(buf[..])[i := old(buf[..])[i].(locked := false)]
      ensures |h.leaving| == buf.Length && h == old(h).(leaving := old(h.leaving)[i := old(h.leaving)[i] + 1])
    {
      ghost var v := Now();
      InUse(v, i);
      buf[i] := buf[i].(locked := false);
      h := h.(leaving := h.leaving[i := h.leaving[i] + 1]);
      UseKeeps(v, i, Now());
    }

    /** The pointer stores of brelse. */
    method Relink(i: nat, ghost p: nat)
      requires Valid() && i < buf.Length && p < |h.order| && h.order[p] == i && FirstAt(Now(), KeyOf(buf[i]), p)
      modifies this`h, next, prev
      ensures Valid() && h == old(h).(order := [i] + old(h.order)[..p] + old(h.order)[p + 1..])
    {
      var n := buf.Length;
      ghost var v := Now();
      assert LinkOk(v.next, v.prev, n, v.h.order, p) && LinkOk(v.next, v.prev, n, v.h.order, p - 1);
      prev[next[i]] := prev[i];
      next[prev[i]] := next[i];
      ghost var next1, prev1 := next[..], prev[..];
      LruList.Unlink(v.next, v.prev, n, v.h.order, p, next1, prev1);
      ghost var order1 := Without(v.h.order, p);
      assert LinkOk(next1, prev1, n, order1, -1);
      next[i] := next[n];
      prev[i] := n;
      prev[next[n]] := i;
      next[n] := i;
      LruList.PushFront(next1, prev1, n, order1, i, next[..], prev[..]);
      h := h.(order := ToFront(h.order, p));
      ToFrontIs(v.h.order, p);
      ToFrontKeeps(v, p, next[..], prev[..], Now());
    }

    /** One user fewer. */
    method Unref(i: nat)
      requires Valid() && i < buf.Length && i < |h.leaving| && h.leaving[i] > 0
      modifies this`h, buf
      ensures Valid() && old(buf[..])[i].refcnt > 0
              && buf[..] == old(buf[..])[i := old(buf[..])[i].(refcnt := old(buf[..])[i].refcnt - 1)]
      ensures h == old(h).(leaving := old(h.leaving)[i := old(h.leaving)[i] - 1])
    {
      ghost var v := Now();
      InUse(v, i);
      buf[i] := buf[i].(refcnt := buf[i].refcnt - 1);
      h := h.(leaving := h.leaving[i := h.leaving[i] - 1]);
      UseKeeps(v, i, Now());
    }

    /** The second half of brelse: the last user puts the buffer in front of the list. */
    method Drop(i: nat)
      requires Valid() && i < buf.Length && i < |h.leaving| && h.leaving[i] > 0
      modifies this`h, buf, next, prev
      ensures Valid() && Quiet(old(Now()), Now())
      ensures old(buf[..])[i].refcnt > 0 && buf[..] ==
              old(buf[..])[i := old(buf[..])[i].(refcnt := old(buf[..])[i].refcnt - 1)]
      ensures h == old(h).(order := h.order, leaving := old(h.leaving)[i := old(h.leaving)[i] - 1])
      ensures if buf[i].refcnt > 0 then h.order == old(h.order)
              else exists p: nat :: p < |old(h.order)| && old(h.order)[p] == i
                                    && h.order == [i] + old(h.order)[..p] + old(h.order)[p + 1..]
    {
      hide Ok;
      ghost var v := Now();
      InUse(v, i);
      InOrder(v, i);
      ghost var p: nat :| p < |h.order| && h.order[p] == i;
      NoneBefore(v, p);
      Unref(i);
      if buf[i].refcnt == 0 {
        assert FirstAt(Now(), KeyOf(buf[i]), p);
        Relink(i, p);
      }
    }
  }
}
