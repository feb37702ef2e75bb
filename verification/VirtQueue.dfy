/**
 The memory that the virtio disk driver shares with the device: the descriptor table, the
 two rings with their 16-bit indices, and who owns what. Everything here is about values;
 module Virtio holds the driver and the device.
 */
module VirtQueue {
  import opened Options

  const NUM := 8
  const WRAP := 65536                        // indices are uint16
  const F_NEXT := 1
  const F_WRITE := 2
  const T_IN := 0
  const T_OUT := 1
  const BSIZE := 1024

  type Data = seq<int>

  /** What a descriptor may point to: a request header, a buffer's data, a status byte. */
  datatype Addr = Null | OpAddr(i: nat) | DataAddr(b: nat) | StatusAddr(i: nat)

  datatype Desc = Desc(addr: Addr, len: nat, flags: nat, next: nat)

  const NoDesc := Desc(Null, 0, 0, 0)

  datatype Op = Op(kind: nat, reserved: nat, sector: nat)

  datatype Info = Info(b: Option<nat>, status: nat)

  // -------------------------------------------------------------- the rings

  /** `q` are the entries between the consumer's index (n in all) and the producer's. */
  ghost predicate Ring(ring: seq<nat>, produced: nat, consumed: nat, n: nat, q: seq<nat>) {
    && |ring| == NUM && |q| <= NUM
    && consumed == n % WRAP && produced == (n + |q|) % WRAP
    && forall i: nat {:trigger q[i]} | i < |q| :: ring[Slot(n + i)] == q[i]
  }

  function Slot(n: nat): (i: nat)
    ensures i < NUM
  {
    n % NUM
  }

  function Bump(i: nat): nat { (i + 1) % WRAP }

  lemma WrapSlot(n: nat)
    ensures (n % WRAP) % NUM == Slot(n) && Bump(n % WRAP) == (n + 1) % WRAP
  {
  }

  /** The 16-bit indices differ exactly when there is something to consume. */
  lemma RingEmpty(ring: seq<nat>, produced: nat, consumed: nat, n: nat, q: seq<nat>)
    requires Ring(ring, produced, consumed, n, q)
    ensures produced == consumed <==> q == []
  {
  }

  /** Writing the next slot does not disturb an entry not yet consumed. */
  lemma RingWrite(ring: seq<nat>, produced: nat, consumed: nat, n: nat, q: seq<nat>, x: nat, ring': seq<nat>)
    requires Ring(ring, produced, consumed, n, q) && |q| < NUM && ring' == ring[produced % NUM := x]
    ensures Ring(ring', produced, consumed, n, q)
  {
    WrapSlot(n + |q|);
    forall i: nat | i < |q|
      ensures ring'[Slot(n + i)] == q[i]
    {
      SlotsApart(n, i, |q|);
    }
  }

  lemma SlotsApart(n: nat, i: nat, k: nat)
    requires i < k < i + NUM
    ensures Slot(n + i) != Slot(n + k)
  {
  }

  lemma RingPost(ring: seq<nat>, produced: nat, consumed: nat, n: nat, q: seq<nat>, x: nat)
    requires Ring(ring, produced, consumed, n, q) && |q| < NUM && ring[produced % NUM] == x
    ensures Ring(ring, Bump(produced), consumed, n, q + [x])
  {
    WrapSlot(n + |q|);
  }

  lemma RingPop(ring: seq<nat>, produced: nat, consumed: nat, n: nat, q: seq<nat>)
    requires Ring(ring, produced, consumed, n, q) && q != []
    ensures ring[consumed % NUM] == q[0] && Ring(ring, produced, Bump(consumed), n + 1, q[1..])
  {
    WrapSlot(n);
    assert ring[Slot(n + 0)] == q[0];
    forall i: nat | i < |q[1..]|
      ensures ring[Slot(n + 1 + i)] == q[1..][i]
    {
      assert ring[Slot(n + (i + 1))] == q[i + 1];
    }
  }

  ghost predicate NoDup(q: seq<nat>) {
    forall i: nat, j: nat | i < j < |q| :: q[i] != q[j]
  }

  /** A queue of distinct descriptors fits in a ring. */
  lemma Fits(q: seq<nat>)
    requires NoDup(q) && forall x | x in q :: x < NUM
    ensures |q| <= NUM
  {
    var s := set x | x in q;
    NoDupSize(q, s);
    SizeBelow(NUM, s);
  }

  lemma {:induction false} NoDupSize(q: seq<nat>, s: set<nat>)
    requires NoDup(q) && s == set x | x in q
    ensures |s| == |q|
  {
    if q != [] {
      var last := q[|q| - 1];
      var rest := q[..|q| - 1];
      var t := set x | x in rest;
      NoDupSize(rest, t);
      assert q == rest + [last];
      assert last !in rest;
      assert s == t + {last};
    }
  }

  lemma {:induction false} SizeBelow(n: nat, s: set<nat>)
    requires forall x | x in s :: x < n
    ensures |s| <= n
  {
    if s != {} {
      SizeBelow(n - 1, s - {n - 1});
    }
  }

  // ------------------------------------------------------ requests in flight

  /** How far a request has come: formatted, in the avail ring, taken by the device, in the
      used ring, seen by the interrupt handler. */
  datatype Stage = Prepared | Posted | Taken | Finished | Done

  /** The request whose chain is (h, d1, d2). `data` is what a write sends or a finished
      read received; `since` is the length of the device's history of transfers at the
      submission, `at` the place in it of a finished transfer. */
  datatype Req = Req(b: nat, write: bool, sector: nat, d1: nat, d2: nat, stage: Stage, data: Data, since: nat,
      at: nat, clears: nat)

  datatype Owner = Held | Chain(h: nat)

  datatype Xfer = Xfer(write: bool, sector: nat, data: Data)

  predicate Executed(stage: Stage) { stage.Finished? || stage.Done? }

  /** A sector after a history of transfers. */
  function Contents(log: seq<Xfer>, sector: nat): Data {
    if log == [] then []
    else if log[|log| - 1].write && log[|log| - 1].sector == sector then log[|log| - 1].data
    else Contents(log[..|log| - 1], sector)
  }

  /** Transfer w is the last write of this sector among the first n. */
  ghost predicate WrittenLast(log: seq<Xfer>, sector: nat, n: nat, w: nat) {
    && w < n <= |log| && log[w].write && log[w].sector == sector
    && forall k | w < k < n :: !(log[k].write && log[k].sector == sector)
  }

  lemma {:induction false} ReadsLastWrite(log: seq<Xfer>, sector: nat, n: nat, w: nat)
    requires WrittenLast(log, sector, n, w)
    ensures Contents(log[..n], sector) == log[w].data
    decreases n
  {
    if w < n - 1 {
      ReadsLastWrite(log, sector, n - 1, w);
      assert log[..n][..n - 1] == log[..n - 1];
    }
  }

  ghost predicate Member(h: nat, r: Req, i: nat) { i == h || i == r.d1 || i == r.d2 }

  ghost predicate Triple(owner: map<nat, Owner>, h: nat, r: Req) {
    && h != r.d1 && h != r.d2 && r.d1 != r.d2
    && h in owner && r.d1 in owner && r.d2 in owner
    && owner[h] == Chain(h) && owner[r.d1] == Chain(h) && owner[r.d2] == Chain(h)
  }

  ghost predicate OwnerOk(owner: map<nat, Owner>, flight: map<nat, Req>, i: nat) {
    i in owner && i < NUM && (owner[i].Chain? ==> owner[i].h in flight && Member(owner[i].h, flight[owner[i].h], i))
  }

  /** The descriptors that are not free are those held by the running code and, disjointly,
      the three of every request in flight. */
  ghost predicate Owned(free: seq<bool>, owner: map<nat, Owner>, flight: map<nat, Req>) {
    && |free| == NUM
    && (forall i: nat {:trigger free[i]} | i < NUM :: free[i] <==> i !in owner)
    && (forall i {:trigger OwnerOk(owner, flight, i)} | i in owner :: OwnerOk(owner, flight, i))
    && (forall h {:trigger Triple(owner, h, flight[h])} | h in flight :: Triple(owner, h, flight[h]))
  }

  /** The table says what the request says. */
  ghost predicate Format(desc: seq<Desc>, ops: seq<Op>, info: seq<Info>, h: nat, r: Req) {
    && |desc| == NUM && |ops| == NUM && |info| == NUM && h < NUM && r.d1 < NUM && r.d2 < NUM
    && ops[h] == Op(if r.write then T_OUT else T_IN, 0, r.sector)
    && desc[h] == Desc(OpAddr(h), 16, F_NEXT, r.d1)
    && desc[r.d1] == Desc(DataAddr(r.b), BSIZE, if r.write then F_NEXT else F_WRITE + F_NEXT, r.d2)
    && desc[r.d2] == Desc(StatusAddr(h), 1, F_WRITE, 0)
    && info[h] == Info(Some(r.b), if Executed(r.stage) then 0 else 0xff)
  }

  ghost predicate Formatted(desc: seq<Desc>, ops: seq<Op>, info: seq<Info>, flight: map<nat, Req>) {
    && |desc| == NUM && |ops| == NUM && |info| == NUM
    && forall h {:trigger Format(desc, ops, info, h, flight[h])} | h in flight :: Format(desc, ops, info, h, flight[h])
  }

  /** b->disk is set from the submission to the interrupt, and cleared once. */
  ghost predicate BufOk(bdisk: seq<bool>, bdata: seq<Data>, user: map<nat, nat>, h: nat, r: Req) {
    && |bdata| == |bdisk| && r.b < |bdisk| && r.b in user && user[r.b] == h
    && (bdisk[r.b] <==> !r.stage.Done?) && r.clears == (if r.stage.Done? then 1 else 0)
    && (r.write || Executed(r.stage) ==> bdata[r.b] == r.data)
  }

  ghost predicate Buffers(bdisk: seq<bool>, bdata: seq<Data>, user: map<nat, nat>, flight: map<nat, Req>) {
    && |bdata| == |bdisk|
    && (forall h {:trigger BufOk(bdisk, bdata, user, h, flight[h])} | h in flight ::
         BufOk(bdisk, bdata, user, h, flight[h]))
    && (forall b {:trigger user[b]} | b in user :: user[b] in flight && flight[user[b]].b == b)
  }

  ghost predicate Queued(q: seq<nat>, flight: map<nat, Req>, stage: Stage) {
    && NoDup(q)
    && (forall h | h in q :: h in flight && flight[h].stage == stage)
    && (forall h | h in flight && flight[h].stage == stage :: h in q)
  }

  ghost predicate Working(taken: set<nat>, flight: map<nat, Req>) {
    && (forall h | h in taken :: h in flight && flight[h].stage.Taken?)
    && (forall h | h in flight && flight[h].stage.Taken? :: h in taken)
  }

  /** Every finished request is one transfer of the device's history. */
  ghost predicate Transferred(log: seq<Xfer>, r: Req) {
    && r.since <= |log|
    && (Executed(r.stage) ==>
          && r.since <= r.at < |log| && log[r.at] == Xfer(r.write, r.sector, r.data)
          && (!r.write ==> r.data == Contents(log[..r.at], r.sector)))
  }

  ghost predicate Logged(log: seq<Xfer>, flight: map<nat, Req>) {
    forall h {:trigger Transferred(log, flight[h])} | h in flight :: Transferred(log, flight[h])
  }

  // --------------------------------------------------- the device's reading

  datatype Command = Command(write: bool, sector: nat, b: nat, status: nat)

  /** A block command as section 5.2 of virtio v1.1 lays it out: header, data, status. */
  function Decode(desc: seq<Desc>, ops: seq<Op>, h: nat): Option<Command> {
    if !(h < |desc| && desc[h].flags == F_NEXT && desc[h].addr.OpAddr? && desc[h].addr.i < |ops|) then None
    else
      var op := ops[desc[h].addr.i];
      var d1 := desc[h].next;
      if !(d1 < |desc| && desc[d1].addr.DataAddr? && op.kind in {T_IN, T_OUT}
           && desc[d1].flags == (if op.kind == T_OUT then F_NEXT else F_WRITE + F_NEXT)) then None
      else
        var d2 := desc[d1].next;
        if !(d2 < |desc| && desc[d2].addr.StatusAddr? && desc[d2].flags == F_WRITE) then None
        else Some(Command(op.kind == T_OUT, op.sector, desc[d1].addr.b, desc[d2].addr.i))
  }

  /** The device reads from the table exactly the request that was submitted. */
  lemma DecodesRequest(desc: seq<Desc>, ops: seq<Op>, info: seq<Info>, h: nat, r: Req)
    requires Format(desc, ops, info, h, r)
    ensures Decode(desc, ops, h) == Some(Command(r.write, r.sector, r.b, h))
  {
  }

  // ------------------------------------------- what one request's step keeps

  /** The two maps agree on every request but h. */
  ghost predicate OneReq(f: map<nat, Req>, f': map<nat, Req>, h: nat) {
    && (forall g {:trigger f'[g]} {:trigger g in f'} | g in f && g != h :: g in f' && f'[g] == f[g])
    && (forall g {:trigger f[g]} {:trigger g in f} | g in f' && g != h :: g in f)
  }

  ghost predicate At(f: map<nat, Req>, h: nat, stage: Stage) { h in f && f[h].stage == stage }

  lemma QueueSame(q: seq<nat>, f: map<nat, Req>, f': map<nat, Req>, h: nat, stage: Stage)
    requires Queued(q, f, stage) && OneReq(f, f', h) && (At(f, h, stage) <==> At(f', h, stage))
    ensures Queued(q, f', stage)
  {
  }

  lemma QueueEnter(q: seq<nat>, f: map<nat, Req>, f': map<nat, Req>, h: nat, stage: Stage)
    requires Queued(q, f, stage) && OneReq(f, f', h) && !At(f, h, stage) && At(f', h, stage)
    ensures Queued(q + [h], f', stage)
  {
  }

  lemma QueueLeave(q: seq<nat>, f: map<nat, Req>, f': map<nat, Req>, h: nat, stage: Stage)
    requires Queued(q, f, stage) && OneReq(f, f', h) && q != [] && q[0] == h && !At(f', h, stage)
    ensures Queued(q[1..], f', stage)
  {
  }

  lemma WorkingOne(taken: set<nat>, taken': set<nat>, f: map<nat, Req>, f': map<nat, Req>, h: nat)
    requires Working(taken, f) && OneReq(f, f', h) && (forall g | g != h :: g in taken' <==> g in taken)
    requires h in taken' <==> At(f', h, Taken)
    ensures Working(taken', f')
  {
  }

  lemma FormattedOne(desc: seq<Desc>, ops: seq<Op>, info: seq<Info>, info': seq<Info>, f: map<nat, Req>,
                     f': map<nat, Req>, h: nat)
    requires Formatted(desc, ops, info, f) && OneReq(f, f', h) && |info'| == |info|
    requires forall i | 0 <= i < |info| && i != h :: info'[i] == info[i]
    requires h in f' ==> Format(desc, ops, info', h, f'[h])
    ensures Formatted(desc, ops, info', f')
  {
    forall g | g in f'
      ensures Format(desc, ops, info', g, f'[g])
    {
      if g != h {
        assert g in f && Format(desc, ops, info, g, f[g]);
      }
    }
  }

  /** Writing a descriptor, header or info record that belongs to no request. */
  lemma HeldRow(free: seq<bool>, owner: map<nat, Owner>, desc: seq<Desc>, ops: seq<Op>, info: seq<Info>,
                f: map<nat, Req>,
                i: nat, desc': seq<Desc>, ops': seq<Op>, info': seq<Info>)
    requires Owned(free, owner, f) && Formatted(desc, ops, info, f) && i in owner && owner[i].Held?
    requires |desc'| == |desc| && |ops'| == |ops| && |info'| == |info|
    requires forall j | 0 <= j < NUM && j != i :: desc'[j] == desc[j] && ops'[j] == ops[j] && info'[j] == info[j]
    ensures Formatted(desc', ops', info', f)
  {
    forall g | g in f
      ensures Format(desc', ops', info', g, f[g])
    {
      assert Format(desc, ops, info, g, f[g]) && Triple(owner, g, f[g]);
    }
  }

  lemma BuffersOne(bdisk: seq<bool>, bdata: seq<Data>, user: map<nat, nat>, f: map<nat, Req>, h: nat, b: nat,
                   bdisk': seq<bool>, bdata': seq<Data>, user': map<nat, nat>, f': map<nat, Req>)
    requires Buffers(bdisk, bdata, user, f) && OneReq(f, f', h) && b < |bdisk| == |bdisk'| == |bdata'|
    requires forall c | 0 <= c < |bdisk| && c != b :: bdisk'[c] == bdisk[c] && bdata'[c] == bdata[c]
    requires forall c {:trigger c in user'} {:trigger c in user} | c != b ::
               (c in user' <==> c in user) && (c in user ==> user'[c] == user[c])
    requires if h in f then f[h].b == b else b !in user
    requires if h in f' then f'[h].b == b && BufOk(bdisk', bdata', user', h, f'[h]) else b !in user'
    ensures Buffers(bdisk', bdata', user', f')
  {
    assert h in f ==> BufOk(bdisk, bdata, user, h, f[h]);
    forall g | g in f'
      ensures BufOk(bdisk', bdata', user', g, f'[g])
    {
      if g != h {
        assert g in f && BufOk(bdisk, bdata, user, g, f[g]);
        assert f[g].b != b;
      }
    }
    forall c | c in user'
      ensures user'[c] in f' && f'[user'[c]].b == c
    {
      if c != b {
        assert c in user && user[c] in f && f[user[c]].b == c;
        assert user[c] != h;
      } else {
        assert h in f';
      }
    }
  }

  lemma LoggedOne(log: seq<Xfer>, log': seq<Xfer>, f: map<nat, Req>, f': map<nat, Req>, h: nat)
    requires Logged(log, f) && log <= log' && OneReq(f, f', h) && (h in f' ==> Transferred(log', f'[h]))
    ensures Logged(log', f')
  {
    forall g | g in f'
      ensures Transferred(log', f'[g])
    {
      if g != h {
        assert g in f && Transferred(log, f[g]);
        assert Executed(f[g].stage) ==> log'[..f[g].at] == log[..f[g].at];
      }
    }
  }

  lemma OwnedSame(free: seq<bool>, owner: map<nat, Owner>, f: map<nat, Req>, f': map<nat, Req>, h: nat)
    requires Owned(free, owner, f) && OneReq(f, f', h) && h in f && h in f' && f'[h].d1 == f[h].d1
             && f'[h].d2 == f[h].d2
    ensures Owned(free, owner, f')
  {
    forall i | i in owner
      ensures OwnerOk(owner, f', i)
    {
      assert OwnerOk(owner, f, i);
    }
    forall g | g in f'
      ensures Triple(owner, g, f'[g])
    {
      assert g in f && Triple(owner, g, f[g]);
    }
  }

  /** Three held descriptors become a chain. */
  lemma OwnedAdd(free: seq<bool>, owner: map<nat, Owner>, f: map<nat, Req>, h: nat, r: Req, owner': map<nat, Owner>,
                 f': map<nat, Req>)
    requires Owned(free, owner, f) && h != r.d1 && h != r.d2 && r.d1 != r.d2
    requires forall i | Member(h, r, i) :: i in owner && owner[i].Held?
    requires owner' == owner[h := Chain(h)][r.d1 := Chain(h)][r.d2 := Chain(h)] && f' == f[h := r]
    ensures h !in f && Owned(free, owner', f')
  {
    assert Member(h, r, h) && Member(h, r, r.d1) && Member(h, r, r.d2);
    assert h in f ==> Triple(owner, h, f[h]);
    forall i: nat | i < NUM
      ensures free[i] <==> i !in owner'
    {
      assert free[i] <==> i !in owner;
    }
    forall i | i in owner'
      ensures OwnerOk(owner', f', i)
    {
      assert i in owner && OwnerOk(owner, f, i);
    }
    forall g | g in f'
      ensures Triple(owner', g, f'[g])
    {
      assert g != h ==> Triple(owner, g, f[g]);
    }
  }

  /** A chain is given up: its three descriptors are held by the running code. */
  lemma OwnedRemove(free: seq<bool>, owner: map<nat, Owner>, f: map<nat, Req>, h: nat, owner': map<nat, Owner>,
                    f': map<nat, Req>)
    requires Owned(free, owner, f) && h in f
    requires owner' == owner[h := Held][f[h].d1 := Held][f[h].d2 := Held] && f' == f - {h}
    ensures Owned(free, owner', f')
  {
    assert Triple(owner, h, f[h]);
    forall i: nat | i < NUM
      ensures free[i] <==> i !in owner'
    {
      assert free[i] <==> i !in owner;
    }
    forall i | i in owner'
      ensures OwnerOk(owner', f', i)
    {
      assert OwnerOk(owner, f, i);
      assert owner[i] == Chain(h) ==> Member(h, f[h], i);
    }
    forall g | g in f'
      ensures Triple(owner', g, f'[g])
    {
      assert Triple(owner, g, f[g]);
    }
  }

  lemma OwnedTake(free: seq<bool>, owner: map<nat, Owner>, f: map<nat, Req>, i: nat, free': seq<bool>,
                  owner': map<nat, Owner>)
    requires Owned(free, owner, f) && i < NUM && free[i] && free' == free[i := false] && owner' == owner[i := Held]
    ensures Owned(free', owner', f)
  {
    assert i !in owner;
    forall j: nat | j < NUM
      ensures free'[j] <==> j !in owner'
    {
      assert free[j] <==> j !in owner;
    }
    forall j | j in owner'
      ensures OwnerOk(owner', f, j)
    {
      assert j != i ==> OwnerOk(owner, f, j);
    }
    forall g | g in f
      ensures Triple(owner', g, f[g])
    {
      assert Triple(owner, g, f[g]);
    }
  }

  lemma OwnedGive(free: seq<bool>, owner: map<nat, Owner>, f: map<nat, Req>, i: nat, free': seq<bool>,
                  owner': map<nat, Owner>)
    requires Owned(free, owner, f) && i < NUM && i in owner && owner[i].Held? && free' == free[i := true]
             && owner' == owner - {i}
    ensures Owned(free', owner', f)
  {
    forall j: nat | j < NUM
      ensures free'[j] <==> j !in owner'
    {
      assert free[j] <==> j !in owner;
    }
    forall j | j in owner'
      ensures OwnerOk(owner', f, j)
    {
      assert OwnerOk(owner, f, j);
    }
    forall g | g in f
      ensures Triple(owner', g, f[g])
    {
      assert Triple(owner, g, f[g]);
    }
  }

  // ---------------------------------------------------------- the whole state

  function Block(blocks: map<nat, Data>, sector: nat): Data {
    if sector in blocks then blocks[sector] else []
  }

  ghost predicate BlocksOk(blocks: map<nat, Data>, log: seq<Xfer>) {
    forall sector: nat {:trigger Contents(log, sector)} :: Block(blocks, sector) == Contents(log, sector)
  }

  /** History: how many avail and used entries have been consumed, the entries waiting in the
      two rings, the requests in flight, who owns each descriptor that is not free, which
      request uses a buffer, and the transfers made. */
  datatype Hist = Hist(nSeen: nat, nLook: nat, posted: seq<nat>, finished: seq<nat>,
                       flight: map<nat, Req>, owner: map<nat, Owner>, user: map<nat, nat>, log: seq<Xfer>)

  /** A snapshot of driver, shared memory and device, with the history kept about them. */
  datatype View = View(
    free: seq<bool>, desc: seq<Desc>, ops: seq<Op>, info: seq<Info>, avail: seq<nat>, used: seq<nat>,
        bdisk: seq<bool>, bdata: seq<Data>,
    availIdx: nat, usedIdx: nat, lookIdx: nat, seenIdx: nat, taken: set<nat>, blocks: map<nat, Data>,
    nSeen: nat, nLook: nat, posted: seq<nat>, finished: seq<nat>,
    flight: map<nat, Req>, owner: map<nat, Owner>, user: map<nat, nat>, log: seq<Xfer>)

  ghost predicate HeldIs(owner: map<nat, Owner>, held: set<nat>) {
    forall i: nat {:trigger i in held} {:trigger i in owner} :: i in held <==> i in owner && owner[i].Held?
  }

  ghost predicate Tables(v: View) {
    Owned(v.free, v.owner, v.flight) && Formatted(v.desc, v.ops, v.info, v.flight)
        && Buffers(v.bdisk, v.bdata, v.user, v.flight)
  }

  ghost predicate Queues(v: View) {
    && Queued(v.posted, v.flight, Posted) && Queued(v.finished, v.flight, Finished) && Working(v.taken, v.flight)
    && Ring(v.avail, v.availIdx, v.seenIdx, v.nSeen, v.posted)
    && Ring(v.used, v.usedIdx, v.lookIdx, v.nLook, v.finished)
  }

  ghost predicate History(v: View) { Logged(v.log, v.flight) && BlocksOk(v.blocks, v.log) }

  ghost predicate Ok(v: View, held: set<nat>) {
    HeldIs(v.owner, held) && Tables(v) && Queues(v) && History(v)
  }

  /** Requests in f go on in g: none is lost or exchanged, and a finished transfer stays. */
  ghost predicate Goes(f: map<nat, Req>, g: map<nat, Req>, h: nat) {
    h in f ==>
      && h in g && g[h].b == f[h].b && g[h].write == f[h].write && g[h].sector == f[h].sector
      && g[h].d1 == f[h].d1 && g[h].d2 == f[h].d2 && g[h].since == f[h].since
      && (f[h].write || Executed(f[h].stage) ==> g[h].data == f[h].data)
      && (Executed(f[h].stage) ==> Executed(g[h].stage) && g[h].at == f[h].at)
      && (f[h].stage.Done? ==> g[h].stage.Done?)
  }

  ghost predicate GoOn(f: map<nat, Req>, g: map<nat, Req>) {
    forall h {:trigger Goes(f, g, h)} | h in f :: Goes(f, g, h)
  }

  lemma GoOnTrans(f: map<nat, Req>, g: map<nat, Req>, k: map<nat, Req>)
    requires GoOn(f, g) && GoOn(g, k)
    ensures GoOn(f, k)
  {
    forall h | h in f
      ensures Goes(f, k, h)
    {
      assert Goes(f, g, h) && Goes(g, k, h);
    }
  }

  /** What the device does to requests: none is added or dropped, and one not yet in the avail
      ring is not touched. */
  ghost predicate Serves(f: map<nat, Req>, g: map<nat, Req>) {
    && g.Keys == f.Keys && GoOn(f, g)
    && forall h {:trigger g[h]} {:trigger f[h]} | h in f && f[h].stage.Prepared? :: g[h] == f[h]
  }

  ghost predicate DeviceOnly(a: Hist, b: Hist) {
    Serves(a.flight, b.flight) && b.owner == a.owner && b.user == a.user && a.log <= b.log
  }

  lemma ServesTrans(f: map<nat, Req>, g: map<nat, Req>, k: map<nat, Req>)
    requires Serves(f, g) && Serves(g, k)
    ensures Serves(f, k)
  {
    GoOnTrans(f, g, k);
    forall h | h in f && f[h].stage.Prepared?
      ensures k[h] == f[h]
    {
      assert g[h] == f[h];
    }
  }

  lemma GoOnSame(f: map<nat, Req>)
    ensures GoOn(f, f)
  {
  }

  lemma GoOnOne(f: map<nat, Req>, g: map<nat, Req>, h: nat)
    requires OneReq(f, g, h) && Goes(f, g, h)
    ensures GoOn(f, g)
  {
  }

  // -------------------------------------------- the device takes a request

  lemma TakeKeeps(v: View, held: set<nat>, h: nat, v': View)
    requires Ok(v, held) && v.posted != [] && h == v.posted[0] && h in v.flight
    requires v' == v.(seenIdx := Bump(v.seenIdx), taken := v.taken + {h}, nSeen := v.nSeen + 1, posted := v.posted[1..],
                      flight := v.flight[h := v.flight[h].(stage := Taken)])
    ensures Ok(v', held) && Serves(v.flight, v'.flight)
  {
    assert At(v.flight, h, Posted);
    StageTables(v, h, Taken, v');
    RingPop(v.avail, v.availIdx, v.seenIdx, v.nSeen, v.posted);
    QueueLeave(v.posted, v.flight, v'.flight, h, Posted);
    QueueSame(v.finished, v.flight, v'.flight, h, Finished);
    WorkingOne(v.taken, v'.taken, v.flight, v'.flight, h);
    assert Transferred(v.log, v.flight[h]);
    LoggedOne(v.log, v.log, v.flight, v'.flight, h);
    GoOnOne(v.flight, v'.flight, h);
  }

  /** Moving an unfinished request on does not touch the tables. */
  lemma StageTables(v: View, h: nat, stage: Stage, v': View)
    requires Tables(v) && h in v.flight && !Executed(v.flight[h].stage) && !Executed(stage)
    requires v'.flight == v.flight[h := v.flight[h].(stage := stage)]
    requires v' == v.(seenIdx := v'.seenIdx, availIdx := v'.availIdx, taken := v'.taken, nSeen := v'.nSeen,
             posted := v'.posted,
                      avail := v'.avail, flight := v'.flight)
    ensures Tables(v')
  {
    var f := v.flight;
    OwnedSame(v.free, v.owner, f, v'.flight, h);
    assert Format(v.desc, v.ops, v.info, h, f[h]);
    FormattedOne(v.desc, v.ops, v.info, v.info, f, v'.flight, h);
    assert BufOk(v.bdisk, v.bdata, v.user, h, f[h]);
    BuffersOne(v.bdisk, v.bdata, v.user, f, h, f[h].b, v.bdisk, v.bdata, v.user, v'.flight);
  }

  // -------------------------------------- the device carries out a request

  /** The device has carried out the chain of h, which asked for transfer x. */
  ghost predicate ExecutesTo(v: View, h: nat, x: Xfer, v': View) {
    && h in v.flight && v.flight[h].b < |v.bdata| && h < |v.info| && |v.used| == NUM
    && v' == v.(bdata := if x.write then v.bdata else v.bdata[v.flight[h].b := x.data],
                blocks := if x.write then v.blocks[x.sector := x.data] else v.blocks,
                info := v.info[h := Info(v.info[h].b, 0)], taken := v.taken - {h}, log := v.log + [x],
                used := v.used[v.usedIdx % NUM := h], usedIdx := Bump(v.usedIdx), finished := v.finished + [h],
                flight := v.flight[h := v.flight[h].(stage := Finished, data := x.data, at := |v.log|)])
  }

  lemma ExecuteKeeps(v: View, held: set<nat>, h: nat, x: Xfer, v': View)
    requires Ok(v, held) && h in v.taken && ExecutesTo(v, h, x, v')
    requires var r := v.flight[h];
               x == Xfer(r.write, r.sector, if r.write then v.bdata[r.b] else Block(v.blocks, r.sector))
    ensures Ok(v', held) && Serves(v.flight, v'.flight)
  {
    assert At(v.flight, h, Taken);
    ExecuteTables(v, h, x, v');
    ExecuteQueues(v, h, v');
    ExecuteHistory(v, h, x, v');
    assert BufOk(v.bdisk, v.bdata, v.user, h, v.flight[h]);
    GoOnOne(v.flight, v'.flight, h);
  }

  /** What the device can rely on about a chain it has taken. */
  lemma TakenChain(v: View, held: set<nat>, h: nat)
    requires Ok(v, held) && h in v.taken
    ensures h in v.flight && h < NUM == |v.info| == |v.used| && v.flight[h].b < |v.bdata| && v.flight[h].b in v.user
    ensures Decode(v.desc, v.ops, h) == Some(Command(v.flight[h].write, v.flight[h].sector, v.flight[h].b, h))
  {
    var r := v.flight[h];
    assert Format(v.desc, v.ops, v.info, h, r) && BufOk(v.bdisk, v.bdata, v.user, h, r);
    DecodesRequest(v.desc, v.ops, v.info, h, r);
  }

  /** The head at the driver's index of the used ring names a request that succeeded, and its
      record names that request's buffer. */
  lemma NextFinished(v: View, held: set<nat>)
    requires Ok(v, held)
    ensures |v.used| == |v.info| == NUM && (v.lookIdx != v.usedIdx <==> v.finished != [])
    ensures v.finished != [] ==>
              var h := v.used[v.lookIdx % NUM];
              && h == v.finished[0] && At(v.flight, h, Finished) && h < NUM
              && v.info[h] == Info(Some(v.flight[h].b), 0) && v.flight[h].b < |v.bdisk| && v.bdisk[v.flight[h].b]
  {
    RingEmpty(v.used, v.usedIdx, v.lookIdx, v.nLook, v.finished);
    if v.finished != [] {
      RingPop(v.used, v.usedIdx, v.lookIdx, v.nLook, v.finished);
      var h := v.finished[0];
      assert At(v.flight, h, Finished);
      assert Format(v.desc, v.ops, v.info, h, v.flight[h]) && BufOk(v.bdisk, v.bdata, v.user, h, v.flight[h]);
    }
  }

  /** The head at the device's index of the avail ring. */
  lemma NextPosted(v: View, held: set<nat>)
    requires Ok(v, held)
    ensures |v.avail| == NUM && (v.seenIdx != v.availIdx <==> v.posted != [])
    ensures v.posted != [] ==> v.avail[v.seenIdx % NUM] == v.posted[0] && v.posted[0] in v.flight
  {
    RingEmpty(v.avail, v.availIdx, v.seenIdx, v.nSeen, v.posted);
    if v.posted != [] {
      RingPop(v.avail, v.availIdx, v.seenIdx, v.nSeen, v.posted);
    }
  }

  lemma ExecuteTables(v: View, h: nat, x: Xfer, v': View)
    requires Tables(v) && At(v.flight, h, Taken) && v.flight[h].b < |v.bdata| && h < |v.info|
    requires x.write == v.flight[h].write && (x.write ==> x.data == v.bdata[v.flight[h].b])
    requires v'.flight == v.flight[h := v.flight[h].(stage := Finished, data := x.data, at := |v.log|)]
    requires v'.info == v.info[h := Info(v.info[h].b, 0)]
    requires v'.bdata == if x.write then v.bdata else v.bdata[v.flight[h].b := x.data]
    requires v'.free == v.free && v'.owner == v.owner && v'.desc == v.desc && v'.ops == v.ops && v'.bdisk == v.bdisk
             && v'.user == v.user
    ensures Tables(v')
  {
    var f := v.flight;
    OwnedSame(v.free, v.owner, f, v'.flight, h);
    assert Format(v.desc, v.ops, v.info, h, f[h]);
    FormattedOne(v.desc, v.ops, v.info, v'.info, f, v'.flight, h);
    assert BufOk(v.bdisk, v.bdata, v.user, h, f[h]);
    BuffersOne(v.bdisk, v.bdata, v.user, f, h, f[h].b, v.bdisk, v'.bdata, v.user, v'.flight);
  }

  lemma ExecuteQueues(v: View, h: nat, v': View)
    requires Tables(v) && Queues(v) && At(v.flight, h, Taken)
    requires OneReq(v.flight, v'.flight, h) && At(v'.flight, h, Finished)
    requires v'.used == v.used[v.usedIdx % NUM := h] && v'.usedIdx == Bump(v.usedIdx) && v'.finished == v.finished + [h]
    requires v'.taken == v.taken - {h} && v'.posted == v.posted && v'.avail == v.avail && v'.availIdx == v.availIdx
    requires v'.seenIdx == v.seenIdx && v'.nSeen == v.nSeen && v'.lookIdx == v.lookIdx && v'.nLook == v.nLook
    ensures Queues(v')
  {
    QueueSame(v.posted, v.flight, v'.flight, h, Posted);
    QueueEnter(v.finished, v.flight, v'.flight, h, Finished);
    WorkingOne(v.taken, v'.taken, v.flight, v'.flight, h);
    forall g | g in v'.finished
      ensures g < NUM
    {
      var k := if g == h then h else g;
      assert k in v.flight && Format(v.desc, v.ops, v.info, k, v.flight[k]);
    }
    Fits(v'.finished);
    RingWrite(v.used, v.usedIdx, v.lookIdx, v.nLook, v.finished, h, v'.used);
    RingPost(v'.used, v.usedIdx, v.lookIdx, v.nLook, v.finished, h);
  }

  lemma ExecuteHistory(v: View, h: nat, x: Xfer, v': View)
    requires History(v) && h in v.flight
    requires var r := v.flight[h];
               x.write == r.write && x.sector == r.sector && (!r.write ==> x.data == Block(v.blocks, r.sector))
    requires v'.flight == v.flight[h := v.flight[h].(stage := Finished, data := x.data, at := |v.log|)]
    requires v'.log == v.log + [x] && v'.blocks == if x.write then v.blocks[x.sector := x.data] else v.blocks
    ensures History(v')
  {
    assert v'.log[..|v.log|] == v.log && Transferred(v.log, v.flight[h]);
    assert Contents(v.log, x.sector) == Block(v.blocks, x.sector);
    LoggedOne(v.log, v'.log, v.flight, v'.flight, h);
    forall sector: nat
      ensures Block(v'.blocks, sector) == Contents(v'.log, sector)
    {
      assert Contents(v.log, sector) == Block(v.blocks, sector);
    }
  }

  // ------------------------------------------------------ the driver's steps

  lemma TakeDescKeeps(v: View, held: set<nat>, i: nat, v': View)
    requires Ok(v, held) && i < NUM && i < |v.free| && v.free[i]
    requires v' == v.(free := v.free[i := false], owner := v.owner[i := Held])
    ensures Ok(v', held + {i}) && i !in held
  {
    OwnedTake(v.free, v.owner, v.flight, i, v'.free, v'.owner);
  }

  lemma GiveDescKeeps(v: View, held: set<nat>, i: nat, v': View)
    requires Ok(v, held) && i in held && i < |v.free|
    requires v' == v.(free := v.free[i := true], owner := v.owner - {i})
    ensures Ok(v', held - {i})
  {
    assert OwnerOk(v.owner, v.flight, i);
    OwnedGive(v.free, v.owner, v.flight, i, v'.free, v'.owner);
  }

  /** Rows of the tables that belong to the running code may be written. */
  lemma RowKeeps(v: View, held: set<nat>, i: nat, v': View)
    requires Ok(v, held) && i in held && |v'.desc| == |v'.ops| == |v'.info| == NUM
    requires forall j | 0 <= j < NUM && j != i ::
               && |v.desc| == |v.ops| == |v.info| == NUM && v'.desc[j] == v.desc[j] && v'.ops[j] == v.ops[j]
               && v'.info[j] == v.info[j]
    requires v' == v.(desc := v'.desc, ops := v'.ops, info := v'.info)
    ensures Ok(v', held)
  {
    HeldRow(v.free, v.owner, v.desc, v.ops, v.info, v.flight, i, v'.desc, v'.ops, v'.info);
  }

  /** The data of a buffer that is not with the disk may change. */
  lemma FillKeeps(v: View, b: nat, data: Data, v': View)
    requires Ok(v, {}) && b < |v.bdata| && b !in v.user && v' == v.(bdata := v.bdata[b := data])
    ensures Ok(v', {})
  {
    forall h | h in v.flight
      ensures BufOk(v.bdisk, v'.bdata, v.user, h, v.flight[h])
    {
      assert BufOk(v.bdisk, v.bdata, v.user, h, v.flight[h]);
    }
  }

  /** A formatted chain becomes a request. */
  lemma PrepareKeeps(v: View, h: nat, r: Req, v': View)
    requires Ok(v, {h, r.d1, r.d2}) && h != r.d1 && h != r.d2 && r.d1 != r.d2
    requires Format(v.desc, v.ops, v.info, h, r) && r.stage.Prepared? && r.clears == 0 && r.since == |v.log|
    requires r.b < |v.bdisk| && r.b < |v.bdata| && r.b !in v.user && (r.write ==> v.bdata[r.b] == r.data)
    requires v' == v.(bdisk := v.bdisk[r.b := true], user := v.user[r.b := h], flight := v.flight[h := r],
                      owner := v.owner[h := Chain(h)][r.d1 := Chain(h)][r.d2 := Chain(h)])
    ensures Ok(v', {}) && h !in v.flight && GoOn(v.flight, v'.flight)
  {
    OwnedAdd(v.free, v.owner, v.flight, h, r, v'.owner, v'.flight);
    FormattedOne(v.desc, v.ops, v.info, v.info, v.flight, v'.flight, h);
    BuffersOne(v.bdisk, v.bdata, v.user, v.flight, h, r.b, v'.bdisk, v.bdata, v'.user, v'.flight);
    QueueSame(v.posted, v.flight, v'.flight, h, Posted);
    QueueSame(v.finished, v.flight, v'.flight, h, Finished);
    WorkingOne(v.taken, v.taken, v.flight, v'.flight, h);
    LoggedOne(v.log, v.log, v.flight, v'.flight, h);
    GoOnOne(v.flight, v'.flight, h);
  }

  /** There is a free slot in the avail ring for a request not yet posted. */
  lemma RoomToPost(v: View, h: nat)
    requires Tables(v) && Queues(v) && At(v.flight, h, Prepared)
    ensures |v.posted| < NUM
  {
    var q := v.posted + [h];
    assert h !in v.posted;
    forall g | g in q
      ensures g < NUM
    {
      assert g in v.flight && Format(v.desc, v.ops, v.info, g, v.flight[g]);
    }
    Fits(q);
  }

  lemma RingSlotKeeps(v: View, held: set<nat>, h: nat, v': View)
    requires Ok(v, held) && At(v.flight, h, Prepared) && |v.avail| == NUM
             && v' == v.(avail := v.avail[v.availIdx % NUM := h])
    ensures Ok(v', held)
  {
    RoomToPost(v, h);
    RingWrite(v.avail, v.availIdx, v.seenIdx, v.nSeen, v.posted, h, v'.avail);
  }

  lemma PostKeeps(v: View, held: set<nat>, h: nat, v': View)
    requires Ok(v, held) && At(v.flight, h, Prepared) && |v.avail| == NUM && v.avail[v.availIdx % NUM] == h
    requires v' == v.(availIdx := Bump(v.availIdx), posted := v.posted + [h],
             flight := v.flight[h := v.flight[h].(stage := Posted)])
    ensures Ok(v', held) && GoOn(v.flight, v'.flight)
  {
    StageTables(v, h, Posted, v');
    RoomToPost(v, h);
    RingPost(v.avail, v.availIdx, v.seenIdx, v.nSeen, v.posted, h);
    QueueEnter(v.posted, v.flight, v'.flight, h, Posted);
    QueueSame(v.finished, v.flight, v'.flight, h, Finished);
    WorkingOne(v.taken, v.taken, v.flight, v'.flight, h);
    assert Transferred(v.log, v.flight[h]);
    LoggedOne(v.log, v.log, v.flight, v'.flight, h);
    GoOnOne(v.flight, v'.flight, h);
  }

  /** The interrupt handler clears the flag of the buffer of a used entry. */
  lemma ClearKeeps(v: View, held: set<nat>, h: nat, b: nat, v': View)
    requires Ok(v, held) && v.finished != [] && h == v.finished[0] && h in v.flight && b == v.flight[h].b
             && b < |v.bdisk|
    requires v' == v.(bdisk := v.bdisk[b := false], lookIdx := Bump(v.lookIdx), nLook := v.nLook + 1,
             finished := v.finished[1..],
                      flight := v.flight[h := v.flight[h].(stage := Done, clears := v.flight[h].clears + 1)])
    ensures Ok(v', held) && GoOn(v.flight, v'.flight)
  {
    var f := v.flight;
    assert At(f, h, Finished);
    OwnedSame(v.free, v.owner, f, v'.flight, h);
    assert Format(v.desc, v.ops, v.info, h, f[h]);
    FormattedOne(v.desc, v.ops, v.info, v.info, f, v'.flight, h);
    assert BufOk(v.bdisk, v.bdata, v.user, h, f[h]);
    BuffersOne(v.bdisk, v.bdata, v.user, f, h, b, v'.bdisk, v.bdata, v.user, v'.flight);
    ClearQueues(v, h, v');
    assert Transferred(v.log, f[h]);
    LoggedOne(v.log, v.log, f, v'.flight, h);
    GoOnOne(f, v'.flight, h);
  }

  lemma ClearQueues(v: View, h: nat, v': View)
    requires Queues(v) && v.finished != [] && h == v.finished[0] && OneReq(v.flight, v'.flight, h)
             && At(v'.flight, h, Done)
    requires v' == v.(bdisk := v'.bdisk, lookIdx := Bump(v.lookIdx), nLook := v.nLook + 1,
             finished := v.finished[1..], flight := v'.flight)
    ensures Queues(v')
  {
    assert At(v.flight, h, Finished);
    RingPop(v.used, v.usedIdx, v.lookIdx, v.nLook, v.finished);
    QueueLeave(v.finished, v.flight, v'.flight, h, Finished);
    QueueSame(v.posted, v.flight, v'.flight, h, Posted);
    WorkingOne(v.taken, v.taken, v.flight, v'.flight, h);
  }

  /** A request whose flag is clear is given up, its three descriptors with it. */
  lemma RetireKeeps(v: View, h: nat, v': View)
    requires Ok(v, {}) && At(v.flight, h, Done)
    requires v' == v.(user := v.user - {v.flight[h].b}, flight := v.flight - {h},
                      owner := v.owner[h := Held][v.flight[h].d1 := Held][v.flight[h].d2 := Held])
    ensures Ok(v', {h, v.flight[h].d1, v.flight[h].d2})
  {
    OwnedRemove(v.free, v.owner, v.flight, h, v'.owner, v'.flight);
    FormattedOne(v.desc, v.ops, v.info, v.info, v.flight, v'.flight, h);
    assert BufOk(v.bdisk, v.bdata, v.user, h, v.flight[h]);
    BuffersOne(v.bdisk, v.bdata, v.user, v.flight, h, v.flight[h].b, v.bdisk, v.bdata, v'.user, v'.flight);
    QueueSame(v.posted, v.flight, v'.flight, h, Posted);
    QueueSame(v.finished, v.flight, v'.flight, h, Finished);
    WorkingOne(v.taken, v.taken, v.flight, v'.flight, h);
    LoggedOne(v.log, v.log, v.flight, v'.flight, h);
  }

  /** The transfer that request r asked for has been made, once, since its submission. */
  ghost predicate Returned(log: seq<Xfer>, r: Req, bdata: seq<Data>) {
    && r.clears == 1 && r.b < |bdata| && r.since <= r.at < |log|
    && log[r.at] == Xfer(r.write, r.sector, bdata[r.b])
    && (!r.write ==> bdata[r.b] == Contents(log[..r.at], r.sector))
  }

  /** A thread that finds its flag clear finds its transfer made. */
  lemma FlagTells(v: View, held: set<nat>, h: nat)
    requires Ok(v, held) && h in v.flight
    ensures v.flight[h].b < |v.bdisk| == |v.bdata| && h < NUM == |v.info| == |v.desc|
    ensures v.bdisk[v.flight[h].b] <==> !At(v.flight, h, Done)
    ensures Format(v.desc, v.ops, v.info, h, v.flight[h]) && Triple(v.owner, h, v.flight[h])
    ensures At(v.flight, h, Done) ==> Returned(v.log, v.flight[h], v.bdata)
  {
    assert BufOk(v.bdisk, v.bdata, v.user, h, v.flight[h]) && Format(v.desc, v.ops, v.info, h, v.flight[h]);
    assert Transferred(v.log, v.flight[h]) && Triple(v.owner, h, v.flight[h]);
  }

  // ------------------------------------------------------------- submissions

  /** Between a and b, request h for this transfer has been added and nothing else. */
  ghost predicate Submitted(a: Hist, b: Hist, h: nat, buf: nat, write: bool, sector: nat, data: Data) {
    && h !in a.flight && b.flight.Keys == a.flight.Keys + {h} && b.user == a.user[buf := h]
    && GoOn(a.flight, b.flight) && a.log <= b.log
    && var r := b.flight[h];
       r.b == buf && r.write == write && r.sector == sector && r.since >= |a.log| && (write ==> r.data == data)
  }

  /** The same requests, further on. */
  ghost predicate Onward(a: Hist, b: Hist) {
    b.flight.Keys == a.flight.Keys && GoOn(a.flight, b.flight) && b.user == a.user && a.log <= b.log
  }

  lemma OnwardTrans(a: Hist, b: Hist, c: Hist)
    requires Onward(a, b) && Onward(b, c)
    ensures Onward(a, c)
  {
    GoOnTrans(a.flight, b.flight, c.flight);
  }

  lemma SubmittedOnward(a: Hist, b: Hist, c: Hist, h: nat, buf: nat, write: bool, sector: nat, data: Data)
    requires Submitted(a, b, h, buf, write, sector, data) && Onward(b, c)
    ensures Submitted(a, c, h, buf, write, sector, data)
  {
    GoOnTrans(a.flight, b.flight, c.flight);
    assert Goes(b.flight, c.flight, h);
  }

  lemma OnwardSubmitted(a: Hist, b: Hist, c: Hist, h: nat, buf: nat, write: bool, sector: nat, data: Data)
    requires Onward(a, b) && Submitted(b, c, h, buf, write, sector, data)
    ensures Submitted(a, c, h, buf, write, sector, data)
  {
    GoOnTrans(a.flight, b.flight, c.flight);
  }

  lemma PrepareSubmits(a: Hist, b: Hist, h: nat, r: Req)
    requires h !in a.flight && b.flight == a.flight[h := r] && b.user == a.user[r.b := h] && b.log == a.log
             && r.since == |a.log|
    ensures Submitted(a, b, h, r.b, r.write, r.sector, r.data)
  {
  }

  // ------------------------------------------------------------- completions

  ghost function Pending(f: map<nat, Req>): set<nat> { set h | h in f && !f[h].stage.Done? }

  lemma PendingOnward(f: map<nat, Req>, g: map<nat, Req>)
    requires g.Keys == f.Keys && GoOn(f, g)
    ensures Pending(g) <= Pending(f)
  {
    forall h | h in Pending(g)
      ensures h in Pending(f)
    {
      assert h in f && Goes(f, g, h);
    }
  }

  /** With no used entry left to look at, every finished request has been seen. */
  lemma AllSeen(v: View, f: map<nat, Req>, h: nat)
    requires Queued(v.finished, v.flight, Finished) && v.finished == [] && GoOn(f, v.flight) && h in f
             && Executed(f[h].stage)
    ensures At(v.flight, h, Done)
  {
    assert Goes(f, v.flight, h);
    assert v.flight[h].stage.Finished? ==> h in v.finished;
  }

  /** The chain that starts at q[0] and runs through q. */
  ghost predicate Along(desc: seq<Desc>, q: seq<nat>) {
    && |desc| == NUM && (forall k | 0 <= k < |q| :: q[k] < NUM)
    && (forall k: nat {:trigger q[k]} | k < |q| :: desc[q[k]].flags % 2 == (if k + 1 < |q| then 1 else 0))
    && (forall k: nat | k + 1 < |q| :: desc[q[k]].next == q[k + 1])
  }

  lemma FormatAlong(desc: seq<Desc>, ops: seq<Op>, info: seq<Info>, h: nat, r: Req)
    requires Format(desc, ops, info, h, r)
    ensures Along(desc, [h, r.d1, r.d2])
  {
  }

  lemma AlongTail(desc: seq<Desc>, q: seq<nat>, desc': seq<Desc>)
    requires Along(desc, q) && NoDup(q) && q != [] && desc' == desc[q[0] := NoDesc]
    ensures Along(desc', q[1..]) && NoDup(q[1..])
  {
  }

  /** The state after virtio_disk_init. */
  lemma EmptyOk(v: View)
    requires |v.free| == |v.desc| == |v.ops| == |v.info| == |v.avail| == |v.used| == NUM && |v.bdata| == |v.bdisk|
    requires (forall i | 0 <= i < NUM :: v.free[i])
             && v.availIdx == v.usedIdx == v.lookIdx == v.seenIdx == v.nSeen == v.nLook == 0
    requires v.posted == [] && v.finished == [] && v.taken == {} && v.flight == map[] && v.owner == map[]
             && v.user == map[]
    requires BlocksOk(v.blocks, v.log)
    ensures Ok(v, {})
  {
  }

  // ------------------------------------------------------------ main results

  /** With no driver code running, a descriptor is in use exactly when it is one of the three of
      a request in flight, and then of one only. */
  lemma ChainsPartition(v: View, i: nat)
    requires Ok(v, {}) && i < NUM
    ensures i < |v.free|
    ensures !v.free[i] <==> exists h :: h in v.flight && Member(h, v.flight[h], i)
    ensures forall g, h | g in v.flight && h in v.flight && Member(g, v.flight[g], i) && Member(h, v.flight[h], i) ::
              g == h
  {
    if !v.free[i] {
      assert OwnerOk(v.owner, v.flight, i);
      assert i !in {};
    }
    forall h | h in v.flight && Member(h, v.flight[h], i)
      ensures i in v.owner && v.owner[i] == Chain(h)
    {
      assert Triple(v.owner, h, v.flight[h]);
    }
  }

  /** A used entry that the driver has not looked at names a finished request, and no other such
      entry names the same one. */
  lemma UsedEntryIdentifies(v: View, held: set<nat>, j: nat, k: nat)
    requires Ok(v, held) && j < |v.finished| && k < |v.finished|
    ensures |v.used| == NUM && At(v.flight, v.used[Slot(v.nLook + k)], Finished)
    ensures j != k ==> v.used[Slot(v.nLook + j)] != v.used[Slot(v.nLook + k)]
  {
    assert v.used[Slot(v.nLook + k)] == v.finished[k] && v.used[Slot(v.nLook + j)] == v.finished[j];
    assert v.finished[k] in v.finished;
  }
}
