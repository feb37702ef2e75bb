/**
 The virtio disk driver against any device that follows section 2.6 of virtio v1.1: the
 device takes entries of the avail ring in order, carries out each chain it has taken once,
 in any order and at any time, and appends its head to the used ring. `Device` is called
 wherever the driver's stores could be observed half done.

 Driver code runs under vdisk_lock, so virtio_disk_rw is cut where it sleeps: `Begin` is one
 attempt to submit, `Resume` is one awakening of a thread that waits for its buffer. Any
 interleaving of requests is a sequence of calls of these methods and `Intr`.
 */
module Virtio {
  import opened Options
  import opened VirtQueue

  ghost function Elems(q: seq<nat>): set<nat> { set i | i in q }

  /** Exactly the descriptors of q were free in `was` and are no longer. */
  ghost predicate Taken3(was: seq<bool>, free: seq<bool>, q: seq<nat>) {
    && |was| == |free| == NUM && (forall i | i in q :: i < NUM)
    && forall i: nat | i < NUM :: was[i] == (free[i] || i in q)
  }

  ghost function Opened(free: seq<bool>, q: seq<nat>): seq<bool> {
    seq(|free|, i requires 0 <= i < |free| => free[i] || i in q)
  }

  /** The descriptors in use say what they said. */
  ghost predicate SameInUse(free: seq<bool>, desc: seq<Desc>, desc': seq<Desc>) {
    |free| == |desc| == |desc'| == NUM && forall i: nat | i < NUM && !free[i] :: desc'[i] == desc[i]
  }

  /** There are no three free descriptors. */
  ghost predicate FewFree(free: seq<bool>) {
    forall i: nat, j: nat, k: nat | i < j < k < |free| :: !(free[i] && free[j] && free[k])
  }

  /** The handler has seen the finished request h: the flag of its buffer is cleared, and no
      other flag. */
  ghost predicate Sees(f: map<nat, Req>, bdisk: seq<bool>, h: nat, f': map<nat, Req>, bdisk': seq<bool>) {
    && At(f, h, Finished) && f[h].b < |bdisk| && bdisk[f[h].b] && bdisk' == bdisk[f[h].b := false]
    && f' == f[h := f[h].(stage := Done, clears := f[h].clears + 1)]
  }

  ghost predicate OwnerOnly(a: Hist, b: Hist) { b == a.(owner := b.owner) }

  lemma TakeOne(was: seq<bool>, free: seq<bool>, q: seq<nat>, i: nat)
    requires Taken3(was, free, q) && NoDup(q) && i < NUM && free[i] && i !in Elems(q)
    ensures Taken3(was, free[i := false], q + [i]) && NoDup(q + [i]) && Elems(q + [i]) == Elems(q) + {i}
  {
    assert i !in q;
    forall j: nat | j < NUM
      ensures was[j] == (free[i := false][j] || j in q + [i])
    {
    }
  }

  lemma GiveOne(was: seq<bool>, free: seq<bool>, q: seq<nat>)
    requires Taken3(was, free, q) && NoDup(q) && q != []
    ensures q[0] in Elems(q) && q[0] < NUM && Taken3(was, free[q[0] := true], q[1..])
            && Elems(q[1..]) == Elems(q) - {q[0]}
  {
    assert q == [q[0]] + q[1..];
    assert q[0] !in q[1..];
    assert q[0] in q;
    forall i | i in q[1..]
      ensures i < NUM
    {
      assert i in q;
    }
    forall j: nat | j < NUM
      ensures was[j] == (free[q[0] := true][j] || j in q[1..])
    {
      assert j in q <==> j == q[0] || j in q[1..];
    }
  }

  /** Nothing is left and fewer than three were taken. */
  lemma FewLeft(was: seq<bool>, free: seq<bool>, q: seq<nat>)
    requires Taken3(was, free, q) && |q| < 3 && forall j: nat | j < NUM :: !free[j]
    ensures FewFree(was)
  {
    forall i: nat, j: nat, k: nat | i < j < k < |was|
      ensures !(was[i] && was[j] && was[k])
    {
      assert !free[i] && !free[j] && !free[k];
    }
  }

  class Disk {
    const free: array<bool>
    const desc: array<Desc>
    const ops: array<Op>
    const info: array<Info>
    const avail: array<nat>
    const used: array<nat>
    const bdisk: array<bool>                 // b->disk of every buffer
    const bdata: array<Data>                 // b->data of every buffer
    var availIdx: nat                        // avail->idx
    var usedIdx: nat                         // used->idx
    var lookIdx: nat                         // disk.used_idx
    // the device
    var seenIdx: nat
    var taken: set<nat>
    var blocks: map<nat, Data>
    ghost var hist: Hist

    ghost function Now(): View
      reads this, free, desc, ops, info, avail, used, bdisk, bdata
    {
      View(free[..], desc[..], ops[..], info[..], avail[..], used[..], bdisk[..], bdata[..],
           availIdx, usedIdx, lookIdx, seenIdx, taken, blocks,
           hist.nSeen, hist.nLook, hist.posted, hist.finished, hist.flight, hist.owner, hist.user, hist.log)
    }

    ghost predicate Valid(held: set<nat>)
      reads this, free, desc, ops, info, avail, used, bdisk, bdata
    {
      free != bdisk && avail != used && Ok(Now(), held)
    }

    /** The state that virtio_disk_init leaves, over a disk with some past. */
    constructor (nbuf: nat, blocks: map<nat, Data>, ghost past: seq<Xfer>)
      requires BlocksOk(blocks, past)
      ensures Valid({}) && hist.flight == map[] && hist.log == past && bdisk.Length == nbuf
              && forall i: nat | i < NUM :: free[..][i]
    {
      free := new bool[NUM](_ => true);
      desc := new Desc[NUM](_ => NoDesc);
      ops := new Op[NUM](_ => Op(0, 0, 0));
      info := new Info[NUM](_ => Info(None, 0));
      avail := new nat[NUM](_ => 0);
      used := new nat[NUM](_ => 0);
      bdisk := new bool[nbuf](_ => false);
      bdata := new Data[nbuf](_ => []);
      availIdx, usedIdx, lookIdx, seenIdx, taken := 0, 0, 0, 0, {};
      this.blocks := blocks;
      hist := Hist(0, 0, [], [], map[], map[], map[], past);
      new;
      EmptyOk(Now());
    }

    // ------------------------------------------------------------- the device

    method DeviceTake(ghost held: set<nat>)
      requires Valid(held)
      modifies this`seenIdx, this`taken, this`hist
      ensures Valid(held) && DeviceOnly(old(hist), hist)
    {
      hide Ok;
      ghost var v := Now();
      NextPosted(v, held);
      if seenIdx != availIdx {
        var h := avail[seenIdx % NUM];
        taken, seenIdx := taken + {h}, Bump(seenIdx);
        hist := hist.(nSeen := hist.nSeen + 1, posted := hist.posted[1..],
            flight := hist.flight[h := hist.flight[h].(stage := Taken)]);
        TakeKeeps(v, held, h, Now());
      } else {
        GoOnSame(hist.flight);
      }
    }

    /** The device's stores for a finished command: data, status and used entry. */
    method DeviceStore(c: Command, h: nat, data: Data)
      requires avail != used && c.b < bdata.Length && c.status < info.Length && used.Length == NUM
      modifies info, used, bdata
      ensures bdata[..] == if c.write then old(bdata[..]) else old(bdata[..])[c.b := data]
      ensures info[..] == old(info[..])[c.status := Info(old(info[..])[c.status].b, 0)]
      ensures used[..] == old(used[..])[usedIdx % NUM := h]
    {
      if !c.write {
        bdata[c.b] := data;
      }
      info[c.status] := Info(info[c.status].b, 0);
      used[usedIdx % NUM] := h;
    }

    method DeviceFinish(c: Command, h: nat, data: Data)
      requires avail != used && c.b < bdata.Length && c.status == h < info.Length && used.Length == NUM
               && h in hist.flight && hist.flight[h].b == c.b
      modifies this`taken, this`blocks, this`usedIdx, this`hist, info, used, bdata
      ensures ExecutesTo(old(Now()), h, Xfer(c.write, c.sector, data), Now())
    {
      DeviceStore(c, h, data);
      blocks, taken, usedIdx := if c.write then blocks[c.sector := data] else blocks, taken - {h}, Bump(usedIdx);
      hist := hist.(log := hist.log + [Xfer(c.write, c.sector, data)], finished := hist.finished + [h],
                    flight := hist.flight[h := hist.flight[h].(stage := Finished, data := data, at := |hist.log|)]);
    }

    /** The device reads the chain of h out of the table and does what it says. */
    method DeviceExecute(h: nat, ghost held: set<nat>)
      requires Valid(held) && h in taken
      modifies this`taken, this`blocks, this`usedIdx, this`hist, info, used, bdata
      ensures Valid(held) && DeviceOnly(old(hist), hist) && |hist.log| == |old(hist.log)| + 1
      ensures forall b | 0 <= b < bdata.Length && b !in hist.user :: bdata[b] == old(bdata[b])
    {
      hide Ok;
      ghost var v := Now();
      TakenChain(v, held, h);
      var c := Decode(desc[..], ops[..], h).value;
      var data := if c.write then bdata[c.b] else Block(blocks, c.sector);
      DeviceFinish(c, h, data);
      ExecuteKeeps(v, held, h, Xfer(c.write, c.sector, data), Now());
    }

    /** Any number of device steps. */
    method Device(ghost held: set<nat>)
      requires Valid(held)
      modifies this`seenIdx, this`taken, this`blocks, this`usedIdx, this`hist
      modifies info, used, bdata
      ensures Valid(held) && DeviceOnly(old(hist), hist)
      ensures forall b | 0 <= b < bdata.Length && b !in hist.user :: bdata[b] == old(bdata[b])
    {
      var n: nat := *;
      GoOnSame(hist.flight);
      while n > 0
        invariant Valid(held) && DeviceOnly(old(hist), hist)
        invariant forall b | 0 <= b < bdata.Length && b !in hist.user :: bdata[b] == old(bdata[b])
      {
        ghost var f := hist.flight;
        var execute: bool := *;
        if execute && taken != {} {
          var h :| h in taken;
          DeviceExecute(h, held);
        } else {
          DeviceTake(held);
        }
        ServesTrans(old(hist.flight), f, hist.flight);
        n := n - 1;
      }
    }

    // ------------------------------------------------------------ descriptors

    /** The lowest free descriptor, or -1. */
    method AllocDesc(ghost held: set<nat>) returns (i: int)
      requires Valid(held)
      modifies this`hist, free
      ensures i < 0 ==>
                Valid(held) && free[..] == old(free[..]) && hist == old(hist) && forall j: nat | j < NUM :: !free[..][j]
      ensures OwnerOnly(old(hist), hist)
      ensures i >= 0 ==>
                i < NUM && old(free[..])[i] && free[..] == old(free[..])[i := false] && Valid(held + {i}) && i !in held
      ensures i >= 0 ==> forall j: nat | j < i :: !old(free[..])[j]
    {
      ghost var v := Now();
      for k := 0 to NUM
        invariant Now() == v && forall j: nat | j < k :: !v.free[j]
      {
        if free[k] {
          free[k] := false;
          hist := hist.(owner := hist.owner[k := Held]);
          TakeDescKeeps(v, held, k, Now());
          return k;
        }
      }
      return -1;
    }

    /** Panics neither on its range nor on a descriptor already free. */
    method FreeDesc(i: nat, ghost held: set<nat>)
      requires Valid(held) && i in held
      modifies this`hist, free, desc
      ensures Valid(held - {i}) && i < NUM && !old(free[..])[i] && free[..] == old(free[..])[i := true]
      ensures desc[..] == old(desc[..])[i := NoDesc] && OwnerOnly(old(hist), hist)
    {
      ghost var v := Now();
      assert OwnerOk(v.owner, v.flight, i);
      desc[i] := NoDesc;
      ghost var w := Now();
      RowKeeps(v, held, i, w);
      free[i] := true;
      hist := hist.(owner := hist.owner - {i});
      GiveDescKeeps(w, held, i, Now());
    }

    /** Three distinct free descriptors, or none taken when there are not three. */
    method Alloc3Desc() returns (ok: bool, idx: seq<nat>)
      requires Valid({})
      modifies this`hist, free, desc
      ensures OwnerOnly(old(hist), hist)
      ensures ok ==> |idx| == 3 && NoDup(idx) && Valid({idx[0], idx[1], idx[2]})
      ensures !ok ==>
                && Valid({}) && free[..] == old(free[..]) && FewFree(free[..])
                && SameInUse(old(free[..]), old(desc[..]), desc[..])
    {
      ghost var was := free[..];
      idx := [];
      assert Elems([]) == {};
      while |idx| < 3
        invariant |idx| <= 3 && NoDup(idx) && Valid(Elems(idx)) && OwnerOnly(old(hist), hist)
        invariant Taken3(was, free[..], idx) && desc[..] == old(desc[..])
      {
        ghost var before := free[..];
        var i := AllocDesc(Elems(idx));
        if i < 0 {
          FewLeft(was, free[..], idx);
          UndoAlloc(idx, was);
          return false, idx;
        }
        TakeOne(was, before, idx, i);
        idx := idx + [i];
      }
      assert Elems(idx) == {idx[0], idx[1], idx[2]};
      ok := true;
    }

    method UndoAlloc(idx: seq<nat>, ghost was: seq<bool>)
      requires NoDup(idx) && Valid(Elems(idx)) && Taken3(was, free[..], idx)
      modifies this`hist, free, desc
      ensures Valid({}) && free[..] == was && OwnerOnly(old(hist), hist) && SameInUse(was, old(desc[..]), desc[..])
    {
      assert idx[0..] == idx;
      var j := 0;
      while j < |idx|
        invariant 0 <= j <= |idx| && Valid(Elems(idx[j..])) && Taken3(was, free[..], idx[j..])
        invariant OwnerOnly(old(hist), hist) && SameInUse(was, old(desc[..]), desc[..])
      {
        GiveOne(was, free[..], idx[j..]);
        assert idx[j..][1..] == idx[j + 1..];
        FreeDesc(idx[j], Elems(idx[j..]));
        j := j + 1;
      }
      assert idx[j..] == [] && Elems([]) == {};
    }

    // ---------------------------------------------------------- virtio_disk_rw

    /** The owner of a buffer that is not with the disk changes its data. */
    method Fill(b: nat, data: Data)
      requires Valid({}) && b < bdata.Length && b !in hist.user
      modifies bdata
      ensures Valid({}) && bdata[..] == old(bdata[..])[b := data]
    {
      ghost var v := Now();
      bdata[b] := data;
      FillKeeps(v, b, data, Now());
    }

    method FormatHead(h: nat, d1: nat, b: nat, write: bool, sector: nat, ghost held: set<nat>)
      requires Valid(held) && h in held && h < NUM
      modifies ops, desc, info
      ensures Valid(held) && ops[h] == Op(if write then T_OUT else T_IN, 0, sector)
      ensures desc[..] == old(desc[..])[h := Desc(OpAddr(h), 16, F_NEXT, d1)] && info[h] == Info(Some(b), 0xff)
    {
      ghost var v := Now();
      ops[h] := Op(if write then T_OUT else T_IN, 0, sector);
      desc[h] := Desc(OpAddr(h), 16, F_NEXT, d1);
      info[h] := Info(Some(b), 0xff);
      RowKeeps(v, held, h, Now());
    }

    method FormatDesc(i: nat, d: Desc, ghost held: set<nat>)
      requires Valid(held) && i in held && i < NUM
      modifies desc
      ensures Valid(held) && desc[..] == old(desc[..])[i := d]
    {
      ghost var v := Now();
      desc[i] := d;
      RowKeeps(v, held, i, Now());
    }

    /** The three descriptors, the header and the record for the interrupt handler. */
    method FormatChain(h: nat, b: nat, write: bool, sector: nat, d1: nat, d2: nat)
      requires Valid({h, d1, d2}) && h != d1 && h != d2 && d1 != d2 && h < NUM && d1 < NUM && d2 < NUM
      modifies ops, desc, info
      ensures Valid({h, d1, d2})
      ensures forall r: Req | r.b == b && r.write == write && r.sector == sector && r.d1 == d1 && r.d2 == d2
              && r.stage.Prepared? ::
                Format(desc[..], ops[..], info[..], h, r)
      ensures ops[h].kind == (if write then 1 else 0) && ops[h].sector == sector && info[h] == Info(Some(b), 0xff)
      ensures desc[h] == Desc(OpAddr(h), 16, 1, d1) && desc[d2] == Desc(StatusAddr(h), 1, 2, 0)
      ensures desc[d1] == Desc(DataAddr(b), 1024, if write then 1 else 2 + 1, d2)
    {
      FormatHead(h, d1, b, write, sector, {h, d1, d2});
      FormatDesc(d1, Desc(DataAddr(b), BSIZE, if write then F_NEXT else F_WRITE + F_NEXT, d2), {h, d1, d2});
      FormatDesc(d2, Desc(StatusAddr(h), 1, F_WRITE, 0), {h, d1, d2});
    }

    /** b->disk is set and the chain becomes a request. */
    method Prepare(h: nat, b: nat, write: bool, sector: nat, d1: nat, d2: nat)
      requires Valid({h, d1, d2}) && h != d1 && h != d2 && d1 != d2 && h < NUM && d1 < NUM && d2 < NUM
      requires b < bdisk.Length && b !in hist.user
      modifies this`hist, ops, desc, info, bdisk
      ensures Valid({}) && At(hist.flight, h, Prepared) && Submitted(old(hist), hist, h, b, write, sector, bdata[b])
    {
      FormatChain(h, b, write, sector, d1, d2);
      ghost var v := Now();
      ghost var r := Req(b, write, sector, d1, d2, Prepared, bdata[b], |hist.log|, 0, 0);
      bdisk[b] := true;
      hist := hist.(user := hist.user[b := h], flight := hist.flight[h := r],
                    owner := hist.owner[h := Chain(h)][d1 := Chain(h)][d2 := Chain(h)]);
      PrepareKeeps(v, h, r, Now());
      PrepareSubmits(old(hist), hist, h, r);
    }

    method StoreHead(h: nat)
      requires Valid({}) && At(hist.flight, h, Prepared)
      modifies avail
      ensures Valid({}) && avail.Length == NUM && avail[availIdx % NUM] == h
    {
      ghost var v := Now();
      avail[availIdx % NUM] := h;
      RingSlotKeeps(v, {}, h, Now());
    }

    /** The head goes into the avail ring, and only then does the index move. */
    method Post(h: nat)
      requires Valid({}) && At(hist.flight, h, Prepared)
      modifies this, info, used, bdata, avail
      ensures Valid({}) && Onward(old(hist), hist)
      ensures At(hist.flight, h, Posted) && hist.posted != [] && hist.posted[|hist.posted| - 1] == h
              && availIdx == (old(availIdx) + 1) % 65536
    {
      hide Ok;
      StoreHead(h);
      Device({});
      ghost var v := Now();
      availIdx := Bump(availIdx);
      hist := hist.(posted := hist.posted + [h], flight := hist.flight[h := hist.flight[h].(stage := Posted)]);
      PostKeeps(v, {}, h, Now());
      GoOnTrans(old(hist.flight), v.flight, hist.flight);
    }

    /** Format the chain and hand it to the device. */
    method Submit(h: nat, b: nat, write: bool, sector: nat, d1: nat, d2: nat)
      requires Valid({h, d1, d2}) && h != d1 && h != d2 && d1 != d2 && h < NUM && d1 < NUM && d2 < NUM
      requires b < bdisk.Length && b !in hist.user
      modifies this, desc, ops, info, avail, used, bdisk, bdata
      ensures Valid({}) && Submitted(old(hist), hist, h, b, write, sector, old(bdata[b]))
    {
      ghost var data := bdata[b];
      Prepare(h, b, write, sector, d1, d2);
      ghost var a := hist;
      Device({});
      ghost var c := hist;
      Post(h);
      OnwardTrans(a, c, hist);
      SubmittedOnward(old(hist), a, hist, h, b, write, sector, data);
    }

    /** One attempt of virtio_disk_rw to submit. It fails only for want of three descriptors;
        otherwise the request in flight is the one that was asked for. */
    method Begin(b: nat, blockno: nat, write: bool) returns (r: Option<nat>)
      requires Valid({}) && b < bdisk.Length && b !in hist.user
      modifies this, free, desc, ops, info, avail, used, bdisk, bdata
      ensures Valid({})
      ensures r.None? ==> FewFree(old(free[..])) && free[..] == old(free[..]) && OwnerOnly(old(hist), hist)
      ensures r.None? ==>
                && SameInUse(free[..], old(desc[..]), desc[..]) && ops[..] == old(ops[..]) && info[..] == old(info[..])
                && avail[..] == old(avail[..]) && used[..] == old(used[..]) && bdisk[..] == old(bdisk[..])
                && bdata[..] == old(bdata[..])
                && availIdx == old(availIdx) && usedIdx == old(usedIdx) && lookIdx == old(lookIdx)
                && blocks == old(blocks)
      ensures r.Some? ==> Submitted(old(hist), hist, r.value, b, write, (blockno * 2) % 0x1_0000_0000, old(bdata[b]))
    {
      var sector := (blockno * 2) % 0x1_0000_0000;
      ghost var data := bdata[b];
      ghost var a := hist;
      var ok, idx := Alloc3Desc();
      if !ok {
        return None;
      }
      GoOnSame(a.flight);
      Device({idx[0], idx[1], idx[2]});
      ghost var c := hist;
      InTable({idx[0], idx[1], idx[2]});
      Submit(idx[0], b, write, sector, idx[1], idx[2]);
      OnwardSubmitted(a, c, hist, idx[0], b, write, sector, data);
      r := Some(idx[0]);
    }

    lemma InTable(held: set<nat>)
      requires Valid(held)
      ensures forall i | i in held :: i < NUM
    {
      forall i | i in held
        ensures i < NUM
      {
        assert OwnerOk(hist.owner, hist.flight, i);
      }
    }

    // -------------------------------------------------------- virtio_disk_intr

    /** One used entry: its id names a finished request, never one already seen. */
    method IntrOne()
      requires Valid({}) && lookIdx != usedIdx
      modifies this`lookIdx, this`hist, bdisk
      ensures Valid({}) && Onward(old(hist), hist) && Pending(hist.flight) < Pending(old(hist.flight))
      ensures lookIdx == (old(lookIdx) + 1) % 65536 && exists h ::
                Sees(old(hist.flight), old(bdisk[..]), h, hist.flight, bdisk[..])
    {
      hide Ok;
      ghost var v := Now();
      NextFinished(v, {});
      var id := used[lookIdx % NUM];
      assert info[id].status == 0;           // else panic
      var b := info[id].b.value;
      bdisk[b] := false;
      lookIdx := Bump(lookIdx);
      hist := hist.(nLook := hist.nLook + 1, finished := hist.finished[1..],
                    flight := hist.flight[id := hist.flight[id].(stage := Done, clears := hist.flight[id].clears + 1)]);
      ClearKeeps(v, {}, id, b, Now());
      assert id in Pending(v.flight) && id !in Pending(hist.flight);
      assert Sees(v.flight, v.bdisk, id, hist.flight, bdisk[..]);
    }

    /** Every request that the device has finished is seen; none is seen twice. */
    method Intr()
      requires Valid({})
      modifies this, info, used, bdisk, bdata
      ensures Valid({}) && Onward(old(hist), hist)
      ensures forall h | h in old(hist.flight) && Executed(old(hist.flight)[h].stage) :: At(hist.flight, h, Done)
    {
      GoOnSame(hist.flight);
      Device({});
      while lookIdx != usedIdx
        invariant Valid({}) && Onward(old(hist), hist)
        decreases Pending(hist.flight)
      {
        ghost var a := hist;
        IntrOne();
        ghost var c := hist;
        Device({});
        PendingOnward(c.flight, hist.flight);
        OnwardTrans(a, c, hist);
        OnwardTrans(old(hist), a, hist);
      }
      NextFinished(Now(), {});
      forall h | h in old(hist.flight) && Executed(old(hist.flight)[h].stage)
        ensures At(hist.flight, h, Done)
      {
        AllSeen(Now(), old(hist.flight), h);
      }
    }

    // -------------------------------------------------------------- completion

    /** Free the descriptor at the front of the chain and follow its next, if it has one. */
    method FreeLink(i: nat, ghost left: seq<nat>, ghost goal: seq<bool>) returns (flag: nat, nxt: nat)
      requires left != [] && left[0] == i && NoDup(left) && Valid(Elems(left)) && Along(desc[..], left)
               && Taken3(goal, free[..], left)
      modifies this`hist, free, desc
      ensures Valid(Elems(left[1..])) && OwnerOnly(old(hist), hist)
      ensures NoDup(left[1..]) && Along(desc[..], left[1..]) && Taken3(goal, free[..], left[1..])
      ensures flag % 2 == 1 <==> |left| > 1
      ensures |left| > 1 ==> nxt == left[1]
    {
      GiveOne(goal, free[..], left);
      flag, nxt := desc[i].flags, desc[i].next;
      ghost var d := desc[..];
      FreeDesc(i, Elems(left));
      AlongTail(d, left, desc[..]);
    }

    method FreeChain(head: nat, ghost chain: seq<nat>, ghost goal: seq<bool>)
      requires chain != [] && chain[0] == head && NoDup(chain) && Valid(Elems(chain)) && Along(desc[..], chain)
               && Taken3(goal, free[..], chain)
      modifies this`hist, free, desc
      ensures Valid({}) && OwnerOnly(old(hist), hist) && free[..] == goal
    {
      var i, more := head, true;
      ghost var left := chain;
      while more
        invariant (more <==> left != []) && (more ==> left[0] == i)
        invariant NoDup(left) && Valid(Elems(left)) && Along(desc[..], left) && Taken3(goal, free[..], left)
                  && OwnerOnly(old(hist), hist)
        decreases |left|
      {
        var flag, nxt := FreeLink(i, left, goal);
        left := left[1..];
        if flag % 2 == 1 {
          i := nxt;
        } else {
          more := false;
        }
      }
      assert Elems([]) == {};
    }

    /** The record of a finished request is dropped; its descriptors are to be freed. */
    method Retire(h: nat, ghost r: Req)
      requires Valid({}) && At(hist.flight, h, Done) && hist.flight[h] == r
      modifies this`hist, info
      ensures Valid({h, r.d1, r.d2}) && NoDup([h, r.d1, r.d2]) && Along(desc[..], [h, r.d1, r.d2])
      ensures h !in hist.flight && OneReq(old(hist.flight), hist.flight, h) && hist.user == old(hist.user) - {r.b}
              && hist.log == old(hist.log)
    {
      hide Ok;
      ghost var v := Now();
      FlagTells(v, {}, h);
      FormatAlong(v.desc, v.ops, v.info, h, r);
      hist := hist.(user := hist.user - {r.b}, flight := hist.flight - {h},
          owner := hist.owner[h := Held][r.d1 := Held][r.d2 := Held]);
      ghost var w := Now();
      RetireKeeps(v, h, w);
      info[h] := info[h].(b := None);
      RowKeeps(w, {h, r.d1, r.d2}, h, Now());
    }

    /** The waiting thread runs again: it goes back to sleep while b->disk is set, and otherwise
        returns with its transfer made, once, since the submission. */
    method Resume(h: nat, b: nat) returns (done: bool)
      requires Valid({}) && h in hist.flight && hist.flight[h].b == b
      modifies this`hist, free, desc, info
      ensures Valid({}) && (done <==> At(old(hist.flight), h, Done))
      ensures !done ==> hist == old(hist)
      ensures done ==>
                && h !in hist.flight && OneReq(old(hist.flight), hist.flight, h) && hist.user == old(hist.user) - {b}
                && hist.log == old(hist.log)
      ensures done ==>
                var r := old(hist.flight)[h];
                  Returned(hist.log, r, bdata[..]) && free[..] == Opened(old(free[..]), [h, r.d1, r.d2])
      ensures done && !old(hist.flight)[h].write ==>
                var r := old(hist.flight)[h];
                forall w: nat {:trigger WrittenLast(hist.log, r.sector, r.at, w)}
                | WrittenLast(hist.log, r.sector, r.at, w) :: bdata[b] == hist.log[w].data
      ensures done ==>
                var r := old(hist.flight)[h];
                forall i: nat | i < NUM :: free[..][i] <==> old(free[..])[i] || i == h || i == r.d1 || i == r.d2
    {
      hide Ok;
      FlagTells(Now(), {}, h);
      if bdisk[b] {
        return false;
      }
      ghost var r := hist.flight[h];
      Retire(h, r);
      ghost var chain := [h, r.d1, r.d2];
      assert Elems(chain) == {h, r.d1, r.d2};
      OpensChain({h, r.d1, r.d2}, chain);
      FreeChain(h, chain, Opened(free[..], chain));
      done := true;
      forall w: nat | WrittenLast(hist.log, r.sector, r.at, w) && !r.write
        ensures bdata[b] == hist.log[w].data
      {
        ReadsLastWrite(hist.log, r.sector, r.at, w);
      }
    }

    lemma OpensChain(held: set<nat>, q: seq<nat>)
      requires Valid(held) && Elems(q) == held
      ensures Taken3(Opened(free[..], q), free[..], q)
    {
      InTable(held);
      forall i | i in q
        ensures i < NUM
      {
        assert i in Elems(q);
      }
    }
  }
}
