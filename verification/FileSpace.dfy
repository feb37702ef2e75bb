/**
 Who owns which disk block, and what the bytes of a file are: the bitmap, the direct and
 indirect block maps of the inodes, and the elementary changes that fs.c makes to them.
 Everything here is about values; module FileLayer holds the code.
 */
module FileSpace {
  import opened DiskBlocks

  const NDIRECT := 12
  const MAXFILE := NDIRECT + NINDIRECT
  const IPB := 16

  /** ip->addrs and ip->size. */
  datatype Inode = Inode(addrs: seq<nat>, size: nat)

  /** The superblock's numbers; blocks below nmeta are boot, superblock, log, inodes and bitmap. */
  datatype Layout = Layout(size: nat, nmeta: nat, bmapstart: nat, inodestart: nat)

  /** What a block that is not free is for; Held belongs to the running code. */
  datatype Owner = Meta | Data(inum: nat, bn: nat) | Ind(inum: nat) | Held

  /** The disk as the cache shows it, the inodes, and who owns which block. */
  datatype View = View(blocks: seq<Block>, inodes: seq<Inode>, owner: map<nat, Owner>)

  function BBlock(l: Layout, b: nat): nat { b / BPB + l.bmapstart }

  function IBlock(l: Layout, inum: nat): nat { inum / IPB + l.inodestart }

  ghost predicate LayoutOk(l: Layout, ninodes: nat) {
    && 0 < l.nmeta <= l.size < U32
    && (forall b: nat {:trigger BBlock(l, b)} | b < l.size :: BBlock(l, b) < l.nmeta)
    && (forall i: nat {:trigger IBlock(l, i)} | i < ninodes :: IBlock(l, i) < l.nmeta)
  }

  /** The block that holds block bn of file i, or 0. */
  function Addr(v: View, i: nat, bn: nat): nat {
    if i >= |v.inodes| || |v.inodes[i].addrs| != NDIRECT + 1 || bn >= MAXFILE then 0
    else if bn < NDIRECT then v.inodes[i].addrs[bn]
    else Indirect(v.blocks, v.inodes[i].addrs[NDIRECT], bn - NDIRECT)
  }

  function Indirect(blocks: seq<Block>, a: nat, j: nat): nat
    requires j < NINDIRECT
  {
    if a == 0 || a >= |blocks| || |blocks[a]| != BSIZE then 0
    else if Word(blocks[a], j) < 0 then 0 else Word(blocks[a], j)
  }

  ghost predicate BitAt(l: Layout, blocks: seq<Block>, b: nat) {
    BBlock(l, b) < |blocks| && |blocks[BBlock(l, b)]| == BSIZE && Bit(blocks[BBlock(l, b)], b % BPB)
  }

  // --------------------------------------------------------------- invariant

  ghost predicate Shaped(l: Layout, v: View) {
    && LayoutOk(l, |v.inodes|) && |v.blocks| == l.size
    && (forall b: nat {:trigger v.blocks[b]} | b < l.size :: IsBlock(v.blocks[b]))
    && (forall i: nat {:trigger v.inodes[i]} | i < |v.inodes| ::
         |v.inodes[i].addrs| == NDIRECT + 1 && v.inodes[i].size <= MAXFILE * BSIZE)
  }

  ghost predicate IsMeta(v: View, b: nat) { b in v.owner && v.owner[b].Meta? }

  /** The set bits are the blocks that have an owner. */
  ghost predicate Bits(l: Layout, v: View) {
    && (forall b: nat {:trigger BitAt(l, v.blocks, b)} | b < l.size :: BitAt(l, v.blocks, b) <==> b in v.owner)
    && (forall b: nat {:trigger IsMeta(v, b)} | b < l.nmeta :: IsMeta(v, b))
  }

  ghost predicate OwnerOk(l: Layout, v: View, b: nat) {
    && b in v.owner && b < l.size
    && match v.owner[b]
       case Data(i, bn) => b != 0 && i < |v.inodes| && bn < MAXFILE && Addr(v, i, bn) == b
       case Ind(i) => b != 0 && i < |v.inodes| && |v.inodes[i].addrs| == NDIRECT + 1 && v.inodes[i].addrs[NDIRECT] == b
       case _ => true
  }

  ghost predicate SlotOk(v: View, i: nat, bn: nat) {
    Addr(v, i, bn) != 0 ==> Addr(v, i, bn) in v.owner && v.owner[Addr(v, i, bn)] == Data(i, bn)
  }

  ghost predicate IndOk(v: View, i: nat) {
    && i < |v.inodes| && |v.inodes[i].addrs| == NDIRECT + 1
    && var a := v.inodes[i].addrs[NDIRECT];
       a != 0 ==> a in v.owner && v.owner[a] == Ind(i)
  }

  /** Every block of a file below its size is there. */
  ghost predicate MappedOk(v: View, i: nat, bn: nat) {
    i < |v.inodes| && (bn * BSIZE < v.inodes[i].size ==> Addr(v, i, bn) != 0)
  }

  ghost predicate HeldIs(v: View, held: set<nat>) {
    forall b: nat {:trigger b in held} {:trigger v.owner[b]} :: b in held <==> b in v.owner && v.owner[b].Held?
  }

  ghost predicate Owners(l: Layout, v: View) {
    && (forall b: nat {:trigger OwnerOk(l, v, b)} | b in v.owner :: OwnerOk(l, v, b))
    && (forall i: nat, bn: nat {:trigger SlotOk(v, i, bn)} | i < |v.inodes| && bn < MAXFILE :: SlotOk(v, i, bn))
    && (forall i: nat {:trigger IndOk(v, i)} | i < |v.inodes| :: IndOk(v, i))
  }

  ghost predicate Mapped(v: View) {
    forall i: nat, bn: nat {:trigger MappedOk(v, i, bn)} | i < |v.inodes| :: MappedOk(v, i, bn)
  }

  ghost predicate Ok(l: Layout, v: View, held: set<nat>) {
    Shaped(l, v) && Bits(l, v) && Owners(l, v) && Mapped(v) && HeldIs(v, held)
  }

  // ------------------------------------------------------------ file contents

  /** Byte k of file i, where block k / BSIZE is mapped. */
  function ByteAt(v: View, i: nat, k: nat): int {
    var a := Addr(v, i, k / BSIZE);
    if a == 0 || a >= |v.blocks| || |v.blocks[a]| != BSIZE then 0 else v.blocks[a][k % BSIZE]
  }

  function Contents(v: View, i: nat): seq<int>
    requires i < |v.inodes|
  {
    seq(v.inodes[i].size, k requires 0 <= k => ByteAt(v, i, k))
  }

  /** File i has the same size, and its mapped blocks are still mapped and hold the same. */
  ghost predicate SameFile(v: View, v': View, i: nat) {
    && i < |v.inodes| == |v'.inodes| && v'.inodes[i].size == v.inodes[i].size
    && forall bn: nat {:trigger Addr(v', i, bn)} | Addr(v, i, bn) != 0 ::
         Addr(v', i, bn) == Addr(v, i, bn) && Addr(v, i, bn) < |v.blocks| == |v'.blocks|
             && v'.blocks[Addr(v, i, bn)] == v.blocks[Addr(v, i, bn)]
  }

  // ------------------------------------------------------------------ frames

  /** Writing blocks that are nobody's indirect block moves no file block. */
  lemma AddrKept(v: View, v': View, i: nat, bn: nat)
    requires i < |v.inodes| == |v'.inodes| && v'.inodes[i] == v.inodes[i] && |v'.blocks| == |v.blocks|
    requires |v.inodes[i].addrs| == NDIRECT + 1
    requires var a := v.inodes[i].addrs[NDIRECT]; 0 < a < |v.blocks| ==> v'.blocks[a] == v.blocks[a]
    ensures Addr(v', i, bn) == Addr(v, i, bn)
  {
  }

  /** A block of the disk that is neither a file's data nor an indirect block. */
  ghost predicate Loose(v: View, b: nat) { b in v.owner ==> v.owner[b].Meta? || v.owner[b].Held? }

  /** Only loose blocks are written, and the inodes stay. */
  ghost predicate LooseOnly(l: Layout, v: View, v': View) {
    && v'.inodes == v.inodes && |v'.blocks| == |v.blocks|
    && forall b: nat {:trigger v'.blocks[b]} | b < |v.blocks| ::
         v'.blocks[b] == v.blocks[b] || (Loose(v, b) && IsBlock(v'.blocks[b]))
  }

  lemma LooseKeeps(l: Layout, v: View, v': View)
    requires Shaped(l, v) && Owners(l, v) && LooseOnly(l, v, v')
    ensures Shaped(l, v')
    ensures forall i: nat, bn: nat {:trigger Addr(v', i, bn)} | i < |v.inodes| :: Addr(v', i, bn) == Addr(v, i, bn)
    ensures forall i: nat {:trigger SameFile(v, v', i)} | i < |v.inodes| :: SameFile(v, v', i)
  {
    forall i: nat, bn: nat | i < |v.inodes|
      ensures Addr(v', i, bn) == Addr(v, i, bn)
    {
      assert IndOk(v, i);
      AddrKept(v, v', i, bn);
    }
    forall i: nat | i < |v.inodes|
      ensures SameFile(v, v', i)
    {
      forall bn: nat | Addr(v, i, bn) != 0
        ensures Addr(v, i, bn) < |v.blocks| && v'.blocks[Addr(v, i, bn)] == v.blocks[Addr(v, i, bn)]
      {
        assert SlotOk(v, i, bn) && OwnerOk(l, v, Addr(v, i, bn));
      }
    }
  }

  /** Owners go on when no address moves and only loose blocks change hands. */
  lemma OwnersKept(l: Layout, v: View, v': View, b: nat)
    requires Shaped(l, v) && Owners(l, v) && Mapped(v) && v'.inodes == v.inodes && b < l.size && Loose(v, b)
    requires forall i: nat, bn: nat {:trigger Addr(v', i, bn)} | i < |v.inodes| :: Addr(v', i, bn) == Addr(v, i, bn)
    requires v'.owner == v.owner[b := Held] || v'.owner == v.owner - {b}
    ensures Owners(l, v') && Mapped(v')
  {
    forall x: nat | x in v'.owner
      ensures OwnerOk(l, v', x)
    {
      assert x != b ==> OwnerOk(l, v, x);
    }
    forall i: nat, bn: nat | i < |v'.inodes| && bn < MAXFILE
      ensures SlotOk(v', i, bn)
    {
      assert SlotOk(v, i, bn) && Addr(v', i, bn) == Addr(v, i, bn);
    }
    forall i: nat | i < |v'.inodes|
      ensures IndOk(v', i)
    {
      assert IndOk(v, i);
    }
    forall i: nat, bn: nat | i < |v'.inodes|
      ensures MappedOk(v', i, bn)
    {
      assert MappedOk(v, i, bn) && Addr(v', i, bn) == Addr(v, i, bn);
    }
  }

  // ------------------------------------------------------- balloc and bfree

  ghost predicate AllBlocks(blocks: seq<Block>) {
    forall b: nat {:trigger blocks[b]} | b < |blocks| :: IsBlock(blocks[b])
  }

  /** The disk has the size of the layout, with the bitmap among the metadata. */
  ghost predicate DiskOk(l: Layout, blocks: seq<Block>) {
    && l.nmeta <= l.size == |blocks| && AllBlocks(blocks)
    && forall b: nat {:trigger BBlock(l, b)} | b < l.size :: BBlock(l, b) < l.nmeta
  }

  /** The bit of block b is now `on`, and every other bit is as it was. */
  ghost predicate OneBit(l: Layout, blocks: seq<Block>, b: nat, on: bool, blocks': seq<Block>) {
    && |blocks'| == |blocks| && BBlock(l, b) < |blocks| && IsBlock(blocks'[BBlock(l, b)])
    && forall c: nat {:trigger BitAt(l, blocks', c)} | c < l.size ::
         BitAt(l, blocks', c) <==> if c == b then on else BitAt(l, blocks, c)
  }

  /** Writing one bit of a bitmap block changes that bit alone. */
  lemma OneBitChanges(l: Layout, blocks: seq<Block>, b: nat, on: bool, blocks': seq<Block>)
    requires DiskOk(l, blocks) && b < l.size && |blocks'| == |blocks| && BBlock(l, b) < |blocks|
    requires blocks'[BBlock(l, b)] == WithBit(blocks[BBlock(l, b)], b % BPB, on)
    requires forall c: nat | c < l.nmeta && c != BBlock(l, b) :: blocks'[c] == blocks[c]
    ensures OneBit(l, blocks, b, on, blocks')
  {
    WithBitIs(blocks[BBlock(l, b)], b % BPB, on, 0);
    forall c: nat | c < l.size
      ensures BitAt(l, blocks', c) <==> if c == b then on else BitAt(l, blocks, c)
    {
      assert BBlock(l, c) < l.nmeta && IsBlock(blocks[BBlock(l, c)]);
      if BBlock(l, c) == BBlock(l, b) {
        WithBitIs(blocks[BBlock(l, b)], b % BPB, on, c % BPB);
        assert c % BPB == b % BPB ==> c == b;
      }
    }
  }

  /** The bitmap and the owners change together. */
  lemma BitsKept(l: Layout, v: View, b: nat, on: bool, v': View)
    requires Bits(l, v) && l.nmeta <= b < l.size && OneBit(l, v.blocks, b, on, v'.blocks)
    requires v'.owner == if on then v.owner[b := Held] else v.owner - {b}
    ensures Bits(l, v')
  {
    forall c: nat | c < l.size
      ensures BitAt(l, v'.blocks, c) <==> c in v'.owner
    {
      assert BitAt(l, v.blocks, c) <==> c in v.owner;
    }
    forall c: nat | c < l.nmeta
      ensures IsMeta(v', c)
    {
      assert IsMeta(v, c);
    }
  }

  /** Setting the bit of block b sets no other. */
  lemma BitSetOnly(l: Layout, blocks: seq<Block>, b: nat, blocks': seq<Block>, c: nat)
    requires BBlock(l, b) < |blocks| && IsBlock(blocks[BBlock(l, b)]) && BBlock(l, c) < |blocks|
             && IsBlock(blocks[BBlock(l, c)])
    requires blocks' == blocks[BBlock(l, b) := WithBit(blocks[BBlock(l, b)], b % BPB, true)]
    ensures IsBlock(blocks'[BBlock(l, b)]) && (BitAt(l, blocks', c) <==> c == b || BitAt(l, blocks, c))
  {
    WithBitIs(blocks[BBlock(l, b)], b % BPB, true, c % BPB);
    assert BBlock(l, c) == BBlock(l, b) && c % BPB == b % BPB ==> c == b;
  }

  ghost function Metas(n: nat): (m: map<nat, Owner>)
    ensures forall b: nat {:trigger b in m} :: b in m <==> b < n
    ensures forall b: nat {:trigger m[b]} | b < n :: m[b] == Meta
  {
    if n == 0 then map[] else Metas(n - 1)[n - 1 := Meta]
  }

  /** An empty file system. */
  lemma EmptyOk(l: Layout, v: View)
    requires LayoutOk(l, |v.inodes|) && |v.blocks| == l.size
    requires AllBlocks(v.blocks)
    requires forall i: nat {:trigger v.inodes[i]} | i < |v.inodes| :: v.inodes[i] == Inode(seq(NDIRECT + 1, _ => 0), 0)
    requires forall b: nat {:trigger BitAt(l, v.blocks, b)} | b < l.size :: BitAt(l, v.blocks, b) <==> b < l.nmeta
    requires v.owner == Metas(l.nmeta)
    ensures Ok(l, v, {})
  {
  }

  lemma AllocKeeps(l: Layout, v: View, held: set<nat>, b: nat, v': View)
    requires Ok(l, v, held) && b < l.size && b !in v.owner && BBlock(l, b) < |v.blocks|
    requires v'.blocks == v.blocks[BBlock(l, b) := WithBit(v.blocks[BBlock(l, b)], b % BPB, true)][b := Zero()]
    requires v'.inodes == v.inodes && v'.owner == v.owner[b := Held]
    ensures Ok(l, v', held + {b}) && b !in held && b >= l.nmeta
    ensures forall i: nat {:trigger SameFile(v, v', i)} | i < |v.inodes| :: SameFile(v, v', i)
    ensures forall i: nat, bn: nat {:trigger Addr(v', i, bn)} | i < |v.inodes| :: Addr(v', i, bn) == Addr(v, i, bn)
  {
    assert BBlock(l, b) < l.nmeta && IsMeta(v, BBlock(l, b));
    assert b < l.nmeta ==> IsMeta(v, b);
    ZeroWord(0);
    OneBitChanges(l, v.blocks, b, true, v'.blocks);
    BitsKept(l, v, b, true, v');
    LooseKeeps(l, v, v');
    OwnersKept(l, v, v', b);
  }

  lemma FreeKeeps(l: Layout, v: View, held: set<nat>, b: nat, v': View)
    requires Ok(l, v, held) && b in held && b >= l.nmeta && BBlock(l, b) < |v.blocks|
    requires OneBit(l, v.blocks, b, false, v'.blocks) && v'.blocks == v.blocks[BBlock(l, b) := v'.blocks[BBlock(l, b)]]
    requires v'.inodes == v.inodes && v'.owner == v.owner - {b}
    ensures Ok(l, v', held - {b})
    ensures forall i: nat {:trigger SameFile(v, v', i)} | i < |v.inodes| :: SameFile(v, v', i)
  {
    assert OwnerOk(l, v, b);
    assert BBlock(l, b) < l.nmeta && IsMeta(v, BBlock(l, b));
    BitsKept(l, v, b, false, v');
    LooseKeeps(l, v, v');
    OwnersKept(l, v, v', b);
  }

  // ------------------------------------------------------------------- bmap

  /** The bitmap is not touched. */
  ghost predicate SameMeta(l: Layout, v: View, v': View) {
    |v'.blocks| == |v.blocks| == l.size && forall c: nat {:trigger v'.blocks[c]} | c < l.nmeta ::
      l.nmeta <= l.size && v'.blocks[c] == v.blocks[c]
  }

  lemma SameBits(l: Layout, v: View, b: nat, v': View)
    requires Shaped(l, v) && Bits(l, v) && SameMeta(l, v, v') && b in v.owner && b >= l.nmeta && b in v'.owner
             && v'.owner == v.owner[b := v'.owner[b]]
    ensures Bits(l, v')
  {
    forall c: nat | c < l.size
      ensures BitAt(l, v'.blocks, c) <==> c in v'.owner
    {
      assert BitAt(l, v.blocks, c) <==> c in v.owner;
      assert BBlock(l, c) < l.nmeta && v'.blocks[BBlock(l, c)] == v.blocks[BBlock(l, c)];
    }
    forall c: nat | c < l.nmeta
      ensures IsMeta(v', c)
    {
      assert IsMeta(v, c);
    }
  }

  /** Slot (i, bn), so far empty, gets block b, and no other slot changes. */
  ghost predicate FillsSlot(v: View, i: nat, bn: nat, b: nat, v': View) {
    && i < |v.inodes| == |v'.inodes| && bn < MAXFILE && Addr(v, i, bn) == 0 && Addr(v', i, bn) == b
    && (forall j: nat, n: nat {:trigger Addr(v', j, n)} | j < |v.inodes| && !(j == i && n == bn) ::
         Addr(v', j, n) == Addr(v, j, n))
    && (forall j: nat {:trigger v'.inodes[j]} | j < |v.inodes| ::
          && v'.inodes[j].size == v.inodes[j].size && |v'.inodes[j].addrs| == |v.inodes[j].addrs| == NDIRECT + 1
          && v'.inodes[j].addrs[NDIRECT] == v.inodes[j].addrs[NDIRECT])
  }

  lemma AttachKeeps(l: Layout, v: View, held: set<nat>, i: nat, bn: nat, b: nat, v': View)
    requires Ok(l, v, held) && b in held && b >= l.nmeta && FillsSlot(v, i, bn, b, v')
    requires Shaped(l, v') && SameMeta(l, v, v') && v'.owner == v.owner[b := Data(i, bn)]
    ensures Ok(l, v', held - {b})
  {
    SameBits(l, v, b, v');
    assert OwnerOk(l, v, b);
    forall c: nat | c in v'.owner
      ensures OwnerOk(l, v', c)
    {
      assert c != b ==> OwnerOk(l, v, c);
    }
    forall j: nat, n: nat | j < |v'.inodes| && n < MAXFILE
      ensures SlotOk(v', j, n)
    {
      assert SlotOk(v, j, n);
    }
    forall j: nat | j < |v'.inodes|
      ensures IndOk(v', j)
    {
      assert IndOk(v, j);
    }
    forall j: nat, n: nat | j < |v'.inodes|
      ensures MappedOk(v', j, n)
    {
      assert MappedOk(v, j, n);
    }
  }

  lemma AttachDirect(l: Layout, v: View, held: set<nat>, i: nat, bn: nat, b: nat, v': View)
    requires Ok(l, v, held) && b in held && b >= l.nmeta && i < |v.inodes| && bn < NDIRECT && Addr(v, i, bn) == 0
    requires |v.inodes[i].addrs| == NDIRECT + 1
    requires v'.inodes == v.inodes[i := v.inodes[i].(addrs := v.inodes[i].addrs[bn := b])] && v'.blocks == v.blocks
    requires v'.owner == v.owner[b := Data(i, bn)]
    ensures Ok(l, v', held - {b}) && Addr(v', i, bn) == b
    ensures forall n: nat {:trigger Addr(v', i, n)} | n != bn :: Addr(v', i, n) == Addr(v, i, n)
    ensures forall j: nat {:trigger SameFile(v, v', j)} | j < |v.inodes| :: SameFile(v, v', j)
  {
    assert Shaped(l, v');
    AttachKeeps(l, v, held, i, bn, b, v');
    FillFiles(l, v, i, bn, b, v');
  }

  lemma FillFiles(l: Layout, v: View, i: nat, bn: nat, b: nat, v': View)
    requires Shaped(l, v) && Owners(l, v) && FillsSlot(v, i, bn, b, v') && |v'.blocks| == |v.blocks|
    requires forall c: nat {:trigger v'.blocks[c]} | c < |v.blocks| && c in v.owner && v.owner[c].Data? ::
               v'.blocks[c] == v.blocks[c]
    ensures forall j: nat {:trigger SameFile(v, v', j)} | j < |v.inodes| :: SameFile(v, v', j)
  {
    forall j: nat | j < |v.inodes|
      ensures SameFile(v, v', j)
    {
      assert v'.inodes[j].size == v.inodes[j].size;
      forall n: nat | Addr(v, j, n) != 0
        ensures Addr(v', j, n) == Addr(v, j, n) < |v.blocks| && v'.blocks[Addr(v, j, n)] == v.blocks[Addr(v, j, n)]
      {
        assert SlotOk(v, j, n) && OwnerOk(l, v, Addr(v, j, n));
      }
    }
  }

  /** A fresh zeroed block becomes the indirect block: it adds no slot. */
  lemma AttachIndirect(l: Layout, v: View, held: set<nat>, i: nat, b: nat, v': View)
    requires Ok(l, v, held) && b in held && b >= l.nmeta && b < |v.blocks| && v.blocks[b] == Zero() && i < |v.inodes|
    requires |v.inodes[i].addrs| == NDIRECT + 1 && v.inodes[i].addrs[NDIRECT] == 0
    requires v'.inodes == v.inodes[i := v.inodes[i].(addrs := v.inodes[i].addrs[NDIRECT := b])] && v'.blocks == v.blocks
    requires v'.owner == v.owner[b := Ind(i)]
    ensures Ok(l, v', held - {b})
    ensures forall j: nat, n: nat {:trigger Addr(v', j, n)} | j < |v.inodes| :: Addr(v', j, n) == Addr(v, j, n)
    ensures forall j: nat {:trigger SameFile(v, v', j)} | j < |v.inodes| :: SameFile(v, v', j)
  {
    assert Shaped(l, v');
    forall j: nat, n: nat | j < |v.inodes|
      ensures Addr(v', j, n) == Addr(v, j, n)
    {
      if j == i && NDIRECT <= n < MAXFILE {
        ZeroWord(n - NDIRECT);
      }
    }
    SameBits(l, v, b, v');
    IndirectOwners(l, v, held, i, b, v');
    forall j: nat | j < |v.inodes|
      ensures SameFile(v, v', j)
    {
      forall n: nat | Addr(v, j, n) != 0
        ensures Addr(v, j, n) < |v.blocks|
      {
        assert SlotOk(v, j, n) && OwnerOk(l, v, Addr(v, j, n));
      }
    }
  }

  lemma IndirectOwners(l: Layout, v: View, held: set<nat>, i: nat, b: nat, v': View)
    requires Ok(l, v, held) && b in held && b >= l.nmeta && i < |v.inodes| && |v.inodes[i].addrs| == NDIRECT + 1
    requires v'.inodes == v.inodes[i := v.inodes[i].(addrs := v.inodes[i].addrs[NDIRECT := b])]
             && v.inodes[i].addrs[NDIRECT] == 0
    requires v'.owner == v.owner[b := Ind(i)]
    requires forall j: nat, n: nat {:trigger Addr(v', j, n)} | j < |v.inodes| :: Addr(v', j, n) == Addr(v, j, n)
    ensures Owners(l, v') && Mapped(v')
  {
    assert OwnerOk(l, v, b);
    forall c: nat | c in v'.owner
      ensures OwnerOk(l, v', c)
    {
      assert c != b ==> OwnerOk(l, v, c);
    }
    forall j: nat, n: nat | j < |v'.inodes| && n < MAXFILE
      ensures SlotOk(v', j, n)
    {
      assert SlotOk(v, j, n) && Addr(v', j, n) == Addr(v, j, n);
    }
    forall j: nat | j < |v'.inodes|
      ensures IndOk(v', j)
    {
      assert IndOk(v, j);
    }
    forall j: nat, n: nat | j < |v'.inodes|
      ensures MappedOk(v', j, n)
    {
      assert MappedOk(v, j, n) && Addr(v', j, n) == Addr(v, j, n);
    }
  }

  lemma AttachWord(l: Layout, v: View, held: set<nat>, i: nat, j: nat, b: nat, a: nat, v': View)
    requires Ok(l, v, held) && b in held && l.nmeta <= b < l.size && i < |v.inodes| && j < NINDIRECT
             && Addr(v, i, NDIRECT + j) == 0
    requires |v.inodes[i].addrs| == NDIRECT + 1 && a == v.inodes[i].addrs[NDIRECT] && 0 < a < |v.blocks|
             && IsBlock(v.blocks[a])
    requires v'.blocks == v.blocks[a := PutWord(v.blocks[a], j, b)] && v'.inodes == v.inodes
    requires v'.owner == v.owner[b := Data(i, NDIRECT + j)]
    ensures Ok(l, v', held - {b}) && Addr(v', i, NDIRECT + j) == b
    ensures forall n: nat {:trigger Addr(v', i, n)} | n != NDIRECT + j :: Addr(v', i, n) == Addr(v, i, n)
    ensures forall k: nat {:trigger SameFile(v, v', k)} | k < |v.inodes| :: SameFile(v, v', k)
  {
    assert IndOk(v, i) && OwnerOk(l, v, a);
    assert a < l.nmeta ==> IsMeta(v, a);
    PutWordIs(v.blocks[a], j, b, j);
    assert Shaped(l, v');
    forall k: nat, n: nat | k < |v.inodes|
      ensures Addr(v', k, n) == if k == i && n == NDIRECT + j then b else Addr(v, k, n)
    {
      assert IndOk(v, k);
      if k == i && NDIRECT <= n < MAXFILE {
        PutWordIs(v.blocks[a], j, b, n - NDIRECT);
      }
    }
    AttachKeeps(l, v, held, i, NDIRECT + j, b, v');
    FillFiles(l, v, i, NDIRECT + j, b, v');
  }

  // ------------------------------------------------------------------ writing

  /** The mapped blocks of file i other than bn are as they were. */
  ghost predicate OtherBlocks(v: View, i: nat, bn: nat, v': View) {
    |v'.blocks| == |v.blocks| && forall n: nat {:trigger Addr(v, i, n)} {:trigger Addr(v', i, n)} | n != bn
        && Addr(v, i, n) != 0 ::
      Addr(v, i, n) < |v.blocks| && v'.blocks[Addr(v, i, n)] == v.blocks[Addr(v, i, n)]
  }

  /** Writing a data block of file i changes that block of that file and nothing else. */
  lemma StoreKeeps(l: Layout, v: View, held: set<nat>, i: nat, bn: nat, data: Block, v': View)
    requires Ok(l, v, held) && i < |v.inodes| && bn < MAXFILE && IsBlock(data)
    requires 0 < Addr(v, i, bn) < |v.blocks| && v'.blocks == v.blocks[Addr(v, i, bn) := data]
             && v'.inodes == v.inodes && v'.owner == v.owner
    ensures Ok(l, v', held)
    ensures forall j: nat, n: nat {:trigger Addr(v', j, n)} | j < |v.inodes| :: Addr(v', j, n) == Addr(v, j, n)
    ensures forall j: nat {:trigger SameFile(v, v', j)} | j < |v.inodes| && j != i :: SameFile(v, v', j)
    ensures OtherBlocks(v, i, bn, v')
  {
    var a := Addr(v, i, bn);
    assert SlotOk(v, i, bn) && OwnerOk(l, v, a);
    assert a < l.nmeta ==> IsMeta(v, a);
    assert Shaped(l, v');
    forall j: nat, n: nat | j < |v.inodes|
      ensures Addr(v', j, n) == Addr(v, j, n)
    {
      assert IndOk(v, j);
      AddrKept(v, v', j, n);
    }
    SameBits(l, v, a, v');
    StoreOwners(l, v, v');
    forall j: nat, n: nat | j < |v.inodes| && !(j == i && n == bn) && Addr(v, j, n) != 0
      ensures Addr(v, j, n) < |v.blocks| && v'.blocks[Addr(v, j, n)] == v.blocks[Addr(v, j, n)]
    {
      assert SlotOk(v, j, n) && OwnerOk(l, v, Addr(v, j, n));
    }
  }

  lemma StoreOwners(l: Layout, v: View, v': View)
    requires Owners(l, v) && Mapped(v) && v'.inodes == v.inodes && v'.owner == v.owner
    requires forall j: nat, n: nat {:trigger Addr(v', j, n)} | j < |v.inodes| :: Addr(v', j, n) == Addr(v, j, n)
    ensures Owners(l, v') && Mapped(v')
  {
    forall c: nat | c in v'.owner
      ensures OwnerOk(l, v', c)
    {
      assert OwnerOk(l, v, c);
    }
    forall j: nat, n: nat | j < |v'.inodes| && n < MAXFILE
      ensures SlotOk(v', j, n)
    {
      assert SlotOk(v, j, n) && Addr(v', j, n) == Addr(v, j, n);
    }
    forall j: nat | j < |v'.inodes|
      ensures IndOk(v', j)
    {
      assert IndOk(v, j);
    }
    forall j: nat, n: nat | j < |v'.inodes|
      ensures MappedOk(v', j, n)
    {
      assert MappedOk(v, j, n) && Addr(v', j, n) == Addr(v, j, n);
    }
  }

  /** A new size below which every block is mapped. */
  lemma ResizeKeeps(l: Layout, v: View, held: set<nat>, i: nat, size: nat, v': View)
    requires Ok(l, v, held) && i < |v.inodes| && size <= MAXFILE * BSIZE
    requires forall n: nat {:trigger Addr(v, i, n)} | n * BSIZE < size :: Addr(v, i, n) != 0
    requires v' == v.(inodes := v.inodes[i := v.inodes[i].(size := size)])
    ensures Ok(l, v', held)
    ensures forall j: nat, n: nat {:trigger Addr(v', j, n)} | j < |v.inodes| :: Addr(v', j, n) == Addr(v, j, n)
  {
    assert Shaped(l, v');
    forall c: nat | c < l.size
      ensures BitAt(l, v'.blocks, c) <==> c in v'.owner
    {
      assert BitAt(l, v.blocks, c) <==> c in v.owner;
    }
    forall c: nat | c < l.nmeta
      ensures IsMeta(v', c)
    {
      assert IsMeta(v, c);
    }
    forall c: nat | c in v'.owner
      ensures OwnerOk(l, v', c)
    {
      assert OwnerOk(l, v, c);
    }
    forall j: nat, n: nat | j < |v'.inodes| && n < MAXFILE
      ensures SlotOk(v', j, n)
    {
      assert SlotOk(v, j, n);
    }
    forall j: nat | j < |v'.inodes|
      ensures IndOk(v', j)
    {
      assert IndOk(v, j);
    }
    forall j: nat, n: nat | j < |v'.inodes|
      ensures MappedOk(v', j, n)
    {
      assert MappedOk(v, j, n) && (j == i ==> Addr(v, i, n) == Addr(v', i, n));
    }
  }

  // ------------------------------------------------------------------- itrunc

  /** A direct block of an empty file is taken out of it. */
  lemma DetachDirect(l: Layout, v: View, held: set<nat>, i: nat, k: nat, b: nat, v': View)
    requires Ok(l, v, held) && i < |v.inodes| && v.inodes[i].size == 0 && k < NDIRECT
             && |v.inodes[i].addrs| == NDIRECT + 1
    requires b == v.inodes[i].addrs[k] != 0
    requires v'.inodes == v.inodes[i := v.inodes[i].(addrs := v.inodes[i].addrs[k := 0])] && v'.blocks == v.blocks
             && v'.owner == v.owner[b := Held]
    ensures Ok(l, v', held + {b}) && l.nmeta <= b < l.size && b !in held && b in v.owner && v.owner[b] == Data(i, k)
    ensures forall j: nat {:trigger SameFile(v, v', j)} | j < |v.inodes| && j != i :: SameFile(v, v', j)
  {
    assert Addr(v, i, k) == b && SlotOk(v, i, k) && OwnerOk(l, v, b);
    assert b < l.nmeta ==> IsMeta(v, b);
    assert Shaped(l, v');
    SameBits(l, v, b, v');
    forall c: nat | c in v'.owner
      ensures OwnerOk(l, v', c)
    {
      assert OwnerOk(l, v, c);
    }
    forall j: nat, n: nat | j < |v'.inodes| && n < MAXFILE
      ensures SlotOk(v', j, n)
    {
      assert SlotOk(v, j, n);
    }
    forall j: nat | j < |v'.inodes|
      ensures IndOk(v', j)
    {
      assert IndOk(v, j);
    }
    forall j: nat, n: nat | j < |v'.inodes|
      ensures MappedOk(v', j, n)
    {
      assert MappedOk(v, j, n);
    }
    forall j: nat, n: nat | j < |v.inodes| && Addr(v, j, n) != 0
      ensures Addr(v, j, n) < |v.blocks|
    {
      assert SlotOk(v, j, n) && OwnerOk(l, v, Addr(v, j, n));
    }
  }

  /** Block c hangs off the indirect block of file i, or is it. */
  ghost predicate Hangs(owner: map<nat, Owner>, i: nat, c: nat) {
    c in owner && (owner[c] == Ind(i) || (owner[c].Data? && owner[c].inum == i && owner[c].bn >= NDIRECT))
  }

  ghost function Hanging(owner: map<nat, Owner>, i: nat): set<nat> { set c | c in owner && Hangs(owner, i, c) }

  ghost function CutOff(owner: map<nat, Owner>, i: nat): map<nat, Owner> {
    map c | c in owner :: if Hangs(owner, i, c) then Held else owner[c]
  }

  /** The indirect block of an empty file is taken out of it, with all its blocks. */
  lemma DetachIndirect(l: Layout, v: View, i: nat, v': View)
    requires Ok(l, v, {}) && i < |v.inodes| && v.inodes[i].size == 0 && |v.inodes[i].addrs| == NDIRECT + 1
    requires v'.inodes == v.inodes[i := v.inodes[i].(addrs := v.inodes[i].addrs[NDIRECT := 0])]
             && v'.blocks == v.blocks && v'.owner == CutOff(v.owner, i)
    ensures Ok(l, v', Hanging(v.owner, i)) && (forall c | c in Hanging(v.owner, i) :: c >= l.nmeta)
    ensures forall j: nat {:trigger SameFile(v, v', j)} | j < |v.inodes| && j != i :: SameFile(v, v', j)
  {
    assert Shaped(l, v');
    forall c: nat | c < l.size
      ensures BitAt(l, v'.blocks, c) <==> c in v'.owner
    {
      assert BitAt(l, v.blocks, c) <==> c in v.owner;
    }
    forall c: nat | c < l.nmeta
      ensures IsMeta(v', c)
    {
      assert IsMeta(v, c);
    }
    CutOwners(l, v, i, v');
    forall c: nat
      ensures c in Hanging(v.owner, i) <==> c in v'.owner && v'.owner[c].Held?
    {
      assert c in v.owner && v.owner[c].Held? ==> c in {};
    }
    forall j: nat, n: nat | j < |v.inodes| && Addr(v, j, n) != 0
      ensures Addr(v, j, n) < |v.blocks|
    {
      assert SlotOk(v, j, n) && OwnerOk(l, v, Addr(v, j, n));
    }
    forall c | c in Hanging(v.owner, i)
      ensures c >= l.nmeta
    {
      assert c < l.nmeta ==> IsMeta(v, c);
    }
  }

  lemma CutOwners(l: Layout, v: View, i: nat, v': View)
    requires Ok(l, v, {}) && i < |v.inodes| && v.inodes[i].size == 0 && |v.inodes[i].addrs| == NDIRECT + 1
    requires v'.inodes == v.inodes[i := v.inodes[i].(addrs := v.inodes[i].addrs[NDIRECT := 0])]
             && v'.blocks == v.blocks && v'.owner == CutOff(v.owner, i)
    ensures Owners(l, v') && Mapped(v')
  {
    forall c: nat | c in v'.owner
      ensures OwnerOk(l, v', c)
    {
      assert OwnerOk(l, v, c);
    }
    forall j: nat, n: nat | j < |v'.inodes| && n < MAXFILE
      ensures SlotOk(v', j, n)
    {
      assert SlotOk(v, j, n);
    }
    forall j: nat | j < |v'.inodes|
      ensures IndOk(v', j)
    {
      assert IndOk(v, j);
    }
    forall j: nat, n: nat | j < |v'.inodes|
      ensures MappedOk(v', j, n)
    {
      assert MappedOk(v, j, n);
    }
  }

  // --------------------------------------------------------- for the methods

  ghost predicate AllSame(v: View, v': View) {
    |v'.inodes| == |v.inodes| && forall i: nat {:trigger SameFile(v, v', i)} | i < |v.inodes| :: SameFile(v, v', i)
  }

  ghost predicate SameAddrs(v: View, v': View) {
    v'.inodes == v.inodes && forall i: nat,
        bn: nat {:trigger Addr(v', i, bn)} | i < |v.inodes| :: Addr(v', i, bn) == Addr(v, i, bn)
  }

  lemma SameFileTrans(v: View, w: View, x: View, i: nat)
    requires SameFile(v, w, i) && SameFile(w, x, i)
    ensures SameFile(v, x, i)
  {
    forall bn: nat | Addr(v, i, bn) != 0
      ensures Addr(x, i, bn) == Addr(v, i, bn) && Addr(v, i, bn) < |v.blocks| == |x.blocks|
              && x.blocks[Addr(v, i, bn)] == v.blocks[Addr(v, i, bn)]
    {
      assert Addr(w, i, bn) == Addr(v, i, bn);
    }
  }

  lemma SameTrans(v: View, w: View, x: View)
    requires AllSame(v, w) && AllSame(w, x)
    ensures AllSame(v, x)
  {
    forall i: nat | i < |v.inodes|
      ensures SameFile(v, x, i)
    {
      assert SameFile(v, w, i) && SameFile(w, x, i);
      SameFileTrans(v, w, x, i);
    }
  }

  lemma AllSameRefl(l: Layout, v: View)
    requires Shaped(l, v) && Owners(l, v)
    ensures AllSame(v, v)
  {
    forall i: nat, bn: nat | i < |v.inodes| && Addr(v, i, bn) != 0
      ensures Addr(v, i, bn) < |v.blocks|
    {
      assert SlotOk(v, i, bn) && OwnerOk(l, v, Addr(v, i, bn));
    }
  }

  /** Facts about one bitmap block. */
  lemma InBitmap(l: Layout, v: View, b: nat)
    requires Shaped(l, v) && b < l.size
    ensures BBlock(l, b) < |v.blocks| && |v.blocks[BBlock(l, b)]| == BSIZE
  {
  }

  lemma BitTells(l: Layout, v: View, b: nat)
    requires Bits(l, v) && b < l.size
    ensures BitAt(l, v.blocks, b) <==> b in v.owner
  {
  }

  lemma BlockTells(l: Layout, v: View, held: set<nat>, i: nat, bn: nat)
    requires Ok(l, v, held) && i < |v.inodes| && bn < MAXFILE
    ensures 0 < l.nmeta && |v.inodes[i].addrs| == NDIRECT + 1 && v.inodes[i].size <= MAXFILE * BSIZE
    ensures Addr(v, i, bn) != 0 ==> l.nmeta <= Addr(v, i, bn) < l.size && IsBlock(v.blocks[Addr(v, i, bn)])
    ensures var a := v.inodes[i].addrs[NDIRECT]; a != 0 ==> l.nmeta <= a < l.size && IsBlock(v.blocks[a])
  {
    assert v.inodes[i] == v.inodes[i] && SlotOk(v, i, bn) && IndOk(v, i);
    var a := v.inodes[i].addrs[NDIRECT];
    assert Addr(v, i, bn) != 0 ==> OwnerOk(l, v, Addr(v, i, bn));
    assert a != 0 ==> OwnerOk(l, v, a);
    assert Addr(v, i, bn) < l.nmeta ==> IsMeta(v, Addr(v, i, bn));
    assert a < l.nmeta ==> IsMeta(v, a);
  }
}
