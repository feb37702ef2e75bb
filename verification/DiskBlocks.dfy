/** Blocks as bytes, and the two ways the file system reads them: as a bitmap and as an array
    of 32-bit little-endian words. */
module DiskBlocks {

  const BSIZE := 1024
  const BPB := 8192
  const NINDIRECT := 256
  const U32 := 0x1_0000_0000

  type Block = seq<int>

  ghost predicate IsBlock(b: Block) {
    |b| == BSIZE && forall i | 0 <= i < BSIZE :: 0 <= b[i] < 256
  }

  function Zero(): (z: Block)
    ensures |z| == BSIZE && forall i | 0 <= i < BSIZE :: z[i] == 0
  {
    seq(BSIZE, _ => 0)
  }

  // ------------------------------------------------------------------- bits

  /** x & (1 << i) is not 0. */
  function BitOf(x: int, i: nat): bool
    decreases i
  {
    if i == 0 then x % 2 == 1 else BitOf(x / 2, i - 1)
  }

  /** x | (1 << i), and x & ~(1 << i). */
  function SetBit(x: int, i: nat): int
    decreases i
  {
    if i == 0 then x / 2 * 2 + 1 else 2 * SetBit(x / 2, i - 1) + x % 2
  }

  function ClearBit(x: int, i: nat): int
    decreases i
  {
    if i == 0 then x / 2 * 2 else 2 * ClearBit(x / 2, i - 1) + x % 2
  }

  lemma HalfOf(y: int, b: int)
    requires b == 0 || b == 1
    ensures (2 * y + b) / 2 == y && (2 * y + b) % 2 == b
  {
  }

  lemma {:induction false} SetBitIs(x: int, i: nat, j: nat)
    ensures BitOf(SetBit(x, i), j) <==> j == i || BitOf(x, j)
    decreases i
  {
    if i > 0 {
      HalfOf(SetBit(x / 2, i - 1), x % 2);
      if j > 0 {
        SetBitIs(x / 2, i - 1, j - 1);
      }
    }
  }

  lemma {:induction false} ClearBitIs(x: int, i: nat, j: nat)
    ensures BitOf(ClearBit(x, i), j) <==> j != i && BitOf(x, j)
    decreases i
  {
    if i > 0 {
      HalfOf(ClearBit(x / 2, i - 1), x % 2);
      if j > 0 {
        ClearBitIs(x / 2, i - 1, j - 1);
      }
    }
  }

  function Pow2(n: nat): nat { if n == 0 then 1 else 2 * Pow2(n - 1) }

  lemma {:induction false} BitRange(x: int, i: nat, n: nat)
    requires i < n && 0 <= x < Pow2(n)
    ensures 0 <= SetBit(x, i) < Pow2(n) && 0 <= ClearBit(x, i) < Pow2(n)
  {
    if i > 0 {
      BitRange(x / 2, i - 1, n - 1);
    }
  }

  /** Bit bi of a bitmap block. */
  function Bit(b: Block, bi: nat): bool
    requires |b| == BSIZE && bi < BPB
  {
    BitOf(b[bi / 8], bi % 8)
  }

  function WithBit(b: Block, bi: nat, on: bool): Block
    requires |b| == BSIZE && bi < BPB
  {
    b[bi / 8 := if on then SetBit(b[bi / 8], bi % 8) else ClearBit(b[bi / 8], bi % 8)]
  }

  lemma WithBitIs(b: Block, bi: nat, on: bool, bj: nat)
    requires IsBlock(b) && bi < BPB && bj < BPB
    ensures IsBlock(WithBit(b, bi, on)) && (Bit(WithBit(b, bi, on), bj) <==> if bj == bi then on else Bit(b, bj))
  {
    assert Pow2(8) == 256;
    BitRange(b[bi / 8], bi % 8, 8);
    SetBitIs(b[bi / 8], bi % 8, bj % 8);
    ClearBitIs(b[bi / 8], bi % 8, bj % 8);
    assert bi / 8 == bj / 8 && bi % 8 == bj % 8 ==> bi == bj;
  }

  lemma {:induction false} ZeroBit(i: nat)
    ensures !BitOf(0, i)
  {
    if i > 0 {
      ZeroBit(i - 1);
    }
  }

  lemma ZeroBits()
    ensures forall bi: nat {:trigger Bit(Zero(), bi)} | bi < BPB :: !Bit(Zero(), bi)
  {
    forall bi: nat | bi < BPB
      ensures !Bit(Zero(), bi)
    {
      ZeroBit(bi % 8);
    }
  }

  // ------------------------------------------------------------------ words

  function Word(b: Block, j: nat): int
    requires |b| == BSIZE && j < NINDIRECT
  {
    b[4 * j] + 0x100 * b[4 * j + 1] + 0x1_0000 * b[4 * j + 2] + 0x100_0000 * b[4 * j + 3]
  }

  function PutWord(b: Block, j: nat, x: nat): Block
    requires |b| == BSIZE && j < NINDIRECT
  {
    b[4 * j := x % 0x100][4 * j + 1 := x / 0x100 % 0x100][4 * j + 2 := x / 0x1_0000 % 0x100]
        [4 * j + 3 := x / 0x100_0000]
  }

  /** A stored word reads back, and the others are not disturbed. */
  lemma PutWordIs(b: Block, j: nat, x: nat, k: nat)
    requires IsBlock(b) && j < NINDIRECT && k < NINDIRECT && x < U32
    ensures IsBlock(PutWord(b, j, x)) && Word(PutWord(b, j, x), k) == (if k == j then x else Word(b, k))
  {
    Bytes4(x);
  }

  lemma Bytes4(x: nat)
    requires x < U32
    ensures x ==
            x % 0x100 + 0x100 * (x / 0x100 % 0x100) + 0x1_0000 * (x / 0x1_0000 % 0x100) + 0x100_0000 * (x / 0x100_0000)
    ensures x / 0x100_0000 < 256
  {
    assert x / 0x1_0000 == x / 0x100 / 0x100 && x / 0x100_0000 == x / 0x1_0000 / 0x100;
  }

  lemma WordRange(b: Block, j: nat)
    requires IsBlock(b) && j < NINDIRECT
    ensures 0 <= Word(b, j) < U32
  {
  }

  lemma ZeroWord(j: nat)
    requires j < NINDIRECT
    ensures IsBlock(Zero()) && Word(Zero(), j) == 0
  {
  }
}
