/** The free bitmap and the words of an indirect block, as bytes of disk blocks (kernel/fs.c,
    kernel/fs.h). */
module FsBits {
  const BSIZE := 1024
  const BPB := 8192         // bitmap bits per block
  const NDIRECT := 12
  const NINDIRECT := 256
  const MAXFILE := 268

  type Block = b: seq<int> | |b| == 1024 witness seq(1024, i => 0)

  function ZeroBlock(): (b: Block)
    ensures forall i :: 0 <= i < BSIZE ==> b[i] == 0
  {
    seq(1024, i => 0)
  }

  /** `x & (1 << k)`. */
  predicate Bit(x: int, k: nat)
    decreases k
  {
    if k == 0 then x % 2 == 1 else Bit(x / 2, k - 1)
  }

  /** `x | (1 << k)` if v, else `x & ~(1 << k)`. */
  function PutBit(x: int, k: nat, v: bool): (r: int)
    decreases k
  {
    if k == 0 then x - x % 2 + (if v then 1 else 0) else 2 * PutBit(x / 2, k - 1, v) + x % 2
  }

  /** Writing bit k changes that bit alone. */
  lemma {:induction false} PutBitAt(x: int, k: nat, v: bool, j: nat)
    ensures Bit(PutBit(x, k, v), j) == if j == k then v else Bit(x, j)
    decreases k
  {
    if k > 0 {
      assert PutBit(x, k, v) / 2 == PutBit(x / 2, k - 1, v);
      if j > 0 {
        PutBitAt(x / 2, k - 1, v, j - 1);
      }
    } else if j > 0 {
      assert PutBit(x, 0, v) / 2 == x / 2;
    }
  }

  lemma {:induction false} ZeroBit(k: nat)
    ensures !Bit(0, k)
  {
    if k > 0 {
      ZeroBit(k - 1);
    }
  }

  /** Bit i of a bitmap block. */
  predicate BlockBit(b: Block, i: int)
    requires 0 <= i < BPB
  {
    Bit(b[i / 8], i % 8)
  }

  function PutBlockBit(b: Block, i: int, v: bool): (r: Block)
    requires 0 <= i < BPB
  {
    b[i / 8 := PutBit(b[i / 8], i % 8, v)]
  }

  lemma PutBlockBitAt(b: Block, i: int, v: bool, j: int)
    requires 0 <= i < BPB && 0 <= j < BPB
    ensures BlockBit(PutBlockBit(b, i, v), j) == if j == i then v else BlockBit(b, j)
  {
    if i / 8 == j / 8 {
      PutBitAt(b[i / 8], i % 8, v, j % 8);
    }
  }

  /** Word i of a block, little-endian. */
  function Word(b: Block, i: int): (r: int)
    requires 0 <= i < NINDIRECT
  {
    b[4 * i] + 0x100 * b[4 * i + 1] + 0x1_0000 * b[4 * i + 2] + 0x100_0000 * b[4 * i + 3]
  }

  function PutWord(b: Block, i: int, x: int): (r: Block)
    requires 0 <= i < NINDIRECT
  {
    b[4 * i := x % 0x100][4 * i + 1 := x / 0x100 % 0x100]
     [4 * i + 2 := x / 0x1_0000 % 0x100][4 * i + 3 := x / 0x100_0000]
  }

  lemma SplitWord(x: int)
    ensures x % 0x100 + 0x100 * (x / 0x100 % 0x100) + 0x1_0000 * (x / 0x1_0000 % 0x100)
            + 0x100_0000 * (x / 0x100_0000) == x
  {
    var y := x / 0x100;
    assert x / 0x1_0000 == y / 0x100;
    assert x / 0x100_0000 == y / 0x1_0000 == y / 0x100 / 0x100;
  }

  /** A word that is written is read back, and the other words stay. */
  lemma PutWordAt(b: Block, i: int, x: int, j: int)
    requires 0 <= i < NINDIRECT && 0 <= j < NINDIRECT
    ensures Word(PutWord(b, i, x), j) == if j == i then x else Word(b, j)
  {
    SplitWord(x);
  }

  lemma ZeroWord(b: Block, i: int)
    requires 0 <= i < NINDIRECT && b == ZeroBlock()
    ensures Word(b, i) == 0
  {
  }
}
