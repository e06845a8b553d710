/** The on-disk layout of fs.h: where the bitmap bits, the inodes and the block addresses of a
    file are, as functions of the block contents. */
module FsLayout {
  import opened Common
  import opened Blocks

  const BPB := 4096   // bitmap bits per block
  const IPB := 8      // inodes per block
  const INODE_WORDS := 16
  const NDIRECT := 12
  const NINDIRECT := 128
  const MAXFILE := NDIRECT + NINDIRECT

  /** The superblock, with `datastart` the first block after the bitmap (nmeta in mkfs.c). */
  datatype Geometry = Geometry(size: nat, ninodes: nat, inodestart: nat, bmapstart: nat, datastart: nat)

  type Store = seq<Block>

  /** The areas follow each other on a disk of n blocks. */
  predicate Sized(g: Geometry, n: nat)
  {
    && 1 < g.inodestart
    && g.inodestart + g.ninodes / IPB < g.bmapstart
    && g.bmapstart + g.size / BPB < g.datastart
    && g.datastart <= g.size <= n <= UINT_LIMIT
  }

  predicate Fits(g: Geometry, bs: Store) { Sized(g, |bs|) }

  function BBlock(g: Geometry, b: nat): (r: nat) { b / BPB + g.bmapstart }

  function IBlock(g: Geometry, inum: nat): (r: nat) { inum / IPB + g.inodestart }

  // ---- bits of a byte ----

  /** `(x & (1 << j)) != 0`. */
  predicate BitSet(x: nat, j: nat)
    decreases j
  {
    if j == 0 then x % 2 == 1 else BitSet(x / 2, j - 1)
  }

  /** `x | (1 << j)`. */
  function Or(x: nat, j: nat): (r: nat)
    ensures x <= r
    decreases j
  {
    if j == 0 then x / 2 * 2 + 1 else 2 * Or(x / 2, j - 1) + x % 2
  }

  /** `x & ~(1 << j)`. */
  function AndNot(x: nat, j: nat): (r: nat)
    ensures r <= x
    decreases j
  {
    if j == 0 then x / 2 * 2 else 2 * AndNot(x / 2, j - 1) + x % 2
  }

  lemma {:induction false} OrBits(x: nat, j: nat, i: nat)
    ensures BitSet(Or(x, j), i) == (i == j || BitSet(x, i))
    ensures BitSet(AndNot(x, j), i) == (i != j && BitSet(x, i))
    decreases j
  {
    if j > 0 && i > 0 {
      OrBits(x / 2, j - 1, i - 1);
      assert Or(x, j) / 2 == Or(x / 2, j - 1) && AndNot(x, j) / 2 == AndNot(x / 2, j - 1);
    } else if j == 0 && i > 0 {
      assert Or(x, j) / 2 == x / 2 && AndNot(x, j) / 2 == x / 2;
    }
  }

  lemma {:induction false} OrStaysByte(x: nat, j: nat, k: nat)
    requires j < k && x < Pow2(k)
    ensures Or(x, j) < Pow2(k)
    decreases j
  {
    assert Pow2(k) == 2 * Pow2(k - 1) && x / 2 < Pow2(k - 1);
    if j > 0 { OrStaysByte(x / 2, j - 1, k - 1); }
  }

  function Pow2(k: nat): (r: nat) { if k == 0 then 1 else 2 * Pow2(k - 1) }

  function OrByte(x: byte, j: nat): (r: byte)
    requires j < 8
  {
    assert Or(x, j) < 256 by {
      assert Pow2(4) == 16 && Pow2(8) == 256;
      OrStaysByte(x, j, 8);
    }
    Or(x, j)
  }

  // ---- the free map ----

  predicate Bit(g: Geometry, bs: Store, b: nat)
    requires Fits(g, bs) && b < g.size
  {
    BitSet(bs[BBlock(g, b)][b % BPB / 8], b % BPB % 8)
  }

  /** balloc's `bp->data[bi/8] |= m`. */
  function MarkUsed(blk: Block, bi: nat): (r: Block)
    requires bi < BPB
  {
    blk[bi / 8 := OrByte(blk[bi / 8], bi % 8)]
  }

  /** bfree's `bp->data[bi/8] &= ~m`. */
  function MarkFree(blk: Block, bi: nat): (r: Block)
    requires bi < BPB
  {
    blk[bi / 8 := AndNot(blk[bi / 8], bi % 8)]
  }

  lemma MarkBits(blk: Block, bi: nat, i: nat)
    requires bi < BPB && i < BPB
    ensures BitSet(MarkUsed(blk, bi)[i / 8], i % 8) == (i == bi || BitSet(blk[i / 8], i % 8))
    ensures BitSet(MarkFree(blk, bi)[i / 8], i % 8) == (i != bi && BitSet(blk[i / 8], i % 8))
  {
    if i / 8 == bi / 8 {
      OrBits(blk[bi / 8], bi % 8, i % 8);
    }
  }

  function SetBit(g: Geometry, bs: Store, b: nat): (r: Store)
    requires Fits(g, bs) && b < g.size
    ensures |r| == |bs|
  {
    bs[BBlock(g, b) := MarkUsed(bs[BBlock(g, b)], b % BPB)]
  }

  function ClearBit(g: Geometry, bs: Store, b: nat): (r: Store)
    requires Fits(g, bs) && b < g.size
    ensures |r| == |bs|
  {
    bs[BBlock(g, b) := MarkFree(bs[BBlock(g, b)], b % BPB)]
  }

  lemma BitAfter(g: Geometry, bs: Store, b: nat, c: nat)
    requires Fits(g, bs) && b < g.size && c < g.size
    ensures Bit(g, SetBit(g, bs, b), c) == (c == b || Bit(g, bs, c))
    ensures Bit(g, ClearBit(g, bs, b), c) == (c != b && Bit(g, bs, c))
  {
    if BBlock(g, b) == BBlock(g, c) {
      MarkBits(bs[BBlock(g, b)], b % BPB, c % BPB);
    }
  }
}
