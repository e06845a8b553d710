/** The content of files as a function of the blocks and the inodes' addresses (fs.c), and what the
    operations on files keep and change, as lemmas about values. */
module FsContent {
  import opened Common
  import opened Blocks
  import opened FsLayout
  import opened FsOwnership
  import CR = CrashRecovery

  // ---- inodes on disk ----

  function InodeAt(inum: nat): (r: nat)
    ensures r + INODE_WORDS <= WORDS
  {
    INODE_WORDS * (inum % IPB)
  }

  function DiskSize(g: Geometry, bs: Store, inum: nat): (r: uint)
    requires Fits(g, bs) && inum < g.ninodes
  {
    Word(bs[IBlock(g, inum)], InodeAt(inum) + 2)
  }

  function DiskAddrs(g: Geometry, bs: Store, inum: nat): (r: Addrs)
    requires Fits(g, bs) && inum < g.ninodes
  {
    Words(bs[IBlock(g, inum)], InodeAt(inum) + 3, 13)
  }

  /** The four shorts at the head of an inode. */
  datatype Attrs = Attrs(itype: nat, major: nat, minor: nat, nlink: nat)

  function Pack(lo: nat, hi: nat): (r: uint) { lo % 65536 + 65536 * (hi % 65536) }

  function Unpack(w0: uint, w1: uint): (r: Attrs)
  {
    Attrs(w0 % 65536, w0 / 65536, w1 % 65536, w1 / 65536)
  }

  function Shorts(at: Attrs): (r: Attrs)
  {
    Attrs(at.itype % 65536, at.major % 65536, at.minor % 65536, at.nlink % 65536)
  }

  lemma PackReads(at: Attrs)
    ensures Unpack(Pack(at.itype, at.major), Pack(at.minor, at.nlink)) == Shorts(at)
  {
  }

  function DiskAttrs(g: Geometry, bs: Store, inum: nat): (r: Attrs)
    requires Fits(g, bs) && inum < g.ninodes
  {
    AttrsIn(bs[IBlock(g, inum)], inum)
  }

  function AttrsIn(blk: Block, inum: nat): (r: Attrs)
  {
    Unpack(Word(blk, InodeAt(inum)), Word(blk, InodeAt(inum) + 1))
  }

  function InodeWords(at: Attrs, size: uint, addrs: Addrs): (r: seq<uint>)
    ensures |r| == 16
  {
    [Pack(at.itype, at.major), Pack(at.minor, at.nlink), size] + addrs
  }

  /** iupdate's stores into the inode's place in its block. */
  function PutInode(blk: Block, inum: nat, at: Attrs, size: uint, addrs: Addrs): (r: Block)
  {
    PutWords(blk, InodeAt(inum), InodeWords(at, size, addrs))
  }

  lemma PutInodeReads(blk: Block, inum: nat, at: Attrs, size: uint, addrs: Addrs)
    ensures var r := PutInode(blk, inum, at, size, addrs);
      && AttrsIn(r, inum) == Shorts(at) && Word(r, InodeAt(inum) + 2) == size
      && Words(r, InodeAt(inum) + 3, 13) == addrs
  {
    hide PutWords, Word, Pack, Unpack, Shorts;
    var ws := InodeWords(at, size, addrs);
    PutWordsAt(blk, InodeAt(inum), ws, InodeAt(inum));
    PutWordsAt(blk, InodeAt(inum), ws, InodeAt(inum) + 1);
    PutWordsAt(blk, InodeAt(inum), ws, InodeAt(inum) + 2);
    PackReads(at);
    var after := Words(PutWords(blk, InodeAt(inum), ws), InodeAt(inum) + 3, 13);
    forall k | 0 <= k < 13
      ensures after[k] == addrs[k]
    {
      PutWordsAt(blk, InodeAt(inum), ws, InodeAt(inum) + 3 + k);
    }
  }

  lemma PutInodeOther(blk: Block, inum: nat, at: Attrs, size: uint, addrs: Addrs, j: nat)
    requires j % IPB != inum % IPB
    ensures var r := PutInode(blk, inum, at, size, addrs);
      && AttrsIn(r, j) == AttrsIn(blk, j) && Word(r, InodeAt(j) + 2) == Word(blk, InodeAt(j) + 2)
      && Words(r, InodeAt(j) + 3, 13) == Words(blk, InodeAt(j) + 3, 13)
  {
    hide PutWords, Word, Unpack, InodeWords;
    var ws := InodeWords(at, size, addrs);
    var r := PutWords(blk, InodeAt(inum), ws);
    PutWordsAt(blk, InodeAt(inum), ws, InodeAt(j));
    PutWordsAt(blk, InodeAt(inum), ws, InodeAt(j) + 1);
    PutWordsAt(blk, InodeAt(inum), ws, InodeAt(j) + 2);
    var after, before := Words(r, InodeAt(j) + 3, 13), Words(blk, InodeAt(j) + 3, 13);
    forall k | 0 <= k < 13
      ensures after[k] == before[k]
    {
      PutWordsAt(blk, InodeAt(inum), ws, InodeAt(j) + 3 + k);
    }
  }

  /** After iupdate the disk has that inode's fields, and all others as before. */
  lemma InodeWritten(g: Geometry, bs: Store, inum: nat, at: Attrs, size: uint, addrs: Addrs, j: nat)
    requires Fits(g, bs) && inum < g.ninodes && j < g.ninodes
    ensures var b := IBlock(g, inum);
      var bs' := bs[b := PutInode(bs[b], inum, at, size, addrs)];
      && DiskAttrs(g, bs', j) == (if j == inum then Shorts(at) else DiskAttrs(g, bs, j))
      && DiskSize(g, bs', j) == (if j == inum then size else DiskSize(g, bs, j))
      && DiskAddrs(g, bs', j) == (if j == inum then addrs else DiskAddrs(g, bs, j))
  {
    hide PutInode, Words, Word, AttrsIn;
    var b := IBlock(g, inum);
    if j == inum {
      PutInodeReads(bs[b], inum, at, size, addrs);
    } else if IBlock(g, j) == b {
      PutInodeOther(bs[b], inum, at, size, addrs, j);
    }
  }

  // ---- the same, byte by byte ----

  /** The disk as one array of bytes. */
  ghost predicate ImageOf(bs: Store, image: seq<byte>)
  {
    |image| == |bs| * BSIZE && forall k :: 0 <= k < |image| ==> image[k] == bs[k / BSIZE][k % BSIZE]
  }

  function ShortAt(image: seq<byte>, k: nat): (r: nat)
    requires k + 2 <= |image|
  {
    var lo: int, hi: int := image[k], image[k + 1];
    lo + 256 * hi
  }

  function LongAt(image: seq<byte>, k: nat): (r: nat)
    requires k + 4 <= |image|
  {
    ShortAt(image, k) + 65536 * ShortAt(image, k + 2)
  }

  lemma ImageByte(bs: Store, image: seq<byte>, b: nat, o: nat)
    requires ImageOf(bs, image) && b < |bs| && o < BSIZE
    ensures b * BSIZE + o < |image| && image[b * BSIZE + o] == bs[b][o]
  {
    assert (b * BSIZE + o) / BSIZE == b && (b * BSIZE + o) % BSIZE == o;
  }

  lemma ImageWord(bs: Store, image: seq<byte>, b: nat, i: nat)
    requires ImageOf(bs, image) && b < |bs| && i < WORDS
    ensures b * BSIZE + 4 * i + 4 <= |image| && LongAt(image, b * BSIZE + 4 * i) == Word(bs[b], i)
  {
    hide ImageOf;
    ImageByte(bs, image, b, 4 * i);
    ImageByte(bs, image, b, 4 * i + 1);
    ImageByte(bs, image, b, 4 * i + 2);
    ImageByte(bs, image, b, 4 * i + 3);
  }

  /** The inodes are one array of 64-byte structures from inodestart on: type, major, minor and nlink as
      shorts, size, twelve direct addresses and the indirect one, lowest byte first. */
  lemma InodeLayout(g: Geometry, bs: Store, image: seq<byte>, i: nat)
    requires Fits(g, bs) && ImageOf(bs, image) && i < g.ninodes
    ensures var at := BSIZE * g.inodestart + 64 * i;
      && at + 64 <= |image|
      && DiskAttrs(g, bs, i)
         == Attrs(ShortAt(image, at), ShortAt(image, at + 2), ShortAt(image, at + 4), ShortAt(image, at + 6))
      && DiskSize(g, bs, i) == LongAt(image, at + 8)
      && forall k, o :: 0 <= k < 13 && o == at + 12 + 4 * k ==> DiskAddrs(g, bs, i)[k] == LongAt(image, o)
  {
    hide ImageOf, LongAt, Word;
    var b, j := IBlock(g, i), InodeAt(i);
    var at := BSIZE * g.inodestart + 64 * i;
    assert at == b * BSIZE + 4 * j;
    IBlockBelowMap(g, bs, i);
    ImageWord(bs, image, b, j + 15);
    ImageWord(bs, image, b, j);
    ImageWord(bs, image, b, j + 1);
    ImageWord(bs, image, b, j + 2);
    LongShorts(image, at);
    LongShorts(image, at + 4);
    forall k, o | 0 <= k < 13 && o == at + 12 + 4 * k
      ensures o + 4 <= |image| && DiskAddrs(g, bs, i)[k] == LongAt(image, o)
    {
      ImageWord(bs, image, b, j + 3 + k);
    }
  }

  lemma LongShorts(image: seq<byte>, k: nat)
    requires k + 4 <= |image|
    ensures LongAt(image, k) % 65536 == ShortAt(image, k) && LongAt(image, k) / 65536 == ShortAt(image, k + 2)
  {
  }

  /** The free map is one array of bits from bmapstart on, eight to a byte, the lowest first. */
  lemma MapLayout(g: Geometry, bs: Store, image: seq<byte>, b: nat)
    requires Fits(g, bs) && ImageOf(bs, image) && b < g.size
    ensures var at := BSIZE * g.bmapstart + b / 8; at < |image| && (Bit(g, bs, b) <==> BitSet(image[at], b % 8))
  {
    hide ImageOf, BitSet;
    ImageByte(bs, image, BBlock(g, b), b % BPB / 8);
    assert BSIZE * g.bmapstart + b / 8 == BBlock(g, b) * BSIZE + b % BPB / 8;
    assert b % BPB % 8 == b % 8;
  }

  lemma IBlockBelowMap(g: Geometry, bs: Store, inum: nat)
    requires Fits(g, bs) && inum < g.ninodes
    ensures IBlock(g, inum) < g.bmapstart
  {
  }

  ghost predicate SameInodes(g: Geometry, bs: Store, bs': Store)
  {
    |bs'| == |bs| && forall b :: 0 <= b < g.bmapstart && b < |bs| ==> bs'[b] == bs[b]
  }

  lemma SameDiskInode(g: Geometry, bs: Store, bs': Store, j: nat)
    requires Fits(g, bs) && SameInodes(g, bs, bs') && j < g.ninodes
    ensures Fits(g, bs') && DiskSize(g, bs', j) == DiskSize(g, bs, j) && DiskAddrs(g, bs', j) == DiskAddrs(g, bs, j)
    ensures DiskAttrs(g, bs', j) == DiskAttrs(g, bs, j)
  {
  }

  /** Types, device numbers and link counts of all inodes. */
  ghost function AttrsOf(g: Geometry, bs: Store): (r: seq<Attrs>)
    requires Fits(g, bs)
    ensures |r| == g.ninodes && forall j :: 0 <= j < g.ninodes ==> r[j] == DiskAttrs(g, bs, j)
  {
    seq(g.ninodes, j requires 0 <= j < g.ninodes => DiskAttrs(g, bs, j))
  }

  lemma AttrsSame(g: Geometry, bs: Store, bs': Store)
    requires Fits(g, bs) && SameInodes(g, bs, bs')
    ensures Fits(g, bs') && AttrsOf(g, bs') == AttrsOf(g, bs)
  {
    hide DiskAttrs;
    forall j | 0 <= j < g.ninodes
      ensures Fits(g, bs') && DiskAttrs(g, bs', j) == DiskAttrs(g, bs, j)
    {
      SameDiskInode(g, bs, bs', j);
    }
  }

  /** They change only for an inode that was written: then it has those of the in-core inode. */
  ghost function AttrsAfter(attrs: seq<Attrs>, inum: nat, written: bool, mine: Attrs): (r: seq<Attrs>)
    requires inum < |attrs|
  {
    if written then attrs[inum := mine] else attrs
  }

  lemma NotData(g: Geometry, bs: Store, T: Table, owner: map<nat, Slot>, transit: set<nat>, b: nat)
    requires OwnOk(g, bs, T, owner, transit) && b < g.bmapstart
    ensures b < |bs| && b !in owner
  {
  }

  // ---- file content ----

  function DataSlot(bn: nat): (k: nat)
    requires bn < MAXFILE
    ensures k < NSLOT && k != INDIRECT
  {
    if bn < NDIRECT then bn else bn + 1
  }

  ghost function BlockOf(bs: Store, addrs: Addrs, bn: nat): (r: uint)
    requires bn < MAXFILE
  {
    SlotAddr(bs, addrs, DataSlot(bn))
  }

  ghost function ByteAt(bs: Store, addrs: Addrs, i: nat): (r: byte)
    requires i < MAXFILE * BSIZE
  {
    var a := BlockOf(bs, addrs, i / BSIZE);
    if a < |bs| then bs[a][i % BSIZE] else 0
  }

  /** The bytes of a file. */
  ghost function Content(bs: Store, addrs: Addrs, size: nat): (r: seq<byte>)
    requires size <= MAXFILE * BSIZE
    ensures |r| == size && forall i :: 0 <= i < size ==> r[i] == ByteAt(bs, addrs, i)
  {
    seq(size, i requires 0 <= i < size => ByteAt(bs, addrs, i))
  }

  /** Every byte below the size is in a mapped block. */
  ghost predicate Mapped(bs: Store, addrs: Addrs, size: nat)
  {
    && size <= MAXFILE * BSIZE
    && forall i :: 0 <= i < size ==> BlockOf(bs, addrs, i / BSIZE) != 0
  }

  /** A consistent file system: the free map is exact, every used block has one owner, the disk has
      every inode's addresses, and every byte below a file's size has a block. */
  ghost predicate FsOk(g: Geometry, bs: Store, T: Table, owner: map<nat, Slot>)
  {
    && OwnOk(g, bs, T, owner, {}) && |T| == g.ninodes
    && forall j :: 0 <= j < g.ninodes ==> DiskAddrs(g, bs, j) == T[j] && Mapped(bs, T[j], DiskSize(g, bs, j))
  }

  ghost function FilesOf(g: Geometry, bs: Store, T: Table): (r: seq<seq<byte>>)
    requires Fits(g, bs) && |T| == g.ninodes && forall j :: 0 <= j < g.ninodes ==> DiskSize(g, bs, j) <= MAXFILE * BSIZE
  {
    seq(g.ninodes, j requires 0 <= j < g.ninodes => Content(bs, T[j], DiskSize(g, bs, j)))
  }

  lemma SlotIsData(g: Geometry, bs: Store, T: Table, owner: map<nat, Slot>, i: nat, k: nat)
    requires Placed(g, bs, T, owner) && i < g.ninodes && k < NSLOT && SlotAddr(bs, T[i], k) != 0
    ensures IsData(g, SlotAddr(bs, T[i], k)) && SlotAddr(bs, T[i], k) in owner
    ensures owner[SlotAddr(bs, T[i], k)] == Slot(i, k)
  {
  }

  lemma SlotOf(g: Geometry, bs: Store, T: Table, owner: map<nat, Slot>, inum: nat, bn: nat, a: uint)
    requires Placed(g, bs, T, owner) && Fits(g, bs) && inum < g.ninodes && bn < MAXFILE
    requires BlockOf(bs, T[inum], bn) == a != 0
    ensures a < |bs| && IsData(g, a) && a in owner && owner[a] == Slot(inum, DataSlot(bn)) && a >= g.datastart
  {
  }

  /** The blocks that the log_writes of an operation name. */
  ghost function Touched(ws: seq<CR.Write>): (r: set<nat>)
  {
    if ws == [] then {} else Touched(ws[..|ws| - 1]) + {ws[|ws| - 1].blockno}
  }

  /** The log_writes ws, all behind the log area, turn bs into bs'. */
  ghost predicate Changes(g: Geometry, bs: Store, bs': Store, ws: seq<CR.Write>)
  {
    bs' == CR.Apply(bs, ws) && forall k :: 0 <= k < |ws| ==> g.inodestart <= ws[k].blockno < |bs|
  }

  lemma ChangesStart(g: Geometry, bs: Store)
    ensures Changes(g, bs, bs, []) && Touched([]) == {}
  {
  }

  lemma ChangesNext(g: Geometry, bs: Store, bs': Store, ws: seq<CR.Write>, b: nat, x: Block)
    requires Changes(g, bs, bs', ws) && g.inodestart <= b < |bs'|
    ensures Changes(g, bs, bs'[b := x], ws + [CR.Write(b, x)])
    ensures Touched(ws + [CR.Write(b, x)]) == Touched(ws) + {b}
  {
    var now := ws + [CR.Write(b, x)];
    assert now[..|ws|] == ws && now[|ws|] == CR.Write(b, x);
  }

  // ---- a new file system ----

  /** The first k bits of the free map set, as mkfs does for the blocks before the data area. */
  function Marked(g: Geometry, bs: Store, k: nat): (r: Store)
    requires Fits(g, bs) && k <= g.size
    ensures |r| == |bs|
  {
    if k == 0 then bs else SetBit(g, Marked(g, bs, k - 1), k - 1)
  }

  lemma {:induction false} MarkedBits(g: Geometry, bs: Store, k: nat)
    requires Fits(g, bs) && k <= g.size && forall b :: 0 <= b < |bs| ==> Zeroed(bs[b])
    ensures forall c :: 0 <= c < g.size ==> (Bit(g, Marked(g, bs, k), c) <==> c < k)
    ensures forall b :: 0 <= b < |bs| && !(g.bmapstart <= b < g.datastart) ==> Zeroed(Marked(g, bs, k)[b])
    decreases k
  {
    hide Zeroed, Bit, SetBit;
    if k == 0 {
      forall c | 0 <= c < g.size
        ensures !Bit(g, bs, c)
      {
        ZeroBit(g, bs, c);
      }
    } else {
      MarkedBits(g, bs, k - 1);
      var was := Marked(g, bs, k - 1);
      forall c | 0 <= c < g.size
        ensures Bit(g, Marked(g, bs, k), c) <==> c < k
      {
        BitAfter(g, was, k - 1, c);
      }
      forall b | 0 <= b < |bs| && !(g.bmapstart <= b < g.datastart)
        ensures Zeroed(Marked(g, bs, k)[b])
      {
        SetBitElsewhere(g, was, k - 1, b);
      }
    }
  }

  lemma ZeroBit(g: Geometry, bs: Store, c: nat)
    requires Fits(g, bs) && c < g.size && forall b :: 0 <= b < |bs| ==> Zeroed(bs[b])
    ensures !Bit(g, bs, c)
  {
    BBlockInMap(g, bs, c);
    ZeroBits(c % BPB % 8);
  }

  lemma {:induction false} ZeroBits(j: nat)
    ensures !BitSet(0, j)
    decreases j
  {
    if j > 0 { ZeroBits(j - 1); }
  }

  lemma SetBitElsewhere(g: Geometry, bs: Store, c: nat, b: nat)
    requires Fits(g, bs) && c < g.size && b < |bs| && !(g.bmapstart <= b < g.datastart)
    ensures SetBit(g, bs, c)[b] == bs[b]
  {
    BBlockInMap(g, bs, c);
  }

  /** Every geometry that fits on a disk has a consistent file system: the empty one. */
  lemma EmptyFileSystem(g: Geometry, n: nat) returns (bs: Store, T: Table)
    requires Sized(g, n)
    ensures |bs| == n && FsOk(g, bs, T, map[]) && forall j :: 0 <= j < g.ninodes ==> FilesOf(g, bs, T)[j] == []
  {
    hide Bit, Marked;
    var zeros: Store := seq(n, i => ZeroBlock);
    var none: Addrs := seq(13, i => 0);
    bs, T := Marked(g, zeros, g.datastart), seq(g.ninodes, i => none);
    MarkedBits(g, zeros, g.datastart);
    forall j | 0 <= j < g.ninodes
      ensures DiskAddrs(g, bs, j) == none && DiskSize(g, bs, j) == 0
    {
      IBlockBelowMap(g, bs, j);
      ZeroInode(bs[IBlock(g, j)], j);
      assert DiskAddrs(g, bs, j) == none;
    }
  }

  lemma ZeroInode(b: Block, j: nat)
    requires Zeroed(b)
    ensures Word(b, InodeAt(j) + 2) == 0
    ensures var addrs := Words(b, InodeAt(j) + 3, 13); forall k :: 0 <= k < 13 ==> addrs[k] == 0
  {
    var addrs := Words(b, InodeAt(j) + 3, 13);
    forall k | 0 <= k < 13
      ensures addrs[k] == 0
    {
      assert addrs[k] == Word(b, InodeAt(j) + 3 + k);
    }
  }

  // ---- what allocation keeps ----

  ghost predicate Extends(a: map<nat, Slot>, b: map<nat, Slot>)
  {
    forall x :: x in a ==> x in b && b[x] == a[x]
  }

  /** What allocation keeps: old blocks keep their slots, and blocks that hold file data keep
      their content. */
  ghost predicate Kept(bs: Store, owner: map<nat, Slot>, bs': Store, owner': map<nat, Slot>)
  {
    && Extends(owner, owner') && |bs'| == |bs|
    && forall b :: b in owner && owner[b].k != INDIRECT && b < |bs| ==> bs'[b] == bs[b]
  }

  lemma KeptSlot(g: Geometry, bs: Store, T: Table, owner: map<nat, Slot>, bs': Store, T': Table, owner': map<nat, Slot>,
                 i: nat, k: nat)
    requires Placed(g, bs, T, owner) && Placed(g, bs', T', owner') && Extends(owner, owner')
    requires i < g.ninodes && k < NSLOT && SlotAddr(bs, T[i], k) != 0
    ensures SlotAddr(bs', T'[i], k) == SlotAddr(bs, T[i], k)
  {
  }

  lemma KeptByte(g: Geometry, bs: Store, T: Table, owner: map<nat, Slot>, bs': Store, T': Table, owner': map<nat, Slot>,
                 j: nat, i: nat)
    requires Placed(g, bs, T, owner) && Placed(g, bs', T', owner') && Kept(bs, owner, bs', owner')
    requires g.size <= |bs| && j < g.ninodes && i < MAXFILE * BSIZE && BlockOf(bs, T[j], i / BSIZE) != 0
    ensures BlockOf(bs', T'[j], i / BSIZE) == BlockOf(bs, T[j], i / BSIZE)
    ensures ByteAt(bs', T'[j], i) == ByteAt(bs, T[j], i)
  {
  }

  lemma KeptSame(g: Geometry, bs: Store, owner: map<nat, Slot>)
    ensures Kept(bs, owner, bs, owner) && SameInodes(g, bs, bs)
  {
  }

  lemma KeptTrans(a: Store, oa: map<nat, Slot>, b: Store, ob: map<nat, Slot>, c: Store, oc: map<nat, Slot>)
    requires Kept(a, oa, b, ob) && Kept(b, ob, c, oc)
    ensures Kept(a, oa, c, oc)
  {
  }

  ghost predicate SameIndirect(bs: Store, owner: map<nat, Slot>, bs': Store)
  {
    |bs'| == |bs| && forall b :: b in owner && b < |bs| ==> bs'[b] == bs[b]
  }

  /** balloc changes one bitmap block and a block that nobody owns. */
  lemma AllocFrame(g: Geometry, bs: Store, T: Table, owner: map<nat, Slot>, transit: set<nat>, b: nat)
    requires OwnOk(g, bs, T, owner, transit) && b < g.size && !Bit(g, bs, b)
    ensures var bs' := SetBit(g, bs, b)[b := ZeroBlock];
      && Fits(g, bs') && bs'[b] == ZeroBlock && SameInodes(g, bs, bs') && SameIndirect(bs, owner, bs')
      && (forall i, k :: 0 <= i < g.ninodes && 0 <= k < NSLOT ==> SlotAddr(bs', T[i], k) == SlotAddr(bs, T[i], k))
  {
    hide MarkUsed, SlotAddr;
    BBlockInMap(g, bs, b);
    var bs' := SetBit(g, bs, b)[b := ZeroBlock];
    SameSlots(g, bs, bs', T, owner);
  }

  // ---- bmap ----

  function Only(x: nat): (r: set<nat>) { {x} }

  predicate Zeroed(b: Block) { forall i :: 0 <= i < BSIZE ==> b[i] == 0 }

  /** The blocks bmap logs besides its result: none for a mapped piece; for a new one the new block and
      its bitmap block, the indirect block that got the entry, and, if that block is new too, its
      bitmap block. */
  ghost function Added(g: Geometry, bn: nat, a: nat, fresh_: bool, noInd: bool, ind: nat): (r: set<nat>)
    ensures !fresh_ ==> r == {}
  {
    if !fresh_ then {}
    else if bn < NDIRECT then Only(a) + Only(BBlock(g, a))
    else Only(a) + Only(BBlock(g, a)) + Only(ind) + (if noInd then Only(BBlock(g, ind)) else {})
  }

  /** How many blocks bmap allocates. */
  function Need(bn: nat, fresh_: bool, noInd: bool): (r: nat)
  {
    if !fresh_ then 0 else if bn >= NDIRECT && noInd then 2 else 1
  }

  /** Who owns what after bmap. */
  ghost function Taken(owner: map<nat, Slot>, inum: nat, bn: nat, a: nat, fresh_: bool, noInd: bool, ind: nat)
    : (r: map<nat, Slot>)
    requires bn < MAXFILE
  {
    if !fresh_ then owner
    else if bn >= NDIRECT && noInd then owner[ind := Slot(inum, INDIRECT)][a := Slot(inum, DataSlot(bn))]
    else owner[a := Slot(inum, DataSlot(bn))]
  }

  /** How many blocks are free. */
  ghost function Room(g: Geometry, owner: map<nat, Slot>, transit: set<nat>): (r: int)
  {
    g.size - g.datastart - |owner| - |transit|
  }

  ghost function FreeSet(g: Geometry, bs: Store): (r: set<nat>)
    requires Fits(g, bs)
  {
    set b: nat | b < g.size && !Bit(g, bs, b)
  }

  /** That is the number of clear bits in the free map. */
  lemma RoomIsClearBits(g: Geometry, bs: Store, owner: map<nat, Slot>, transit: set<nat>)
    requires MapOk(g, bs, owner, transit)
    ensures |FreeSet(g, bs)| == Room(g, owner, transit)
  {
    hide MapOk, FreeSet;
    UsedOrFree(g, bs, owner, transit);
    var used := owner.Keys + transit;
    DisjointSize(FreeSet(g, bs), used);
    DisjointSize(owner.Keys, transit);
    NumbersCount(g.datastart, g.size);
  }

  lemma UsedOrFree(g: Geometry, bs: Store, owner: map<nat, Slot>, transit: set<nat>)
    requires MapOk(g, bs, owner, transit)
    ensures Fits(g, bs) && owner.Keys !! transit && FreeSet(g, bs) !! owner.Keys + transit
    ensures Numbers(g.datastart, g.size) == FreeSet(g, bs) + (owner.Keys + transit)
  {
    hide Bit, Numbers;
  }

  lemma DisjointSize(a: set<nat>, b: set<nat>)
    requires a !! b
    ensures |a + b| == |a| + |b|
  {
  }

  lemma NoRoom(g: Geometry, bs: Store, owner: map<nat, Slot>, transit: set<nat>)
    requires MapOk(g, bs, owner, transit) && forall c :: 0 <= c < g.size ==> Bit(g, bs, c)
    ensures Room(g, owner, transit) == 0
  {
    hide Bit;
    RoomIsClearBits(g, bs, owner, transit);
    assert FreeSet(g, bs) == {};
  }

  lemma AddedEntry(g: Geometry, bn: nat, a: nat, noInd: bool, ind: nat, l0: set<nat>, l1: set<nat>, l2: set<nat>)
    requires bn >= NDIRECT && l1 == (if noInd then l0 + {BBlock(g, ind), ind} else l0)
    requires l2 == l1 + {BBlock(g, a), a, ind}
    ensures l2 == l0 + Added(g, bn, a, true, noInd, ind)
  {
    hide BBlock;
  }

  /** What bmap promises when it returns block a for piece bn of inode inum: only that inode's
      table changed, old blocks kept their slots and data, a new block is fresh and zero, and
      exactly the blocks of Added were logged. */
  ghost predicate BmapOk(g: Geometry, bs: Store, T: Table, owner: map<nat, Slot>, logged: set<nat>,
                         bs': Store, T': Table, owner': map<nat, Slot>, logged': set<nat>,
                         inum: nat, bn: nat, a: uint)
    requires bn < MAXFILE
  {
    && |T| == |T'| == g.ninodes && inum < g.ninodes && T' == T[inum := T'[inum]]
    && a != 0 && IsData(g, a) && BlockOf(bs', T'[inum], bn) == a
    && Kept(bs, owner, bs', owner') && SameInodes(g, bs, bs')
    && (T[inum][INDIRECT] != 0 ==> T'[inum][INDIRECT] == T[inum][INDIRECT])
    && logged' == logged + Added(g, bn, a, BlockOf(bs, T[inum], bn) == 0, T[inum][INDIRECT] == 0, T'[inum][INDIRECT])
    && owner' == Taken(owner, inum, bn, a, BlockOf(bs, T[inum], bn) == 0, T[inum][INDIRECT] == 0, T'[inum][INDIRECT])
    && (BlockOf(bs, T[inum], bn) == 0 ==>
          && a !in owner && a < |bs'| && Zeroed(bs'[a])
          && (bn < NDIRECT ==> T'[inum][INDIRECT] == T[inum][INDIRECT])
          && (bn >= NDIRECT ==> T'[inum][INDIRECT] != 0)
          && (bn >= NDIRECT && T[inum][INDIRECT] == 0 ==> T'[inum][INDIRECT] !in owner && T'[inum][INDIRECT] != a))
    && (BlockOf(bs, T[inum], bn) != 0 ==> T' == T)
  }

  lemma AlreadyMapped(g: Geometry, bs: Store, T: Table, owner: map<nat, Slot>, logged: set<nat>, inum: nat, bn: nat,
                      a: uint)
    requires Placed(g, bs, T, owner) && inum < g.ninodes && bn < MAXFILE && BlockOf(bs, T[inum], bn) == a != 0
    ensures BmapOk(g, bs, T, owner, logged, bs, T, owner, logged, inum, bn, a)
  {
    SlotIsData(g, bs, T, owner, inum, DataSlot(bn));
  }

  /** What bmap's two allocations make of an unmapped piece behind the direct ones. */
  lemma EntryMapped(g: Geometry, bs: Store, T: Table, owner: map<nat, Slot>, logged: set<nat>,
                    bs1: Store, T1: Table, owner1: map<nat, Slot>, logged1: set<nat>,
                    bs2: Store, owner2: map<nat, Slot>, logged2: set<nat>, inum: nat, bn: nat, a: uint)
    requires |T| == |T1| == g.ninodes && inum < g.ninodes && NDIRECT <= bn < MAXFILE && BlockOf(bs, T[inum], bn) == 0
    requires var ind := T1[inum][INDIRECT];
      if T[inum][INDIRECT] != 0 then T1 == T && logged1 == logged && owner1 == owner
      else
        && ind != 0 && T1 == T[inum := T1[inum]] && logged1 == logged + {BBlock(g, ind), ind}
        && ind !in owner && owner1 == owner[ind := Slot(inum, INDIRECT)]
    requires Kept(bs, owner, bs1, owner1) && SameInodes(g, bs, bs1) && Kept(bs1, owner1, bs2, owner2)
    requires SameInodes(g, bs1, bs2)
    requires IsData(g, a) && a != 0 && a !in owner1 && a < |bs2| && bs2[a] == ZeroBlock
    requires owner2 == owner1[a := Slot(inum, DataSlot(bn))]
    requires BlockOf(bs2, T1[inum], bn) == a && logged2 == logged1 + {BBlock(g, a), a, T1[inum][INDIRECT]}
    ensures BmapOk(g, bs, T, owner, logged, bs2, T1, owner2, logged2, inum, bn, a)
  {
    hide BlockOf, BBlock, Added;
    KeptTrans(bs, owner, bs1, owner1, bs2, owner2);
    AddedEntry(g, bn, a, T[inum][INDIRECT] == 0, T1[inum][INDIRECT], logged, logged1, logged2);
  }

  // ---- what writei has done so far ----

  /** Data blocks of other inodes are as they were. */
  ghost predicate OthersKept(bs0: Store, owner0: map<nat, Slot>, bs: Store, owner: map<nat, Slot>, inum: nat)
  {
    && Extends(owner0, owner) && |bs| == |bs0|
    && forall b :: b in owner0 && owner0[b].k != INDIRECT && owner0[b].inum != inum && b < |bs| ==> bs[b] == bs0[b]
  }

  lemma OthersExtend(bs0: Store, owner0: map<nat, Slot>, bs: Store, owner: map<nat, Slot>, inum: nat)
    requires OthersKept(bs0, owner0, bs, owner, inum)
    ensures Extends(owner0, owner)
  {
  }

  lemma OthersKeptBmap(bs0: Store, owner0: map<nat, Slot>, bs: Store, owner: map<nat, Slot>, bs': Store,
                       owner': map<nat, Slot>, inum: nat)
    requires OthersKept(bs0, owner0, bs, owner, inum) && Kept(bs, owner, bs', owner')
    ensures OthersKept(bs0, owner0, bs', owner', inum)
  {
  }

  lemma OthersKeptWrite(bs0: Store, owner0: map<nat, Slot>, bs: Store, owner: map<nat, Slot>, inum: nat, a: nat,
                        x: Block)
    requires OthersKept(bs0, owner0, bs, owner, inum) && a < |bs| && a in owner && owner[a].inum == inum
    ensures OthersKept(bs0, owner0, bs[a := x], owner, inum)
  {
  }

  /** The first tot bytes of src are in the file from off on, and all other bytes are old. */
  ghost predicate Spliced(bs0: Store, addrs0: Addrs, size0: nat, bs: Store, addrs: Addrs, off: nat, src: seq<byte>,
                          tot: nat)
  {
    && size0 <= MAXFILE * BSIZE && off + tot <= MAXFILE * BSIZE && tot <= |src|
    && (forall i :: 0 <= i < Max(size0, off + tot) ==> BlockOf(bs, addrs, i / BSIZE) != 0)
    && (forall i :: off <= i < off + tot ==> ByteAt(bs, addrs, i) == src[i - off])
    && (forall i :: 0 <= i < size0 && !(off <= i < off + tot) ==> ByteAt(bs, addrs, i) == ByteAt(bs0, addrs0, i))
  }

  lemma NothingWritten(g: Geometry, bs: Store, addrs: Addrs, owner: map<nat, Slot>, inum: nat, size: nat, off: nat,
                       src: seq<byte>)
    requires Mapped(bs, addrs, size) && off <= size
    ensures Spliced(bs, addrs, size, bs, addrs, off, src, 0)
    ensures OthersKept(bs, owner, bs, owner, inum) && SameInodes(g, bs, bs)
  {
  }

  /** bmap in the middle of a write changes no byte that has a place. */
  lemma BmapSplices(g: Geometry, bs: Store, T: Table, owner: map<nat, Slot>, bs': Store, T': Table, owner': map<nat,
                    Slot>,
                    inum: nat, bs0: Store, addrs0: Addrs, size0: nat, off: nat, src: seq<byte>, tot: nat)
    requires Placed(g, bs, T, owner) && Placed(g, bs', T', owner') && Kept(bs, owner, bs', owner')
    requires g.size <= |bs| && inum < g.ninodes == |T| == |T'|
    requires Spliced(bs0, addrs0, size0, bs, T[inum], off, src, tot)
    ensures Spliced(bs0, addrs0, size0, bs', T'[inum], off, src, tot)
  {
    hide Placed, BlockOf, ByteAt;
    forall i | 0 <= i < Max(size0, off + tot)
      ensures BlockOf(bs', T'[inum], i / BSIZE) == BlockOf(bs, T[inum], i / BSIZE)
      ensures ByteAt(bs', T'[inum], i) == ByteAt(bs, T[inum], i)
    {
      KeptByte(g, bs, T, owner, bs', T', owner', inum, i);
    }
  }

  /** The data block after memmove(bp->data + o, src + tot, m). */
  function Patched(blk: Block, o: nat, part: seq<byte>): (r: Block)
    requires o + |part| <= BSIZE
  {
    blk[..o] + part + blk[o + |part|..]
  }

  lemma BytesAfterWrite(g: Geometry, bs: Store, T: Table, owner: map<nat, Slot>, bs': Store, inum: nat, a: uint,
                        x: Block, bn: nat, i: nat)
    requires Placed(g, bs, T, owner) && g.size <= |bs| && inum < g.ninodes && bn < MAXFILE && i < MAXFILE * BSIZE
    requires a != 0 && BlockOf(bs, T[inum], bn) == a && a < |bs| && bs' == bs[a := x]
    requires forall k :: 0 <= k < NSLOT ==> SlotAddr(bs', T[inum], k) == SlotAddr(bs, T[inum], k)
    ensures BlockOf(bs', T[inum], i / BSIZE) == BlockOf(bs, T[inum], i / BSIZE)
    ensures ByteAt(bs', T[inum], i) == if i / BSIZE == bn then x[i % BSIZE] else ByteAt(bs, T[inum], i)
  {
  }

  /** Which byte of the patched block is byte i of the file. */
  lemma ByteInChunk(bs: Store, addrs: Addrs, a: uint, at: nat, part: seq<byte>, i: nat)
    requires at % BSIZE + |part| <= BSIZE && at + |part| <= MAXFILE * BSIZE && i < MAXFILE * BSIZE && a < |bs|
    requires at / BSIZE < MAXFILE && BlockOf(bs, addrs, at / BSIZE) == a
    ensures at <= i < at + |part| ==>
      i / BSIZE == at / BSIZE && Patched(bs[a], at % BSIZE, part)[i % BSIZE] == part[i - at]
    ensures i / BSIZE == at / BSIZE && !(at <= i < at + |part|) ==>
      Patched(bs[a], at % BSIZE, part)[i % BSIZE] == ByteAt(bs, addrs, i)
  {
  }

  lemma ChunkSplices(g: Geometry, bs: Store, T: Table, owner: map<nat, Slot>, bs': Store, a: uint,
                     inum: nat, bs0: Store, addrs0: Addrs, size0: nat, off: nat, src: seq<byte>, tot: nat, m: nat)
    requires Placed(g, bs, T, owner) && g.size <= |bs| && inum < g.ninodes == |T|
    requires Spliced(bs0, addrs0, size0, bs, T[inum], off, src, tot)
    requires 0 < m && tot + m <= |src| && (off + tot) % BSIZE + m <= BSIZE && off + tot + m <= MAXFILE * BSIZE
    requires a != 0 && BlockOf(bs, T[inum], (off + tot) / BSIZE) == a && a < |bs|
    requires bs' == bs[a := Patched(bs[a], (off + tot) % BSIZE, src[tot..tot + m])]
    requires forall k :: 0 <= k < NSLOT ==> SlotAddr(bs', T[inum], k) == SlotAddr(bs, T[inum], k)
    ensures Spliced(bs0, addrs0, size0, bs', T[inum], off, src, tot + m)
  {
    hide Placed, BlockOf, ByteAt, Patched;
    var bn, o := (off + tot) / BSIZE, (off + tot) % BSIZE;
    var x := Patched(bs[a], o, src[tot..tot + m]);
    forall i | 0 <= i < Max(size0, off + tot + m)
      ensures BlockOf(bs', T[inum], i / BSIZE) != 0
      ensures off <= i < off + tot + m ==> ByteAt(bs', T[inum], i) == src[i - off]
      ensures i < size0 && !(off <= i < off + tot + m) ==> ByteAt(bs', T[inum], i) == ByteAt(bs0, addrs0, i)
    {
      BytesAfterWrite(g, bs, T, owner, bs', inum, a, x, bn, i);
      ByteInChunk(bs, T[inum], a, off + tot, src[tot..tot + m], i);
    }
  }

  // ---- files after a write ----

  /** A file with src written over it from off on. */
  function Splice(f: seq<byte>, off: nat, src: seq<byte>): (r: seq<byte>)
    requires off <= |f|
    ensures |r| == Max(|f|, off + |src|)
  {
    f[..off] + src + (if off + |src| < |f| then f[off + |src|..] else [])
  }

  /** The end of the write, read as a file. */
  lemma ThisFile(bs0: Store, addrs0: Addrs, size0: nat, bs: Store, addrs: Addrs, off: nat, src: seq<byte>)
    requires Spliced(bs0, addrs0, size0, bs, addrs, off, src, |src|) && off <= size0
    ensures Mapped(bs, addrs, Max(size0, off + |src|))
    ensures Content(bs, addrs, Max(size0, off + |src|)) == Splice(Content(bs0, addrs0, size0), off, src)
  {
  }

  lemma OtherFile(g: Geometry, bs0: Store, T0: Table, owner0: map<nat, Slot>, bs: Store, T: Table, owner: map<nat,
                  Slot>, inum: nat, j: nat, size: nat)
    requires Placed(g, bs0, T0, owner0) && Placed(g, bs, T, owner) && OthersKept(bs0, owner0, bs, owner, inum)
    requires g.size <= |bs0| && j < g.ninodes == |T0| == |T| && j != inum && T[j] == T0[j] && Mapped(bs0, T0[j], size)
    ensures Mapped(bs, T[j], size) && Content(bs, T[j], size) == Content(bs0, T0[j], size)
  {
    hide SlotAddr;
    forall i | 0 <= i < size
      ensures BlockOf(bs, T[j], i / BSIZE) == BlockOf(bs0, T0[j], i / BSIZE)
      ensures ByteAt(bs, T[j], i) == ByteAt(bs0, T0[j], i)
    {
      KeptSlot(g, bs0, T0, owner0, bs, T, owner, j, DataSlot(i / BSIZE));
      SlotIsData(g, bs0, T0, owner0, j, DataSlot(i / BSIZE));
    }
  }

  lemma FilesKept(g: Geometry, bs0: Store, T0: Table, owner0: map<nat, Slot>, bs: Store, T: Table, owner: map<nat,
                  Slot>, inum: nat)
    requires Placed(g, bs0, T0, owner0) && Placed(g, bs, T, owner) && OthersKept(bs0, owner0, bs, owner, inum)
    requires Fits(g, bs0) && SameInodes(g, bs0, bs) && inum < g.ninodes == |T0| == |T| && T == T0[inum := T[inum]]
    requires forall j :: 0 <= j < g.ninodes ==> Mapped(bs0, T0[j], DiskSize(g, bs0, j))
    ensures Fits(g, bs)
    ensures forall j :: 0 <= j < g.ninodes ==>
      DiskSize(g, bs, j) == DiskSize(g, bs0, j) && DiskAddrs(g, bs, j) == DiskAddrs(g, bs0, j)
    ensures forall j :: 0 <= j < g.ninodes && j != inum ==>
      && Mapped(bs, T[j], DiskSize(g, bs0, j))
      && Content(bs, T[j], DiskSize(g, bs0, j)) == Content(bs0, T0[j], DiskSize(g, bs0, j))
  {
    hide Placed, OthersKept, SameInodes, Content, DiskSize, DiskAddrs, BlockOf;
    if g.ninodes > 0 { SameDiskInode(g, bs0, bs, 0); }
    forall j | 0 <= j < g.ninodes
      ensures DiskSize(g, bs, j) == DiskSize(g, bs0, j) && DiskAddrs(g, bs, j) == DiskAddrs(g, bs0, j)
      ensures j != inum ==> Mapped(bs, T[j], DiskSize(g, bs0, j))
      ensures j != inum ==> Content(bs, T[j], DiskSize(g, bs0, j)) == Content(bs0, T0[j], DiskSize(g, bs0, j))
    {
      SameDiskInode(g, bs0, bs, j);
      if j != inum { OtherFile(g, bs0, T0, owner0, bs, T, owner, inum, j, DiskSize(g, bs0, j)); }
    }
  }

  ghost predicate SameData(g: Geometry, bs: Store, bs': Store)
  {
    |bs'| == |bs| && forall b :: g.datastart <= b < |bs| ==> bs'[b] == bs[b]
  }

  lemma SameBytes(g: Geometry, bs: Store, bs': Store, T: Table, owner: map<nat, Slot>, j: nat, size: nat)
    requires Placed(g, bs, T, owner) && Fits(g, bs) && j < g.ninodes == |T| && Mapped(bs, T[j], size)
    requires SameData(g, bs, bs')
    requires forall k :: 0 <= k < NSLOT ==> SlotAddr(bs', T[j], k) == SlotAddr(bs, T[j], k)
    ensures Mapped(bs', T[j], size) && Content(bs', T[j], size) == Content(bs, T[j], size)
  {
    hide SlotAddr;
    forall i | 0 <= i < size
      ensures BlockOf(bs', T[j], i / BSIZE) == BlockOf(bs, T[j], i / BSIZE)
      ensures ByteAt(bs', T[j], i) == ByteAt(bs, T[j], i)
    {
      assert BlockOf(bs, T[j], i / BSIZE) != 0;
      SlotIsData(g, bs, T, owner, j, DataSlot(i / BSIZE));
    }
  }

  /** With the data area and the slots as they were, bytes stay where they are, for any size up
      to the mapped one. */
  lemma FilesUnmoved(g: Geometry, bs: Store, bs': Store, T: Table, owner: map<nat, Slot>)
    requires Placed(g, bs, T, owner) && Fits(g, bs) && |T| == g.ninodes && SameData(g, bs, bs')
    requires forall i, k :: 0 <= i < g.ninodes && 0 <= k < NSLOT ==> SlotAddr(bs', T[i], k) == SlotAddr(bs, T[i], k)
    ensures forall j, size: nat :: 0 <= j < g.ninodes && Mapped(bs, T[j], size) ==>
      Mapped(bs', T[j], size) && Content(bs', T[j], size) == Content(bs, T[j], size)
  {
    hide Placed, SlotAddr, Content, BlockOf;
    forall j, size: nat | 0 <= j < g.ninodes && Mapped(bs, T[j], size)
      ensures Mapped(bs', T[j], size) && Content(bs', T[j], size) == Content(bs, T[j], size)
    {
      SameBytes(g, bs, bs', T, owner, j, size);
    }
  }

  // ---- counting logged blocks ----

  const CHUNK := (MAXOPBLOCKS - 1 - 1 - 2) / 2 * 512

  /** How many blocks of a file the bytes off .. off + n fall into. */
  function Pieces(off: nat, n: nat): (r: nat)
  {
    if n == 0 then 0 else (off + n - 1) / BSIZE - off / BSIZE + 1
  }

  /** The piece behind the last one they fall into. */
  function EndPiece(off: nat, n: nat): (r: nat)
    ensures off + n <= MAXFILE * BSIZE ==> r <= MAXFILE
  {
    off / BSIZE + Pieces(off, n)
  }

  /** The most blocks a write can add to the log: its data blocks, a bitmap block for each that
      can be new, and the indirect block with its bitmap block, and the inode. The first block
      is not new if the write starts inside it. */
  function WriteCost(off: nat, n: nat): (r: nat)
  {
    var v := Pieces(off, n);
    v + (if off % BSIZE != 0 && v > 0 then v - 1 else v) + 3
  }

  /** A chunk of filewrite stays within MAXOPBLOCKS. */
  lemma ChunkFitsLog(off: nat, n: nat)
    requires n <= CHUNK
    ensures WriteCost(off, n) <= MAXOPBLOCKS
  {
  }

  lemma PiecesNext(off: nat, tot: nat, m: nat)
    requires 0 < m && (off + tot) % BSIZE + m <= BSIZE && (tot == 0 || (off + tot) % BSIZE == 0)
    ensures Pieces(off, tot + m) == Pieces(off, tot) + 1
  {
  }

  lemma PiecesGrow(off: nat, n: nat, m: nat)
    requires n <= m
    ensures Pieces(off, n) <= Pieces(off, m)
  {
  }

  lemma EndPieces(off: nat, tot: nat)
    ensures EndPiece(off, 0) == off / BSIZE <= EndPiece(off, tot)
    ensures tot > 0 && (off + tot) % BSIZE == 0 ==> EndPiece(off, tot) == (off + tot) / BSIZE
  {
  }

  lemma EndPieceNext(off: nat, tot: nat, m: nat, n: nat)
    requires 0 < m && (off + tot) % BSIZE + m <= BSIZE && (tot == 0 || (off + tot) % BSIZE == 0) && tot + m <= n
    ensures EndPiece(off, tot + m) == EndPiece(off, tot) + 1 <= EndPiece(off, n)
  {
    PiecesNext(off, tot, m);
    PiecesGrow(off, tot + m, n);
  }

  /** A block that bmap still has to allocate lies beyond the old size. */
  lemma FreshOnlyBeyond(bs: Store, addrs: Addrs, bs0: Store, addrs0: Addrs, size0: nat, off: nat, src: seq<byte>,
                        tot: nat)
    requires Spliced(bs0, addrs0, size0, bs, addrs, off, src, tot) && off <= size0 && off + tot < MAXFILE * BSIZE
    ensures BlockOf(bs, addrs, (off + tot) / BSIZE) == 0 ==> off + tot >= size0
    ensures BlockOf(bs, addrs, (off + tot) / BSIZE) == 0 && tot == 0 ==> off % BSIZE == 0
  {
    if off % BSIZE != 0 {
      assert (off - 1) / BSIZE == off / BSIZE;
    }
  }

  /** The blocks writei logs for piece bn of a file, told by the file before and after. */
  ghost function PieceBlocks(g: Geometry, bs0: Store, addrs0: Addrs, bs: Store, addrs: Addrs, bn: nat): (r: set<nat>)
    requires bn < MAXFILE
  {
    Only(BlockOf(bs, addrs, bn)) +
    Added(g, bn, BlockOf(bs, addrs, bn), BlockOf(bs0, addrs0, bn) == 0, addrs0[INDIRECT] == 0, addrs[INDIRECT])
  }

  /** And for the pieces from lo up to hi. */
  ghost function WriteSet(g: Geometry, bs0: Store, addrs0: Addrs, bs: Store, addrs: Addrs, lo: nat, hi: nat)
    : (r: set<nat>)
    requires hi <= MAXFILE
  {
    if hi <= lo then {}
    else WriteSet(g, bs0, addrs0, bs, addrs, lo, hi - 1) + PieceBlocks(g, bs0, addrs0, bs, addrs, hi - 1)
  }

  /** How many of these pieces have no block. */
  ghost function FreshPieces(bs: Store, addrs: Addrs, lo: nat, hi: nat): (r: nat)
    requires hi <= MAXFILE
    ensures lo <= hi ==> r <= hi - lo
  {
    if hi <= lo then 0 else FreshPieces(bs, addrs, lo, hi - 1) + (if BlockOf(bs, addrs, hi - 1) == 0 then 1 else 0)
  }

  /** How many blocks writei has to allocate for them. */
  ghost function WriteNeed(bs: Store, addrs: Addrs, lo: nat, hi: nat): (r: nat)
    requires hi <= MAXFILE
  {
    FreshPieces(bs, addrs, lo, hi) + (if addrs[INDIRECT] == 0 && lo < hi && NDIRECT < hi then 1 else 0)
  }

  /** Pieces lo to hi have been written: what was logged, what was allocated, and what is as before. */
  ghost predicate Recorded(g: Geometry, bs0: Store, addrs0: Addrs, used0: nat, logged0: set<nat>,
                           bs: Store, addrs: Addrs, used: nat, logged: set<nat>, lo: nat, hi: nat)
  {
    && lo <= hi <= MAXFILE && logged == logged0 + WriteSet(g, bs0, addrs0, bs, addrs, lo, hi)
    && used == used0 + WriteNeed(bs0, addrs0, lo, hi)
    && SamePieces(bs0, addrs0, bs, addrs, lo, hi)
    && (addrs0[INDIRECT] != 0 ==> addrs[INDIRECT] == addrs0[INDIRECT])
    && (addrs0[INDIRECT] == 0 ==> (addrs[INDIRECT] != 0 <==> lo < hi && NDIRECT < hi))
    && (addrs0[INDIRECT] == 0 && addrs[INDIRECT] != 0 ==>
          BBlock(g, addrs[INDIRECT]) in WriteSet(g, bs0, addrs0, bs, addrs, lo, hi))
  }

  /** Pieces outside lo to hi are where they were. */
  ghost predicate SamePieces(bs0: Store, addrs0: Addrs, bs: Store, addrs: Addrs, lo: nat, hi: nat)
  {
    forall bn :: 0 <= bn < MAXFILE && !(lo <= bn < hi) ==> BlockOf(bs, addrs, bn) == BlockOf(bs0, addrs0, bn)
  }

  lemma RecordStart(g: Geometry, bs: Store, addrs: Addrs, used: nat, logged: set<nat>, lo: nat)
    requires lo <= MAXFILE
    ensures Recorded(g, bs, addrs, used, logged, bs, addrs, used, logged, lo, lo)
  {
  }

  /** What was logged stays the same when the pieces do, and the indirect block where it matters. */
  lemma {:induction false} WriteSetFrame(g: Geometry, bs0: Store, addrs0: Addrs, bs: Store, addrs: Addrs, bs': Store,
                                         addrs': Addrs, lo: nat, hi: nat)
    requires hi <= MAXFILE
    requires forall bn :: lo <= bn < hi ==> BlockOf(bs', addrs', bn) == BlockOf(bs, addrs, bn)
    requires addrs'[INDIRECT] == addrs[INDIRECT] || hi <= NDIRECT || hi <= lo
    ensures WriteSet(g, bs0, addrs0, bs', addrs', lo, hi) == WriteSet(g, bs0, addrs0, bs, addrs, lo, hi)
    decreases hi
  {
    hide BlockOf, BBlock;
    if hi > lo { WriteSetFrame(g, bs0, addrs0, bs, addrs, bs', addrs', lo, hi - 1); }
  }

  /** bmap places its blocks in slots that were empty and touches no other piece. */
  lemma OtherPiece(g: Geometry, bs: Store, T: Table, owner: map<nat, Slot>, logged: set<nat>,
                   bs': Store, T': Table, owner': map<nat, Slot>, logged': set<nat>,
                   inum: nat, bn: nat, a: uint, bn': nat)
    requires bn < MAXFILE && BmapOk(g, bs, T, owner, logged, bs', T', owner', logged', inum, bn, a)
    requires Placed(g, bs, T, owner) && Placed(g, bs', T', owner') && bn' < MAXFILE && bn' != bn
    ensures BlockOf(bs', T'[inum], bn') == BlockOf(bs, T[inum], bn')
  {
    hide SlotAddr, Added, Zeroed, SameInodes, Placed;
    var x, y, k := BlockOf(bs, T[inum], bn'), BlockOf(bs', T'[inum], bn'), DataSlot(bn');
    if x != 0 {
      KeptSlot(g, bs, T, owner, bs', T', owner', inum, k);
    } else if y != 0 {
      SlotIsData(g, bs', T', owner', inum, k);
      OwnedSlot(g, bs, T, owner, y);
    }
  }

  lemma OwnedSlot(g: Geometry, bs: Store, T: Table, owner: map<nat, Slot>, b: nat)
    requires Placed(g, bs, T, owner) && b in owner
    ensures IsSlot(g, owner[b]) && SlotAddr(bs, T[owner[b].inum], owner[b].k) == b
  {
  }

  lemma TakenSize(owner: map<nat, Slot>, inum: nat, bn: nat, a: nat, fresh_: bool, noInd: bool, ind: nat)
    requires bn < MAXFILE && (fresh_ ==> a !in owner)
    requires fresh_ && bn >= NDIRECT && noInd ==> ind !in owner && ind != a
    ensures |Taken(owner, inum, bn, a, fresh_, noInd, ind)| == |owner| + Need(bn, fresh_, noInd)
  {
  }

  /** One more piece: bmap, and log_write of the data block. */
  lemma RecordNext(g: Geometry, bs0: Store, addrs0: Addrs, used0: nat, logged0: set<nat>,
                   bs: Store, T: Table, owner: map<nat, Slot>, logged: set<nat>,
                   bs': Store, T': Table, owner': map<nat, Slot>, logged': set<nat>,
                   inum: nat, lo: nat, bn: nat, a: uint)
    requires bn < MAXFILE && BmapOk(g, bs, T, owner, logged, bs', T', owner', logged', inum, bn, a)
    requires Placed(g, bs, T, owner) && Placed(g, bs', T', owner')
    requires Recorded(g, bs0, addrs0, used0, logged0, bs, T[inum], |owner|, logged, lo, bn)
    ensures Recorded(g, bs0, addrs0, used0, logged0, bs', T'[inum], |owner'|, logged' + {a}, lo, bn + 1)
  {
    hide Placed, BlockOf, Added, BBlock, Kept, SameInodes, Zeroed;
    var fresh_, noInd, ind := BlockOf(bs, T[inum], bn) == 0, T[inum][INDIRECT] == 0, T'[inum][INDIRECT];
    forall bn' | 0 <= bn' < MAXFILE && bn' != bn
      ensures BlockOf(bs', T'[inum], bn') == BlockOf(bs, T[inum], bn')
    {
      OtherPiece(g, bs, T, owner, logged, bs', T', owner', logged', inum, bn, a, bn');
    }
    TakenSize(owner, inum, bn, a, fresh_, noInd, ind);
    NeedNext(bs0, addrs0, lo, bn, noInd);
    WriteSetFrame(g, bs0, addrs0, bs, T[inum], bs', T'[inum], lo, bn);
    NoPieceWithout(bs0, addrs0, bn);
    AddedMore(g, bn, a, fresh_, addrs0[INDIRECT] == 0, noInd, ind);
  }

  /** Where bmap succeeds there were the free blocks that it needed. */
  lemma BmapHadRoom(g: Geometry, bs: Store, T: Table, owner: map<nat, Slot>, logged: set<nat>, transit: set<nat>,
                    bs': Store, T': Table, owner': map<nat, Slot>, logged': set<nat>, inum: nat, bn: nat, a: uint)
    requires bn < MAXFILE && BmapOk(g, bs, T, owner, logged, bs', T', owner', logged', inum, bn, a)
    requires MapOk(g, bs', owner', transit)
    ensures Room(g, owner, transit) >= Need(bn, BlockOf(bs, T[inum], bn) == 0, T[inum][INDIRECT] == 0)
  {
    hide Placed, BlockOf, Added, BBlock, Kept, SameInodes, Zeroed, MapOk;
    TakenSize(owner, inum, bn, a, BlockOf(bs, T[inum], bn) == 0, T[inum][INDIRECT] == 0, T'[inum][INDIRECT]);
    RoomIsClearBits(g, bs', owner', transit);
  }

  /** Without an indirect block a file has no piece behind the direct ones. */
  lemma NoPieceWithout(bs: Store, addrs: Addrs, bn: nat)
    requires bn < MAXFILE
    ensures bn >= NDIRECT && addrs[INDIRECT] == 0 ==> BlockOf(bs, addrs, bn) == 0
  {
  }

  lemma NeedNext(bs: Store, addrs: Addrs, lo: nat, bn: nat, noInd: bool)
    requires lo <= bn < MAXFILE && (noInd <==> addrs[INDIRECT] == 0 && !(lo < bn && NDIRECT < bn))
    ensures WriteNeed(bs, addrs, lo, bn + 1)
         == WriteNeed(bs, addrs, lo, bn) + Need(bn, BlockOf(bs, addrs, bn) == 0, noInd)
  {
    hide BlockOf;
    NoPieceWithout(bs, addrs, bn);
  }

  lemma AddedMore(g: Geometry, bn: nat, a: nat, fresh_: bool, noInd0: bool, noInd: bool, ind: nat)
    requires noInd ==> noInd0
    ensures fresh_ && bn >= NDIRECT && noInd0 && !noInd ==>
      Added(g, bn, a, fresh_, noInd0, ind) == Added(g, bn, a, fresh_, noInd, ind) + Only(BBlock(g, ind))
    ensures !(fresh_ && bn >= NDIRECT && noInd0 && !noInd) ==>
      Added(g, bn, a, fresh_, noInd0, ind) == Added(g, bn, a, fresh_, noInd, ind)
    ensures fresh_ && bn >= NDIRECT && noInd0 ==> BBlock(g, ind) in Added(g, bn, a, fresh_, noInd0, ind)
  {
    hide BBlock;
  }

  /** Writing data, or the inode, moves no piece. */
  lemma RecordWrite(g: Geometry, bs0: Store, addrs0: Addrs, used0: nat, logged0: set<nat>,
                    bs: Store, addrs: Addrs, used: nat, logged: set<nat>, bs': Store, lo: nat, hi: nat)
    requires Recorded(g, bs0, addrs0, used0, logged0, bs, addrs, used, logged, lo, hi)
    requires forall k :: 0 <= k < NSLOT ==> SlotAddr(bs', addrs, k) == SlotAddr(bs, addrs, k)
    ensures Recorded(g, bs0, addrs0, used0, logged0, bs', addrs, used, logged, lo, hi)
  {
    hide SlotAddr, WriteSet, BBlock, WriteNeed;
    assert forall bn :: 0 <= bn < MAXFILE ==> BlockOf(bs', addrs, bn) == BlockOf(bs, addrs, bn);
    WriteSetFrame(g, bs0, addrs0, bs, addrs, bs', addrs, lo, hi);
  }

  /** If bmap then finds too few free blocks, there were too few at the start. */
  lemma RecordFull(g: Geometry, bs0: Store, addrs0: Addrs, used0: nat, logged0: set<nat>,
                   bs: Store, addrs: Addrs, used: nat, logged: set<nat>, lo: nat, bn: nat, free: int)
    requires bn < MAXFILE && Recorded(g, bs0, addrs0, used0, logged0, bs, addrs, used, logged, lo, bn)
    requires free - used < Need(bn, BlockOf(bs, addrs, bn) == 0, addrs[INDIRECT] == 0)
    ensures free - used0 < WriteNeed(bs0, addrs0, lo, bn + 1)
  {
    hide BlockOf, WriteNeed, Need, WriteSet;
    NeedNext(bs0, addrs0, lo, bn, addrs[INDIRECT] == 0);
  }

  /** Fewer blocks are free than a write of n bytes at off has to allocate. */
  ghost predicate Short(g: Geometry, bs: Store, addrs: Addrs, owner: map<nat, Slot>, off: nat, n: nat)
    requires off + n <= MAXFILE * BSIZE
  {
    Room(g, owner, {}) < WriteNeed(bs, addrs, off / BSIZE, EndPiece(off, n))
  }

  lemma {:induction false} NeedGrows(bs: Store, addrs: Addrs, lo: nat, m: nat, hi: nat)
    requires m <= hi <= MAXFILE
    ensures WriteNeed(bs, addrs, lo, m) <= WriteNeed(bs, addrs, lo, hi)
    decreases hi
  {
    hide BlockOf;
    if m < hi { NeedGrows(bs, addrs, lo, m, hi - 1); }
  }

  /** Each piece adds its block and a bitmap block if it is new; the indirect block and its bitmap block
      come on top once. */
  lemma {:induction false} WriteSetSize(g: Geometry, bs0: Store, addrs0: Addrs, bs: Store, addrs: Addrs, lo: nat,
                                        hi: nat, s: set<nat>)
    requires lo <= hi <= MAXFILE && addrs[INDIRECT] in s && BBlock(g, addrs[INDIRECT]) in s
    ensures |s + WriteSet(g, bs0, addrs0, bs, addrs, lo, hi)| <= |s| + (hi - lo) + FreshPieces(bs0, addrs0, lo, hi)
    decreases hi
  {
    hide BlockOf, BBlock, With, WriteSet, PieceBlocks;
    if hi == lo {
      WriteSetEnds(g, bs0, addrs0, bs, addrs, lo, hi);
      assert s + {} == s;
    } else {
      WriteSetSize(g, bs0, addrs0, bs, addrs, lo, hi - 1, s);
      WriteSetEnds(g, bs0, addrs0, bs, addrs, lo, hi);
      var l := s + WriteSet(g, bs0, addrs0, bs, addrs, lo, hi - 1);
      var a, fresh_ := BlockOf(bs, addrs, hi - 1), BlockOf(bs0, addrs0, hi - 1) == 0;
      WithSize(l, a, true);
      WithSize(With(l, a, true), BBlock(g, a), fresh_);
      PieceParts(g, bs0, addrs0, bs, addrs, hi - 1, s, WriteSet(g, bs0, addrs0, bs, addrs, lo, hi - 1));
    }
  }

  lemma WriteSetEnds(g: Geometry, bs0: Store, addrs0: Addrs, bs: Store, addrs: Addrs, lo: nat, hi: nat)
    requires hi <= MAXFILE
    ensures hi <= lo ==> WriteSet(g, bs0, addrs0, bs, addrs, lo, hi) == {}
    ensures hi > lo ==>
      WriteSet(g, bs0, addrs0, bs, addrs, lo, hi) ==
        WriteSet(g, bs0, addrs0, bs, addrs, lo, hi - 1) + PieceBlocks(g, bs0, addrs0, bs, addrs, hi - 1)
  {
    hide PieceBlocks;
  }

  lemma PieceParts(g: Geometry, bs0: Store, addrs0: Addrs, bs: Store, addrs: Addrs, bn: nat, s: set<nat>, w: set<nat>)
    requires bn < MAXFILE && addrs[INDIRECT] in s && BBlock(g, addrs[INDIRECT]) in s
    ensures var a := BlockOf(bs, addrs, bn);
      s + (w + PieceBlocks(g, bs0, addrs0, bs, addrs, bn)) ==
        With(With(s + w, a, true), BBlock(g, a), BlockOf(bs0, addrs0, bn) == 0)
  {
    hide BlockOf, BBlock;
  }

  ghost function With(s: set<nat>, x: nat, wanted: bool): (r: set<nat>)
  {
    if wanted then s + {x} else s
  }

  lemma WithSize(s: set<nat>, x: nat, wanted: bool)
    ensures |With(s, x, wanted)| == |s| + (if wanted && x !in s then 1 else 0)
  {
    if x in s { assert s + {x} == s; }
  }

  lemma WithIs(s: set<nat>, x: nat)
    ensures With(s, x, false) == s && With(s, x, true) == s + {x}
  {
  }

  lemma SubsetSize(a: set<nat>, b: set<nat>)
    requires a <= b
    ensures |a| <= |b|
  {
    assert b == a + (b - a);
  }

  /** A write that got through had enough blocks. */
  lemma RecordRoom(g: Geometry, bs0: Store, addrs0: Addrs, owner0: map<nat, Slot>, logged0: set<nat>,
                   bs: Store, T: Table, owner: map<nat, Slot>, logged: set<nat>, inum: nat, lo: nat, hi: nat)
    requires MapOk(g, bs, owner, {}) && inum < |T|
    requires Recorded(g, bs0, addrs0, |owner0|, logged0, bs, T[inum], |owner|, logged, lo, hi)
    ensures Room(g, owner0, {}) >= WriteNeed(bs0, addrs0, lo, hi)
  {
    hide MapOk, WriteNeed, WriteSet;
    RoomIsClearBits(g, bs, owner, {});
  }

  /** The piece that a write begins inside has a block already. */
  lemma FirstMapped(bs: Store, addrs: Addrs, size: nat, off: nat)
    requires Mapped(bs, addrs, size) && off <= size && off % BSIZE != 0
    ensures off / BSIZE < MAXFILE && BlockOf(bs, addrs, off / BSIZE) != 0
  {
    assert (off - 1) / BSIZE == off / BSIZE;
  }

  lemma {:induction false} FreshFrom(bs: Store, addrs: Addrs, lo: nat, hi: nat)
    requires lo < hi <= MAXFILE && BlockOf(bs, addrs, lo) != 0
    ensures FreshPieces(bs, addrs, lo, hi) <= hi - lo - 1
    decreases hi
  {
    hide BlockOf;
    if lo < hi - 1 { FreshFrom(bs, addrs, lo, hi - 1); }
  }

  /** A whole write logs no more than WriteCost, the inode's block included. */
  lemma WriteBound(g: Geometry, bs0: Store, addrs0: Addrs, size: nat, logged0: set<nat>, bs: Store, addrs: Addrs,
                   off: nat, n: nat)
    requires Mapped(bs0, addrs0, size) && off <= size && off + n <= MAXFILE * BSIZE
    ensures var lo, hi := off / BSIZE, EndPiece(off, n);
      hi <= MAXFILE && |logged0 + WriteSet(g, bs0, addrs0, bs, addrs, lo, hi)| <= |logged0| + WriteCost(off, n) - 1
  {
    hide BlockOf, BBlock, WriteSet, Mapped, FreshPieces;
    var lo, hi := off / BSIZE, EndPiece(off, n);
    var w := WriteSet(g, bs0, addrs0, bs, addrs, lo, hi);
    var ind := addrs[INDIRECT];
    var s := With(With(logged0, ind, true), BBlock(g, ind), true);
    WithSize(logged0, ind, true);
    WithSize(With(logged0, ind, true), BBlock(g, ind), true);
    WriteSetSize(g, bs0, addrs0, bs, addrs, lo, hi, s);
    SubsetSize(logged0 + w, s + w);
    if off % BSIZE != 0 && n > 0 {
      FirstMapped(bs0, addrs0, size, off);
      FreshFrom(bs0, addrs0, lo, hi);
    }
  }

  /** What a write of n bytes at off logged and allocated, told by the file system before and after it. */
  ghost predicate WriteLogged(g: Geometry, s: Snap, s': Snap, inum: nat, off: nat, n: nat, logged0: set<nat>,
                              logged: set<nat>, grew: bool)
  {
    && off + n <= MAXFILE * BSIZE && inum < |s.T| && inum < |s'.T| && Extends(s.owner, s'.owner)
    && logged == With(logged0 + WriteSet(g, s.bs, s.T[inum], s'.bs, s'.T[inum], off / BSIZE, EndPiece(off, n)),
                      IBlock(g, inum), grew)
    && |s'.owner| == |s.owner| + WriteNeed(s.bs, s.T[inum], off / BSIZE, EndPiece(off, n))
    && SamePieces(s.bs, s.T[inum], s'.bs, s'.T[inum], off / BSIZE, EndPiece(off, n))
  }

  lemma RecordEnds(g: Geometry, s: Snap, size: nat, logged0: set<nat>, bs: Store, logged: set<nat>, s': Snap,
                   logged': set<nat>, inum: nat, off: nat, n: nat, grew: bool)
    requires inum < |s.T| && inum < |s'.T| && Extends(s.owner, s'.owner)
    requires Mapped(s.bs, s.T[inum], size) && off <= size && off + n <= MAXFILE * BSIZE
    requires Recorded(g, s.bs, s.T[inum], |s.owner|, logged0, bs, s'.T[inum], |s'.owner|, logged, off / BSIZE,
                      EndPiece(off, n))
    requires forall k :: 0 <= k < NSLOT ==> SlotAddr(s'.bs, s'.T[inum], k) == SlotAddr(bs, s'.T[inum], k)
    requires logged' == With(logged, IBlock(g, inum), grew)
    ensures WriteLogged(g, s, s', inum, off, n, logged0, logged', grew)
    ensures |logged'| <= |logged0| + WriteCost(off, n)
  {
    hide Extends, WriteSet, WriteNeed, SlotAddr, IBlock, BBlock, Mapped, WriteCost, EndPiece, With;
    RecordWrite(g, s.bs, s.T[inum], |s.owner|, logged0, bs, s'.T[inum], |s'.owner|, logged, s'.bs, off / BSIZE,
                EndPiece(off, n));
    WriteBound(g, s.bs, s.T[inum], size, logged0, s'.bs, s'.T[inum], off, n);
    WithSize(logged, IBlock(g, inum), grew);
  }

  // ---- a chunk that uses up its reservation ----

  /** The write begins inside the last direct block of a file without an indirect block. */
  predicate InLastDirect(addrs: Addrs, off: nat)
  {
    off / BSIZE == NDIRECT - 1 && off % BSIZE != 0 && addrs[INDIRECT] == 0
  }

  /** No two free blocks have their bits in the same bitmap block. */
  ghost predicate Scattered(g: Geometry, owner: map<nat, Slot>)
  {
    forall b, c :: IsData(g, b) && IsData(g, c) && b !in owner && c !in owner && b != c ==> BBlock(g, b) != BBlock(g, c)
  }

  /** The blocks of a file from piece 11 to piece 14. */
  datatype Chunk = Chunk(a: nat, b: nat, c: nat, d: nat, ind: nat)

  ghost function ChunkBlocks(bs: Store, addrs: Addrs): (r: Chunk)
  {
    Chunk(BlockOf(bs, addrs, 11), BlockOf(bs, addrs, 12), BlockOf(bs, addrs, 13), BlockOf(bs, addrs, 14),
          addrs[INDIRECT])
  }

  ghost function DataOf(k: Chunk): (r: set<nat>) { {k.a, k.b, k.c, k.d, k.ind} }

  /** The bitmap blocks of those that such a write allocates. */
  ghost function BitmapsOf(g: Geometry, k: Chunk): (r: set<nat>)
  {
    {BBlock(g, k.ind), BBlock(g, k.b), BBlock(g, k.c), BBlock(g, k.d)}
  }

  /** A full chunk there logs exactly its four data blocks, the new indirect block, their bitmap blocks
      and the inode's block: as many as an operation may log if and only if the four new blocks have
      their bits in different bitmap blocks, and so whenever no two free blocks share one. */
  ghost predicate AtLimit(g: Geometry, s: Snap, s': Snap, inum: nat, logged: set<nat>)
    requires inum < |s'.T|
  {
    var k := ChunkBlocks(s'.bs, s'.T[inum]);
    && logged == DataOf(k) + BitmapsOf(g, k) + {IBlock(g, inum)}
    && (|logged| == MAXOPBLOCKS <==> |BitmapsOf(g, k)| == 4)
    && (Scattered(g, s.owner) ==> |logged| == MAXOPBLOCKS)
  }

  lemma ChunkReachesLimit(g: Geometry, s: Snap, s': Snap, inum: nat, off: nat, logged: set<nat>)
    requires FsOk(g, s.bs, s.T, s.owner) && FsOk(g, s'.bs, s'.T, s'.owner) && inum < g.ninodes
    requires off <= DiskSize(g, s.bs, inum) && InLastDirect(s.T[inum], off) && off + CHUNK <= DiskSize(g, s'.bs, inum)
    requires WriteLogged(g, s, s', inum, off, CHUNK, {}, logged, DiskSize(g, s'.bs, inum) > DiskSize(g, s.bs, inum))
    ensures AtLimit(g, s, s', inum, logged)
  {
    hide Placed, Bit, Mapped, DiskSize, DiskAddrs, WriteLogged, AtLimit, InLastDirect;
    LimitReached(g, s, s', DiskSize(g, s.bs, inum), DiskSize(g, s'.bs, inum), inum, off, logged);
  }

  lemma LimitReached(g: Geometry, s: Snap, s': Snap, size: nat, size': nat, inum: nat, off: nat, logged: set<nat>)
    requires OwnOk(g, s.bs, s.T, s.owner, {}) && OwnOk(g, s'.bs, s'.T, s'.owner, {}) && inum < |s.T| && inum < |s'.T|
    requires Mapped(s.bs, s.T[inum], size) && off <= size && InLastDirect(s.T[inum], off)
    requires Mapped(s'.bs, s'.T[inum], size') && off + CHUNK <= size'
    requires WriteLogged(g, s, s', inum, off, CHUNK, {}, logged, size' > size)
    ensures AtLimit(g, s, s', inum, logged)
  {
    hide OwnOk, DataOf, BitmapsOf, Scattered, Mapped, ChunkBlocks, Extends, WriteSet, WriteNeed, SamePieces, IBlock;
    var k := ChunkBlocks(s'.bs, s'.T[inum]);
    ChunkSet(g, s, s', size, size', inum, off, logged);
    ChunkData(g, s', size', inum, off);
    ChunkApart(g, s'.bs, s'.owner, inum, k);
    DisjointSize(DataOf(k), BitmapsOf(g, k));
    AddNew(DataOf(k) + BitmapsOf(g, k), IBlock(g, inum));
    ChunkNew(g, s, s', size', inum, off);
    if Scattered(g, s.owner) { ScatteredMaps(g, s.owner, k); }
  }

  lemma PieceThere(bs: Store, addrs: Addrs, size: nat, bn: nat)
    requires Mapped(bs, addrs, size) && bn < MAXFILE && bn * BSIZE < size
    ensures BlockOf(bs, addrs, bn) != 0
  {
    assert bn * BSIZE / BSIZE == bn;
  }

  lemma ChunkSet(g: Geometry, s: Snap, s': Snap, size: nat, size': nat, inum: nat, off: nat, logged: set<nat>)
    requires inum < |s.T| && inum < |s'.T| && Mapped(s.bs, s.T[inum], size) && off <= size
    requires InLastDirect(s.T[inum], off) && off + CHUNK <= size'
    requires WriteLogged(g, s, s', inum, off, CHUNK, {}, logged, size' > size)
    ensures var k := ChunkBlocks(s'.bs, s'.T[inum]); logged == DataOf(k) + BitmapsOf(g, k) + {IBlock(g, inum)}
  {
    hide BBlock, IBlock, BlockOf, Mapped, Added, WriteSet, With, DataOf, BitmapsOf, WriteNeed, SamePieces, Extends;
    var bs0, addrs0, bs, addrs := s.bs, s.T[inum], s'.bs, s'.T[inum];
    FirstMapped(bs0, addrs0, size, off);
    NoPieceWithout(bs0, addrs0, 12);
    NoPieceWithout(bs0, addrs0, 13);
    NoPieceWithout(bs0, addrs0, 14);
    if size > 12 * BSIZE { PieceThere(bs0, addrs0, size, 12); }
    assert EndPiece(off, CHUNK) == 15;
    WriteSetEnds(g, bs0, addrs0, bs, addrs, 11, 15);
    WriteSetEnds(g, bs0, addrs0, bs, addrs, 11, 14);
    WriteSetEnds(g, bs0, addrs0, bs, addrs, 11, 13);
    WriteSetEnds(g, bs0, addrs0, bs, addrs, 11, 12);
    WriteSetEnds(g, bs0, addrs0, bs, addrs, 11, 11);
    ChunkUnion(g, ChunkBlocks(bs, addrs), IBlock(g, inum));
  }

  lemma ChunkUnion(g: Geometry, k: Chunk, inode: nat)
    ensures
      var w1 := {} + (Only(k.a) + Added(g, 11, k.a, false, true, k.ind));
      var w2 := w1 + (Only(k.b) + Added(g, 12, k.b, true, true, k.ind));
      var w3 := w2 + (Only(k.c) + Added(g, 13, k.c, true, true, k.ind));
      var w4 := w3 + (Only(k.d) + Added(g, 14, k.d, true, true, k.ind));
      With({} + w4, inode, true) == DataOf(k) + BitmapsOf(g, k) + {inode}
  {
    hide BBlock;
  }

  /** The data blocks are different. */
  lemma ChunkData(g: Geometry, s: Snap, size: nat, inum: nat, off: nat)
    requires OwnOk(g, s.bs, s.T, s.owner, {}) && inum < |s.T|
    requires off / BSIZE == 11 && Mapped(s.bs, s.T[inum], size) && off % BSIZE != 0 && off + CHUNK <= size
    ensures var k := ChunkBlocks(s.bs, s.T[inum]);
      && Fits(g, s.bs) && inum < g.ninodes && k.a != 0 && k.b != 0 && k.c != 0 && k.d != 0 && k.ind != 0
      && k.a in s.owner && k.b in s.owner && k.c in s.owner && k.d in s.owner && k.ind in s.owner
      && s.owner[k.a] == Slot(inum, 11) && s.owner[k.b] == Slot(inum, 13) && s.owner[k.c] == Slot(inum, 14)
      && s.owner[k.d] == Slot(inum, 15) && s.owner[k.ind] == Slot(inum, INDIRECT)
      && IsData(g, k.a) && IsData(g, k.b) && IsData(g, k.c) && IsData(g, k.d) && IsData(g, k.ind)
  {
    hide SlotAddr, Mapped, Placed, MapOk;
    var bs, T, owner := s.bs, s.T, s.owner;
    MapFits(g, bs, owner, {});
    PlacedFits(g, bs, T, owner);
    PieceThere(bs, T[inum], size, 11);
    PieceThere(bs, T[inum], size, 12);
    PieceThere(bs, T[inum], size, 13);
    PieceThere(bs, T[inum], size, 14);
    NoPieceWithout(bs, T[inum], 12);
    SlotIsData(g, bs, T, owner, inum, 11);
    SlotIsData(g, bs, T, owner, inum, 13);
    SlotIsData(g, bs, T, owner, inum, 14);
    SlotIsData(g, bs, T, owner, inum, 15);
    IndirectOwned(g, bs, T, owner, inum);
  }

  lemma PlacedFits(g: Geometry, bs: Store, T: Table, owner: map<nat, Slot>)
    requires Placed(g, bs, T, owner)
    ensures |T| == g.ninodes
  {
  }

  /** And apart from the bitmap and the inodes. */
  lemma ChunkApart(g: Geometry, bs: Store, owner: map<nat, Slot>, inum: nat, k: Chunk)
    requires Fits(g, bs) && inum < g.ninodes
    requires k.a in owner && k.b in owner && k.c in owner && k.d in owner && k.ind in owner
    requires owner[k.a] == Slot(inum, 11) && owner[k.b] == Slot(inum, 13) && owner[k.c] == Slot(inum, 14)
    requires owner[k.d] == Slot(inum, 15) && owner[k.ind] == Slot(inum, INDIRECT)
    requires IsData(g, k.a) && IsData(g, k.b) && IsData(g, k.c) && IsData(g, k.d) && IsData(g, k.ind)
    ensures |DataOf(k)| == 5 && DataOf(k) !! BitmapsOf(g, k) && IBlock(g, inum) !in DataOf(k) + BitmapsOf(g, k)
  {
    hide BBlock, IBlock;
    IBlockBelowMap(g, bs, inum);
    BBlockInMap(g, bs, k.ind);
    BBlockInMap(g, bs, k.b);
    BBlockInMap(g, bs, k.c);
    BBlockInMap(g, bs, k.d);
  }

  /** Four of them were free before. */
  lemma ChunkNew(g: Geometry, s: Snap, s': Snap, size': nat, inum: nat, off: nat)
    requires OwnOk(g, s.bs, s.T, s.owner, {}) && OwnOk(g, s'.bs, s'.T, s'.owner, {}) && inum < |s.T| && inum < |s'.T|
    requires Extends(s.owner, s'.owner) && InLastDirect(s.T[inum], off)
    requires Mapped(s'.bs, s'.T[inum], size') && off + CHUNK <= size'
    ensures var k := ChunkBlocks(s'.bs, s'.T[inum]);
      k.b !in s.owner && k.c !in s.owner && k.d !in s.owner && k.ind !in s.owner
  {
    hide Mapped, MapOk, Placed;
    ChunkData(g, s', size', inum, off);
    var k := ChunkBlocks(s'.bs, s'.T[inum]);
    if k.b in s.owner { OwnedSlot(g, s.bs, s.T, s.owner, k.b); }
    if k.c in s.owner { OwnedSlot(g, s.bs, s.T, s.owner, k.c); }
    if k.d in s.owner { OwnedSlot(g, s.bs, s.T, s.owner, k.d); }
    if k.ind in s.owner { OwnedSlot(g, s.bs, s.T, s.owner, k.ind); }
  }

  lemma ScatteredMaps(g: Geometry, owner: map<nat, Slot>, k: Chunk)
    requires Scattered(g, owner) && k.b !in owner && k.c !in owner && k.d !in owner && k.ind !in owner
    requires IsData(g, k.b) && IsData(g, k.c) && IsData(g, k.d) && IsData(g, k.ind) && |DataOf(k)| == 5
    ensures |BitmapsOf(g, k)| == 4
  {
    hide BBlock;
    FiveApart(k);
  }

  lemma FiveApart(k: Chunk)
    requires |DataOf(k)| == 5
    ensures k.b != k.c && k.b != k.d && k.b != k.ind && k.c != k.d && k.c != k.ind && k.d != k.ind
  {
  }

  // ---- filewrite ----

  /** Not all n bytes are written, and there are too few free blocks for the chunk at byte i. */
  ghost predicate Full(g: Geometry, s: Snap, inum: nat, off: nat, n: nat, i: nat)
  {
    && i < n && inum < |s.T| && off + i + Min(CHUNK, n - i) <= MAXFILE * BSIZE
    && Short(g, s.bs, s.T[inum], s.owner, off + i, Min(CHUNK, n - i))
  }

  /** There were enough for the first k chunks. */
  ghost predicate Fitted(g: Geometry, hist: seq<Snap>, k: nat, inum: nat, off: nat, n: nat)
    requires k <= |hist|
  {
    forall q :: 0 <= q < k ==> !Full(g, hist[q], inum, off, n, Sent(q, n))
  }

  lemma FittedStart(g: Geometry, hist: seq<Snap>, inum: nat, off: nat, n: nat)
    ensures Fitted(g, hist, 0, inum, off, n)
  {
  }

  lemma FittedNext(g: Geometry, hist: seq<Snap>, k: nat, inum: nat, off: nat, n: nat, s: Snap)
    requires k < |hist| && Fitted(g, hist, k, inum, off, n) && !Full(g, hist[k], inum, off, n, Sent(k, n))
    ensures Fitted(g, hist + [s], k + 1, inum, off, n)
  {
    hide Full, Sent;
  }

  /** data was written over file0 at off0, and the offset has moved past it. */
  ghost predicate Written(file0: seq<byte>, off0: nat, data: seq<byte>, file: seq<byte>, off: nat)
  {
    && off == off0 + |data|
    && if data == [] then file == file0 else off0 <= |file0| && file == Splice(file0, off0, data)
  }

  lemma WrittenGrows(file0: seq<byte>, off0: nat, data: seq<byte>, file: seq<byte>, off: nat)
    requires Written(file0, off0, data, file, off)
    ensures |file| >= |file0|
  {
  }

  /** Two writes one after the other are one write of both pieces. */
  lemma WrittenStep(file0: seq<byte>, off0: nat, data: seq<byte>, file: seq<byte>, off: nat, part: seq<byte>)
    requires Written(file0, off0, data, file, off) && off <= |file|
    ensures Written(file0, off0, data + part, Splice(file, off, part), off + |part|)
  {
  }

  /** Bytes written after q chunks of a buffer of n bytes. */
  function Sent(q: nat, n: nat): (r: nat)
    ensures r <= n
  {
    Min(q * CHUNK, n)
  }

  /** Chunk q of a buffer. */
  function ChunkOf(addr: seq<byte>, q: nat): (r: seq<byte>)
  {
    addr[Sent(q, |addr|)..Sent(q + 1, |addr|)]
  }

  lemma SentNext(q: nat, n: nat)
    ensures Sent(0, n) == 0 && Sent(q, n) <= Sent(q + 1, n)
    ensures Sent(q, n) < n ==> Sent(q, n) == q * CHUNK && Sent(q + 1, n) == Sent(q, n) + Min(CHUNK, n - Sent(q, n))
  {
  }

  /** The file system at one moment. */
  datatype Snap = Snap(bs: Store, T: Table, owner: map<nat, Slot>)

  /** What a filewrite starts from: the files, the attributes of the inodes on disk, and those that its
      in-core inode has. */
  datatype Start = Start(files: seq<seq<byte>>, attrs: seq<Attrs>, mine: Attrs)

  /** A consistent file system in which only file inum differs from the start, by the first q chunks of
      addr, and only its attributes, which are those of the in-core inode once the file has grown. */
  ghost predicate ChunkAt(g: Geometry, s: Snap, start: Start, inum: nat, off: nat, addr: seq<byte>, q: nat)
  {
    && FsOk(g, s.bs, s.T, s.owner) && inum < g.ninodes == |start.files| == |start.attrs|
    && FilesOf(g, s.bs, s.T) == start.files[inum := FilesOf(g, s.bs, s.T)[inum]]
    && Written(start.files[inum], off, addr[..Sent(q, |addr|)], FilesOf(g, s.bs, s.T)[inum], off + Sent(q, |addr|))
    && AttrsOf(g, s.bs)
       == AttrsAfter(start.attrs, inum, |FilesOf(g, s.bs, s.T)[inum]| > |start.files[inum]|, start.mine)
  }

  /** The log_writes ws turn bs into bs' and name no more blocks than an operation may log. */
  ghost predicate OneOperation(g: Geometry, bs: Store, bs': Store, ws: seq<CR.Write>)
  {
    Changes(g, bs, bs', ws) && |Touched(ws)| <= MAXOPBLOCKS
  }

  /** The moments between the operations of one filewrite: each operation adds a chunk, and its
      log_writes name no more blocks than an operation may log. */
  ghost predicate ChunkHistory(g: Geometry, hist: seq<Snap>, ops: seq<seq<CR.Write>>, start: Start, inum: nat,
                               off: nat, addr: seq<byte>)
  {
    && |hist| == |ops| + 1
    && (forall q :: 0 <= q < |hist| ==> ChunkAt(g, hist[q], start, inum, off, addr, q))
    && (forall q, r :: 0 <= q < r < |hist| && r == q + 1 ==>
          OneOperation(g, hist[q].bs, hist[r].bs, ops[q]))
  }

  lemma HistoryStart(g: Geometry, s: Snap, inum: nat, off: nat, addr: seq<byte>, mine: Attrs)
    requires FsOk(g, s.bs, s.T, s.owner) && inum < g.ninodes
    ensures ChunkHistory(g, [s], [], Start(FilesOf(g, s.bs, s.T), AttrsOf(g, s.bs), mine), inum, off, addr)
  {
    hide OwnOk, DiskSize, DiskAddrs, Mapped, FilesOf, AttrsOf;
    SentNext(0, |addr|);
    FilesCount(g, s.bs, s.T, s.owner);
    var files := FilesOf(g, s.bs, s.T);
    assert files == files[inum := files[inum]];
  }

  lemma FilesCount(g: Geometry, bs: Store, T: Table, owner: map<nat, Slot>)
    requires FsOk(g, bs, T, owner)
    ensures Fits(g, bs) && |T| == g.ninodes
    ensures (forall j :: 0 <= j < g.ninodes ==> DiskSize(g, bs, j) <= MAXFILE * BSIZE)
    ensures |FilesOf(g, bs, T)| == g.ninodes
  {
  }

  /** The attributes after a write: those of the in-core inode, if the file has grown. */
  ghost predicate AttrsStep(g: Geometry, s: Snap, s': Snap, inum: nat, mine: Attrs)
    requires FsOk(g, s.bs, s.T, s.owner) && FsOk(g, s'.bs, s'.T, s'.owner) && inum < g.ninodes
  {
    AttrsOf(g, s'.bs)
    == AttrsAfter(AttrsOf(g, s.bs), inum, |FilesOf(g, s'.bs, s'.T)[inum]| > |FilesOf(g, s.bs, s.T)[inum]|, mine)
  }

  lemma AttrsStepIs(g: Geometry, s: Snap, s': Snap, inum: nat, mine: Attrs, size: nat, size': nat)
    requires FsOk(g, s.bs, s.T, s.owner) && FsOk(g, s'.bs, s'.T, s'.owner) && inum < g.ninodes
    requires size == DiskSize(g, s.bs, inum) && size' == DiskSize(g, s'.bs, inum)
    requires AttrsOf(g, s'.bs) == AttrsAfter(AttrsOf(g, s.bs), inum, size' > size, mine)
    ensures AttrsStep(g, s, s', inum, mine)
  {
    hide OwnOk, DiskSize, DiskAddrs, AttrsOf, AttrsAfter, BlockOf;
  }

  /** One more chunk. */
  lemma ChunkNext(g: Geometry, s: Snap, s': Snap, start: Start, inum: nat, off: nat, addr: seq<byte>, q: nat)
    requires ChunkAt(g, s, start, inum, off, addr, q) && FsOk(g, s'.bs, s'.T, s'.owner) && Sent(q, |addr|) < |addr|
    requires var files, at := FilesOf(g, s.bs, s.T), off + Sent(q, |addr|);
      && inum < |files| && at <= |files[inum]|
      && FilesOf(g, s'.bs, s'.T) == files[inum := Splice(files[inum], at, ChunkOf(addr, q))]
    requires AttrsStep(g, s, s', inum, start.mine)
    ensures ChunkAt(g, s', start, inum, off, addr, q + 1)
  {
    hide FilesOf, FsOk, Written, Splice, Sent, AttrsOf;
    SentNext(q, |addr|);
    FilesCount(g, s.bs, s.T, s.owner);
    var files, at := FilesOf(g, s.bs, s.T), off + Sent(q, |addr|);
    var part := ChunkOf(addr, q);
    WrittenGrows(start.files[inum], off, addr[..Sent(q, |addr|)], files[inum], at);
    WrittenStep(start.files[inum], off, addr[..Sent(q, |addr|)], files[inum], at, part);
    assert addr[..Sent(q, |addr|)] + part == addr[..Sent(q + 1, |addr|)];
    FilesCount(g, s'.bs, s'.T, s'.owner);
  }

  lemma HistoryNext(g: Geometry, hist: seq<Snap>, ops: seq<seq<CR.Write>>, start: Start, inum: nat, off: nat,
                    addr: seq<byte>, s: Snap, op: seq<CR.Write>)
    requires ChunkHistory(g, hist, ops, start, inum, off, addr) && ChunkAt(g, s, start, inum, off, addr, |hist|)
    requires OneOperation(g, hist[|hist| - 1].bs, s.bs, op)
    ensures ChunkHistory(g, hist + [s], ops + [op], start, inum, off, addr)
  {
    hide ChunkAt, OneOperation;
  }

  /** One more operation of filewrite. */
  lemma HistoryStep(g: Geometry, hist: seq<Snap>, ops: seq<seq<CR.Write>>, start: Start, inum: nat, off: nat,
                    addr: seq<byte>, s: Snap, op: seq<CR.Write>)
    requires ChunkHistory(g, hist, ops, start, inum, off, addr) && FsOk(g, s.bs, s.T, s.owner) && |hist| == |ops| + 1
    requires FsOk(g, hist[|ops|].bs, hist[|ops|].T, hist[|ops|].owner) && Sent(|ops|, |addr|) < |addr|
    requires var files, at := FilesOf(g, hist[|ops|].bs, hist[|ops|].T), off + Sent(|ops|, |addr|);
      && inum < |files| && at <= |files[inum]|
      && FilesOf(g, s.bs, s.T) == files[inum := Splice(files[inum], at, ChunkOf(addr, |ops|))]
    requires inum < g.ninodes && AttrsStep(g, hist[|ops|], s, inum, start.mine)
    requires OneOperation(g, hist[|ops|].bs, s.bs, op)
    ensures ChunkHistory(g, hist + [s], ops + [op], start, inum, off, addr)
  {
    hide FilesOf, FsOk, Written, Splice, Sent, ChunkAt, OneOperation, AttrsOf, AttrsStep;
    ChunkNext(g, hist[|ops|], s, start, inum, off, addr, |ops|);
    HistoryNext(g, hist, ops, start, inum, off, addr, s, op);
  }

  // ---- itrunc ----

  predicate Empty(addrs: Addrs) { forall k :: 0 <= k < 13 ==> addrs[k] == 0 }

  /** Blocks lost their slot only in inode inum. */
  ghost predicate Shrunk(owner0: map<nat, Slot>, owner: map<nat, Slot>, inum: nat)
  {
    && (forall b :: b in owner ==> b in owner0 && owner[b] == owner0[b])
    && (forall b :: b in owner0 && owner0[b].inum != inum ==> b in owner)
  }

  /** Only free map blocks have been logged since. */
  ghost predicate MapLogged(g: Geometry, logged0: set<nat>, logged: set<nat>)
  {
    forall b :: b in logged ==> b in logged0 || g.bmapstart <= b < g.datastart
  }

  lemma NothingFreed(g: Geometry, bs: Store, owner: map<nat, Slot>, logged: set<nat>, inum: nat)
    ensures SameInodes(g, bs, bs) && SameData(g, bs, bs) && Shrunk(owner, owner, inum) && MapLogged(g, logged, logged)
  {
  }

  lemma ClearedMap(g: Geometry, bs: Store, b: nat)
    requires Fits(g, bs) && b < g.size
    ensures g.bmapstart <= BBlock(g, b) < g.datastart
    ensures SameInodes(g, bs, ClearBit(g, bs, b)) && SameData(g, bs, ClearBit(g, bs, b))
  {
  }

  /** The blocks of an indirect block that itrunc still has to free after j entries. */
  ghost function Rest(owner: map<nat, Slot>, inum: nat, j: nat): (r: set<nat>)
  {
    set b | b in owner && owner[b].inum == inum && (owner[b].k == INDIRECT || owner[b].k >= 13 + j)
  }

  lemma RestFirst(owner: map<nat, Slot>, inum: nat)
    ensures Rest(owner, inum, 0) == IndirectBlocks(owner, inum)
  {
  }

  lemma RestNext(g: Geometry, bs: Store, T: Table, owner: map<nat, Slot>, inum: nat, j: nat)
    requires Placed(g, bs, T, owner) && Fits(g, bs)
    requires inum < g.ninodes == |T| && 0 < T[inum][INDIRECT] < |bs| && j < NINDIRECT
    ensures var w := Word(bs[T[inum][INDIRECT]], j);
      if w == 0 then Rest(owner, inum, j + 1) == Rest(owner, inum, j)
      else w in Rest(owner, inum, j) && Rest(owner, inum, j + 1) == Rest(owner, inum, j) - {w}
  {
    var w := Word(bs[T[inum][INDIRECT]], j);
    assert SlotAddr(bs, T[inum], 13 + j) == w;
    hide SlotAddr, Word;
  }

  lemma RestLast(g: Geometry, bs: Store, T: Table, owner: map<nat, Slot>, inum: nat)
    requires Placed(g, bs, T, owner) && inum < g.ninodes == |T| && T[inum][INDIRECT] != 0
    ensures Rest(owner, inum, NINDIRECT) == {T[inum][INDIRECT] as nat}
  {
    IndirectOwned(g, bs, T, owner, inum);
  }

  lemma ShrinkIndirect(owner0: map<nat, Slot>, owner: map<nat, Slot>, inum: nat)
    requires Shrunk(owner0, owner, inum)
    ensures Shrunk(owner0, owner - IndirectBlocks(owner, inum), inum)
  {
  }

  lemma OwnsNothing(g: Geometry, bs: Store, T: Table, owner: map<nat, Slot>, inum: nat)
    requires Placed(g, bs, T, owner) && Fits(g, bs) && inum < |T| && Empty(T[inum])
    ensures forall b :: b in owner ==> owner[b].inum != inum
  {
  }

  lemma OwnedIsData(g: Geometry, bs: Store, T: Table, owner: map<nat, Slot>)
    requires Placed(g, bs, T, owner)
    ensures forall b :: b in owner ==> IsData(g, b)
  {
  }

  lemma NowFree(g: Geometry, owner0: map<nat, Slot>, bs: Store, owner: map<nat, Slot>, inum: nat)
    requires MapOk(g, bs, owner, {}) && Shrunk(owner0, owner, inum)
    requires forall b :: b in owner0 ==> IsData(g, b)
    requires forall b :: b in owner ==> owner[b].inum != inum
    ensures forall b :: b in owner0 ==> b < g.size && (Bit(g, bs, b) <==> owner0[b].inum != inum)
  {
  }

  lemma FilesAfterFree(g: Geometry, bs0: Store, T0: Table, owner0: map<nat, Slot>, bs: Store, T: Table, inum: nat)
    requires Placed(g, bs0, T0, owner0) && Fits(g, bs0) && SameInodes(g, bs0, bs) && SameData(g, bs0, bs)
    requires inum < g.ninodes == |T0| == |T| && T == T0[inum := T[inum]]
    requires forall j :: 0 <= j < g.ninodes ==> Mapped(bs0, T0[j], DiskSize(g, bs0, j))
    ensures Fits(g, bs)
    ensures forall j :: 0 <= j < g.ninodes ==>
      DiskSize(g, bs, j) == DiskSize(g, bs0, j) && DiskAddrs(g, bs, j) == DiskAddrs(g, bs0, j)
    ensures forall j :: 0 <= j < g.ninodes && j != inum ==>
      && Mapped(bs, T[j], DiskSize(g, bs0, j))
      && Content(bs, T[j], DiskSize(g, bs0, j)) == Content(bs0, T0[j], DiskSize(g, bs0, j))
  {
    hide Placed, SlotAddr, BlockOf, Content, DiskSize, DiskAddrs;
    OwnedIsData(g, bs0, T0, owner0);
    SameSlots(g, bs0, bs, T0, owner0);
    FilesUnmoved(g, bs0, bs, T0, owner0);
    forall j | 0 <= j < g.ninodes
      ensures DiskSize(g, bs, j) == DiskSize(g, bs0, j) && DiskAddrs(g, bs, j) == DiskAddrs(g, bs0, j)
    {
      SameDiskInode(g, bs0, bs, j);
    }
  }
}
