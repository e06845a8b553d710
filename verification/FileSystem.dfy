/** Block allocation, block mapping and inode content (fs.c), and the chunking of filewrite
    (file.c). `blocks` is the plain map of block contents that the log and the buffer cache
    stand for; `logged` collects the blocks passed to log_write. */
module FileSystem {
  import opened Common
  import opened Blocks
  import opened FsLayout
  import opened FsOwnership
  import opened FsContent
  import CR = CrashRecovery

  const T_DEV := 3

  datatype IoResult = Device | Refused | Panic | Done(n: nat)

  datatype FileResult = Wrote(n: nat) | Failed | Panicked

  /** The in-core inode. */
  class Inode {
    const inum: nat
    var itype: nat
    var major: nat
    var minor: nat
    var nlink: nat
    var size: uint
    const addrs: array<uint>

    constructor (inum: nat)
      ensures this.inum == inum && fresh(addrs) && addrs.Length == 13
    {
      this.inum := inum;
      addrs := new uint[13](i => 0);
      itype, major, minor, nlink, size := 0, 0, 0, 0, 0;
    }
  }

  /** What iupdate stores of an in-core inode's four shorts. */
  ghost function InCore(ip: Inode): (r: Attrs)
    reads ip`itype, ip`major, ip`minor, ip`nlink
  {
    Attrs(ip.itype % 65536, ip.major % 65536, ip.minor % 65536, ip.nlink % 65536)
  }

  /** An open inode file. */
  class OpenFile {
    const ip: Inode
    const writable: bool
    var off: uint

    constructor (ip: Inode, writable: bool)
      ensures this.ip == ip && this.writable == writable && off == 0
    {
      this.ip, this.writable, off := ip, writable, 0;
    }
  }

  class FileSystem {
    const g: Geometry
    const blocks: array<Block>
    ghost var table: Table
    ghost var owner: map<nat, Slot>
    ghost var transit: set<nat>
    ghost var logged: set<nat>
    ghost var base: Store          // the blocks when the operation began
    ghost var trace: seq<CR.Write> // its log_writes so far

    ghost predicate Valid()
      reads this`table, this`owner, this`transit, blocks
    {
      OwnOk(g, blocks[..], table, owner, transit)
    }

    constructor (g: Geometry, blocks: array<Block>, ghost table: Table, ghost owner: map<nat, Slot>)
      requires OwnOk(g, blocks[..], table, owner, {})
      ensures Valid() && this.g == g && this.blocks == blocks && this.table == table && transit == {} && logged == {}
    {
      this.g, this.blocks, this.table, this.owner := g, blocks, table, owner;
      transit, logged, base, trace := {}, {}, blocks[..], [];
    }

    /** The log_writes of the operation, none of them in the log area, account for the blocks. */
    ghost predicate Traced()
      reads this`base, this`logged, this`trace, blocks
    {
      Changes(g, base, blocks[..], trace) && logged == Touched(trace)
    }

    /** bread, change the data, log_write, brelse. */
    method LogWrite(b: nat, x: Block)
      requires g.inodestart <= b < blocks.Length
      modifies blocks, this`logged, this`trace
      ensures blocks[..] == old(blocks[..])[b := x] && logged == old(logged) + {b}
      ensures old(Traced()) ==> Traced()
    {
      hide Changes, Touched;
      if Traced() { ChangesNext(g, base, blocks[..], trace, b, x); }
      ghost var was := blocks[..];
      blocks[b] := x;
      logged, trace := logged + {b}, trace + [CR.Write(b, x)];
      assert blocks[..] == was[b := x];
    }

    /** balloc's search: the first block whose bit is clear, or g.size. */
    method FindFree() returns (b: nat)
      requires Fits(g, blocks[..])
      ensures b <= g.size && (b < g.size ==> !Bit(g, blocks[..], b))
      ensures forall c :: 0 <= c < b ==> Bit(g, blocks[..], c)
    {
      var start := 0;
      while start < g.size
        invariant start % BPB == 0
        invariant forall c :: 0 <= c < start && c < g.size ==> Bit(g, blocks[..], c)
        decreases g.size - start
      {
        var bp := blocks[BBlock(g, start)];
        var bi := 0;
        while bi < BPB && start + bi < g.size
          invariant 0 <= bi <= BPB
          invariant forall c :: 0 <= c < start + bi && c < g.size ==> Bit(g, blocks[..], c)
        {
          assert (start + bi) / BPB == start / BPB && (start + bi) % BPB == bi;
          if !BitSet(bp[bi / 8], bi % 8) {
            return start + bi;
          }
          bi := bi + 1;
        }
        start := start + BPB;
      }
      b := g.size;
    }

    /** balloc: a zeroed data block that belonged to nobody, or the "out of blocks" panic. */
    method Balloc() returns (r: Option<uint>)
      requires Valid()
      modifies this`transit, this`logged, this`trace, blocks
      ensures Valid()
      ensures r.None? <==> forall c :: 0 <= c < g.size ==> Bit(g, old(blocks[..]), c)
      ensures r.None? ==> blocks[..] == old(blocks[..]) && transit == old(transit) && logged == old(logged)
      ensures r.None? ==> Room(g, owner, transit) == 0
      ensures r.Some? ==>
        var b := r.value;
        && IsData(g, b) && b != 0 && b !in owner && b !in old(transit) && !Bit(g, old(blocks[..]), b)
        && blocks[..] == SetBit(g, old(blocks[..]), b)[b := ZeroBlock]
        && transit == old(transit) + {b} && logged == old(logged) + {BBlock(g, b), b}
      ensures old(Traced()) ==> Traced()
    {
      hide FileSystem.Traced, Bit, MarkUsed, Placed;
      var b := FindFree();
      if b == g.size {
        NoRoom(g, blocks[..], owner, transit);
        return None;
      }
      BBlockInMap(g, blocks[..], b);
      AllocStep(g, blocks[..], table, owner, transit, b);
      LogWrite(BBlock(g, b), MarkUsed(blocks[BBlock(g, b)], b % BPB));
      LogWrite(b, ZeroBlock);
      transit := transit + {b};
      r := Some(b);
    }

    /** bfree of a block that has been taken out of its slot: it is never free already. */
    method Bfree(b: nat) returns (ok: bool)
      requires Valid() && b in transit
      modifies this`transit, this`logged, this`trace, blocks
      ensures Valid() && ok
      ensures b < g.size && blocks[..] == ClearBit(g, old(blocks[..]), b)
      ensures transit == old(transit) - {b} && logged == old(logged) + {BBlock(g, b)}
      ensures old(Traced()) ==> Traced()
    {
      hide FileSystem.Traced, MarkFree, Placed;
      FreeStep(g, blocks[..], table, owner, transit, b);
      BBlockInMap(g, blocks[..], b);
      var bp := blocks[BBlock(g, b)];
      if !BitSet(bp[b % BPB / 8], b % BPB % 8) {
        return false;
      }
      LogWrite(BBlock(g, b), MarkFree(bp, b % BPB));
      transit := transit - {b};
      ok := true;
    }

    /** Does the in-core inode agree with the table? */
    ghost predicate Loaded(ip: Inode)
      reads this`table, ip.addrs
    {
      ip.addrs.Length == 13 && ip.inum < g.ninodes && |table| == g.ninodes && table[ip.inum] == ip.addrs[..]
    }

    /** `ip->addrs[k] = addr = balloc(ip->dev)` for an empty slot. */
    method AllocDirect(ip: Inode, k: nat) returns (r: Option<uint>)
      requires Valid() && Loaded(ip) && k <= INDIRECT && ip.addrs[k] == 0
      modifies this`table, this`owner, this`transit, this`logged, this`trace, blocks, ip.addrs
      ensures r.None? ==> Room(g, old(owner), old(transit)) == 0
      ensures r.Some? ==>
        var b := r.value;
        && Valid() && Loaded(ip) && b != 0 && b !in old(owner) && IsData(g, b) && blocks[b] == ZeroBlock
        && ip.addrs[..] == old(ip.addrs[..])[k := b] && table == old(table)[ip.inum := ip.addrs[..]]
        && owner == old(owner)[b := Slot(ip.inum, k)] && transit == old(transit)
        && logged == old(logged) + {BBlock(g, b), b}
        && Kept(old(blocks[..]), old(owner), blocks[..], owner) && SameInodes(g, old(blocks[..]), blocks[..])
        && SameIndirect(old(blocks[..]), old(owner), blocks[..])
      ensures old(Traced()) ==> Traced()
    {
      hide FileSystem.Traced, Bit, MarkUsed, Placed, SetBit, MapOk;
      r := Balloc();
      if r.Some? {
        var b := r.value;
        AllocFrame(g, old(blocks[..]), table, owner, old(transit), b);
        PlaceDirect(g, blocks[..], table, owner, transit, ip.inum, k, b);
        ip.addrs[k] := b;
        table := table[ip.inum := ip.addrs[..]];
        owner := owner[b := Slot(ip.inum, k)];
        transit := transit - {b};
        assert ip.addrs[..] == old(ip.addrs[..])[k := b];
      }
    }

    /** `a[j] = addr = balloc(ip->dev); log_write(bp)` for an empty entry of the indirect block. */
    method AllocEntry(ip: Inode, j: nat) returns (r: Option<uint>)
      requires Valid() && Loaded(ip) && j < NINDIRECT && ip.addrs[INDIRECT] != 0
      requires SlotAddr(blocks[..], table[ip.inum], 13 + j) == 0
      modifies this`owner, this`transit, this`logged, this`trace, blocks
      ensures r.None? ==> Room(g, old(owner), old(transit)) == 0
      ensures r.Some? ==>
        var b := r.value;
        && Valid() && b != 0 && b !in old(owner) && IsData(g, b) && blocks[b] == ZeroBlock
        && owner == old(owner)[b := Slot(ip.inum, 13 + j)] && transit == old(transit)
        && SlotAddr(blocks[..], table[ip.inum], 13 + j) == b
        && logged == old(logged) + {BBlock(g, b), b, ip.addrs[INDIRECT]}
        && Kept(old(blocks[..]), old(owner), blocks[..], owner) && SameInodes(g, old(blocks[..]), blocks[..])
      ensures old(Traced()) ==> Traced()
    {
      hide FileSystem.Traced, Bit, MarkUsed, Placed, SlotAddr, SetWord, SetBit, MapOk, BBlock;
      var ind := ip.addrs[INDIRECT];
      IndirectOwned(g, blocks[..], table, owner, ip.inum);
      r := Balloc();
      if r.Some? {
        var b := r.value;
        ghost var mid := blocks[..];
        AllocFrame(g, old(blocks[..]), table, owner, old(transit), b);
        PlaceEntry(g, mid, table, owner, transit, ip.inum, j, b);
        EntrySlots(g, mid, table, owner, ip.inum, j, b, ip.inum, 13 + j);
        LogWrite(ind, SetWord(blocks[ind], j, b));
        owner := owner[b := Slot(ip.inum, 13 + j)];
        transit := transit - {b};
      }
    }

    /** bmap: the block of the file's bn-th piece, taken from the free map if there was none.
        None is a panic: the piece is out of range, or there are fewer free blocks than it needs. */
    method Bmap(ip: Inode, bn: nat) returns (r: Option<uint>)
      requires Valid() && Loaded(ip)
      modifies this`table, this`owner, this`transit, this`logged, this`trace, blocks, ip.addrs
      ensures bn >= MAXFILE ==> r.None?
      ensures bn < MAXFILE && BlockOf(old(blocks[..]), old(table)[ip.inum], bn) != 0 ==>
        r.Some? && blocks[..] == old(blocks[..]) && owner == old(owner)
      ensures bn < MAXFILE ==>
        (r.None? <==>
         Room(g, old(owner), old(transit)) <
           Need(bn, BlockOf(old(blocks[..]), old(table)[ip.inum], bn) == 0, old(table)[ip.inum][INDIRECT] == 0))
      ensures r.Some? ==>
        && bn < MAXFILE && Valid() && Loaded(ip) && transit == old(transit)
        && BmapOk(g, old(blocks[..]), old(table), old(owner), old(logged), blocks[..], table, owner, logged, ip.inum,
                  bn, r.value)
      ensures old(Traced()) ==> Traced()
    {
      hide FileSystem.Traced, BmapOk, Placed, MapOk;
      if bn < NDIRECT {
        r := BmapDirect(ip, bn);
      } else if bn < MAXFILE {
        r := BmapIndirect(ip, bn);
      } else {
        r := None;
      }
      if r.Some? {
        BmapHadRoom(g, old(blocks[..]), old(table), old(owner), old(logged), transit, blocks[..], table, owner, logged,
                    ip.inum, bn, r.value);
      }
    }

    method BmapDirect(ip: Inode, bn: nat) returns (r: Option<uint>)
      requires Valid() && Loaded(ip) && bn < NDIRECT
      modifies this`table, this`owner, this`transit, this`logged, this`trace, blocks, ip.addrs
      ensures BlockOf(old(blocks[..]), old(table)[ip.inum], bn) != 0 ==>
        r.Some? && blocks[..] == old(blocks[..]) && owner == old(owner)
      ensures r.None? ==>
        Room(g, old(owner), old(transit)) <
          Need(bn, BlockOf(old(blocks[..]), old(table)[ip.inum], bn) == 0, old(table)[ip.inum][INDIRECT] == 0)
      ensures r.Some? ==>
        && Valid() && Loaded(ip) && transit == old(transit)
        && BmapOk(g, old(blocks[..]), old(table), old(owner), old(logged), blocks[..], table, owner, logged, ip.inum,
                  bn, r.value)
      ensures old(Traced()) ==> Traced()
    {
      hide FileSystem.Traced, Bit, MarkUsed, Placed, Word;
      if ip.addrs[bn] != 0 {
        SlotIsData(g, blocks[..], table, owner, ip.inum, bn);
        return Some(ip.addrs[bn]);
      }
      r := AllocDirect(ip, bn);
    }

    method BmapIndirect(ip: Inode, bn: nat) returns (r: Option<uint>)
      requires Valid() && Loaded(ip) && NDIRECT <= bn < MAXFILE
      modifies this`table, this`owner, this`transit, this`logged, this`trace, blocks, ip.addrs
      ensures BlockOf(old(blocks[..]), old(table)[ip.inum], bn) != 0 ==>
        r.Some? && blocks[..] == old(blocks[..]) && owner == old(owner)
      ensures r.None? ==>
        Room(g, old(owner), old(transit)) <
          Need(bn, BlockOf(old(blocks[..]), old(table)[ip.inum], bn) == 0, old(table)[ip.inum][INDIRECT] == 0)
      ensures r.Some? ==>
        && Valid() && Loaded(ip) && transit == old(transit)
        && BmapOk(g, old(blocks[..]), old(table), old(owner), old(logged), blocks[..], table, owner, logged, ip.inum,
                  bn, r.value)
      ensures old(Traced()) ==> Traced()
    {
      hide FileSystem.Traced, Bit, MarkUsed, Placed, BmapOk, MapOk, Kept, SameInodes, SameIndirect, Word, BBlock;
      var j := bn - NDIRECT;
      ghost var bs, T, own, log0 := blocks[..], table, owner, logged;
      if ip.addrs[INDIRECT] == 0 {
        r := AllocDirect(ip, INDIRECT);
        if r.None? {
          return;
        }
        WordOfZeroBlock(j);
      } else {
        IndirectOwned(g, blocks[..], table, owner, ip.inum);
        KeptSame(g, bs, own);
      }
      ghost var bs1, T1, own1, log1 := blocks[..], table, owner, logged;
      MapFits(g, bs1, own1, transit);
      var addr := Word(blocks[ip.addrs[INDIRECT]], j);
      if addr != 0 {
        AlreadyMapped(g, bs, T, own, log0, ip.inum, bn, addr);
        return Some(addr);
      }
      r := AllocEntry(ip, j);
      if r.Some? {
        EntryMapped(g, bs, T, own, log0, bs1, T1, own1, log1, blocks[..], owner, logged, ip.inum, bn, r.value);
      }
    }

    /** iupdate: the fields of the in-core inode go to its place on disk. */
    method Iupdate(ip: Inode)
      requires Valid() && Loaded(ip)
      modifies this`logged, this`trace, blocks
      ensures Valid() && Loaded(ip) && logged == old(logged) + {IBlock(g, ip.inum)}
      ensures IBlock(g, ip.inum) < g.bmapstart
      ensures forall b :: 0 <= b < blocks.Length && b != IBlock(g, ip.inum) ==> blocks[b] == old(blocks[b])
      ensures forall j :: 0 <= j < g.ninodes ==>
        && DiskAttrs(g, blocks[..], j) ==
           (if j == ip.inum then InCore(ip) else DiskAttrs(g, old(blocks[..]), j))
        && DiskSize(g, blocks[..], j) == (if j == ip.inum then ip.size else DiskSize(g, old(blocks[..]), j))
        && DiskAddrs(g, blocks[..], j) == (if j == ip.inum then ip.addrs[..] else DiskAddrs(g, old(blocks[..]), j))
      ensures forall i, k :: 0 <= i < g.ninodes && 0 <= k < NSLOT ==>
        SlotAddr(blocks[..], table[i], k) == SlotAddr(old(blocks[..]), table[i], k)
      ensures old(Traced()) ==> Traced()
    {
      hide FileSystem.Traced, Bit, Placed, PutInode, DiskAttrs, DiskSize, DiskAddrs, SlotAddr;
      IBlockBelowMap(g, blocks[..], ip.inum);
      var b := IBlock(g, ip.inum);
      var at := Attrs(ip.itype, ip.major, ip.minor, ip.nlink);
      var addrs: Addrs := ip.addrs[..];
      ghost var bs := blocks[..];
      ghost var bs' := bs[b := PutInode(bs[b], ip.inum, at, ip.size, addrs)];
      forall j | 0 <= j < g.ninodes
        ensures DiskAttrs(g, bs', j) == (if j == ip.inum then Shorts(at) else DiskAttrs(g, bs, j))
        ensures DiskSize(g, bs', j) == (if j == ip.inum then ip.size else DiskSize(g, bs, j))
        ensures DiskAddrs(g, bs', j) == (if j == ip.inum then addrs else DiskAddrs(g, bs, j))
      {
        InodeWritten(g, bs, ip.inum, at, ip.size, addrs, j);
      }
      NotData(g, blocks[..], table, owner, transit, b);
      WriteStep(g, blocks[..], table, owner, transit, b, PutInode(blocks[b], ip.inum, at, ip.size, addrs));
      LogWrite(b, PutInode(blocks[b], ip.inum, at, ip.size, addrs));
      assert blocks[..] == bs';
    }

    /** How far a write to ip has come: see Spliced. */
    ghost predicate Writing(bs0: Store, T0: Table, owner0: map<nat, Slot>, size0: nat, inum: nat, off: nat,
                            src: seq<byte>, tot: nat)
      reads this, blocks
    {
      && Valid() && transit == {} && inum < |T0| == |table| == g.ninodes && table == T0[inum := table[inum]]
      && OthersKept(bs0, owner0, blocks[..], owner, inum) && SameInodes(g, bs0, blocks[..])
      && Spliced(bs0, T0[inum], size0, blocks[..], table[inum], off, src, tot)
    }

    /** The body of writei's loop: map the block, change m bytes of it, log it. */
    method WriteChunk(ip: Inode, src: seq<byte>, off: nat, tot: nat, m: nat, ghost bs0: Store, ghost T0: Table,
                      ghost owner0: map<nat, Slot>, ghost size0: nat, ghost logged0: set<nat>)
      returns (ok: bool)
      requires Writing(bs0, T0, owner0, size0, ip.inum, off, src, tot) && Loaded(ip)
      requires 0 < m && tot + m <= |src| && (off + tot) % BSIZE + m <= BSIZE && off + tot + m <= MAXFILE * BSIZE
      requires Recorded(g, bs0, T0[ip.inum], |owner0|, logged0, blocks[..], table[ip.inum], |owner|, logged,
                        off / BSIZE, (off + tot) / BSIZE)
      modifies this`table, this`owner, this`transit, this`logged, this`trace, blocks, ip.addrs
      ensures ok ==> Writing(bs0, T0, owner0, size0, ip.inum, off, src, tot + m) && Loaded(ip)
      ensures ok ==> Recorded(g, bs0, T0[ip.inum], |owner0|, logged0, blocks[..], table[ip.inum], |owner|, logged,
                              off / BSIZE, (off + tot) / BSIZE + 1)
      ensures ok && BlockOf(old(blocks[..]), old(table)[ip.inum], (off + tot) / BSIZE) != 0 ==> table == old(table)
      ensures !ok ==> Room(g, owner0, {}) < WriteNeed(bs0, T0[ip.inum], off / BSIZE, (off + tot) / BSIZE + 1)
      ensures old(Traced()) ==> Traced()
    {
      hide FileSystem.Traced, Bit, Placed, SlotAddr, BlockOf, ByteAt, Patched, Spliced, Recorded, WriteNeed, OthersKept,
           Added, Taken, Need, MapOk, Kept;
      ghost var bs, T, own := blocks[..], table, owner;
      var bn, o := (off + tot) / BSIZE, (off + tot) % BSIZE;
      var r := Bmap(ip, bn);
      if r.None? {
        RecordFull(g, bs0, T0[ip.inum], |owner0|, logged0, bs, T[ip.inum], |own|, old(logged), off / BSIZE, bn,
                   g.size - g.datastart);
        return false;
      }
      var a := r.value;
      ghost var bs1 := blocks[..];
      MapFits(g, bs1, owner, transit);
      RecordNext(g, bs0, T0[ip.inum], |owner0|, logged0, bs, T, own, old(logged), bs1, table, owner, logged, ip.inum,
                 off / BSIZE, bn, a);
      BmapSplices(g, bs, T, own, bs1, table, owner, ip.inum, bs0, T0[ip.inum], size0, off, src, tot);
      OthersKeptBmap(bs0, owner0, bs, own, bs1, owner, ip.inum);
      SlotOf(g, bs1, table, owner, ip.inum, bn, a);
      var x := Patched(blocks[a], o, src[tot..tot + m]);
      WriteStep(g, bs1, table, owner, transit, a, x);
      OthersKeptWrite(bs0, owner0, bs1, owner, ip.inum, a, x);
      LogWrite(a, x);
      ChunkSplices(g, bs1, table, owner, blocks[..], a, ip.inum, bs0, T0[ip.inum], size0, off, src, tot, m);
      RecordWrite(g, bs0, T0[ip.inum], |owner0|, logged0, bs1, table[ip.inum], |owner|, logged, blocks[..], off / BSIZE,
                  bn + 1);
      ok := true;
    }

    /** Between operations. */
    ghost predicate Consistent()
      reads this`table, this`owner, this`transit, blocks
    {
      transit == {} && FsOk(g, blocks[..], table, owner)
    }

    /** The content of a file, as the disk has it. */
    ghost function File(j: nat): (r: seq<byte>)
      requires Consistent() && j < g.ninodes
      reads this`table, this`owner, this`transit, blocks
      ensures |r| == DiskSize(g, blocks[..], j) <= MAXFILE * BSIZE
    {
      Content(blocks[..], table[j], DiskSize(g, blocks[..], j))
    }

    /** All files. */
    ghost function Files(): (r: seq<seq<byte>>)
      requires Consistent()
      reads this`table, this`owner, this`transit, blocks
      ensures |r| == g.ninodes && forall j :: 0 <= j < g.ninodes ==> r[j] == File(j)
    {
      FilesOf(g, blocks[..], table)
    }

    /** A consistent disk and an in-core inode that agrees with it. */
    ghost predicate Ready(ip: Inode)
      reads this`table, this`owner, this`transit, blocks, ip`size, ip.addrs
      ensures Ready(ip) ==> Consistent() && Loaded(ip) && ip.inum < |Files()| && ip.size == |Files()[ip.inum]|
    {
      Consistent() && Loaded(ip) && ip.size == DiskSize(g, blocks[..], ip.inum)
    }

    /** The attributes of all inodes, as the disk has them. */
    ghost function Attributes(): (r: seq<Attrs>)
      requires Consistent()
      reads this`table, this`owner, this`transit, blocks
      ensures |r| == g.ninodes
    {
      AttrsOf(g, blocks[..])
    }

    /** writei's loop. It stops early exactly when there are too few free blocks. */
    method WriteAll(ip: Inode, src: seq<byte>, off: nat, ghost bs0: Store, ghost T0: Table,
                    ghost owner0: map<nat, Slot>)
      returns (ok: bool)
      requires Writing(bs0, T0, owner0, ip.size, ip.inum, off, src, 0) && Loaded(ip) && table == T0 && owner == owner0
      requires blocks[..] == bs0 && off <= ip.size && off + |src| <= MAXFILE * BSIZE
      modifies this`table, this`owner, this`transit, this`logged, this`trace, blocks, ip.addrs
      ensures ok ==> Writing(bs0, T0, owner0, ip.size, ip.inum, off, src, |src|) && Loaded(ip)
      ensures ok ==> Recorded(g, bs0, T0[ip.inum], |owner0|, old(logged), blocks[..], table[ip.inum], |owner|, logged,
                              off / BSIZE, EndPiece(off, |src|))
      ensures ok && off + |src| <= ip.size ==> table == T0
      ensures ok <==> !Short(g, bs0, T0[ip.inum], owner0, off, |src|)
      ensures old(Traced()) ==> Traced()
    {
      hide FileSystem.Traced, FileSystem.Valid, Spliced, OthersKept, SameInodes, Recorded, WriteNeed, EndPiece;
      var tot := 0;
      ghost var lo: nat, hi: nat := off / BSIZE, off / BSIZE;
      EndPieces(off, 0);
      RecordStart(g, bs0, T0[ip.inum], |owner0|, logged, lo);
      while tot < |src|
        invariant 0 <= tot <= |src|
        invariant Writing(bs0, T0, owner0, ip.size, ip.inum, off, src, tot) && Loaded(ip)
        invariant off + tot <= ip.size ==> table == T0
        invariant old(Traced()) ==> Traced()
        invariant Recorded(g, bs0, T0[ip.inum], |owner0|, old(logged), blocks[..], table[ip.inum], |owner|, logged,
                           lo, hi)
        invariant hi == EndPiece(off, tot) <= MAXFILE && (0 < tot < |src| ==> (off + tot) % BSIZE == 0)
      {
        var m := if |src| - tot < BSIZE - (off + tot) % BSIZE then |src| - tot else BSIZE - (off + tot) % BSIZE;
        FreshOnlyBeyond(blocks[..], table[ip.inum], bs0, T0[ip.inum], ip.size, off, src, tot);
        EndPieces(off, tot);
        EndPieceNext(off, tot, m, |src|);
        ok := WriteChunk(ip, src, off, tot, m, bs0, T0, owner0, ip.size, old(logged));
        if !ok {
          NeedGrows(bs0, T0[ip.inum], lo, hi + 1, EndPiece(off, |src|));
          return;
        }
        tot, hi := tot + m, hi + 1;
      }
      HadRoom(bs0, T0, owner0, ip.size, ip.inum, off, src, old(logged), lo, hi);
      ok := true;
    }

    lemma HadRoom(bs0: Store, T0: Table, owner0: map<nat, Slot>, size0: nat, inum: nat, off: nat, src: seq<byte>,
                  logged0: set<nat>, lo: nat, hi: nat)
      requires Writing(bs0, T0, owner0, size0, inum, off, src, |src|)
      requires Recorded(g, bs0, T0[inum], |owner0|, logged0, blocks[..], table[inum], |owner|, logged, lo, hi)
      ensures Room(g, owner0, {}) >= WriteNeed(bs0, T0[inum], lo, hi)
    {
      hide Recorded, WriteNeed, MapOk;
      RecordRoom(g, bs0, T0[inum], owner0, logged0, blocks[..], table, owner, logged, inum, lo, hi);
    }

    /** writei on a locked inode: a refused request changes nothing; otherwise the file has the
        new bytes in place of what was there, on disk too, and no other file has changed. */
    method WriteI(ip: Inode, src: seq<byte>, off: uint) returns (r: IoResult)
      requires Ready(ip) && |src| < UINT_LIMIT
      modifies this`table, this`owner, this`transit, this`logged, this`trace, blocks, ip`size, ip.addrs
      ensures r.Device? <==> old(ip.itype) == T_DEV
      ensures r.Refused? <==>
        (old(ip.itype) != T_DEV && (off > old(ip.size) || off + |src| >= UINT_LIMIT || off + |src| > MAXFILE * BSIZE))
      ensures r.Device? || r.Refused? ==> unchanged(this, blocks, ip, ip.addrs)
      ensures r.Done? ==>
        && Ready(ip) && off <= old(ip.size) && r.n == |src| && File(ip.inum) == Splice(old(File(ip.inum)), off, src)
        && (forall j :: 0 <= j < g.ninodes && j != ip.inum ==> File(j) == old(File(j)))
        && Attributes() == AttrsAfter(old(Attributes()), ip.inum, ip.size > old(ip.size), InCore(ip))
        && |logged| <= |old(logged)| + WriteCost(off, |src|)
        && WriteLogged(g, old(Now()), Now(), ip.inum, off, |src|, old(logged), logged, ip.size > old(ip.size))
      ensures !r.Device? && !r.Refused? ==>
        (r.Panic? <==> Short(g, old(blocks[..]), old(table)[ip.inum], old(owner), off, |src|))
      ensures old(Traced()) ==> Traced()
    {
      hide FileSystem.Traced, Bit, Placed, Spliced, SlotAddr, ByteAt, BlockOf, Content, WriteCost, DiskSize, DiskAddrs,
           DiskAttrs, InCore, OthersKept, SameInodes, Recorded, Short, Pieces, WriteLogged, With;
      if ip.itype == T_DEV {
        return Device;
      }
      if off > ip.size || (off + |src|) % UINT_LIMIT < off {
        return Refused;
      }
      if off + |src| > MAXFILE * BSIZE {
        return Refused;
      }
      ghost var bs0, T0, owner0, size0 := blocks[..], table, owner, ip.size;
      NothingWritten(g, bs0, table[ip.inum], owner0, ip.inum, size0, off, src);
      assert T0 == T0[ip.inum := T0[ip.inum]];
      var ok := WriteAll(ip, src, off, bs0, T0, owner0);
      if !ok {
        return Panic;
      }
      ghost var bs1 := blocks[..];
      ThisFile(bs0, T0[ip.inum], size0, bs1, table[ip.inum], off, src);
      FilesKept(g, bs0, T0, owner0, bs1, table, owner, ip.inum);
      AttrsSame(g, bs0, bs1);
      ghost var logged1 := logged;
      if |src| > 0 && off + |src| > ip.size {
        ip.size := off + |src|;
        Iupdate(ip);
        FilesUnmoved(g, bs1, blocks[..], table, owner);
      }
      WithIs(logged1, IBlock(g, ip.inum));
      OthersExtend(bs0, owner0, bs1, owner, ip.inum);
      RecordEnds(g, Snap(bs0, T0, owner0), size0, old(logged), bs1, logged1, Now(), logged, ip.inum, off, |src|,
                 ip.size > size0);
      r := Done(|src|);
    }

    /** readi on a locked inode: the bytes from off on, at most n, and nothing changes on disk
        although it goes through bmap. */
    method ReadI(ip: Inode, off: uint, n: uint) returns (r: IoResult, dst: seq<byte>)
      requires Ready(ip)
      modifies this`table, this`owner, this`transit, this`logged, this`trace, blocks, ip.addrs
      ensures blocks[..] == old(blocks[..]) && table == old(table) && logged == old(logged)
      ensures ip.addrs[..] == old(ip.addrs[..])
      ensures Ready(ip)
      ensures r.Device? <==> ip.itype == T_DEV
      ensures r.Refused? <==> (ip.itype != T_DEV && (off > ip.size || off + n >= UINT_LIMIT))
      ensures !r.Panic?
      ensures r.Done? ==> off <= ip.size && dst == File(ip.inum)[off..off + Min(n, ip.size - off)] && r.n == |dst|
    {
      hide Bit, Placed, SlotAddr, ByteAt, BlockOf, DiskSize, DiskAddrs;
      dst := [];
      if ip.itype == T_DEV {
        return Device, [];
      }
      if off > ip.size || (off + n) % UINT_LIMIT < off {
        return Refused, [];
      }
      var len := if off + n > ip.size then ip.size - off else n;
      ghost var bs := blocks[..];
      var tot := 0;
      while tot < len
        invariant 0 <= tot <= len && |dst| == tot
        invariant blocks[..] == bs && table == old(table) && owner == old(owner) && logged == old(logged)
        invariant transit == {}
        invariant Loaded(ip) && ip.addrs[..] == old(ip.addrs[..])
        invariant forall i :: 0 <= i < tot ==> dst[i] == ByteAt(bs, table[ip.inum], off + i)
      {
        var o := (off + tot) % BSIZE;
        var m := if len - tot < BSIZE - o then len - tot else BSIZE - o;
        var part := ReadChunk(ip, off + tot, m);
        dst := dst + part;
        tot := tot + m;
      }
      r := Done(tot);
    }

    /** The body of readi's loop: a mapped block needs no allocation, so nothing changes. */
    method ReadChunk(ip: Inode, at: nat, m: nat) returns (part: seq<byte>)
      requires Valid() && Loaded(ip) && at < MAXFILE * BSIZE && BlockOf(blocks[..], table[ip.inum], at / BSIZE) != 0
      requires 0 < m && at % BSIZE + m <= BSIZE && at + m <= MAXFILE * BSIZE
      modifies this`table, this`owner, this`transit, this`logged, this`trace, blocks, ip.addrs
      ensures blocks[..] == old(blocks[..]) && table == old(table) && owner == old(owner) && logged == old(logged)
      ensures transit == old(transit) && Loaded(ip)
      ensures |part| == m && forall i :: 0 <= i < m ==> part[i] == ByteAt(blocks[..], table[ip.inum], at + i)
    {
      hide Bit, Placed, SlotAddr;
      var a := Bmap(ip, at / BSIZE);
      part := blocks[a.value][at % BSIZE..at % BSIZE + m];
      forall i | 0 <= i < m
        ensures part[i] == ByteAt(blocks[..], table[ip.inum], at + i)
      {
        assert (at + i) / BSIZE == at / BSIZE && (at + i) % BSIZE == at % BSIZE + i;
      }
    }

    /** One log operation of filewrite: begin_op, writei, end_op. */
    method WriteOp(f: OpenFile, part: seq<byte>) returns (w: IoResult)
      requires Ready(f.ip) && |part| <= CHUNK && f.ip.itype != T_DEV
      modifies this`table, this`owner, this`transit, this`logged, this`trace, this`base, blocks, f.ip`size, f.ip.addrs,
               f`off
      ensures !w.Device?
      ensures w.Refused? <==> old(f.off) > old(f.ip.size) || old(f.off) + |part| > MAXFILE * BSIZE
      ensures w.Refused? ==> Ready(f.ip) && f.off == old(f.off) && Now() == old(Now())
      ensures w.Done? ==>
        && Ready(f.ip) && w.n == |part| && f.off == old(f.off) + |part| && old(f.off) <= |old(Files())[f.ip.inum]|
        && Files() == old(Files())[f.ip.inum := Splice(old(Files())[f.ip.inum], old(f.off), part)]
        && Attributes() == AttrsAfter(old(Attributes()), f.ip.inum, f.ip.size > old(f.ip.size), InCore(f.ip))
        && OneOperation(g, old(blocks[..]), blocks[..], trace) && logged == Touched(trace)
        && WriteLogged(g, old(Now()), Now(), f.ip.inum, old(f.off), |part|, {}, logged, f.ip.size > old(f.ip.size))
        && (|part| == CHUNK && InLastDirect(old(table)[f.ip.inum], old(f.off)) ==>
              AtLimit(g, old(Now()), Now(), f.ip.inum, logged))
      ensures !w.Refused? ==>
        (w.Panic? <==> Short(g, old(blocks[..]), old(table)[f.ip.inum], old(owner), old(f.off), |part|))
    {
      hide FileSystem.Consistent, FileSystem.File, FileSystem.Traced, WriteCost, Splice, WriteLogged, Short,
           InLastDirect, AtLimit, FsOk, FilesOf, AttrsOf, DiskSize, Changes, Touched;
      NowIs(f.ip);
      ghost var was := Now();
      StartOp();
      w := WriteI(f.ip, part, f.off);
      if w.Done? {
        TracedIs();
        ChunkFitsLog(f.off, |part|);
        NowIs(f.ip);
        if |part| == CHUNK && InLastDirect(was.T[f.ip.inum], f.off) {
          ChunkReachesLimit(g, was, Now(), f.ip.inum, f.off, logged);
        }
        f.off := f.off + |part|;
      }
    }

    /** begin_op: nothing is logged yet. */
    ghost method StartOp()
      modifies this`logged, this`base, this`trace
      ensures logged == {} && base == blocks[..] && Traced()
    {
      logged, base, trace := {}, blocks[..], [];
      ChangesStart(g, base);
    }

    lemma TracedIs()
      requires Traced()
      ensures Changes(g, base, blocks[..], trace) && logged == Touched(trace)
    {
    }

    ghost function Now(): (s: Snap)
      reads this`table, this`owner, blocks
    {
      Snap(blocks[..], table, owner)
    }

    /** What filewrite has done so far: chunk by chunk, each on a consistent file system, within the
        reservation of an operation and with enough free blocks. */
    ghost predicate Going(f: OpenFile, addr: seq<byte>, hist: seq<Snap>, ops: seq<seq<CR.Write>>,
                          start: Start, off0: nat)
      reads this`table, this`owner, this`transit, blocks, f, f.ip, f.ip.addrs
    {
      && Ready(f.ip) && ChunkHistory(g, hist, ops, start, f.ip.inum, off0, addr) && start.mine == InCore(f.ip)
      && |hist| == |ops| + 1 && hist[|ops|] == Now() && f.off == off0 + Sent(|ops|, |addr|)
      && Fitted(g, hist, |ops|, f.ip.inum, off0, |addr|)
    }

    /** One round of filewrite's loop. */
    method NextChunk(f: OpenFile, addr: seq<byte>, i: nat, ghost hist: seq<Snap>, ghost ops: seq<seq<CR.Write>>,
                     ghost start: Start, ghost off0: nat)
      returns (w: IoResult, ghost hist': seq<Snap>, ghost ops': seq<seq<CR.Write>>)
      requires Going(f, addr, hist, ops, start, off0) && i == Sent(|ops|, |addr|) < |addr| && f.ip.itype != T_DEV
      modifies this`table, this`owner, this`transit, this`logged, this`trace, this`base, blocks, f.ip`size, f.ip.addrs,
               f`off
      ensures !w.Device?
      ensures w.Refused? <==>
        old(f.off) > old(f.ip.size) || old(f.off) + Min(CHUNK, |addr| - i) > MAXFILE * BSIZE
      ensures !w.Done? ==> hist' == hist && ops' == ops
      ensures w.Refused? ==> Going(f, addr, hist, ops, start, off0)
      ensures w.Panic? ==> Full(g, hist[|ops|], f.ip.inum, off0, |addr|, i)
      ensures w.Done? ==>
        && Going(f, addr, hist', ops', start, off0) && hist'[0] == hist[0]
        && Sent(|ops'|, |addr|) == i + Min(CHUNK, |addr| - i) && f.off == old(f.off) + Min(CHUNK, |addr| - i)
        && f.ip.size == Max(old(f.ip.size), f.off)
    {
      hide FileSystem.Consistent, FileSystem.File, FileSystem.Files, FileSystem.Ready, FileSystem.Now, ChunkHistory,
           FileSystem.Attributes, ChunkAt, Splice, Sent, FsOk, FilesOf, AttrsOf, AttrsAfter, AttrsStep, DiskSize,
           InCore, OneOperation, Touched, WriteLogged, Short, IBlock, Full, Fitted;
      hist', ops' := hist, ops;
      SentNext(|ops|, |addr|);
      var n1 := if |addr| - i > CHUNK then CHUNK else |addr| - i;
      NowIs(f.ip);
      ghost var was, size := Now(), f.ip.size;
      if f.off + n1 <= MAXFILE * BSIZE { FullHere(f.ip, off0, |addr|, i); }
      w := WriteOp(f, addr[i..i + n1]);
      if w.Done? {
        NowIs(f.ip);
        AttrsStepIs(g, was, Now(), f.ip.inum, start.mine, size, f.ip.size);
        HistoryStep(g, hist, ops, start, f.ip.inum, off0, addr, Now(), trace);
        FittedNext(g, hist, |ops|, f.ip.inum, off0, |addr|, Now());
        hist', ops' := hist + [Now()], ops + [trace];
      }
    }

    /** filewrite on an inode, chunk by chunk. `hist` are the moments between its log operations and
        `ops` their log_writes: each is one chunk on a consistent file system and within the
        reservation of an operation. It panics exactly at the first chunk that finds too few free blocks. */
    method FileWrite(f: OpenFile, addr: seq<byte>)
      returns (r: FileResult, ghost hist: seq<Snap>, ghost ops: seq<seq<CR.Write>>)
      requires Ready(f.ip) && |addr| < 0x8000_0000 && f.ip.itype != T_DEV
      modifies this`table, this`owner, this`transit, this`logged, this`trace, this`base, blocks, f.ip`size, f.ip.addrs,
               f`off
      ensures ChunkHistory(g, hist, ops, Start(old(Files()), old(Attributes()), InCore(f.ip)), f.ip.inum, old(f.off),
                           addr)
      ensures hist[0] == old(Now())
      ensures !r.Panicked? ==> Ready(f.ip) && hist[|ops|] == Now() && f.off == old(f.off) + Sent(|ops|, |addr|)
      ensures r.Panicked? ==> Full(g, hist[|ops|], f.ip.inum, old(f.off), |addr|, Sent(|ops|, |addr|))
      ensures |hist| == |ops| + 1 && Fitted(g, hist, |ops|, f.ip.inum, old(f.off), |addr|)
      ensures r.Wrote? ==> r.n == Sent(|ops|, |addr|) == |addr|
      ensures r.Failed? ==> Sent(|ops|, |addr|) < |addr| || !f.writable
      ensures !r.Panicked? ==> (r.Failed? <==>
        !f.writable || (|addr| > 0 && (old(f.off) > old(f.ip.size) || old(f.off) + |addr| > MAXFILE * BSIZE)))
    {
      hide FileSystem.Consistent, FileSystem.File, FileSystem.Files, FileSystem.Ready, FileSystem.Now, ChunkHistory,
           FileSystem.Attributes, InCore, Sent, Full, Fitted;
      ghost var start, off0 := Start(Files(), Attributes(), InCore(f.ip)), f.off;
      hist, ops := [Now()], [];
      NowIs(f.ip);
      HistoryStart(g, Now(), f.ip.inum, off0, addr, InCore(f.ip));
      FittedStart(g, hist, f.ip.inum, off0, |addr|);
      SentNext(0, |addr|);
      if !f.writable {
        return Failed, hist, ops;
      }
      var i := 0;
      while i < |addr|
        invariant 0 <= i == Sent(|ops|, |addr|) <= |addr| && Going(f, addr, hist, ops, start, off0)
        invariant hist[0] == old(Now())
        invariant i > 0 ==> off0 <= old(f.ip.size) && off0 + i <= MAXFILE * BSIZE && f.off <= f.ip.size
        invariant i == 0 ==> f.ip.size == old(f.ip.size)
      {
        var n1 := if |addr| - i > CHUNK then CHUNK else |addr| - i;
        var w;
        w, hist, ops := NextChunk(f, addr, i, hist, ops, start, off0);
        if w.Panic? {
          return Panicked, hist, ops;
        }
        if w.Refused? {
          return Failed, hist, ops;
        }
        i := i + n1;
      }
      r := Wrote(|addr|);
    }

    lemma FullHere(ip: Inode, off: nat, n: nat, i: nat)
      requires Ready(ip) && i < n && off + i + Min(CHUNK, n - i) <= MAXFILE * BSIZE
      ensures Full(g, Now(), ip.inum, off, n, i) <==>
        Short(g, blocks[..], table[ip.inum], owner, off + i, Min(CHUNK, n - i))
    {
    }

    lemma NowIs(ip: Inode)
      requires Ready(ip)
      ensures Now().bs == blocks[..] && Now().owner == owner && FsOk(g, Now().bs, Now().T, Now().owner)
      ensures ip.inum < g.ninodes == |Files()| && Files() == FilesOf(g, Now().bs, Now().T)
      ensures ip.size == DiskSize(g, Now().bs, ip.inum) == |Files()[ip.inum]| && Attributes() == AttrsOf(g, Now().bs)
    {
      hide FsOk;
      FilesCount(g, blocks[..], table, owner);
    }

    /** What itrunc has done to the disk so far: only the free map and one inode's slots changed,
        and the blocks still owned are those they were. */
    ghost predicate Truncating(bs0: Store, T0: Table, owner0: map<nat, Slot>, logged0: set<nat>, inum: nat)
      reads this, blocks
    {
      && Valid() && |T0| == |table| && inum < |T0| && table == T0[inum := table[inum]]
      && SameInodes(g, bs0, blocks[..]) && SameData(g, bs0, blocks[..])
      && Shrunk(owner0, owner, inum) && MapLogged(g, logged0, logged)
    }

    /** `if(ip->addrs[k]) { bfree(ip->addrs[k]); ip->addrs[k] = 0; }` */
    method FreeDirect(ip: Inode, k: nat, ghost bs0: Store, ghost T0: Table, ghost owner0: map<nat, Slot>,
                      ghost logged0: set<nat>)
      returns (ok: bool)
      requires Truncating(bs0, T0, owner0, logged0, ip.inum) && Loaded(ip) && transit == {} && k < INDIRECT
      modifies this`table, this`owner, this`transit, this`logged, this`trace, blocks, ip.addrs
      ensures ok && Truncating(bs0, T0, owner0, logged0, ip.inum) && Loaded(ip) && transit == {}
      ensures ip.addrs[..] == old(ip.addrs[..])[k := 0]
      ensures old(Traced()) ==> Traced()
    {
      hide FileSystem.Traced, Placed, Bit, MarkFree;
      ok := true;
      var b := ip.addrs[k];
      if b != 0 {
        DetachDirect(g, blocks[..], table, owner, transit, ip.inum, k);
        table := table[ip.inum := table[ip.inum][k := 0]];
        owner := owner - Only(b);
        transit := Only(b);
        ghost var bs := blocks[..];
        ok := Bfree(b);
        ClearedMap(g, bs, b);
        ip.addrs[k] := 0;
      }
      assert ip.addrs[..] == old(ip.addrs[..])[k := 0];
    }

    /** `if(a[j]) bfree(a[j]);` for the entries of an indirect block that was taken out of its
        inode: each nonzero entry is a block of its own that is still marked used. */
    method FreeEntries(ind: nat, ghost bs0: Store, ghost T0: Table, ghost owner0: map<nat, Slot>, ghost inum: nat)
      returns (ok: bool)
      requires Valid() && SameInodes(g, bs0, blocks[..]) && SameData(g, bs0, blocks[..])
      requires Placed(g, bs0, T0, owner0) && inum < g.ninodes == |T0| && ind == T0[inum][INDIRECT] != 0
      requires transit == Rest(owner0, inum, 0)
      modifies this`transit, this`logged, this`trace, blocks
      ensures ok && Valid() && transit == {ind}
      ensures SameInodes(g, bs0, blocks[..]) && SameData(g, bs0, blocks[..]) && MapLogged(g, old(logged), logged)
      ensures old(Traced()) ==> Traced()
    {
      hide FileSystem.Traced, Placed, Bit, MarkFree, Word, Rest;
      IndirectOwned(g, bs0, T0, owner0, inum);
      ok := true;
      var a := blocks[ind];
      var j := 0;
      while j < NINDIRECT
        invariant 0 <= j <= NINDIRECT && ok && Valid() && transit == Rest(owner0, inum, j)
        invariant (old(Traced()) ==> Traced())
        invariant SameInodes(g, bs0, blocks[..]) && SameData(g, bs0, blocks[..]) && MapLogged(g, old(logged), logged)
      {
        RestNext(g, bs0, T0, owner0, inum, j);
        if Word(a, j) != 0 {
          ghost var bs := blocks[..];
          ok := Bfree(Word(a, j));
          ClearedMap(g, bs, Word(a, j));
        }
        j := j + 1;
      }
      RestLast(g, bs0, T0, owner0, inum);
    }

    /** The indirect half of itrunc. */
    method FreeIndirect(ip: Inode, ghost bs0: Store, ghost T0: Table, ghost owner0: map<nat, Slot>,
                        ghost logged0: set<nat>)
      returns (ok: bool)
      requires Truncating(bs0, T0, owner0, logged0, ip.inum) && Loaded(ip) && transit == {}
      modifies this`table, this`owner, this`transit, this`logged, this`trace, blocks, ip.addrs
      ensures ok && Truncating(bs0, T0, owner0, logged0, ip.inum) && Loaded(ip) && transit == {}
      ensures ip.addrs[..] == old(ip.addrs[..])[INDIRECT := 0]
      ensures old(Traced()) ==> Traced()
    {
      hide FileSystem.Traced, Placed, Bit, MarkFree, IndirectBlocks, Rest;
      ok := true;
      var ind := ip.addrs[INDIRECT];
      if ind != 0 {
        ghost var bs1, T1, owner1 := blocks[..], table, owner;
        RestFirst(owner1, ip.inum);
        DetachIndirect(g, blocks[..], table, owner, transit, ip.inum);
        ShrinkIndirect(owner0, owner1, ip.inum);
        table := table[ip.inum := table[ip.inum][INDIRECT := 0]];
        owner := owner - IndirectBlocks(owner1, ip.inum);
        transit := IndirectBlocks(owner1, ip.inum);
        ok := FreeEntries(ind, bs1, T1, owner1, ip.inum);
        ghost var bs := blocks[..];
        ok := Bfree(ind);
        ClearedMap(g, bs, ind);
        ip.addrs[INDIRECT] := 0;
      }
      assert ip.addrs[..] == old(ip.addrs[..])[INDIRECT := 0];
    }

    /** The two loops of itrunc. */
    method FreeAll(ip: Inode) returns (ok: bool)
      requires Valid() && Loaded(ip) && transit == {}
      modifies this`table, this`owner, this`transit, this`logged, this`trace, blocks, ip.addrs
      ensures ok && Truncating(old(blocks[..]), old(table), old(owner), old(logged), ip.inum) && Loaded(ip)
      ensures transit == {}
      ensures Empty(table[ip.inum])
      ensures old(Traced()) ==> Traced()
    {
      hide FileSystem.Traced, FileSystem.Valid, SameInodes, SameData, Shrunk, MapLogged;
      ghost var bs0, T0, owner0, logged0 := blocks[..], table, owner, logged;
      NothingFreed(g, bs0, owner0, logged0, ip.inum);
      assert T0 == T0[ip.inum := T0[ip.inum]];
      ok := true;
      var i := 0;
      while i < NDIRECT
        invariant 0 <= i <= NDIRECT && ok && (old(Traced()) ==> Traced())
        invariant Truncating(bs0, T0, owner0, logged0, ip.inum) && Loaded(ip) && transit == {}
        invariant forall k :: 0 <= k < i ==> ip.addrs[k] == 0
      {
        ghost var was := ip.addrs[..];
        ok := FreeDirect(ip, i, bs0, T0, owner0, logged0);
        assert forall k :: 0 <= k <= i ==> ip.addrs[..][k] == was[i := 0][k] == 0;
        i := i + 1;
      }
      ghost var was := ip.addrs[..];
      ok := FreeIndirect(ip, bs0, T0, owner0, logged0);
      assert forall k :: 0 <= k < 13 ==> ip.addrs[..][k] == was[INDIRECT := 0][k] == 0;
    }

    /** itrunc: the file is empty on disk and in core, every block it had is free again, no other
        file has changed, and bfree never finds a block that is free already. */
    method Itrunc(ip: Inode) returns (ok: bool)
      requires Ready(ip)
      modifies this`table, this`owner, this`transit, this`logged, this`trace, blocks, ip`size, ip.addrs
      ensures ok && Ready(ip) && Files() == old(Files())[ip.inum := []]
      ensures Attributes() == old(Attributes())[ip.inum := InCore(ip)]
      ensures forall b :: b in old(owner) ==> b < g.size && (Bit(g, blocks[..], b) <==> old(owner)[b].inum != ip.inum)
      ensures forall b :: b in owner ==> owner[b].inum != ip.inum
      ensures forall b :: b in logged ==> b in old(logged) || b == IBlock(g, ip.inum) || g.bmapstart <= b < g.datastart
      ensures old(Traced()) ==> Traced()
    {
      hide FileSystem.Traced, Bit, Placed, SlotAddr, BlockOf, Content, DiskSize, DiskAddrs, DiskAttrs, InCore,
           SameInodes;
      ghost var bs0, T0, owner0 := blocks[..], table, owner;
      ok := FreeAll(ip);
      ghost var bs1 := blocks[..];
      FilesAfterFree(g, bs0, T0, owner0, bs1, table, ip.inum);
      AttrsSame(g, bs0, bs1);
      OwnsNothing(g, bs1, table, owner, ip.inum);
      ip.size := 0;
      Iupdate(ip);
      NowFree(g, owner0, blocks[..], owner, ip.inum);
      FilesUnmoved(g, bs1, blocks[..], table, owner);
    }
  }
}
