/** A file system in which a chunk of filewrite uses up the whole reservation of its operation. It
    has four free blocks, each under a bitmap block of its own; every other block of its data area is
    a direct block of some file. */
module FsTight {
  import opened Common
  import opened Blocks
  import opened FsLayout
  import opened FsOwnership
  import opened FsContent

  const TIGHT := Geometry(12289, 1200, 40, 200, 210)

  /** The blocks that stay free. */
  predicate Spared(b: nat) { b == 210 || b == 4096 || b == 8192 || b == 12288 }

  /** All files are empty and have no indirect block. */
  ghost predicate Hollow(g: Geometry, s: Snap)
  {
    && FsOk(g, s.bs, s.T, s.owner)
    && forall j :: 0 <= j < g.ninodes ==> DiskSize(g, s.bs, j) == 0 && s.T[j][INDIRECT] == 0
  }

  /** Giving a free block to an empty direct slot of a file, on disk too. */
  lemma Give(g: Geometry, s: Snap, b: uint, i: nat, k: nat) returns (s': Snap)
    requires Hollow(g, s) && IsData(g, b) && b !in s.owner && i < g.ninodes && k < NDIRECT && s.T[i][k] == 0
    ensures Hollow(g, s') && |s'.bs| == |s.bs|
    ensures s'.T == s.T[i := s.T[i][k := b]] && s'.owner == s.owner[b := Slot(i, k)]
  {
    hide Bit, Placed, SetBit, PutInode, DiskSize, DiskAddrs, SlotAddr, SameInodes, MapOk;
    var bs1 := Allocated(g, s, b);
    PlaceDirect(g, bs1, s.T, s.owner, {b}, i, k, b);
    var T', owner' := s.T[i := s.T[i][k := b]], s.owner[b := Slot(i, k)];
    assert {b} - {b} == {};
    var bs2 := WithInode(g, bs1, T', owner', i, 0);
    s' := Snap(bs2, T', owner');
  }

  /** balloc of a block that is free. */
  lemma Allocated(g: Geometry, s: Snap, b: uint) returns (bs': Store)
    requires Hollow(g, s) && IsData(g, b) && b !in s.owner
    ensures OwnOk(g, bs', s.T, s.owner, {b}) && |bs'| == |s.bs| && Fits(g, bs')
    ensures forall j :: 0 <= j < g.ninodes ==> DiskSize(g, bs', j) == 0 && DiskAddrs(g, bs', j) == s.T[j]
  {
    hide Bit, Placed, SetBit, DiskSize, DiskAddrs, SlotAddr, SameInodes;
    assert !Bit(g, s.bs, b);
    AllocStep(g, s.bs, s.T, s.owner, {}, b);
    AllocFrame(g, s.bs, s.T, s.owner, {}, b);
    bs' := SetBit(g, s.bs, b)[b := ZeroBlock];
    assert {} + {b} == {b};
    forall j | 0 <= j < g.ninodes
      ensures DiskSize(g, bs', j) == 0 && DiskAddrs(g, bs', j) == s.T[j]
    {
      SameDiskInode(g, s.bs, bs', j);
    }
  }

  /** iupdate of inode i with a size that its table can hold. */
  lemma WithInode(g: Geometry, bs: Store, T: Table, owner: map<nat, Slot>, i: nat, size: uint) returns (bs': Store)
    requires OwnOk(g, bs, T, owner, {}) && i < g.ninodes && size <= NDIRECT * BSIZE && |T| == g.ninodes
    requires size == 0 || forall k :: 0 <= k < NDIRECT ==> T[i][k] != 0
    requires forall j :: 0 <= j < g.ninodes ==> DiskSize(g, bs, j) == 0 && (j != i ==> DiskAddrs(g, bs, j) == T[j])
    ensures FsOk(g, bs', T, owner) && |bs'| == |bs|
    ensures forall j :: 0 <= j < g.ninodes ==> DiskSize(g, bs', j) == if j == i then size else 0
  {
    hide Bit, Placed, PutInode, DiskSize, DiskAddrs, SlotAddr;
    IBlockBelowMap(g, bs, i);
    var b, at := IBlock(g, i), Attrs(0, 0, 0, 0);
    var x := PutInode(bs[b], i, at, size, T[i]);
    bs' := bs[b := x];
    NotData(g, bs, T, owner, {}, b);
    WriteStep(g, bs, T, owner, {}, b, x);
    forall j | 0 <= j < g.ninodes
      ensures DiskSize(g, bs', j) == (if j == i then size else 0) && DiskAddrs(g, bs', j) == T[j]
      ensures Mapped(bs', T[j], if j == i then size else 0)
    {
      InodeWritten(g, bs, i, at, size, T[i], j);
      if j == i { DirectMapped(bs', T[i], size); }
    }
  }

  lemma DirectMapped(bs: Store, addrs: Addrs, size: nat)
    requires size <= NDIRECT * BSIZE && (size == 0 || forall k :: 0 <= k < NDIRECT ==> addrs[k] != 0)
    ensures Mapped(bs, addrs, size)
  {
  }

  /** How many of the blocks from 210 up to b are not spared. */
  function GivenBelow(b: nat): (r: int)
  {
    b - 210 - (if b > 210 then 1 else 0) - (if b > 4096 then 1 else 0) - (if b > 8192 then 1 else 0)
    - (if b > 12288 then 1 else 0)
  }

  /** The blocks below b have been given away, twelve to a file. */
  ghost predicate Given(s: Snap, b: nat)
  {
    && Hollow(TIGHT, s) && |s.bs| == 12289 && (forall c :: c in s.owner <==> 210 <= c < b && !Spared(c))
    && forall i, k :: 0 <= i < 1200 && 0 <= k < NDIRECT ==> (s.T[i][k] != 0 <==> i * 12 + k < GivenBelow(b))
  }

  lemma Nothing() returns (s: Snap)
    ensures Given(s, 210)
  {
    var bs, T := EmptyFileSystem(TIGHT, 12289);
    s := Snap(bs, T, map[]);
    FilesCount(TIGHT, bs, T, map[]);
    forall i, k | 0 <= i < 1200 && 0 <= k <= INDIRECT
      ensures T[i][k] == 0
    {
      assert SlotAddr(bs, T[i], k) == T[i][k];
    }
    forall j | 0 <= j < 1200
      ensures DiskSize(TIGHT, bs, j) == 0
    {
      assert |FilesOf(TIGHT, bs, T)[j]| == DiskSize(TIGHT, bs, j);
    }
  }

  lemma {:induction false} GiveAll(b: nat) returns (s: Snap)
    requires 210 <= b <= 12289
    ensures Given(s, b)
    decreases b
  {
    if b == 210 {
      s := Nothing();
    } else {
      s := GiveAll(b - 1);
      if !Spared(b - 1) { s := GiveNext(s, b - 1); }
    }
  }

  lemma GiveNext(s: Snap, b: nat) returns (s': Snap)
    requires 210 <= b < 12289 && !Spared(b) && Given(s, b)
    ensures Given(s', b + 1)
  {
    hide Hollow, GivenBelow;
    var n := GivenBelow(b);
    OneMore(b);
    var i, k := n / 12, n % 12;
    HollowTable(TIGHT, s);
    s' := Give(TIGHT, s, b, i, k);
    HollowTable(TIGHT, s');
    forall i', k' | 0 <= i' < 1200 && 0 <= k' < NDIRECT
      ensures s'.T[i'][k'] != 0 <==> i' * 12 + k' < n + 1
    {
      if i' == i && k' == k { assert i' * 12 + k' == n; } else { OtherPlace(n, i', k'); }
    }
  }

  lemma OneMore(b: nat)
    requires 210 <= b < 12289 && !Spared(b)
    ensures 0 <= GivenBelow(b) < 14400 && GivenBelow(b + 1) == GivenBelow(b) + 1
  {
  }

  lemma OtherPlace(n: nat, i: nat, k: nat)
    requires k < 12 && (i != n / 12 || k != n % 12)
    ensures i * 12 + k != n
  {
  }

  lemma HollowTable(g: Geometry, s: Snap)
    requires Hollow(g, s)
    ensures |s.T| == g.ninodes && OwnOk(g, s.bs, s.T, s.owner, {})
  {
  }

  /** The file system, and a place in file 0 where the next chunk finds four free blocks and needs them
      all: written there, it logs as many blocks as an operation may log. */
  lemma TightFileSystem() returns (s: Snap)
    ensures FsOk(TIGHT, s.bs, s.T, s.owner) && |s.T| == 1200 && DiskSize(TIGHT, s.bs, 0) == NDIRECT * BSIZE
    ensures InLastDirect(s.T[0], 11 * BSIZE + 1) && Scattered(TIGHT, s.owner)
    ensures !Short(TIGHT, s.bs, s.T[0], s.owner, 11 * BSIZE + 1, CHUNK)
  {
    hide DiskSize, DiskAddrs, Bit, Placed;
    var t := GiveAll(12289);
    HollowTable(TIGHT, t);
    var bs := WithInode(TIGHT, t.bs, t.T, t.owner, 0, NDIRECT * BSIZE);
    s := Snap(bs, t.T, t.owner);
    FourLeft(s);
  }

  lemma FourLeft(s: Snap)
    requires MapOk(TIGHT, s.bs, s.owner, {}) && |s.T| == 1200 && s.T[0][INDIRECT] == 0 && s.T[0][11] != 0
    requires forall c :: c in s.owner <==> 210 <= c < 12289 && !Spared(c)
    ensures Scattered(TIGHT, s.owner) && !Short(TIGHT, s.bs, s.T[0], s.owner, 11 * BSIZE + 1, CHUNK)
  {
    hide Bit;
    RoomIsClearBits(TIGHT, s.bs, s.owner, {});
    assert FreeSet(TIGHT, s.bs) == {210, 4096, 8192, 12288};
    assert BlockOf(s.bs, s.T[0], 11) != 0;
    assert EndPiece(11 * BSIZE + 1, CHUNK) == 15;
    NeedFour(s.bs, s.T[0]);
  }

  lemma NeedFour(bs: Store, addrs: Addrs)
    requires addrs[INDIRECT] == 0 && addrs[11] != 0
    ensures WriteNeed(bs, addrs, 11, 15) == 4
  {
    assert FreshPieces(bs, addrs, 11, 12) == 0;
    assert FreshPieces(bs, addrs, 11, 13) == 1;
    assert FreshPieces(bs, addrs, 11, 14) == 2;
  }
}
