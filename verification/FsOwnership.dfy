/** Who owns each data block: a block of the data area is marked used exactly when one slot of
    one inode holds its number, or it has just been taken and is about to be given a slot. */
module FsOwnership {
  import opened Common
  import opened Blocks
  import opened FsLayout

  /** Slots of an inode: 0..11 direct, 12 the indirect block, 13.. the entries in that block. */
  const INDIRECT := 12
  const NSLOT := 141

  type Addrs = s: seq<uint> | |s| == 13 witness seq(13, i => 0)

  /** The address tables of all inodes, `ip->addrs` for the one being changed. */
  type Table = seq<Addrs>

  datatype Slot = Slot(inum: nat, k: nat)

  function SlotAddr(bs: Store, addrs: Addrs, k: nat): (r: uint)
    requires k < NSLOT
  {
    if k <= INDIRECT then addrs[k]
    else if addrs[INDIRECT] == 0 || addrs[INDIRECT] >= |bs| then 0
    else Word(bs[addrs[INDIRECT]], k - 13)
  }

  predicate IsSlot(g: Geometry, s: Slot) { s.inum < g.ninodes && s.k < NSLOT }

  predicate IsData(g: Geometry, b: nat) { g.datastart <= b < g.size }

  /** `owner` is the inverse of the slots: nonzero slots hold different data blocks. */
  ghost predicate Placed(g: Geometry, bs: Store, T: Table, owner: map<nat, Slot>)
  {
    && |T| == g.ninodes
    && (forall i, k :: 0 <= i < g.ninodes && 0 <= k < NSLOT && SlotAddr(bs, T[i], k) != 0 ==>
          SlotAddr(bs, T[i], k) in owner && owner[SlotAddr(bs, T[i], k)] == Slot(i, k))
    && (forall b :: b in owner ==>
          IsData(g, b) && IsSlot(g, owner[b]) && SlotAddr(bs, T[owner[b].inum], owner[b].k) == b)
  }

  /** The free map: metadata, owned blocks and blocks in transit are used, all others free. */
  ghost predicate MapOk(g: Geometry, bs: Store, owner: map<nat, Slot>, transit: set<nat>)
  {
    && Fits(g, bs)
    && (forall b :: b in transit ==> IsData(g, b) && b !in owner)
    && (forall b :: b in owner ==> IsData(g, b))
    && forall b :: 0 <= b < g.size ==> (Bit(g, bs, b) <==> b < g.datastart || b in owner || b in transit)
  }

  ghost predicate OwnOk(g: Geometry, bs: Store, T: Table, owner: map<nat, Slot>, transit: set<nat>)
  {
    Placed(g, bs, T, owner) && MapOk(g, bs, owner, transit)
  }

  lemma MapFits(g: Geometry, bs: Store, owner: map<nat, Slot>, transit: set<nat>)
    requires MapOk(g, bs, owner, transit)
    ensures Fits(g, bs)
  {
  }

  // ---- frames ----

  lemma SameSlots(g: Geometry, bs: Store, bs': Store, T: Table, owner: map<nat, Slot>)
    requires Placed(g, bs, T, owner) && |bs'| == |bs|
    requires forall b :: b in owner && owner[b].k == INDIRECT && b < |bs| ==> bs'[b] == bs[b]
    ensures Placed(g, bs', T, owner)
    ensures forall i, k :: 0 <= i < g.ninodes && 0 <= k < NSLOT ==> SlotAddr(bs', T[i], k) == SlotAddr(bs, T[i], k)
  {
    forall i, k | 0 <= i < g.ninodes && 0 <= k < NSLOT
      ensures SlotAddr(bs', T[i], k) == SlotAddr(bs, T[i], k)
    {
      var ind := SlotAddr(bs, T[i], INDIRECT);
      if ind != 0 && ind < |bs| {
        assert ind in owner && owner[ind] == Slot(i, INDIRECT);
      }
    }
  }

  lemma SameMap(g: Geometry, bs: Store, bs': Store, owner: map<nat, Slot>, transit: set<nat>)
    requires MapOk(g, bs, owner, transit) && |bs'| == |bs|
    requires forall b :: g.bmapstart <= b < g.datastart ==> bs'[b] == bs[b]
    ensures MapOk(g, bs', owner, transit)
  {
    forall b | 0 <= b < g.size
      ensures Bit(g, bs', b) == Bit(g, bs, b)
    {
      BBlockInMap(g, bs, b);
    }
  }

  lemma BBlockInMap(g: Geometry, bs: Store, b: nat)
    requires Fits(g, bs) && b < g.size
    ensures g.bmapstart <= BBlock(g, b) < g.datastart
  {
  }

  lemma BitFrame(g: Geometry, bs: Store, b: nat, x: Block, c: nat)
    requires Fits(g, bs) && c < g.size && b < |bs| && !(g.bmapstart <= b < g.datastart)
    ensures Bit(g, bs[b := x], c) == Bit(g, bs, c)
  {
  }

  /** Exactly one empty slot receives a block that had no owner. */
  lemma PlacedAdd(g: Geometry, bs: Store, T: Table, owner: map<nat, Slot>, bs': Store, T': Table, s: Slot, b: uint)
    requires Placed(g, bs, T, owner) && |T'| == g.ninodes && IsSlot(g, s)
    requires IsData(g, b) && g.datastart > 0 && b !in owner && SlotAddr(bs, T[s.inum], s.k) == 0
    requires forall i, k :: 0 <= i < g.ninodes && 0 <= k < NSLOT ==>
      SlotAddr(bs', T'[i], k) == if Slot(i, k) == s then b else SlotAddr(bs, T[i], k)
    ensures Placed(g, bs', T', owner[b := s])
  {
  }

  /** The slots `gone` are emptied and their blocks lose their owner. */
  lemma PlacedRemove(g: Geometry, bs: Store, T: Table, owner: map<nat, Slot>, T': Table, gone: set<Slot>,
                     blocks: set<nat>)
    requires Placed(g, bs, T, owner) && |T'| == g.ninodes
    requires forall b :: b in blocks <==> b in owner && owner[b] in gone
    requires forall i, k :: 0 <= i < g.ninodes && 0 <= k < NSLOT ==>
      SlotAddr(bs, T'[i], k) == if Slot(i, k) in gone then 0 else SlotAddr(bs, T[i], k)
    ensures Placed(g, bs, T', owner - blocks)
  {
  }

  // ---- steps ----

  /** balloc: a free block is a data block that nobody has; marked and zeroed it is in transit. */
  lemma AllocStep(g: Geometry, bs: Store, T: Table, owner: map<nat, Slot>, transit: set<nat>, b: nat)
    requires OwnOk(g, bs, T, owner, transit) && b < g.size && !Bit(g, bs, b)
    ensures IsData(g, b) && b != 0 && b !in owner && b !in transit
    ensures OwnOk(g, SetBit(g, bs, b)[b := ZeroBlock], T, owner, transit + {b})
  {
    hide Bit, MarkUsed, SlotAddr;
    var bs1 := SetBit(g, bs, b);
    var bs' := bs1[b := ZeroBlock];
    BBlockInMap(g, bs, b);
    SameSlots(g, bs, bs', T, owner);
    forall c | 0 <= c < g.size
      ensures Bit(g, bs', c) <==> c == b || Bit(g, bs, c)
    {
      BitAfter(g, bs, b, c);
      BitFrame(g, bs1, b, ZeroBlock, c);
    }
  }

  /** bfree of a block in transit: its bit is set, so the panic is not reached. */
  lemma FreeStep(g: Geometry, bs: Store, T: Table, owner: map<nat, Slot>, transit: set<nat>, b: nat)
    requires OwnOk(g, bs, T, owner, transit) && b in transit
    ensures IsData(g, b) && Bit(g, bs, b)
    ensures OwnOk(g, ClearBit(g, bs, b), T, owner, transit - {b})
  {
    hide Bit, MarkFree, SlotAddr;
    var bs' := ClearBit(g, bs, b);
    BBlockInMap(g, bs, b);
    SameSlots(g, bs, bs', T, owner);
    forall c | 0 <= c < g.size
      ensures Bit(g, bs', c) <==> c != b && Bit(g, bs, c)
    {
      BitAfter(g, bs, b, c);
    }
  }

  /** The free map does not care which slot a used block is in. */
  lemma MapMoves(g: Geometry, bs: Store, owner: map<nat, Slot>, transit: set<nat>, owner': map<nat, Slot>,
                 transit': set<nat>)
    requires MapOk(g, bs, owner, transit)
    requires forall b :: b in owner' || b in transit' <==> b in owner || b in transit
    requires forall b :: b in transit' ==> b !in owner'
    ensures MapOk(g, bs, owner', transit')
  {
  }

  /** Storing the number of a block in transit in an empty slot of the in-core inode. */
  lemma PlaceDirect(g: Geometry, bs: Store, T: Table, owner: map<nat, Slot>, transit: set<nat>, i: nat, k: nat, b: uint)
    requires OwnOk(g, bs, T, owner, transit) && i < g.ninodes && k <= INDIRECT && b in transit && |T| == g.ninodes
    requires T[i][k] == 0
    requires k == INDIRECT ==> b < |bs| && bs[b] == ZeroBlock
    ensures OwnOk(g, bs, T[i := T[i][k := b]], owner[b := Slot(i, k)], transit - {b})
  {
    hide Bit, Placed;
    var T' := T[i := T[i][k := b]];
    forall i', k' | 0 <= i' < g.ninodes && 0 <= k' < NSLOT
      ensures SlotAddr(bs, T'[i'], k') == if Slot(i', k') == Slot(i, k) then b else SlotAddr(bs, T[i'], k')
    {
      if i' == i && k == INDIRECT && k' > INDIRECT {
        WordOfZeroBlock(k' - 13);
      }
    }
    PlacedAdd(g, bs, T, owner, bs, T', Slot(i, k), b);
    MapMoves(g, bs, owner, transit, owner[b := Slot(i, k)], transit - {b});
  }

  lemma IndirectOwned(g: Geometry, bs: Store, T: Table, owner: map<nat, Slot>, i: nat)
    requires Placed(g, bs, T, owner) && i < g.ninodes && T[i][INDIRECT] != 0
    ensures T[i][INDIRECT] in owner && owner[T[i][INDIRECT]] == Slot(i, INDIRECT) && IsData(g, T[i][INDIRECT])
  {
    assert SlotAddr(bs, T[i], INDIRECT) == T[i][INDIRECT];
  }

  lemma EntrySlots(g: Geometry, bs: Store, T: Table, owner: map<nat, Slot>, i: nat, j: nat, b: uint, i': nat, k': nat)
    requires Placed(g, bs, T, owner) && i < g.ninodes && j < NINDIRECT && 0 < T[i][INDIRECT] < |bs|
    requires i' < g.ninodes && k' < NSLOT
    ensures var ind := T[i][INDIRECT];
      SlotAddr(bs[ind := SetWord(bs[ind], j, b)], T[i'], k') ==
        if Slot(i', k') == Slot(i, 13 + j) then b else SlotAddr(bs, T[i'], k')
  {
    var ind := T[i][INDIRECT];
    IndirectOwned(g, bs, T, owner, i);
    if T[i'][INDIRECT] != 0 { IndirectOwned(g, bs, T, owner, i'); }
    if i' == i && k' > INDIRECT {
      if k' == 13 + j { WordOfSetWord(bs[ind], j, b); } else { WordOfOtherSetWord(bs[ind], j, b, k' - 13); }
    }
  }

  /** Storing it in an empty entry of the indirect block. */
  lemma PlaceEntry(g: Geometry, bs: Store, T: Table, owner: map<nat, Slot>, transit: set<nat>, i: nat, j: nat, b: uint)
    requires OwnOk(g, bs, T, owner, transit) && i < g.ninodes && j < NINDIRECT && b in transit && |T| == g.ninodes
    requires 0 < T[i][INDIRECT] < |bs| && SlotAddr(bs, T[i], 13 + j) == 0
    ensures var ind := T[i][INDIRECT];
      OwnOk(g, bs[ind := SetWord(bs[ind], j, b)], T, owner[b := Slot(i, 13 + j)], transit - {b})
  {
    hide Bit, Placed, SlotAddr, SetWord;
    var ind := T[i][INDIRECT];
    var bs' := bs[ind := SetWord(bs[ind], j, b)];
    IndirectOwned(g, bs, T, owner, i);
    forall i', k' | 0 <= i' < g.ninodes && 0 <= k' < NSLOT
      ensures SlotAddr(bs', T[i'], k') == if Slot(i', k') == Slot(i, 13 + j) then b else SlotAddr(bs, T[i'], k')
    {
      EntrySlots(g, bs, T, owner, i, j, b, i', k');
    }
    PlacedAdd(g, bs, T, owner, bs', T, Slot(i, 13 + j), b);
    SameMap(g, bs, bs', owner, transit);
    MapMoves(g, bs', owner, transit, owner[b := Slot(i, 13 + j)], transit - {b});
  }

  /** itrunc forgetting a direct block: it is in transit until bfree. */
  lemma DetachDirect(g: Geometry, bs: Store, T: Table, owner: map<nat, Slot>, transit: set<nat>, i: nat, k: nat)
    requires OwnOk(g, bs, T, owner, transit) && i < g.ninodes && k < INDIRECT && |T| == g.ninodes && T[i][k] != 0
    ensures T[i][k] in owner && owner[T[i][k]] == Slot(i, k)
    ensures OwnOk(g, bs, T[i := T[i][k := 0]], owner - {T[i][k]}, transit + {T[i][k]})
  {
    hide Bit;
    var b := T[i][k];
    assert SlotAddr(bs, T[i], k) == b;
    PlacedRemove(g, bs, T, owner, T[i := T[i][k := 0]], {Slot(i, k)}, {b});
    MapMoves(g, bs, owner, transit, owner - {b}, transit + {b});
  }

  /** The indirect block of an inode and the blocks its entries name. */
  ghost function IndirectBlocks(owner: map<nat, Slot>, i: nat): (r: set<nat>)
  {
    set b | b in owner && owner[b].inum == i && owner[b].k >= INDIRECT
  }

  ghost function IndirectSlots(i: nat): (r: set<Slot>)
  {
    set k: nat | INDIRECT <= k < NSLOT :: Slot(i, k)
  }

  lemma DetachIndirect(g: Geometry, bs: Store, T: Table, owner: map<nat, Slot>, transit: set<nat>, i: nat)
    requires OwnOk(g, bs, T, owner, transit) && i < g.ninodes && |T| == g.ninodes
    ensures var gone := IndirectBlocks(owner, i);
      OwnOk(g, bs, T[i := T[i][INDIRECT := 0]], owner - gone, transit + gone)
  {
    hide Bit;
    var gone := IndirectBlocks(owner, i);
    PlacedRemove(g, bs, T, owner, T[i := T[i][INDIRECT := 0]], IndirectSlots(i), gone);
    MapMoves(g, bs, owner, transit, owner - gone, transit + gone);
  }

  /** Writing file data, or an inode block, moves no block. */
  lemma WriteStep(g: Geometry, bs: Store, T: Table, owner: map<nat, Slot>, transit: set<nat>, b: nat, x: Block)
    requires OwnOk(g, bs, T, owner, transit) && b < |bs| && !(g.bmapstart <= b < g.datastart)
    requires b in owner ==> owner[b].k != INDIRECT
    ensures OwnOk(g, bs[b := x], T, owner, transit)
    ensures forall i, k :: 0 <= i < g.ninodes && 0 <= k < NSLOT ==>
      SlotAddr(bs[b := x], T[i], k) == SlotAddr(bs, T[i], k)
  {
    hide Bit, SlotAddr;
    SameSlots(g, bs, bs[b := x], T, owner);
    SameMap(g, bs, bs[b := x], owner, transit);
  }
}
