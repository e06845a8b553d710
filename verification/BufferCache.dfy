/** The buffer cache (bio.c) over the in-memory disk (memide.c). Buffers live in one array;
    a pointer to a buffer is its index, and the list head is the extra slot HEAD. */
module BufferCache {
  import opened Common
  import opened Blocks
  import opened CrashRecovery

  const NBUF := 3 * MAXOPBLOCKS
  const HEAD := NBUF

  datatype Buf = Buf(
    dev: nat, blockno: nat, valid: bool, dirty: bool, refcnt: nat,
    prev: nat, next: nat, data: Block)

  const BlankBuf := Buf(0, 0, false, false, 0, 0, 0, ZeroBlock)

  // ---- the circular list ----

  /** `list` is what the links enumerate from the head, in both directions. */
  ghost predicate Linked(bufs: seq<Buf>, list: seq<nat>)
  {
    && |bufs| == NBUF + 1
    && Distinct(list)
    && (forall i :: 0 <= i < |list| ==> list[i] < NBUF)
    && LinksAgree(bufs, [HEAD] + list + [HEAD])
  }

  ghost predicate LinksAgree(bufs: seq<Buf>, ring: seq<nat>)
  {
    && (forall i :: 0 <= i < |ring| ==> ring[i] < |bufs|)
    && forall i, j :: 0 <= i < j < |ring| && j == i + 1 ==>
        bufs[ring[i]].next == ring[j] && bufs[ring[j]].prev == ring[i]
  }

  function SetNext(bufs: seq<Buf>, i: nat, x: nat): (r: seq<Buf>)
    requires i < |bufs|
  {
    bufs[i := bufs[i].(next := x)]
  }

  function SetPrev(bufs: seq<Buf>, i: nat, x: nat): (r: seq<Buf>)
    requires i < |bufs|
  {
    bufs[i := bufs[i].(prev := x)]
  }

  /** The two stores of brelse that take a buffer out of the list. */
  function Unlink(bufs: seq<Buf>, b: nat): (r: seq<Buf>)
    requires b < |bufs| && bufs[b].next < |bufs| && bufs[b].prev < |bufs|
  {
    var s := SetPrev(bufs, bufs[b].next, bufs[b].prev);
    SetNext(s, s[b].prev, s[b].next)
  }

  /** The four stores of binit and brelse that put a buffer right after the head. */
  function LinkFront(bufs: seq<Buf>, b: nat): (r: seq<Buf>)
    requires |bufs| == NBUF + 1 && b < NBUF && bufs[HEAD].next <= NBUF
  {
    var s := SetPrev(SetNext(bufs, b, bufs[HEAD].next), b, HEAD);
    SetNext(SetPrev(s, s[HEAD].next, b), HEAD, b)
  }

  /** Everything but the links. */
  function Core(b: Buf): (r: Buf) { b.(prev := 0, next := 0) }

  lemma RemoveKeepsDistinct(list: seq<nat>, k: nat)
    requires Distinct(list) && k < |list|
    ensures Distinct(list[..k] + list[k + 1..]) && list[k] !in list[..k] + list[k + 1..]
    ensures forall x :: x in list[..k] + list[k + 1..] ==> x in list
  {
  }

  lemma UnlinkRemoves(bufs: seq<Buf>, list: seq<nat>, k: nat)
    requires Linked(bufs, list) && k < |list|
    ensures bufs[list[k]].next <= NBUF && bufs[list[k]].prev <= NBUF
    ensures Linked(Unlink(bufs, list[k]), list[..k] + list[k + 1..])
  {
    var ring := [HEAD] + list + [HEAD];
    assert ring[k + 1] == list[k];
    UnlinkRing(bufs, ring, k + 1);
    RemoveKeepsDistinct(list, k);
    assert [HEAD] + (list[..k] + list[k + 1..]) + [HEAD] == ring[..k + 1] + ring[k + 2..];
  }

  lemma UnlinkRing(bufs: seq<Buf>, ring: seq<nat>, k: nat)
    requires |bufs| == NBUF + 1 && LinksAgree(bufs, ring)
    requires 0 < k < |ring| - 1 && ring[0] == ring[|ring| - 1]
    requires forall i, j :: 0 <= i < j < |ring| - 1 ==> ring[i] != ring[j]
    ensures bufs[ring[k]].next == ring[k + 1] && bufs[ring[k]].prev == ring[k - 1]
    ensures LinksAgree(Unlink(bufs, ring[k]), ring[..k] + ring[k + 1..])
  {
  }

  lemma LinkFrontAdds(bufs: seq<Buf>, list: seq<nat>, b: nat)
    requires Linked(bufs, list) && b < NBUF && b !in list
    ensures bufs[HEAD].next <= NBUF
    ensures Linked(LinkFront(bufs, b), [b] + list)
  {
    var ring := [HEAD] + list + [HEAD];
    assert bufs[ring[0]].next == ring[1];
    var ring' := [HEAD] + ([b] + list) + [HEAD];
    assert ring' == [HEAD, b] + ring[1..];
    LinkFrontRing(bufs, ring, b);
  }

  lemma LinkFrontRing(bufs: seq<Buf>, ring: seq<nat>, b: nat)
    requires |bufs| == NBUF + 1 && LinksAgree(bufs, ring) && b < NBUF && b !in ring
    requires |ring| >= 2 && ring[0] == HEAD && ring[|ring| - 1] == HEAD
    requires forall i, j :: 0 <= i < j < |ring| - 1 ==> ring[i] != ring[j]
    ensures bufs[HEAD].next == ring[1]
    ensures LinksAgree(LinkFront(bufs, b), [HEAD, b] + ring[1..])
  {
  }

  function Without(list: seq<nat>, b: nat): (r: seq<nat>)
    requires b in list
  {
    list[..IndexIn(list, b)] + list[IndexIn(list, b) + 1..]
  }

  function MoveToFront(list: seq<nat>, b: nat): (r: seq<nat>)
    requires b in list
  {
    [b] + Without(list, b)
  }

  // ---- what the cache keeps true ----

  ghost predicate Descending(list: seq<nat>, stamp: seq<nat>)
  {
    && (forall i :: 0 <= i < |list| ==> list[i] < |stamp|)
    && forall i, j :: 0 <= i < j < |list| ==> stamp[list[i]] > stamp[list[j]]
  }

  /** The list holds all buffers, most recently released first. */
  ghost predicate MostRecentFirst(order: seq<nat>, stamp: seq<nat>, clock: nat)
  {
    && |order| == NBUF && |stamp| == NBUF
    && (forall b :: 0 <= b < NBUF ==> b in order && stamp[b] < clock)
    && Descending(order, stamp)
  }

  /** No two buffers hold the same block of a real device. */
  ghost predicate NoDuplicates(bufs: seq<Buf>)
    requires |bufs| == NBUF + 1
  {
    forall i, j :: 0 <= i < j < NBUF && bufs[i].dev != 0 ==>
      bufs[i].dev != bufs[j].dev || bufs[i].blockno != bufs[j].blockno
  }

  ghost predicate Pinned(bufs: seq<Buf>, b: nat)
    requires |bufs| == NBUF + 1
  {
    exists i :: 0 <= i < NBUF && bufs[i].dirty && bufs[i].blockno == b
  }

  /** `view` is the content a reader of each block is entitled to: a loaded buffer has it
      (unless its holder is in the middle of changing it), and so has the disk unless the
      block is pinned. */
  ghost predicate Coherent(bufs: seq<Buf>, disk: Disk, view: seq<Block>, scratch: set<nat>)
    requires |bufs| == NBUF + 1
  {
    && |view| == |disk|
    && (forall i :: 0 <= i < NBUF && bufs[i].dirty ==> bufs[i].valid)
    && (forall i :: 0 <= i < NBUF && bufs[i].valid ==>
          && bufs[i].dev == 1 && bufs[i].blockno < |disk|
          && (i !in scratch ==> bufs[i].data == view[bufs[i].blockno]))
    && (forall b :: 0 <= b < |disk| ==> Pinned(bufs, b) || disk[b] == view[b])
  }

  ghost predicate Sound(bufs: seq<Buf>, order: seq<nat>, disk: Disk, view: seq<Block>, scratch: set<nat>)
  {
    Linked(bufs, order) && NoDuplicates(bufs) && Coherent(bufs, disk, view, scratch)
  }

  /** May bget take this buffer for another block? */
  predicate Recyclable(b: Buf) { b.refcnt == 0 && !b.dirty }

  predicate Holds(b: Buf, dev: nat, blockno: nat) { b.dev == dev && b.blockno == blockno }

  class BCache {
    const buf: array<Buf>
    const memdisk: array<Block>
    ghost var order: seq<nat>      // the list, head.next first
    ghost var stamp: seq<nat>      // when each buffer was last released to refcnt 0
    ghost var clock: nat
    ghost var view: seq<Block>
    ghost var scratch: set<nat>    // buffers changed by their holder and not yet logged or written
    ghost var writes: seq<Write>   // every block write the disk has seen

    ghost predicate Valid()
      reads this, buf, memdisk
    {
      && buf.Length == NBUF + 1
      && MostRecentFirst(order, stamp, clock)
      && Sound(buf[..], order, memdisk[..], view, scratch)
    }

    /** binit: an empty cache over an existing disk. */
    constructor (disk: array<Block>)
      ensures Valid() && fresh(buf) && memdisk == disk && writes == []
      ensures view == disk[..] && scratch == {}
      ensures forall i :: 0 <= i < NBUF ==> Core(buf[i]) == Core(BlankBuf)
    {
      buf := new Buf[NBUF + 1](i => BlankBuf);
      memdisk := disk;
      order := [];
      stamp, clock := seq(NBUF, i => i), NBUF;
      view, scratch, writes := disk[..], {}, [];
      new;
      buf[HEAD] := buf[HEAD].(prev := HEAD, next := HEAD);
      var b := 0;
      while b < NBUF
        invariant 0 <= b <= NBUF
        invariant Linked(buf[..], order)
        invariant |order| == b && forall i :: 0 <= i < b ==> order[i] == b - 1 - i
        invariant forall i :: 0 <= i < NBUF ==> Core(buf[i]) == Core(BlankBuf)
        modifies this`order, buf
      {
        LinkFrontAdds(buf[..], order, b);
        PushFront(b);
        order := [b] + order;
        b := b + 1;
      }
      forall b | 0 <= b < NBUF
        ensures b in order
      {
        assert order[NBUF - 1 - b] == b;
      }
    }

    method PushFront(b: nat)
      requires buf.Length == NBUF + 1 && b < NBUF && buf[HEAD].next <= NBUF
      modifies buf
      ensures buf[..] == LinkFront(old(buf[..]), b)
      ensures forall j :: 0 <= j <= NBUF ==> Core(buf[j]) == Core(old(buf[j]))
    {
      buf[b] := buf[b].(next := buf[HEAD].next);
      buf[b] := buf[b].(prev := HEAD);
      buf[buf[HEAD].next] := buf[buf[HEAD].next].(prev := b);
      buf[HEAD] := buf[HEAD].(next := b);
    }

    /** bget's walk from the front: the buffer that holds the block, or HEAD. */
    method FindCached(dev: nat, blockno: nat) returns (b: nat)
      requires Valid()
      ensures b <= NBUF
      ensures b < NBUF ==> Holds(buf[b], dev, blockno)
      ensures b == HEAD ==> forall i :: 0 <= i < NBUF ==> !Holds(buf[i], dev, blockno)
    {
      b := buf[HEAD].next;
      ghost var k := 0;
      Walk(buf[..], order, 0);
      while b != HEAD
        invariant 0 <= k <= NBUF && b == (if k < NBUF then order[k] else HEAD)
        invariant forall i :: 0 <= i < k ==> !Holds(buf[order[i]], dev, blockno)
        decreases NBUF - k
      {
        Walk(buf[..], order, k);
        if buf[b].dev == dev && buf[b].blockno == blockno {
          return;
        }
        b := buf[b].next;
        k := k + 1;
      }
      forall i | 0 <= i < NBUF
        ensures !Holds(buf[i], dev, blockno)
      {
        assert i in order;
      }
    }

    /** bget's walk from the back: the recyclable buffer released longest ago, or HEAD. */
    method FindRecyclable() returns (b: nat)
      requires Valid()
      ensures b <= NBUF
      ensures b < NBUF ==> Recyclable(buf[b])
      ensures b < NBUF ==> forall i :: 0 <= i < NBUF && Recyclable(buf[i]) ==> stamp[b] <= stamp[i]
      ensures b == HEAD ==> forall i :: 0 <= i < NBUF ==> !Recyclable(buf[i])
    {
      b := buf[HEAD].prev;
      ghost var k := NBUF;
      Walk(buf[..], order, NBUF - 1);
      while b != HEAD
        invariant 0 <= k <= NBUF && b == (if k > 0 then order[k - 1] else HEAD)
        invariant forall i :: k <= i < NBUF ==> !Recyclable(buf[order[i]])
        decreases k
      {
        Walk(buf[..], order, k - 1);
        if buf[b].refcnt == 0 && !buf[b].dirty {
          forall i | 0 <= i < NBUF && Recyclable(buf[i])
            ensures stamp[b] <= stamp[i]
          {
            assert i in order;
          }
          return;
        }
        b := buf[b].prev;
        k := k - 1;
      }
      forall i | 0 <= i < NBUF
        ensures !Recyclable(buf[i])
      {
        assert i in order;
      }
    }

    /** bget under bcache.lock. A hit is the one buffer that holds the block; a miss takes
        the least recently released buffer that is neither referenced nor dirty; the
        "no buffers" panic is None and happens exactly when there is neither. */
    method Bget(dev: nat, blockno: nat) returns (r: Option<nat>)
      requires Valid()
      modifies this, buf
      ensures Valid()
      ensures view == old(view) && writes == old(writes)
      ensures order == old(order) && stamp == old(stamp) && clock == old(clock)
      ensures r.None? <==>
        (forall i :: 0 <= i < NBUF ==> old(!Holds(buf[i], dev, blockno) && !Recyclable(buf[i])))
      ensures r.None? ==> buf[..] == old(buf[..]) && scratch == old(scratch)
      ensures r.Some? ==>
        var b := r.value;
        && b < NBUF
        && (forall j :: 0 <= j <= NBUF && j != b ==> buf[j] == old(buf[j]))
        && (if old(Holds(buf[b], dev, blockno)) then
              buf[b] == old(buf[b]).(refcnt := old(buf[b]).refcnt + 1) && scratch == old(scratch)
            else
              && (forall i :: 0 <= i < NBUF ==> !Holds(old(buf[i]), dev, blockno))
              && Recyclable(old(buf[b]))
              && (forall i :: 0 <= i < NBUF && Recyclable(old(buf[i])) ==> stamp[b] <= stamp[i])
              && buf[b] == old(buf[b]).(dev := dev, blockno := blockno, valid := false, dirty := false, refcnt := 1)
              && scratch == old(scratch) - {b})
    {
      var b := FindCached(dev, blockno);
      if b != HEAD {
        buf[b] := buf[b].(refcnt := buf[b].refcnt + 1);
        assert buf[..] == old(buf[..])[b := buf[b]];
        RefcntSound(old(buf[..]), b, buf[b].refcnt, order, memdisk[..], view, scratch);
        return Some(b);
      }
      b := FindRecyclable();
      if b == HEAD {
        return None;
      }
      buf[b] := buf[b].(dev := dev, blockno := blockno, valid := false, dirty := false, refcnt := 1);
      scratch := scratch - {b};
      assert buf[..] == old(buf[..])[b := buf[b]];
      RecycleSound(old(buf[..]), b, buf[b], order, memdisk[..], view, old(scratch));
      r := Some(b);
    }

    /** iderw: a dirty buffer goes to the disk in one block write, an unloaded one comes
        from it. False is one of its panics: nothing to do, another disk, no such block. */
    method Iderw(b: nat) returns (ok: bool)
      requires buf.Length == NBUF + 1 && b < NBUF
      modifies buf, memdisk, this`writes
      ensures ok <==> old(!(buf[b].valid && !buf[b].dirty) && buf[b].dev == 1 && buf[b].blockno < memdisk.Length)
      ensures !ok ==> buf[..] == old(buf[..]) && memdisk[..] == old(memdisk[..]) && writes == old(writes)
      ensures ok && old(buf[b].dirty) ==>
        && buf[..] == old(buf[..])[b := old(buf[b]).(dirty := false, valid := true)]
        && memdisk[..] == old(memdisk[..])[old(buf[b].blockno) := old(buf[b].data)]
        && writes == old(writes) + [Write(old(buf[b].blockno), old(buf[b].data))]
      ensures ok && !old(buf[b].dirty) ==>
        && buf[..] == old(buf[..])[b := old(buf[b]).(valid := true, data := old(memdisk[buf[b].blockno]))]
        && memdisk[..] == old(memdisk[..]) && writes == old(writes)
    {
      if buf[b].valid && !buf[b].dirty {
        return false;
      }
      if buf[b].dev != 1 || buf[b].blockno >= memdisk.Length {
        return false;
      }
      ok := true;
      var p := buf[b].blockno;
      if buf[b].dirty {
        buf[b] := buf[b].(dirty := false);
        memdisk[p] := buf[b].data;
        writes := writes + [Write(p, buf[b].data)];
      } else {
        buf[b] := buf[b].(data := memdisk[p]);
      }
      buf[b] := buf[b].(valid := true);
    }

    /** Is there such a block? */
    predicate OnDisk(dev: nat, blockno: nat) { dev == 1 && blockno < memdisk.Length }

    /** bread: the buffer of a block, loaded, with the content its readers are entitled to. None is
        a panic: no such block, or no buffer for it. */
    method Bread(dev: nat, blockno: nat) returns (r: Option<nat>)
      requires Valid()
      modifies this, buf, memdisk
      ensures Valid()
      ensures memdisk[..] == old(memdisk[..]) && view == old(view) && writes == old(writes)
      ensures r.None? <==>
        (OnDisk(dev, blockno) ==>
          forall i :: 0 <= i < NBUF ==> old(!Holds(buf[i], dev, blockno) && !Recyclable(buf[i])))
      ensures r.None? && OnDisk(dev, blockno) ==> buf[..] == old(buf[..]) && scratch == old(scratch)
      ensures r.Some? ==>
        var b := r.value;
        && b < NBUF && Holds(buf[b], dev, blockno) && buf[b].valid
        && (b !in scratch ==> buf[b].data == view[blockno])
        && (forall j :: 0 <= j < NBUF && j != b ==> buf[j] == old(buf[j]))
        && (if old(Holds(buf[b], dev, blockno)) then
              && scratch == old(scratch)
              && buf[b].refcnt == old(buf[b]).refcnt + 1 && buf[b].dirty == old(buf[b]).dirty
            else
              && scratch == old(scratch) - {b} && Recyclable(old(buf[b]))
              && buf[b].refcnt == 1 && !buf[b].dirty)
    {
      r := Bget(dev, blockno);
      if r.Some? && !buf[r.value].valid {
        ghost var bufs := buf[..];
        var ok := Iderw(r.value);
        if !ok {
          return None;
        }
        LoadSound(bufs, r.value, order, memdisk[..], view, scratch);
      }
    }

    /** A holder changing b->data in place. */
    method Modify(b: nat, data: Block)
      requires Valid() && b < NBUF && buf[b].refcnt > 0
      modifies this`scratch, buf
      ensures Valid()
      ensures buf[..] == old(buf[..])[b := old(buf[b]).(data := data)] && scratch == old(scratch) + {b}
    {
      buf[b] := buf[b].(data := data);
      scratch := scratch + {b};
      assert buf[..] == old(buf[..])[b := buf[b]];
      ModifySound(old(buf[..]), b, data, order, memdisk[..], view, old(scratch));
    }

    /** bwrite: the buffer goes to its block on disk, which ends any pin. */
    method Bwrite(b: nat)
      requires Valid() && b < NBUF && buf[b].refcnt > 0
      requires buf[b].dev == 1 && buf[b].blockno < memdisk.Length
      modifies this, buf, memdisk
      ensures Valid()
      ensures buf[..] == old(buf[..])[b := old(buf[b]).(dirty := false, valid := true)]
      ensures memdisk[..] == old(memdisk[..])[old(buf[b].blockno) := old(buf[b].data)]
      ensures view == old(view)[old(buf[b].blockno) := old(buf[b].data)]
      ensures writes == old(writes) + [Write(old(buf[b].blockno), old(buf[b].data))]
      ensures scratch == old(scratch) - {b}
      ensures order == old(order) && stamp == old(stamp) && clock == old(clock)
    {
      buf[b] := buf[b].(dirty := true);
      var ok := Iderw(b);
      view := view[buf[b].blockno := buf[b].data];
      scratch := scratch - {b};
      assert buf[..] == old(buf[..])[b := buf[b]];
      BwriteSound(old(buf[..]), b, order, old(memdisk[..]), old(view), old(scratch));
    }

    /** log_write's `flags |= B_DIRTY`: the holder's data becomes the content of the block
        and the buffer can no longer be recycled. */
    method Pin(b: nat)
      requires Valid() && b < NBUF && buf[b].refcnt > 0 && buf[b].valid
      modifies this, buf
      ensures Valid()
      ensures buf[..] == old(buf[..])[b := old(buf[b]).(dirty := true)]
      ensures view == old(view)[old(buf[b].blockno) := old(buf[b].data)]
      ensures scratch == old(scratch) - {b} && writes == old(writes)
      ensures order == old(order) && stamp == old(stamp) && clock == old(clock)
    {
      buf[b] := buf[b].(dirty := true);
      view := view[buf[b].blockno := buf[b].data];
      scratch := scratch - {b};
      assert buf[..] == old(buf[..])[b := buf[b]];
      PinSound(old(buf[..]), b, order, memdisk[..], old(view), old(scratch));
    }

    /** brelse: drop one reference; the last one moves the buffer to the front. */
    method Brelse(b: nat)
      requires Valid() && b < NBUF && buf[b].refcnt > 0
      modifies this`order, this`stamp, this`clock, buf
      ensures Valid()
      ensures forall j :: 0 <= j < NBUF ==>
        Core(buf[j]) == if j == b then old(Core(buf[b])).(refcnt := old(buf[b].refcnt) - 1) else old(Core(buf[j]))
      ensures old(buf[b].refcnt) > 1 ==> order == old(order) && stamp == old(stamp) && clock == old(clock)
      ensures old(buf[b].refcnt) == 1 ==>
        && stamp == old(stamp)[b := old(clock)] && clock == old(clock) + 1
        && b in old(order) && order == MoveToFront(old(order), b)
    {
      buf[b] := buf[b].(refcnt := buf[b].refcnt - 1);
      assert buf[..] == old(buf[..])[b := old(buf[b]).(refcnt := old(buf[b].refcnt) - 1)];
      RefcntSound(old(buf[..]), b, buf[b].refcnt, order, memdisk[..], view, scratch);
      if buf[b].refcnt == 0 {
        Promote(b);
      }
    }

    method Promote(b: nat)
      requires Valid() && b < NBUF
      modifies this`order, this`stamp, this`clock, buf
      ensures Valid()
      ensures forall j :: 0 <= j < NBUF ==> Core(buf[j]) == old(Core(buf[j]))
      ensures stamp == old(stamp)[b := old(clock)] && clock == old(clock) + 1
      ensures b in old(order) && order == MoveToFront(old(order), b)
    {
      hide Linked, LinksAgree, NoDuplicates, Coherent, Descending, MoveToFront;
      assert Distinct(order) by { DistinctOrder(buf[..], order); }
      MoveFront(b);
      RelinkSound(old(buf[..]), buf[..], order, MoveToFront(order, b), memdisk[..], view, scratch);
      ReleaseOrder(order, stamp, clock, b);
      order, stamp, clock := MoveToFront(order, b), stamp[b := clock], clock + 1;
    }

    method MoveFront(b: nat)
      requires buf.Length == NBUF + 1 && Linked(buf[..], order) && b in order
      modifies buf
      ensures Linked(buf[..], MoveToFront(order, b))
      ensures forall j :: 0 <= j <= NBUF ==> Core(buf[j]) == Core(old(buf[j]))
    {
      UnlinkRemoves(buf[..], order, IndexIn(order, b));
      TakeOut(b);
      RemoveKeepsDistinct(order, IndexIn(order, b));
      LinkFrontAdds(buf[..], Without(order, b), b);
      PushFront(b);
    }

    method TakeOut(b: nat)
      requires buf.Length == NBUF + 1 && b < NBUF && buf[b].next <= NBUF && buf[b].prev <= NBUF
      modifies buf
      ensures buf[..] == Unlink(old(buf[..]), b)
      ensures forall j :: 0 <= j <= NBUF ==> Core(buf[j]) == Core(old(buf[j]))
    {
      buf[buf[b].next] := buf[buf[b].next].(prev := buf[b].prev);
      buf[buf[b].prev] := buf[buf[b].prev].(next := buf[b].next);
    }
  }

  lemma DistinctOrder(bufs: seq<Buf>, order: seq<nat>)
    requires Linked(bufs, order)
    ensures Distinct(order)
  {
  }

  /** One step of a walk along the list. */
  lemma Walk(bufs: seq<Buf>, list: seq<nat>, k: nat)
    requires Linked(bufs, list) && k < |list|
    ensures bufs[HEAD].next == list[0] && bufs[HEAD].prev == list[|list| - 1]
    ensures list[k] < NBUF
    ensures bufs[list[k]].next == if k + 1 < |list| then list[k + 1] else HEAD
    ensures bufs[list[k]].prev == if k > 0 then list[k - 1] else HEAD
  {
    var ring := [HEAD] + list + [HEAD];
    assert ring[0] == HEAD && ring[1] == list[0] && ring[k + 1] == list[k];
    assert ring[|list|] == list[|list| - 1] && ring[|list| + 1] == HEAD;
    assert ring[k + 2] == if k + 1 < |list| then list[k + 1] else HEAD;
    assert ring[k] == if k > 0 then list[k - 1] else HEAD;
  }

  lemma SameLinks(bufs: seq<Buf>, b: nat, x: Buf, list: seq<nat>)
    requires Linked(bufs, list) && b <= NBUF
    requires x.prev == bufs[b].prev && x.next == bufs[b].next
    ensures Linked(bufs[b := x], list)
  {
  }

  /** Pins survive a change that keeps the dirty bits and block numbers. */
  lemma SamePins(bufs: seq<Buf>, bufs': seq<Buf>, a: nat)
    requires |bufs| == |bufs'| == NBUF + 1 && Pinned(bufs, a)
    requires forall i :: 0 <= i < NBUF && bufs[i].dirty ==> bufs'[i].dirty && bufs'[i].blockno == bufs[i].blockno
    ensures Pinned(bufs', a)
  {
  }

  lemma CoherentFrom(bufs: seq<Buf>, bufs': seq<Buf>, disk: Disk, view: seq<Block>, scratch: set<nat>,
                     scratch': set<nat>)
    requires |bufs| == |bufs'| == NBUF + 1 && Coherent(bufs, disk, view, scratch)
    requires forall i :: 0 <= i < NBUF && bufs[i].dirty ==> bufs'[i].dirty && bufs'[i].blockno == bufs[i].blockno
    requires forall i :: 0 <= i < NBUF ==>
      || (!bufs'[i].valid && !bufs'[i].dirty)
      || (Core(bufs'[i]) == Core(bufs[i]).(refcnt := bufs'[i].refcnt) && (i in scratch ==> i in scratch'))
    ensures Coherent(bufs', disk, view, scratch')
  {
  }

  lemma RefcntSound(bufs: seq<Buf>, b: nat, n: nat, order: seq<nat>, disk: Disk, view: seq<Block>, scratch: set<nat>)
    requires Sound(bufs, order, disk, view, scratch) && b < NBUF
    ensures Sound(bufs[b := bufs[b].(refcnt := n)], order, disk, view, scratch)
  {
    var x := bufs[b].(refcnt := n);
    SameLinks(bufs, b, x, order);
    CoherentFrom(bufs, bufs[b := x], disk, view, scratch, scratch);
  }

  lemma RecycleSound(bufs: seq<Buf>, b: nat, x: Buf, order: seq<nat>, disk: Disk, view: seq<Block>, scratch: set<nat>)
    requires Sound(bufs, order, disk, view, scratch) && b < NBUF && !bufs[b].dirty
    requires x == bufs[b].(dev := x.dev, blockno := x.blockno, valid := false, dirty := false, refcnt := x.refcnt)
    requires forall i :: 0 <= i < NBUF ==> !Holds(bufs[i], x.dev, x.blockno)
    ensures Sound(bufs[b := x], order, disk, view, scratch - {b})
  {
    SameLinks(bufs, b, x, order);
    CoherentFrom(bufs, bufs[b := x], disk, view, scratch, scratch - {b});
  }

  lemma LoadSound(bufs: seq<Buf>, b: nat, order: seq<nat>, disk: Disk, view: seq<Block>, scratch: set<nat>)
    requires Sound(bufs, order, disk, view, scratch) && b < NBUF && !bufs[b].valid
    requires bufs[b].dev == 1 && bufs[b].blockno < |disk|
    ensures Sound(bufs[b := bufs[b].(valid := true, data := disk[bufs[b].blockno])], order, disk, view, scratch)
    ensures disk[bufs[b].blockno] == view[bufs[b].blockno]
  {
    var x := bufs[b].(valid := true, data := disk[bufs[b].blockno]);
    var bufs' := bufs[b := x];
    SameLinks(bufs, b, x, order);
    assert !Pinned(bufs, bufs[b].blockno) by { OnlyHolder(bufs, b); }
    forall a | 0 <= a < |disk|
      ensures Pinned(bufs', a) || disk[a] == view[a]
    {
      if Pinned(bufs, a) { SamePins(bufs, bufs', a); }
    }
  }

  /** No other buffer can be dirty with the block of a buffer that is not loaded. */
  lemma OnlyHolder(bufs: seq<Buf>, b: nat)
    requires |bufs| == NBUF + 1 && b < NBUF && NoDuplicates(bufs) && !bufs[b].valid && bufs[b].dev == 1
    requires forall i :: 0 <= i < NBUF && bufs[i].dirty ==> bufs[i].valid
    requires forall i :: 0 <= i < NBUF && bufs[i].valid ==> bufs[i].dev == 1
    ensures !Pinned(bufs, bufs[b].blockno)
  {
  }

  lemma ModifySound(bufs: seq<Buf>, b: nat, data: Block, order: seq<nat>, disk: Disk, view: seq<Block>,
                    scratch: set<nat>)
    requires Sound(bufs, order, disk, view, scratch) && b < NBUF
    ensures Sound(bufs[b := bufs[b].(data := data)], order, disk, view, scratch + {b})
  {
    var x := bufs[b].(data := data);
    var bufs' := bufs[b := x];
    SameLinks(bufs, b, x, order);
    forall a | 0 <= a < |disk|
      ensures Pinned(bufs', a) || disk[a] == view[a]
    {
      if Pinned(bufs, a) { SamePins(bufs, bufs', a); }
    }
  }

  lemma BwriteSound(bufs: seq<Buf>, b: nat, order: seq<nat>, disk: Disk, view: seq<Block>, scratch: set<nat>)
    requires Sound(bufs, order, disk, view, scratch) && b < NBUF
    requires bufs[b].dev == 1 && bufs[b].blockno < |disk|
    ensures var a, d := bufs[b].blockno, bufs[b].data;
      Sound(bufs[b := bufs[b].(dirty := false, valid := true)], order, disk[a := d], view[a := d], scratch - {b})
  {
    var x := bufs[b].(dirty := false, valid := true);
    var bufs' := bufs[b := x];
    SameLinks(bufs, b, x, order);
    forall a | 0 <= a < |disk| && a != x.blockno
      ensures Pinned(bufs', a) || disk[a] == view[a]
    {
      if Pinned(bufs, a) {
        var i :| 0 <= i < NBUF && bufs[i].dirty && bufs[i].blockno == a;
        assert bufs'[i].dirty && bufs'[i].blockno == a;
      }
    }
  }

  lemma PinSound(bufs: seq<Buf>, b: nat, order: seq<nat>, disk: Disk, view: seq<Block>, scratch: set<nat>)
    requires Sound(bufs, order, disk, view, scratch) && b < NBUF && bufs[b].valid
    ensures Sound(bufs[b := bufs[b].(dirty := true)], order, disk, view[bufs[b].blockno := bufs[b].data], scratch - {b})
  {
    var x := bufs[b].(dirty := true);
    var bufs' := bufs[b := x];
    SameLinks(bufs, b, x, order);
    assert bufs'[b].dirty;
    forall a | 0 <= a < |disk| && a != x.blockno
      ensures Pinned(bufs', a) || disk[a] == view[a]
    {
      if Pinned(bufs, a) { SamePins(bufs, bufs', a); }
    }
  }

  lemma RelinkSound(bufs: seq<Buf>, bufs': seq<Buf>, order: seq<nat>, order': seq<nat>,
                    disk: Disk, view: seq<Block>, scratch: set<nat>)
    requires Sound(bufs, order, disk, view, scratch) && Linked(bufs', order')
    requires forall j :: 0 <= j < NBUF ==> Core(bufs'[j]) == Core(bufs[j])
    ensures Sound(bufs', order', disk, view, scratch)
  {
  }

  lemma WithoutContains(list: seq<nat>, b: nat, x: nat)
    requires b in list && x in list && x != b
    ensures x in Without(list, b)
  {
  }

  lemma DescendingWithout(list: seq<nat>, k: nat, stamp: seq<nat>)
    requires Descending(list, stamp) && k < |list|
    ensures Descending(list[..k] + list[k + 1..], stamp)
  {
  }

  lemma DescendingFront(b: nat, rest: seq<nat>, stamp: seq<nat>, clock: nat)
    requires Descending(rest, stamp) && b !in rest && b < |stamp|
    requires forall i :: 0 <= i < |stamp| ==> stamp[i] < clock
    ensures Descending([b] + rest, stamp[b := clock])
  {
  }

  /** Moving the buffer released now to the front keeps the list in release order. */
  lemma ReleaseOrder(order: seq<nat>, stamp: seq<nat>, clock: nat, b: nat)
    requires MostRecentFirst(order, stamp, clock) && Distinct(order) && b in order
    ensures MostRecentFirst(MoveToFront(order, b), stamp[b := clock], clock + 1)
  {
    RemoveKeepsDistinct(order, IndexIn(order, b));
    DescendingWithout(order, IndexIn(order, b), stamp);
    DescendingFront(b, Without(order, b), stamp, clock);
    forall x | 0 <= x < NBUF
      ensures x in MoveToFront(order, b)
    {
      if x != b { WithoutContains(order, b, x); }
    }
  }
}
