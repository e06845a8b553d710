/** The write-ahead log (log.c) on top of the buffer cache. */
module Log {
  import opened Common
  import opened Blocks
  import opened CrashRecovery
  import opened BufferCache

  /** How a buffer may change when one more reference to its block is taken. */
  predicate Borrowed(a: Buf, b: Buf)
  {
    || (Holds(b, a.dev, a.blockno) && b.refcnt == a.refcnt + 1 && b.dirty == a.dirty)
    || (Recyclable(a) && b.refcnt == 1 && !b.dirty)
  }

  /** Some buffer could be recycled right now. */
  ghost predicate Spare(bufs: seq<Buf>)
    requires |bufs| == NBUF + 1
  {
    exists i :: 0 <= i < NBUF && Recyclable(bufs[i])
  }

  ghost predicate TwoSpares(bufs: seq<Buf>)
    requires |bufs| == NBUF + 1
  {
    exists i, j :: 0 <= i < j < NBUF && Recyclable(bufs[i]) && Recyclable(bufs[j])
  }

  ghost predicate Enough(bufs: seq<Buf>, a: nat, b: nat)
    requires |bufs| == NBUF + 1
  {
    TwoSpares(bufs) || (Spare(bufs) && (Pinned(bufs, a) || Pinned(bufs, b)))
  }

  /** No buffer holds block a and none can be recycled for it. */
  ghost predicate Jammed(bufs: seq<Buf>, a: nat)
    requires |bufs| == NBUF + 1
  {
    forall i :: 0 <= i < NBUF ==> !Holds(bufs[i], 1, a) && !Recyclable(bufs[i])
  }

  /** After a reference to block a was taken, block b is cached or something can make room for it. */
  lemma StillEnough(was: seq<Buf>, mid: seq<Buf>, k: nat, a: nat, b: nat)
    requires |was| == |mid| == NBUF + 1 && k < NBUF && NoDuplicates(was)
    requires Enough(was, a, b) && a != b
    requires forall i :: 0 <= i < NBUF && was[i].dirty ==> was[i].dev == 1
    requires forall j :: 0 <= j < NBUF && j != k ==> mid[j] == was[j]
    requires Holds(mid[k], 1, a)
    requires (Holds(was[k], 1, a) || (Recyclable(was[k]) && forall j :: 0 <= j < NBUF ==> !Holds(was[j], 1, a)))
    ensures exists i :: 0 <= i < NBUF && (Holds(mid[i], 1, b) || Recyclable(mid[i]))
  {
  }

  /** bread of two different blocks. It can only hit the "no buffers" panic when buffers
      are scarce: two recyclable ones are enough, and one is enough if one of the two
      blocks is pinned in the cache. */
  method ReadTwo(c: BCache, a: nat, b: nat) returns (ok: bool, x: nat, y: nat)
    requires c.Valid() && c.scratch == {}
    requires a != b && a < c.memdisk.Length && b < c.memdisk.Length
    modifies c, c.buf, c.memdisk
    ensures c.Valid() && c.scratch == {}
    ensures c.memdisk[..] == old(c.memdisk[..]) && c.view == old(c.view) && c.writes == old(c.writes)
    ensures ok ==>
      && x < NBUF && y < NBUF && x != y
      && Holds(c.buf[x], 1, a) && c.buf[x].valid && c.buf[x].data == c.view[a]
      && Holds(c.buf[y], 1, b) && c.buf[y].valid && c.buf[y].data == c.view[b]
      && (forall i :: 0 <= i < NBUF && i != x && i != y ==> c.buf[i] == old(c.buf[i]))
      && Borrowed(old(c.buf[x]), c.buf[x]) && Borrowed(old(c.buf[y]), c.buf[y])
    ensures Enough(old(c.buf[..]), a, b) ==> ok
    ensures Jammed(old(c.buf[..]), a) ==> !ok
  {
    hide Linked, MostRecentFirst;
    ghost var was := c.buf[..];
    var r := c.Bread(1, a);
    if r.None? {
      return false, 0, 0;
    }
    if Enough(was, a, b) {
      StillEnough(was, c.buf[..], r.value, a, b);
    }
    var q := c.Bread(1, b);
    if q.None? {
      return false, 0, 0;
    }
    ok, x, y := true, r.value, q.value;
  }

  method CopyAndRelease(c: BCache, src: nat, dst: nat)
    requires c.Valid() && c.scratch == {} && src < NBUF && dst < NBUF && src != dst
    requires c.buf[src].refcnt > 0 && c.buf[dst].refcnt > 0
    requires c.buf[dst].dev == 1 && c.buf[dst].blockno < c.memdisk.Length
    modifies c, c.buf, c.memdisk
    ensures c.Valid() && c.scratch == {}
    ensures var to, data := old(c.buf[dst].blockno), old(c.buf[src].data);
      && c.memdisk[..] == old(c.memdisk[..])[to := data] && c.view == old(c.view)[to := data]
      && c.writes == old(c.writes) + [Write(to, data)]
    ensures forall i :: 0 <= i < NBUF && i != src && i != dst ==> Core(c.buf[i]) == Core(old(c.buf[i]))
    ensures Core(c.buf[src]) == Core(old(c.buf[src])).(refcnt := old(c.buf[src]).refcnt - 1)
    ensures Holds(c.buf[dst], 1, old(c.buf[dst].blockno)) && !c.buf[dst].dirty
    ensures c.buf[dst].refcnt == old(c.buf[dst]).refcnt - 1
  {
    hide Linked, MostRecentFirst, NoDuplicates, Coherent;
    c.Modify(dst, c.buf[src].data);
    c.Bwrite(dst);
    ReleaseTwo(c, src, dst);
  }

  method StoreAndRelease(c: BCache, b: nat, data: Block)
    requires c.Valid() && c.scratch == {} && b < NBUF && c.buf[b].refcnt > 0
    requires c.buf[b].dev == 1 && c.buf[b].blockno < c.memdisk.Length
    modifies c, c.buf, c.memdisk
    ensures c.Valid() && c.scratch == {}
    ensures var to := old(c.buf[b].blockno);
      && c.memdisk[..] == old(c.memdisk[..])[to := data] && c.view == old(c.view)[to := data]
      && c.writes == old(c.writes) + [Write(to, data)]
    ensures forall i :: 0 <= i < NBUF && i != b ==> Core(c.buf[i]) == Core(old(c.buf[i]))
    ensures !c.buf[b].dirty && c.buf[b].refcnt == old(c.buf[b].refcnt) - 1
  {
    hide Linked, MostRecentFirst, NoDuplicates, Coherent;
    c.Modify(b, data);
    c.Bwrite(b);
    ghost var mid := c.buf[..];
    c.Brelse(b);
    assert Core(c.buf[b]).dirty == mid[b].dirty && Core(c.buf[b]).refcnt == mid[b].refcnt - 1;
  }

  /** Borrowing one unpinned buffer and giving it back keeps spares and pins. */
  lemma ReleasedFrame(was: seq<Buf>, mid: seq<Buf>, now: seq<Buf>, b: nat)
    requires |was| == |mid| == |now| == NBUF + 1 && b < NBUF
    requires forall i :: 0 <= i < NBUF && i != b ==> mid[i] == was[i] && Core(now[i]) == Core(mid[i])
    requires Borrowed(was[b], mid[b]) && !was[b].dirty && !now[b].dirty && now[b].refcnt == mid[b].refcnt - 1
    ensures PinsLess(was, now, [])
  {
  }

  method ReleaseTwo(c: BCache, x: nat, y: nat)
    requires c.Valid() && x < NBUF && y < NBUF && x != y
    requires c.buf[x].refcnt > 0 && c.buf[y].refcnt > 0
    modifies c`order, c`stamp, c`clock, c.buf
    ensures c.Valid()
    ensures forall i :: 0 <= i < NBUF && i != x && i != y ==> Core(c.buf[i]) == Core(old(c.buf[i]))
    ensures forall i :: i == x || i == y ==>
      Core(c.buf[i]) == Core(old(c.buf[i])).(refcnt := old(c.buf[i]).refcnt - 1)
  {
    hide Linked, MostRecentFirst, NoDuplicates, Coherent;
    c.Brelse(x);
    assert Core(c.buf[y]).refcnt == Core(old(c.buf[y])).refcnt;
    c.Brelse(y);
  }

  /** The body of the copy loops of write_log and install_trans: read both blocks, copy
      one over the other, write the destination, release both. */
  method CopyBlock(c: BCache, from: nat, to: nat, toFirst: bool) returns (ok: bool)
    requires c.Valid() && c.scratch == {}
    requires from != to && from < c.memdisk.Length && to < c.memdisk.Length
    modifies c, c.buf, c.memdisk
    ensures c.Valid() && c.scratch == {}
    ensures !ok ==> c.memdisk[..] == old(c.memdisk[..]) && c.view == old(c.view) && c.writes == old(c.writes)
    ensures ok ==>
      && c.memdisk[..] == old(c.memdisk[..])[to := old(c.view[from])]
      && c.view == old(c.view)[to := old(c.view[from])]
      && c.writes == old(c.writes) + [Write(to, old(c.view[from]))]
      && PinsLess(old(c.buf[..]), c.buf[..], [to])
    ensures Enough(old(c.buf[..]), from, to) ==> ok
    ensures Jammed(old(c.buf[..]), if toFirst then to else from) ==> !ok
  {
    hide Linked, MostRecentFirst;
    var src, dst;
    if toFirst {
      assert Enough(old(c.buf[..]), from, to) == Enough(old(c.buf[..]), to, from);
      ok, dst, src := ReadTwo(c, to, from);
    } else {
      ok, src, dst := ReadTwo(c, from, to);
    }
    if ok {
      ghost var mid := c.buf[..];
      CopyAndRelease(c, src, dst);
      CopyFrame(old(c.buf[..]), mid, c.buf[..], src, dst, from, to);
    }
  }

  ghost predicate NoneHeld(bufs: seq<Buf>)
    requires |bufs| == NBUF + 1
  {
    forall i :: 0 <= i < NBUF ==> bufs[i].refcnt == 0
  }

  ghost predicate SameRefs(was: seq<Buf>, now: seq<Buf>)
    requires |was| == |now| == NBUF + 1
  {
    forall j :: 0 <= j < NBUF ==> now[j].refcnt == was[j].refcnt
  }

  /** Reference counts are as before, nothing lost its recyclability, and the pins are those from
      before except `gone`. */
  ghost predicate PinsLess(was: seq<Buf>, now: seq<Buf>, gone: seq<nat>)
    requires |was| == |now| == NBUF + 1
  {
    && SameRefs(was, now)
    && (forall i :: 0 <= i < NBUF && Recyclable(was[i]) ==> Recyclable(now[i]))
    && (forall i :: 0 <= i < NBUF && now[i].dirty ==>
          was[i].dirty && was[i].blockno == now[i].blockno && now[i].blockno !in gone)
    && (forall i :: 0 <= i < NBUF && was[i].dirty && was[i].blockno !in gone ==>
          now[i].dirty && now[i].blockno == was[i].blockno)
  }

  lemma PinsLessRefs(a: seq<Buf>, b: seq<Buf>, g: seq<nat>)
    requires |a| == |b| == NBUF + 1 && PinsLess(a, b, g)
    ensures SameRefs(a, b)
  {
  }

  lemma PinsLessThen(a: seq<Buf>, b: seq<Buf>, c: seq<Buf>, g: seq<nat>, h: seq<nat>)
    requires |a| == |b| == |c| == NBUF + 1 && PinsLess(a, b, g) && PinsLess(b, c, h)
    ensures PinsLess(a, c, g + h)
  {
  }

  lemma PinsLessSame(a: seq<Buf>, b: seq<Buf>, c: seq<Buf>, g: seq<nat>)
    requires |a| == |b| == |c| == NBUF + 1 && PinsLess(a, b, g) && PinsLess(b, c, [])
    ensures PinsLess(a, c, g)
  {
  }

  /** A block that nobody pins can be dropped from the list of vanished pins. */
  lemma PinsLessDrop(a: seq<Buf>, b: seq<Buf>, g: seq<nat>, to: nat)
    requires |a| == |b| == NBUF + 1 && PinsLess(a, b, g + [to])
    requires forall i :: 0 <= i < NBUF && a[i].dirty ==> a[i].blockno != to
    ensures PinsLess(a, b, g)
  {
  }

  lemma PinsLessPinned(a: seq<Buf>, b: seq<Buf>, g: seq<nat>, x: nat)
    requires |a| == |b| == NBUF + 1 && PinsLess(a, b, g) && Pinned(a, x) && x !in g
    ensures Pinned(b, x)
  {
  }

  lemma PinsLessSpare(a: seq<Buf>, b: seq<Buf>, g: seq<nat>)
    requires |a| == |b| == NBUF + 1 && PinsLess(a, b, g)
    ensures Spare(a) ==> Spare(b)
    ensures TwoSpares(a) ==> TwoSpares(b) && Spare(b)
  {
  }

  lemma CopyFrame(was: seq<Buf>, mid: seq<Buf>, now: seq<Buf>, src: nat, dst: nat, from: nat, to: nat)
    requires |was| == |mid| == |now| == NBUF + 1 && src < NBUF && dst < NBUF && src != dst && from != to
    requires NoDuplicates(mid) && Holds(mid[src], 1, from) && Holds(mid[dst], 1, to)
    requires forall i :: 0 <= i < NBUF && mid[i].dirty ==> mid[i].dev == 1
    requires forall i :: 0 <= i < NBUF && i != src && i != dst ==> mid[i] == was[i] && Core(now[i]) == Core(mid[i])
    requires Borrowed(was[src], mid[src]) && Borrowed(was[dst], mid[dst])
    requires Holds(now[src], 1, from) && now[src].dirty == mid[src].dirty && now[src].refcnt == mid[src].refcnt - 1
    requires Holds(now[dst], 1, to) && !now[dst].dirty && now[dst].refcnt == mid[dst].refcnt - 1
    ensures PinsLess(was, now, [to])
  {
  }

  datatype LogResult = Logged | TooBig | OutsideOfTrans

  ghost function Sum(s: seq<int>): (r: int)
  {
    if s == [] then 0 else Sum(s[..|s| - 1]) + s[|s| - 1]
  }

  lemma SumSnoc(s: seq<int>, x: int)
    ensures Sum(s + [x]) == Sum(s) + x
  {
  }

  lemma {:induction false} SumUpdate(s: seq<int>, i: nat, x: int)
    requires i < |s|
    ensures Sum(s[i := x]) == Sum(s) - s[i] + x
  {
    var m := |s| - 1;
    if i < m {
      SumUpdate(s[..m], i, x);
      assert s[i := x][..m] == s[..m][i := x];
    } else {
      assert s[i := x][..m] == s[..m];
    }
  }

  lemma {:induction false} SumRemove(s: seq<int>, i: nat)
    requires i < |s|
    ensures Sum(s[..i] + s[i + 1..]) == Sum(s) - s[i]
  {
    var m := |s| - 1;
    if i < m {
      SumRemove(s[..m], i);
      assert (s[..i] + s[i + 1..])[..m - 1] == s[..m][..i] + s[..m][i + 1..];
    } else {
      assert s[..i] + s[i + 1..] == s[..m];
    }
  }

  lemma {:induction false} SumAtMost(s: seq<int>)
    requires forall i :: 0 <= i < |s| ==> s[i] <= MAXOPBLOCKS
    ensures Sum(s) <= |s| * MAXOPBLOCKS
  {
    if s != [] { SumAtMost(s[..|s| - 1]); }
  }

  ghost function Select(view: seq<Block>, blocks: seq<nat>): (r: seq<Block>)
    requires forall i :: 0 <= i < |blocks| ==> blocks[i] < |view|
    ensures |r| == |blocks| && forall i :: 0 <= i < |r| ==> r[i] == view[blocks[i]]
  {
    seq(|blocks|, i requires 0 <= i < |blocks| => view[blocks[i]])
  }

  class Log {
    const cache: BCache
    const p: Layout
    const block: array<nat>
    var n: nat
    var outstanding: nat
    var committing: bool
    ghost var left: seq<int>     // per outstanding operation, MAXOPBLOCKS less the fresh blocks it logged
    ghost var overspent: bool    // some operation logged more than MAXOPBLOCKS fresh blocks

    constructor (cache: BCache, p: Layout)
      ensures this.cache == cache && this.p == p && fresh(block) && block.Length == LOGSIZE
      ensures n == 0 && outstanding == 0 && !committing && left == [] && !overspent
    {
      this.cache, this.p := cache, p;
      block := new nat[LOGSIZE](i => 0);
      n, outstanding, committing := 0, 0, false;
      left, overspent := [], false;
    }

    /** The cache is sound and the entries of the in-memory header are loggable; only
        listed blocks may be pinned. */
    ghost predicate Ready()
      reads this, block, cache, cache.buf, cache.memdisk
    {
      && block.Length == LOGSIZE && n <= LOGSIZE
      && cache.Valid() && cache.scratch == {}
      && Loggable(cache.memdisk[..], p, block[..n])
      && forall i :: 0 <= i < NBUF && cache.buf[i].dirty ==> cache.buf[i].blockno in block[..n]
    }

    ghost predicate AllPinned()
      requires block.Length == LOGSIZE && n <= LOGSIZE && cache.buf.Length == NBUF + 1
      reads this, block, cache, cache.buf
    {
      forall i :: 0 <= i < n ==> Pinned(cache.buf[..], block[i])
    }

    /** What a reader would see in the logged blocks. */
    ghost function Contents(): (r: seq<Block>)
      requires Ready()
      reads this, block, cache, cache.buf, cache.memdisk
      ensures |r| == n
      ensures forall i :: 0 <= i < n ==> r[i] == cache.view[block[i]]
    {
      Select(cache.view, block[..n])
    }

    /** One round of write_log. */
    method LogSlot(tail: nat) returns (ok: bool)
      requires Ready() && tail < n && Pinned(cache.buf[..], block[tail])
      modifies cache, cache.buf, cache.memdisk
      ensures ok ==>
        && Ready() && PinsLess(old(cache.buf[..]), cache.buf[..], [])
        && cache.view == old(cache.view)[p.start + 1 + tail := old(cache.view)[block[tail]]]
        && cache.memdisk[..] == old(cache.memdisk[..])[p.start + 1 + tail := old(cache.view)[block[tail]]]
        && cache.writes == old(cache.writes) + [Write(p.start + 1 + tail, old(cache.view)[block[tail]])]
      ensures !ok ==> cache.memdisk[..] == old(cache.memdisk[..]) && cache.writes == old(cache.writes)
      ensures Spare(old(cache.buf[..])) ==> ok
      ensures Jammed(old(cache.buf[..]), p.start + 1 + tail) ==> !ok
    {
      hide Linked, MostRecentFirst, NoDuplicates;
      ghost var to := p.start + 1 + tail;
      assert IsHome(cache.memdisk[..], p, block[..n][tail]);
      ok := CopyBlock(cache, block[tail], p.start + tail + 1, true);
      if ok {
        assert [] + [to] == [to];
        PinsLessDrop(old(cache.buf[..]), cache.buf[..], [], to);
        SameLoggable(old(cache.memdisk[..]), cache.memdisk[..], p, block[..n]);
      }
    }

    /** The disk has seen the first k of the writes `ws`, starting from d0. */
    ghost predicate Progress(d0: Disk, w0: seq<Write>, ws: seq<Write>, k: nat)
      reads cache, cache.memdisk
    {
      && k <= |ws|
      && cache.writes == w0 + ws[..k]
      && cache.memdisk[..] == Apply(d0, ws[..k])
    }

    ghost predicate SameHome(v0: seq<Block>)
      reads cache
    {
      |cache.view| == |v0| && forall b :: 0 <= b < |v0| && !InLog(p, b) ==> cache.view[b] == v0[b]
    }

    /** One round of write_log and what it keeps. */
    method LogSlotKeeps(tail: nat, ghost was: seq<Buf>, ghost d0: Disk, ghost v0: seq<Block>,
                        ghost w0: seq<Write>, ghost data: seq<Block>) returns (ok: bool)
      requires |was| == NBUF + 1 && |data| == n && |v0| == |d0|
      requires Ready() && PinsLess(was, cache.buf[..], []) && SameHome(v0)
      requires forall i :: 0 <= i < n ==> block[i] < |v0| && data[i] == v0[block[i]]
      requires tail < n && Pinned(was, block[tail])
      requires Progress(d0, w0, LogWrites(p, data), tail)
      modifies cache, cache.buf, cache.memdisk
      ensures ok ==>
        && Ready() && PinsLess(was, cache.buf[..], []) && SameHome(v0)
        && Progress(d0, w0, LogWrites(p, data), tail + 1)
      ensures !ok ==> Progress(d0, w0, LogWrites(p, data), tail)
      ensures Spare(was) ==> ok
      ensures Jammed(old(cache.buf[..]), p.start + 1 + tail) ==> !ok
    {
      assert cache.buf.Length == NBUF + 1;
      ghost var ws := LogWrites(p, data);
      assert ws[tail] == Write(p.start + 1 + tail, data[tail]);
      hide BCache.Valid, PinsLess, Apply, LogWrites, Jammed;
      ghost var mid := cache.buf[..];
      PinsLessPinned(was, mid, [], block[tail]);
      PinsLessSpare(was, mid, []);
      assert IsHome(cache.memdisk[..], p, block[..n][tail]);
      ok := LogSlot(tail);
      if ok {
        PinsLessSame(was, mid, cache.buf[..], []);
        ProgressNext(d0, w0, ws, tail);
      }
    }

    /** write_log: on success the log slots hold what readers see in the logged blocks. A
        panic for lack of buffers leaves a disk that a crash could have left. */
    method WriteLog() returns (ok: bool, ghost k: nat)
      requires Ready() && AllPinned()
      modifies cache, cache.buf, cache.memdisk
      ensures Progress(old(cache.memdisk[..]), old(cache.writes), LogWrites(p, old(Contents())), k)
      ensures ok ==>
        && Ready() && PinsLess(old(cache.buf[..]), cache.buf[..], []) && SameHome(old(cache.view))
        && k == |LogWrites(p, old(Contents()))|
      ensures Spare(old(cache.buf[..])) ==> ok
      ensures n > 0 && Jammed(old(cache.buf[..]), p.start + 1) ==> !ok && k == 0
    {
      assert cache.buf.Length == NBUF + 1 && |cache.view| == cache.memdisk.Length;
      ghost var data := Contents();
      ghost var was, d0, v0, w0 := cache.buf[..], cache.memdisk[..], cache.view, cache.writes;
      assert PinsLess(was, was, []);
      assert LogWrites(p, data)[..0] == [];
      assert forall i :: 0 <= i < n ==> Pinned(was, block[i]);
      assert forall i :: 0 <= i < n ==> block[i] < |v0|;
      assert Progress(d0, w0, LogWrites(p, data), 0);
      hide BCache.Valid, PinsLess, Loggable, Pinned, Spare, Jammed, Log.Progress, Log.SameHome;
      k := 0;
      for tail := 0 to n
        invariant k == tail
        invariant Ready() && PinsLess(was, cache.buf[..], []) && SameHome(v0)
        invariant Progress(d0, w0, LogWrites(p, data), k)
        invariant if tail == 0 then cache.buf[..] == was else !Jammed(was, p.start + 1)
      {
        ok := LogSlotKeeps(tail, was, d0, v0, w0, data);
        if !ok {
          return;
        }
        k := k + 1;
      }
      ok := true;
    }

    /** write_head: the header goes to disk in one block write. */
    method WriteHead() returns (ok: bool)
      requires block.Length == LOGSIZE && n <= LOGSIZE && cache.Valid() && cache.scratch == {}
      requires LogFits(cache.memdisk[..], p) && forall i :: 0 <= i < n ==> block[i] < UINT_LIMIT
      requires !Pinned(cache.buf[..], p.start)
      modifies cache, cache.buf, cache.memdisk
      ensures !ok ==> cache.memdisk[..] == old(cache.memdisk[..]) && cache.writes == old(cache.writes)
      ensures ok ==>
        var h := HeaderBlock(old(cache.memdisk[..])[p.start], block[..n]);
        && cache.Valid() && cache.scratch == {}
        && cache.memdisk[..] == old(cache.memdisk[..])[p.start := h]
        && cache.view == old(cache.view)[p.start := h]
        && cache.writes == old(cache.writes) + [Write(p.start, h)]
        && PinsLess(old(cache.buf[..]), cache.buf[..], [])
      ensures Spare(old(cache.buf[..])) ==> ok
    {
      hide Linked, MostRecentFirst;
      var r := cache.Bread(1, p.start);
      if r.None? {
        return false;
      }
      ok := true;
      ghost var mid := cache.buf[..];
      assert cache.view[p.start] == old(cache.memdisk[..])[p.start];
      var hb := FillHeader(cache.buf[r.value].data);
      StoreAndRelease(cache, r.value, hb);
      ReleasedFrame(old(cache.buf[..]), mid, cache.buf[..], r.value);
    }

    /** write_head's loop: store n and the entries over the header block. */
    method FillHeader(data: Block) returns (hb: Block)
      requires block.Length == LOGSIZE && n <= LOGSIZE && forall i :: 0 <= i < n ==> block[i] < UINT_LIMIT
      ensures hb == HeaderBlock(data, block[..n])
    {
      hb := SetWord(data, 0, n);
      for i := 0 to n
        invariant hb == PutWords(SetWord(data, 0, n), 1, block[..i])
      {
        assert block[..i + 1][..i] == block[..i];
        hb := SetWord(hb, 1 + i, block[i]);
      }
    }

    /** One round of install_trans. */
    method InstallSlot(tail: nat) returns (ok: bool)
      requires Ready() && tail < n
      modifies cache, cache.buf, cache.memdisk
      ensures ok ==>
        && Ready() && PinsLess(old(cache.buf[..]), cache.buf[..], [block[tail]])
        && cache.memdisk[..] == old(cache.memdisk[..])[block[tail] := old(cache.memdisk[p.start + 1 + tail])]
        && cache.writes == old(cache.writes) + [Write(block[tail], old(cache.memdisk[p.start + 1 + tail]))]
      ensures !ok ==> cache.memdisk[..] == old(cache.memdisk[..]) && cache.writes == old(cache.writes)
      ensures TwoSpares(old(cache.buf[..])) ==> ok
      ensures Spare(old(cache.buf[..])) && Pinned(old(cache.buf[..]), block[tail]) ==> ok
    {
      ghost var from := p.start + 1 + tail;
      assert IsHome(cache.memdisk[..], p, block[..n][tail]);
      assert !Pinned(cache.buf[..], from);
      assert cache.view[from] == cache.memdisk[from];
      hide Linked, MostRecentFirst, NoDuplicates;
      ok := CopyBlock(cache, p.start + tail + 1, block[tail], false);
      if ok {
        SameLoggable(old(cache.memdisk[..]), cache.memdisk[..], p, block[..n]);
      }
    }

    lemma InstallFacts(d: Disk, tail: nat, data: seq<Block>)
      requires block.Length == LOGSIZE && n <= LOGSIZE && Loggable(d, p, block[..n]) && tail < n
      requires d[p.start + 1..p.start + 1 + n] == data
      ensures p.start + 1 + n <= |d| && block[tail] < |d| && block[tail] !in block[..tail]
      ensures InstallWrites(block[..n], data)[tail] == Write(block[tail], data[tail])
      ensures d[p.start + 1 + tail] == data[tail]
      ensures d[block[tail] := data[tail]][p.start + 1..p.start + 1 + n] == data
    {
    }

    method InstallSlotKeeps(tail: nat, ghost was: seq<Buf>, ghost d0: Disk, ghost w0: seq<Write>,
                            ghost data: seq<Block>) returns (ok: bool)
      requires |was| == cache.buf.Length == NBUF + 1 && |data| == n && |d0| == cache.memdisk.Length
      requires Ready() && tail < n && PinsLess(was, cache.buf[..], block[..tail])
      requires cache.memdisk[p.start + 1..p.start + 1 + n] == data
      requires Progress(d0, w0, InstallWrites(block[..n], data), tail)
      modifies cache, cache.buf, cache.memdisk
      ensures ok ==>
        && Ready() && PinsLess(was, cache.buf[..], block[..tail + 1])
        && cache.memdisk[p.start + 1..p.start + 1 + n] == data
        && Progress(d0, w0, InstallWrites(block[..n], data), tail + 1)
      ensures !ok ==> Progress(d0, w0, InstallWrites(block[..n], data), tail)
      ensures TwoSpares(was) || (Spare(was) && Pinned(was, block[tail])) ==> ok
    {
      hide BCache.Valid, PinsLess, Apply, InstallWrites, Spare, TwoSpares, Pinned, Loggable;
      InstallFacts(cache.memdisk[..], tail, data);
      ghost var ws := InstallWrites(block[..n], data);
      ghost var mid := cache.buf[..];
      if Pinned(was, block[tail]) {
        PinsLessPinned(was, mid, block[..tail], block[tail]);
      }
      PinsLessSpare(was, mid, block[..tail]);
      ok := InstallSlot(tail);
      if ok {
        PinsLessThen(was, mid, cache.buf[..], block[..tail], [block[tail]]);
        assert block[..tail] + [block[tail]] == block[..tail + 1];
        ProgressNext(d0, w0, ws, tail);
      }
    }

    /** install_trans: every log slot goes to its home block, and no installed block stays
        pinned. */
    method InstallTrans() returns (ok: bool, ghost k: nat)
      requires Ready()
      modifies cache, cache.buf, cache.memdisk
      ensures Progress(old(cache.memdisk[..]), old(cache.writes),
                       InstallWrites(block[..n], old(cache.memdisk[p.start + 1..p.start + 1 + n])), k)
      ensures ok ==>
        && Ready() && PinsLess(old(cache.buf[..]), cache.buf[..], block[..n]) && k == n
      ensures TwoSpares(old(cache.buf[..])) || (Spare(old(cache.buf[..])) && old(AllPinned())) ==> ok
    {
      assert cache.buf.Length == NBUF + 1;
      ghost var data := cache.memdisk[p.start + 1..p.start + 1 + n];
      ghost var was, d0, w0 := cache.buf[..], cache.memdisk[..], cache.writes;
      assert PinsLess(was, was, []);
      assert InstallWrites(block[..n], data)[..0] == [];
      assert block[..0] == [];
      assert Progress(d0, w0, InstallWrites(block[..n], data), 0);
      hide BCache.Valid, PinsLess, Pinned, Spare, TwoSpares, Log.Progress;
      k := 0;
      for tail := 0 to n
        invariant k == tail
        invariant Ready() && PinsLess(was, cache.buf[..], block[..tail])
        invariant cache.memdisk[p.start + 1..p.start + 1 + n] == data
        invariant Progress(d0, w0, InstallWrites(block[..n], data), k)
      {
        ok := InstallSlotKeeps(tail, was, d0, w0, data);
        if !ok {
          return;
        }
        k := k + 1;
      }
      ok := true;
    }

    ghost predicate NoPins()
      requires cache.buf.Length == NBUF + 1
      reads cache, cache.buf
    {
      forall i :: 0 <= i < NBUF ==> !cache.buf[i].dirty
    }

    /** read_head: load the entries that the header on disk lists. */
    method ReadHead() returns (ok: bool)
      requires block.Length == LOGSIZE && cache.Valid() && cache.scratch == {} && NoPins()
      requires Recoverable(cache.memdisk[..], p)
      modifies this`n, block, cache, cache.buf, cache.memdisk
      ensures cache.memdisk[..] == old(cache.memdisk[..]) && cache.writes == old(cache.writes)
      ensures ok ==>
        && Ready() && NoPins() && block[..n] == Pending(cache.memdisk[..], p)
        && PinsLess(old(cache.buf[..]), cache.buf[..], [])
      ensures Spare(old(cache.buf[..])) ==> ok
    {
      hide Linked, MostRecentFirst, NoDuplicates;
      var r := cache.Bread(1, p.start);
      if r.None? {
        return false;
      }
      ok := true;
      ghost var mid := cache.buf[..];
      var lh := cache.buf[r.value].data;
      assert lh == cache.memdisk[p.start];
      CopyEntries(lh);
      cache.Brelse(r.value);
      ghost var now := cache.buf[..];
      assert Core(now[r.value]) == Core(mid[r.value]).(refcnt := mid[r.value].refcnt - 1);
      assert !Core(now[r.value]).dirty && Core(now[r.value]).refcnt == mid[r.value].refcnt - 1;
      ReleasedFrame(old(cache.buf[..]), mid, now, r.value);
      assert block[..n] == Pending(cache.memdisk[..], p);
    }

    /** read_head's loop. */
    method CopyEntries(lh: Block)
      requires block.Length == LOGSIZE && Word(lh, 0) <= LOGSIZE
      modifies this`n, block
      ensures n == Word(lh, 0) && block[..n] == HeaderEntries(lh)
    {
      n := Word(lh, 0);
      for i := 0 to n
        modifies block
        invariant forall j :: 0 <= j < i ==> block[j] == Word(lh, 1 + j)
      {
        block[i] := Word(lh, 1 + i);
      }
    }

    /** `log.lh.n = 0; write_head();` */
    method ClearHead() returns (ok: bool)
      requires Ready() && NoPins()
      modifies this`n, cache, cache.buf, cache.memdisk
      ensures !ok ==> cache.memdisk[..] == old(cache.memdisk[..]) && cache.writes == old(cache.writes)
      ensures ok ==>
        var h := HeaderBlock(old(cache.memdisk[..])[p.start], []);
        && Ready() && NoPins() && n == 0
        && cache.memdisk[..] == old(cache.memdisk[..])[p.start := h]
        && cache.writes == old(cache.writes) + [Write(p.start, h)]
        && PinsLess(old(cache.buf[..]), cache.buf[..], [])
      ensures Spare(old(cache.buf[..])) ==> ok
    {
      hide Linked, MostRecentFirst, NoDuplicates;
      n := 0;
      assert block[..0] == [];
      ok := WriteHead();
    }

    /** The common end of commit and recover_from_log: install, then clear the header. */
    method InstallAndClear() returns (ok: bool, ghost k: nat)
      requires cache.buf.Length == NBUF + 1
      requires Ready() && Recoverable(cache.memdisk[..], p) && Pending(cache.memdisk[..], p) == block[..n]
      modifies this`n, cache, cache.buf, cache.memdisk
      ensures Progress(old(cache.memdisk[..]), old(cache.writes), RecoverWrites(old(cache.memdisk[..]), p), k)
      ensures ok ==>
        && Ready() && NoPins() && n == 0 && k == |RecoverWrites(old(cache.memdisk[..]), p)|
        && PinsLess(old(cache.buf[..]), cache.buf[..], old(block[..n]))
      ensures TwoSpares(old(cache.buf[..])) || (Spare(old(cache.buf[..])) && old(AllPinned())) ==> ok
    {
      hide BCache.Valid, PinsLess, Apply, Recoverable, Pending, RecoverWrites, Slots, InstallWrites, Loggable, Spare,
           TwoSpares;
      ghost var was, d0, w0 := cache.buf[..], cache.memdisk[..], cache.writes;
      ghost var blocks := block[..n];
      SlotsAre(d0, p);
      ok, k := InstallTrans();
      InstallProgress(d0, w0, p, k);
      if !ok {
        return;
      }
      ghost var mid := cache.buf[..];
      AllGone(was, mid, blocks);
      PinsLessSpare(was, mid, blocks);
      ok := ClearHead();
      if ok {
        PinsLessSame(was, mid, cache.buf[..], blocks);
        k := k + 1;
      }
    }

    /** recover_from_log at boot: the writes are a prefix of the recovery's, all of them
        unless fewer than two buffers were recyclable. */
    method Recover() returns (ok: bool, ghost k: nat)
      requires block.Length == LOGSIZE && cache.Valid() && cache.scratch == {} && NoPins()
      requires Recoverable(cache.memdisk[..], p)
      modifies this`n, block, cache, cache.buf, cache.memdisk
      ensures Progress(old(cache.memdisk[..]), old(cache.writes), RecoverWrites(old(cache.memdisk[..]), p), k)
      ensures ok ==> Ready() && NoPins() && n == 0 && k == |RecoverWrites(old(cache.memdisk[..]), p)|
      ensures ok ==> SameRefs(old(cache.buf[..]), cache.buf[..])
      ensures TwoSpares(old(cache.buf[..])) ==> ok
    {
      hide Linked, MostRecentFirst, NoDuplicates, Coherent, Loggable, RecoverWrites, HeaderEntries;
      ghost var was := cache.buf[..];
      ok := ReadHead();
      k := 0;
      if ok {
        PinsLessSpare(was, cache.buf[..], []);
        ok, k := InstallAndClear();
      }
    }

    /** The transaction that the pinned buffers and the in-memory header describe. */
    ghost function Transaction(): (t: Txn)
      requires Ready()
      reads this, block, cache, cache.buf, cache.memdisk
      ensures t.blocks == block[..n] && t.data == Contents()
      ensures ValidTxn(cache.memdisk[..], p, t)
    {
      Txn(block[..n], Contents())
    }

    /** The first half of commit(): everything up to the write that is the commit point. */
    method ReachCommitPoint() returns (ok: bool, ghost k: nat)
      requires cache.buf.Length == NBUF + 1 && |cache.view| == cache.memdisk.Length
      requires Ready() && AllPinned() && Clean(cache.memdisk[..], p)
      modifies cache, cache.buf, cache.memdisk
      ensures Progress(old(cache.memdisk[..]), old(cache.writes),
                       CommitHead(old(cache.memdisk[..]), p, old(Transaction())), k)
      ensures ok ==>
        && Ready() && AllPinned() && k == n + 1
        && PinsLess(old(cache.buf[..]), cache.buf[..], [])
      ensures Spare(old(cache.buf[..])) ==> ok
      ensures n > 0 && Jammed(old(cache.buf[..]), p.start + 1) ==> !ok && k == 0
    {
      hide BCache.Valid, PinsLess, Apply, CommitHead, LogWrites, Jammed, Clean, Spare, HeaderBlock, Distinct,
           Log.SameHome;
      ghost var was, d0, w0 := cache.buf[..], cache.memdisk[..], cache.writes;
      ghost var t := Transaction();
      ok, k := WriteLog();
      HeadProgress(d0, w0, p, t, k);
      if !ok {
        return;
      }
      ghost var mid := cache.buf[..];
      PinsLessSpare(was, mid, []);
      ok := WriteHead();
      if ok {
        PinsLessSame(was, mid, cache.buf[..], []);
        SameLoggable(d0, cache.memdisk[..], p, block[..n]);
        SubsetPins(was, cache.buf[..], block[..n]);
        k := k + 1;
      }
    }

    /** commit(): the block writes are a prefix of the commit of the whole transaction, all
        of them if one buffer is recyclable; afterwards nothing is pinned and readers see
        what they saw before. */
    method Commit() returns (ok: bool, ghost k: nat)
      requires Ready() && AllPinned() && Clean(cache.memdisk[..], p)
      modifies this`n, cache, cache.buf, cache.memdisk
      ensures Progress(old(cache.memdisk[..]), old(cache.writes),
                       CommitWrites(old(cache.memdisk[..]), p, old(Transaction())), k)
      ensures ok ==>
        && k == |CommitWrites(old(cache.memdisk[..]), p, old(Transaction()))|
        && Ready() && NoPins() && n == 0 && Clean(cache.memdisk[..], p)
        && SameHome(old(cache.view)) && cache.view == cache.memdisk[..] && SameRefs(old(cache.buf[..]), cache.buf[..])
      ensures Spare(old(cache.buf[..])) ==> ok
      ensures old(n) > 0 && Jammed(old(cache.buf[..]), p.start + 1) ==> !ok && k == 0
    {
      hide Jammed, Linked, NoDuplicates, MostRecentFirst, PinsLess, Apply, CommitHead, CommitWrites, RecoverWrites,
           Spare,
           TwoSpares, Recoverable, Loggable, Pending, Log.AllPinned, Clean;
      ghost var d0, w0, v0, was := cache.memdisk[..], cache.writes, cache.view, cache.buf[..];
      ghost var t := Transaction();
      UnpinnedView(was, d0, v0, cache.scratch, t.blocks);
      ok, k := true, 0;
      if n > 0 {
        ghost var j;
        ok, k := ReachCommitPoint();
        CommitJoin(d0, p, t, k);
        if !ok {
          return;
        }
        ghost var mid := cache.buf[..];
        PinsLessSpare(was, mid, []);
        PinsLessRefs(was, mid, []);
        ok, j := InstallAndClear();
        if ok { PinsLessRefs(mid, cache.buf[..], t.blocks); }
        RestJoin(d0, w0, p, t, j);
        k := |t.blocks| + 1 + j;
      } else {
        EmptyCommit(d0, p, t);
      }
      if ok {
        CommitView(d0, v0, p, t);
        UnpinnedView(cache.buf[..], cache.memdisk[..], cache.view, cache.scratch, []);
        assert CommitWrites(d0, p, t)[..k] == CommitWrites(d0, p, t);
      }
    }

    /** What holds between any two log operations of any processes. */
    ghost predicate Valid()
      reads this, block, cache, cache.buf, cache.memdisk
    {
      && block.Length == LOGSIZE && n <= LOGSIZE
      && cache.Valid() && Clean(cache.memdisk[..], p)
      && Loggable(cache.memdisk[..], p, block[..n])
      && Tracks(cache.buf[..], block[..n])
      && Reserved()
    }

    /** The unused reservations of the outstanding operations still fit in the log, and no
        operation is outstanding while a commit is in progress. */
    ghost predicate Reserved()
      reads this
    {
      && outstanding == |left| && (committing ==> outstanding == 0)
      && (forall i :: 0 <= i < |left| ==> left[i] <= MAXOPBLOCKS)
      && (!overspent ==> (forall i :: 0 <= i < |left| ==> 0 <= left[i]) && n + Sum(left) <= LOGSIZE)
    }

    /** One pass of begin_op's loop: admitted, or sleep and try again. */
    method BeginOp() returns (admitted: bool)
      requires Valid()
      modifies this`outstanding, this`left
      ensures Valid()
      ensures admitted <==> old(!committing && n + (outstanding + 1) * MAXOPBLOCKS <= LOGSIZE)
      ensures if admitted
        then outstanding == old(outstanding) + 1 && left == old(left) + [MAXOPBLOCKS]
        else outstanding == old(outstanding) && left == old(left)
    {
      hide BCache.Valid, Clean, Loggable, Tracks;
      if committing || n + (outstanding + 1) * MAXOPBLOCKS > LOGSIZE {
        return false;
      }
      SumSnoc(left, MAXOPBLOCKS);
      SumAtMost(left);
      outstanding, left := outstanding + 1, left + [MAXOPBLOCKS];
      admitted := true;
    }

    /** log_write's search: the entry of a block, or n. */
    method FindEntry(blockno: nat) returns (i: nat)
      requires n <= block.Length
      ensures i <= n && (i < n ==> block[i] == blockno)
      ensures i == n <==> blockno !in block[..n]
    {
      i := 0;
      while i < n
        invariant i <= n && blockno !in block[..i]
      {
        if block[i] == blockno {
          return;
        }
        i := i + 1;
      }
    }

    /** The list part of log_write: absorb a block already listed, else append it. */
    method Record(blockno: nat, ghost op: nat)
      requires block.Length == LOGSIZE && n < LOGSIZE && op < |left| && Reserved()
      modifies this`n, this`left, this`overspent, block
      ensures n <= LOGSIZE && Reserved()
      ensures var fresh_ := blockno !in old(block[..n]);
        && block[..n] == (if fresh_ then old(block[..n]) + [blockno] else old(block[..n]))
        && left == (if fresh_ then old(left)[op := old(left)[op] - 1] else old(left))
        && overspent == (old(overspent) || (fresh_ && old(left)[op] <= 0))
    {
      var i := FindEntry(blockno);
      ghost var entries := block[..n];
      block[i] := blockno;
      if i == n {
        n := n + 1;
        assert block[..n] == entries + [blockno];
        SumUpdate(left, op, left[op] - 1);
        overspent := overspent || left[op] <= 0;
        left := left[op := left[op] - 1];
      } else {
        assert block[..n] == entries;
      }
    }

    /** log_write on behalf of outstanding operation `op`. Both panics are results; the size
        guard comes first and does not care whether the block would be absorbed. */
    method LogWrite(b: nat, ghost op: nat) returns (r: LogResult)
      requires Valid() && cache.buf.Length == NBUF + 1 && b < NBUF && cache.buf[b].refcnt > 0 && cache.buf[b].valid
      requires IsHome(cache.memdisk[..], p, cache.buf[b].blockno)
      requires op < |left| || left == []
      modifies this`n, this`left, this`overspent, block, cache, cache.buf
      ensures Valid()
      ensures r == TooBig <==> old(n >= LOGSIZE || n >= p.size - 1)
      ensures r == OutsideOfTrans <==> old(!(n >= LOGSIZE || n >= p.size - 1) && outstanding < 1)
      ensures r != Logged ==>
        && n == old(n) && block[..] == old(block[..]) && left == old(left) && overspent == old(overspent)
        && cache.buf[..] == old(cache.buf[..]) && cache.view == old(cache.view) && cache.scratch == old(cache.scratch)
      ensures r == Logged ==>
        var x := old(cache.buf[b]);
        var fresh_ := x.blockno !in old(block[..n]);
        && block[..n] == (if fresh_ then old(block[..n]) + [x.blockno] else old(block[..n]))
        && left == (if fresh_ then old(left)[op := old(left)[op] - 1] else old(left))
        && overspent == (old(overspent) || (fresh_ && old(left)[op] <= 0))
        && cache.buf[..] == old(cache.buf[..])[b := x.(dirty := true)]
        && cache.view == old(cache.view)[x.blockno := x.data]
        && cache.scratch == old(cache.scratch) - {b}
      ensures cache.writes == old(cache.writes) && cache.memdisk[..] == old(cache.memdisk[..])
    {
      hide BCache.Valid, Clean, Tracks, Loggable;
      if n >= LOGSIZE || n >= p.size - 1 {
        return TooBig;
      }
      if outstanding < 1 {
        return OutsideOfTrans;
      }
      ghost var entries, bufs := block[..n], cache.buf[..];
      var x := cache.buf[b].blockno;
      TracksPin(bufs, b, entries);
      if x !in entries { LoggableAdd(cache.memdisk[..], p, entries, x); }
      Record(x, op);
      cache.Pin(b);
      r := Logged;
    }

    /** end_op under log.lock: the last operation out must commit. */
    method EndOp(ghost op: nat) returns (doCommit: bool)
      requires Valid() && op < |left|
      modifies this`outstanding, this`committing, this`left
      ensures Valid() && outstanding == old(outstanding) - 1
      ensures left == old(left)[..op] + old(left)[op + 1..]
      ensures doCommit == committing == (outstanding == 0)
    {
      hide BCache.Valid, Clean, Loggable, Tracks;
      SumRemove(left, op);
      outstanding, left := outstanding - 1, left[..op] + left[op + 1..];
      if outstanding == 0 {
        doCommit, committing := true, true;
      } else {
        doCommit := false;
      }
    }

    /** The rest of end_op: commit, then let operations in again. */
    method CommitAndReopen() returns (ok: bool, ghost k: nat)
      requires Valid() && Ready() && committing
      modifies this`n, this`committing, cache, cache.buf, cache.memdisk
      ensures Progress(old(cache.memdisk[..]), old(cache.writes),
                       CommitWrites(old(cache.memdisk[..]), p, old(Transaction())), k)
      ensures ok ==>
        && Valid() && Ready() && NoPins() && n == 0 && !committing
        && k == |CommitWrites(old(cache.memdisk[..]), p, old(Transaction()))|
        && SameHome(old(cache.view)) && cache.view == cache.memdisk[..] && SameRefs(old(cache.buf[..]), cache.buf[..])
      ensures Spare(old(cache.buf[..])) ==> ok
      ensures old(n) > 0 && Jammed(old(cache.buf[..]), p.start + 1) ==> !ok && k == 0
    {
      hide Jammed, Linked, NoDuplicates, MostRecentFirst, Coherent, Clean, Loggable, CommitWrites, Log.SameHome, Apply;
      ok, k := Commit();
      if ok {
        committing := false;
        assert block[..0] == [];
      }
    }

    // ---- how the file system uses the log ----

    /** Nobody holds a buffer. */
    ghost predicate Idle()
      requires cache.buf.Length == NBUF + 1
      reads cache, cache.buf
    {
      cache.scratch == {} && NoneHeld(cache.buf[..])
    }

    /** No holder is in the middle of changing block b. */
    ghost predicate Settled(b: nat)
      requires cache.buf.Length == NBUF + 1
      reads cache, cache.buf
    {
      forall i :: 0 <= i < NBUF && i in cache.scratch ==> !Holds(cache.buf[i], 1, b)
    }

    /** Block b is neither cached nor is there a buffer to read it into: bread panics. */
    ghost predicate NoRoomFor(b: nat)
      requires cache.buf.Length == NBUF + 1
      reads cache, cache.buf
    {
      Jammed(cache.buf[..], b)
    }

    /** bread between log operations. */
    method Borrow(b: nat) returns (r: Option<nat>)
      requires Valid() && b < cache.memdisk.Length && Settled(b)
      modifies cache, cache.buf, cache.memdisk
      ensures Valid() && cache.view == old(cache.view) && cache.writes == old(cache.writes)
      ensures cache.memdisk[..] == old(cache.memdisk[..]) && cache.scratch <= old(cache.scratch)
      ensures r.None? <==> old(NoRoomFor(b))
      ensures r.Some? ==>
        && cache.buf.Length == NBUF + 1 && b < |cache.view| && r.value < NBUF
        && Holds(cache.buf[r.value], 1, b) && cache.buf[r.value].valid
        && cache.buf[r.value].data == cache.view[b] && r.value !in cache.scratch
        && MoreRefs(old(cache.buf[..]), cache.buf[..], r.value, 1)
    {
      hide Linked, MostRecentFirst, NoDuplicates, Clean, Loggable, Tracks, Log.Reserved;
      ghost var was := cache.buf[..];
      r := cache.Bread(1, b);
      SameTracks(was, cache.buf[..], block[..n]);
    }

    /** brelse between log operations. */
    method Return(x: nat)
      requires Valid() && x < NBUF && cache.buf.Length == NBUF + 1 && cache.buf[x].refcnt > 0
      modifies cache`order, cache`stamp, cache`clock, cache.buf
      ensures Valid() && MoreRefs(old(cache.buf[..]), cache.buf[..], x, -1)
    {
      hide Linked, MostRecentFirst, Coherent, NoDuplicates, Clean, Loggable, Tracks, Log.Reserved;
      ghost var was := cache.buf[..];
      cache.Brelse(x);
      ghost var now := cache.buf[..];
      forall j | 0 <= j < NBUF
        ensures now[j].dirty == was[j].dirty && now[j].blockno == was[j].blockno
        ensures now[j].refcnt == was[j].refcnt - (if j == x then 1 else 0)
      {
        assert Core(now[j]) == if j == x then Core(was[x]).(refcnt := was[x].refcnt - 1) else Core(was[j]);
        assert Core(now[j]).dirty == now[j].dirty && Core(now[j]).blockno == now[j].blockno;
        assert Core(now[j]).refcnt == now[j].refcnt;
      }
      SameTracks(was, now, block[..n]);
    }

    /** Reading a block through the cache gives what was last logged for it, committed or not. */
    method Read(b: nat) returns (r: Option<Block>)
      requires Valid() && b < cache.memdisk.Length && Settled(b)
      modifies cache, cache.buf, cache.memdisk
      ensures Valid() && cache.view == old(cache.view) && cache.writes == old(cache.writes)
      ensures cache.memdisk[..] == old(cache.memdisk[..]) && cache.scratch <= old(cache.scratch)
      ensures r.None? <==> old(NoRoomFor(b))
      ensures r.Some? ==> b < |cache.view| && r.value == cache.view[b] && SameRefs(old(cache.buf[..]), cache.buf[..])
    {
      hide BCache.Valid, Clean, Loggable, Tracks, Log.Reserved, Log.Settled, Log.NoRoomFor;
      var x := Borrow(b);
      if x.None? {
        return None;
      }
      r := Some(cache.buf[x.value].data);
      Return(x.value);
    }

    /** Bread, change, log_write, brelse: readers see the new content at once, the disk does not
        change. None is the "no buffers" panic, TooBig and OutsideOfTrans those of log_write. */
    method Update(b: nat, data: Block, ghost op: nat) returns (r: Option<LogResult>)
      requires Valid() && IsHome(cache.memdisk[..], p, b) && Settled(b)
      requires op < |left| || left == []
      modifies this`n, this`left, this`overspent, block, cache, cache.buf, cache.memdisk
      ensures Valid() && cache.writes == old(cache.writes) && cache.memdisk[..] == old(cache.memdisk[..])
      ensures r.None? <==> old(NoRoomFor(b))
      ensures r == Some(TooBig) <==> old(!NoRoomFor(b) && (n >= LOGSIZE || n >= p.size - 1))
      ensures r == Some(OutsideOfTrans) <==> old(!NoRoomFor(b) && !(n >= LOGSIZE || n >= p.size - 1) && outstanding < 1)
      ensures r == Some(Logged) ==>
        var fresh_ := b !in old(block[..n]);
        && b < |old(cache.view)| && cache.view == old(cache.view)[b := data]
        && block[..n] == (if fresh_ then old(block[..n]) + [b] else old(block[..n]))
        && left == (if fresh_ then old(left)[op := old(left)[op] - 1] else old(left))
        && overspent == (old(overspent) || (fresh_ && old(left)[op] <= 0))
        && cache.scratch <= old(cache.scratch) && SameRefs(old(cache.buf[..]), cache.buf[..])
    {
      hide BCache.Valid, Clean, Loggable, Tracks, Log.Reserved, Log.Settled, Log.NoRoomFor;
      var x := Borrow(b);
      if x.None? {
        return None;
      }
      ghost var mid := cache.buf[..];
      cache.Modify(x.value, data);
      SameTracks(mid, cache.buf[..], block[..n]);
      var w := LogWrite(x.value, op);
      if w == Logged {
        Return(x.value);
      }
      r := Some(w);
    }
  }

  /** Reference counts differ by d at x, and are as before elsewhere. */
  ghost predicate MoreRefs(was: seq<Buf>, now: seq<Buf>, x: nat, d: int)
    requires |was| == |now| == NBUF + 1
  {
    forall j :: 0 <= j < NBUF ==> now[j].refcnt == was[j].refcnt + (if j == x then d else 0)
  }

  lemma SameTracks(was: seq<Buf>, now: seq<Buf>, entries: seq<nat>)
    requires |was| == |now| == NBUF + 1 && Tracks(was, entries)
    requires forall j :: 0 <= j < NBUF ==>
      now[j].dirty == was[j].dirty && (was[j].dirty ==> now[j].blockno == was[j].blockno)
    ensures Tracks(now, entries)
  {
    forall j | 0 <= j < |entries|
      ensures Pinned(now, entries[j])
    {
      SamePins(was, now, entries[j]);
    }
  }

  /** The pinned blocks are exactly the listed ones. */
  ghost predicate Tracks(bufs: seq<Buf>, entries: seq<nat>)
    requires |bufs| == NBUF + 1
  {
    && (forall i :: 0 <= i < NBUF && bufs[i].dirty ==> bufs[i].blockno in entries)
    && forall j :: 0 <= j < |entries| ==> Pinned(bufs, entries[j])
  }

  lemma TracksPin(bufs: seq<Buf>, b: nat, entries: seq<nat>)
    requires |bufs| == NBUF + 1 && b < NBUF && Tracks(bufs, entries)
    ensures var x := bufs[b].blockno;
      Tracks(bufs[b := bufs[b].(dirty := true)], if x in entries then entries else entries + [x])
  {
    var now := bufs[b := bufs[b].(dirty := true)];
    assert now[b].dirty && Pinned(now, bufs[b].blockno);
    forall j | 0 <= j < |entries|
      ensures Pinned(now, entries[j])
    {
      SamePins(bufs, now, entries[j]);
    }
  }

  lemma LoggableAdd(d: Disk, p: Layout, blocks: seq<nat>, x: nat)
    requires Loggable(d, p, blocks) && IsHome(d, p, x) && x !in blocks
    requires |blocks| < LOGSIZE && |blocks| < p.size - 1
    ensures Loggable(d, p, blocks + [x])
  {
  }

  lemma AllGone(was: seq<Buf>, now: seq<Buf>, blocks: seq<nat>)
    requires |was| == |now| == NBUF + 1 && PinsLess(was, now, blocks)
    requires forall i :: 0 <= i < NBUF && was[i].dirty ==> was[i].blockno in blocks
    ensures forall i :: 0 <= i < NBUF ==> !now[i].dirty
  {
  }

  /** The first part of the writes of a recovery is its installs. */
  lemma InstallProgress(d0: Disk, w0: seq<Write>, p: Layout, k: nat)
    requires Recoverable(d0, p) && k <= |Pending(d0, p)|
    ensures var inst := InstallWrites(Pending(d0, p), Slots(d0, p));
      var ws := RecoverWrites(d0, p);
      && ws[..k] == inst[..k] && |ws| == |inst| + 1 && ws[..|ws|] == ws
      && (k == |inst| ==>
            && ws[k] == Write(p.start, HeaderBlock(Apply(d0, ws[..k])[p.start], []))
            && Apply(d0, ws) == Apply(d0, ws[..k])[p.start := ws[k].data]
            && w0 + ws == w0 + ws[..k] + [ws[k]])
  {
    InstallPrefix(d0, p, k);
    var ws := RecoverWrites(d0, p);
    if k < |ws| { ProgressNext(d0, w0, ws, k); }
  }

  lemma SlotsAre(d: Disk, p: Layout)
    requires Recoverable(d, p)
    ensures p.start + 1 + |Pending(d, p)| <= |d|
    ensures Slots(d, p) == d[p.start + 1..p.start + 1 + |Pending(d, p)|]
  {
  }

  lemma SubsetPins(was: seq<Buf>, now: seq<Buf>, blocks: seq<nat>)
    requires |was| == |now| == NBUF + 1 && PinsLess(was, now, [])
    ensures (forall i :: 0 <= i < NBUF && was[i].dirty ==> was[i].blockno in blocks) ==>
      forall i :: 0 <= i < NBUF && now[i].dirty ==> now[i].blockno in blocks
    ensures forall b :: Pinned(was, b) ==> Pinned(now, b)
  {
  }

  /** The writes up to the commit point are the log slots and then the header. */
  lemma HeadProgress(d0: Disk, w0: seq<Write>, p: Layout, t: Txn, k: nat)
    requires Clean(d0, p) && ValidTxn(d0, p, t) && k <= |t.blocks|
    ensures var ws := CommitHead(d0, p, t);
      && |ws| == |t.blocks| + 1 && ws[..|ws|] == ws
      && ws[..k] == LogWrites(p, t.data)[..k]
      && (k == |t.blocks| ==>
            && ws[k] == Write(p.start, HeaderBlock(Apply(d0, ws[..k])[p.start], t.blocks))
            && Apply(d0, ws) == Apply(d0, ws[..k])[p.start := ws[k].data]
            && w0 + ws == w0 + ws[..k] + [ws[k]])
  {
    var ws := CommitHead(d0, p, t);
    assert ws[..k] == LogWrites(p, t.data)[..k];
    LogPrefix(d0, p, t, k);
    ProgressNext(d0, w0, ws, k);
  }

  /** A block outside the transaction is not pinned, so the disk has what readers see. */
  lemma UnpinnedView(bufs: seq<Buf>, d: Disk, v: seq<Block>, scratch: set<nat>, blocks: seq<nat>)
    requires |bufs| == NBUF + 1 && Coherent(bufs, d, v, scratch)
    requires forall i :: 0 <= i < NBUF && bufs[i].dirty ==> bufs[i].blockno in blocks
    ensures |v| == |d| && forall b :: 0 <= b < |d| && b !in blocks ==> v[b] == d[b]
  {
  }

  lemma CommitJoin(d0: Disk, p: Layout, t: Txn, k: nat)
    requires Clean(d0, p) && ValidTxn(d0, p, t) && t.blocks != [] && k <= |t.blocks| + 1
    ensures k <= |CommitWrites(d0, p, t)| && CommitHead(d0, p, t)[..k] == CommitWrites(d0, p, t)[..k]
    ensures CommitHead(d0, p, t)[..|t.blocks| + 1] == CommitHead(d0, p, t)
    ensures var e := Apply(d0, CommitHead(d0, p, t)); Recoverable(e, p) && Pending(e, p) == t.blocks
  {
    AtCommitPoint(d0, p, t);
    CommitIsLogThenRecover(d0, p, t);
  }

  lemma RestJoin(d0: Disk, w0: seq<Write>, p: Layout, t: Txn, j: nat)
    requires Clean(d0, p) && ValidTxn(d0, p, t) && t.blocks != []
    requires Recoverable(Apply(d0, CommitHead(d0, p, t)), p)
    requires j <= |RecoverWrites(Apply(d0, CommitHead(d0, p, t)), p)|
    ensures var head, ws := CommitHead(d0, p, t), CommitWrites(d0, p, t);
      var rest := RecoverWrites(Apply(d0, head), p);
      && |ws| == |head| + |rest|
      && w0 + head + rest[..j] == w0 + ws[..|head| + j]
      && Apply(Apply(d0, head), rest[..j]) == Apply(d0, ws[..|head| + j])
  {
    hide *;
    CommitIsLogThenRecover(d0, p, t);
    var head := CommitHead(d0, p, t);
    JoinPast(d0, w0, head, RecoverWrites(Apply(d0, head), p), CommitWrites(d0, p, t), j);
  }

  lemma JoinPast(d0: Disk, w0: seq<Write>, head: seq<Write>, rest: seq<Write>, ws: seq<Write>, j: nat)
    requires ws == head + rest && j <= |rest|
    ensures w0 + head + rest[..j] == w0 + ws[..|head| + j]
    ensures Apply(Apply(d0, head), rest[..j]) == Apply(d0, ws[..|head| + j])
  {
    ApplyPast(d0, head, rest, j);
  }

  /** After a whole commit the home blocks hold what readers saw before it. */
  lemma CommitView(d0: Disk, v0: seq<Block>, p: Layout, t: Txn)
    requires Clean(d0, p) && ValidTxn(d0, p, t) && |v0| == |d0|
    requires forall i :: 0 <= i < |t.blocks| ==> t.data[i] == v0[t.blocks[i]]
    requires forall b :: 0 <= b < |d0| && b !in t.blocks ==> v0[b] == d0[b]
    ensures var e := Apply(d0, CommitWrites(d0, p, t));
      && Clean(e, p) && forall b: nat :: b < |d0| && !InLog(p, b) ==> e[b] == v0[b]
  {
    var ws := CommitWrites(d0, p, t);
    CommitCrash(d0, p, t, |ws|);
    assert ws[..|ws|] == ws;
    var e := Apply(d0, ws);
    forall b: nat | b < |d0| && !InLog(p, b)
      ensures e[b] == v0[b]
    {
      CleanHomeIsDisk(e, p, b);
      CleanHomeIsDisk(d0, p, b);
    }
  }

  lemma EmptyCommit(d0: Disk, p: Layout, t: Txn)
    requires ValidTxn(d0, p, t) && t.blocks == []
    ensures CommitWrites(d0, p, t) == [] && Apply(d0, []) == d0
  {
  }

  lemma ProgressNext(d0: Disk, w0: seq<Write>, ws: seq<Write>, k: nat)
    requires k < |ws| && ws[k].blockno < |d0|
    ensures Apply(d0, ws[..k + 1]) == Apply(d0, ws[..k])[ws[k].blockno := ws[k].data]
    ensures w0 + ws[..k + 1] == w0 + ws[..k] + [ws[k]]
  {
    ApplyNext(d0, ws, k);
  }

  lemma SameLoggable(d: Disk, e: Disk, p: Layout, blocks: seq<nat>)
    requires Loggable(d, p, blocks) && |e| == |d|
    ensures Loggable(e, p, blocks)
  {
  }

  // ---- when a commit cannot run out of buffers ----

  ghost function BlocksOf(bufs: seq<Buf>, k: nat): (r: seq<nat>)
    requires |bufs| == NBUF + 1 && k <= NBUF
    ensures |r| == k && forall i :: 0 <= i < k ==> r[i] == bufs[i].blockno
  {
    seq(k, i requires 0 <= i < k => bufs[i].blockno)
  }

  lemma {:induction false} DistinctFit(s: seq<nat>, t: seq<nat>)
    requires Distinct(s) && forall i :: 0 <= i < |s| ==> s[i] in t
    ensures |s| <= |t|
    decreases |s|
  {
    if s != [] {
      var m := |s| - 1;
      var k := IndexIn(t, s[m]);
      var t' := t[..k] + t[k + 1..];
      forall i | 0 <= i < m
        ensures s[..m][i] in t'
      {
        var j := IndexIn(t, s[i]);
        assert t'[if j < k then j else j - 1] == s[i];
      }
      DistinctFit(s[..m], t');
    }
  }

  /** With no buffer referenced and fewer blocks listed than there are buffers, one buffer
      is recyclable, which is all that commit() needs. */
  lemma IdleHasSpare(bufs: seq<Buf>, entries: seq<nat>)
    requires |bufs| == NBUF + 1 && NoDuplicates(bufs) && Tracks(bufs, entries)
    requires forall i :: 0 <= i < NBUF ==> bufs[i].refcnt == 0 && (bufs[i].dirty ==> bufs[i].dev == 1)
    requires |entries| < NBUF
    ensures Spare(bufs)
  {
    if forall i :: 0 <= i < NBUF ==> bufs[i].dirty {
      DistinctFit(BlocksOf(bufs, NBUF), entries);
      assert false;
    } else {
      var i :| 0 <= i < NBUF && !bufs[i].dirty;
      assert Recyclable(bufs[i]);
    }
  }

  /** initlog at boot over whatever a crash left: recovery runs to its end, puts the content
      the disk stood for into the home blocks and starts with an empty log. */
  method Boot(memdisk: array<Block>, p: Layout) returns (log: Log)
    requires Recoverable(memdisk[..], p)
    modifies memdisk
    ensures fresh(log) && fresh(log.block) && fresh(log.cache) && fresh(log.cache.buf)
    ensures log.cache.memdisk == memdisk && log.p == p && log.cache.view == memdisk[..]
    ensures log.Valid() && log.Idle() && log.n == 0 && log.outstanding == 0 && !log.committing && !log.overspent
    ensures memdisk[..] == Apply(old(memdisk[..]), RecoverWrites(old(memdisk[..]), p))
    ensures Clean(memdisk[..], p) && Home(memdisk[..], p) == Home(old(memdisk[..]), p)
  {
    hide Linked, MostRecentFirst, NoDuplicates, Apply, RecoverWrites, Loggable, HeaderEntries;
    var cache := new BCache(memdisk);
    log := new Log(cache, p);
    assert Core(cache.buf[0]).refcnt == 0 && !Core(cache.buf[0]).dirty;
    assert Core(cache.buf[1]).refcnt == 0 && !Core(cache.buf[1]).dirty;
    assert Recyclable(cache.buf[..][0]) && Recyclable(cache.buf[..][1]);
    ghost var was := cache.buf[..];
    forall i | 0 <= i < NBUF
      ensures !was[i].dirty && was[i].refcnt == 0
    {
      assert !Core(cache.buf[i]).dirty && Core(cache.buf[i]).refcnt == 0;
    }
    ghost var d0 := memdisk[..];
    ghost var k;
    var ok;
    ok, k := log.Recover();
    RecoveryCrash(d0, p, k);
    assert RecoverWrites(d0, p)[..k] == RecoverWrites(d0, p);
    UnpinnedView(cache.buf[..], memdisk[..], cache.view, cache.scratch, []);
    assert log.block[..0] == [];
    assert Tracks(cache.buf[..], []);
    assert SameRefs(was, cache.buf[..]);
  }
}
