/** The running log as the file system sees it: any sequence of reads, logged updates, begin_op,
    end_op and commits, with reboots after panics and power failures, behaves like two plain maps,
    what readers see now and what a crash would leave. */
module LogRun {
  import opened Common
  import opened Blocks
  import opened CrashRecovery
  import opened BufferCache
  import L = Log

  datatype Call =
    | ReadBlock(b: nat)
    | WriteBlock(b: nat, data: Block, op: nat)  // op: on whose behalf
    | BeginOp
    | EndOp(op: nat)
    | CommitLog
    | PowerFail(k: nat, again: seq<nat>) // after k block writes of a commit, and in recovery again and again

  /** Skipped: begin_op would sleep, or there is nothing to end or commit. Rebooted: a panic or a
      power failure, and then recovery. */
  datatype Reply = Content(data: Block) | Done | Skipped | Rebooted

  /** The two maps, and what log.lh and the counters of struct log say. */
  datatype Mem = Mem(now: map<nat, Block>, stable: map<nat, Block>, listed: seq<nat>, outstanding: nat,
                     committing: bool)

  function Fresh(home: map<nat, Block>): (r: Mem) { Mem(home, home, [], 0, false) }

  /** Is every buffer pinned by the log? */
  predicate Full(m: Mem) { |m.listed| >= NBUF }

  predicate NoSpace(p: Layout, m: Mem) { |m.listed| >= LOGSIZE || |m.listed| >= p.size - 1 }

  /** What the two maps answer; `kept`: a transaction became durable. */
  ghost predicate Answers(p: Layout, m: Mem, c: Call, r: Reply, kept: bool, m': Mem)
  {
    match c
    case ReadBlock(b) =>
      if Full(m) && b !in m.listed then r == Rebooted && !kept && m' == Fresh(m.stable)
      else b in m.now && r == Content(m.now[b]) && !kept && m' == m
    case WriteBlock(b, data, op) =>
      if NoSpace(p, m) || m.outstanding < 1 then r == Rebooted && !kept && m' == Fresh(m.stable)
      else r == Done && !kept && m' == Written(m, b, data)
    case BeginOp =>
      if m.committing || |m.listed| + (m.outstanding + 1) * MAXOPBLOCKS > LOGSIZE then r == Skipped && !kept && m' == m
      else r == Done && !kept && m' == m.(outstanding := m.outstanding + 1)
    case EndOp(op) =>
      if m.outstanding == 0 then r == Skipped && !kept && m' == m
      else r == Done && !kept && m' == m.(outstanding := m.outstanding - 1, committing := m.outstanding == 1)
    case CommitLog =>
      if !m.committing then r == Skipped && !kept && m' == m
      else if Full(m) then r == Rebooted && !kept && m' == Fresh(m.stable)
      else r == Done && kept && m' == Fresh(m.now)
    case PowerFail(k, again) =>
      r == Rebooted && kept == (m.committing && !Full(m) && 0 < |m.listed| < k)
      && m' == Fresh(if kept then m.now else m.stable)
  }

  function Written(m: Mem, b: nat, data: Block): (r: Mem)
  {
    m.(now := m.now[b := data], listed := if b in m.listed then m.listed else m.listed + [b])
  }

  /** The file system reads and updates home blocks. */
  predicate Proper(d: Disk, p: Layout, c: Call)
  {
    (c.ReadBlock? ==> IsHome(d, p, c.b)) && (c.WriteBlock? ==> IsHome(d, p, c.b))
  }

  /** The log and its cache stand for m. */
  ghost predicate Shows(log: L.Log, m: Mem)
    reads log, log.block, log.cache, log.cache.buf, log.cache.memdisk
  {
    && log.Valid() && log.Idle()
    && m.now == HomeOf(log.p, log.cache.view) && m.stable == HomeOf(log.p, log.cache.memdisk[..])
    && m.listed == log.block[..log.n] && m.outstanding == log.outstanding && m.committing == log.committing
  }

  // ---- what a call does to the disk ----

  /** Crashed: after k block writes of the commit of t, and then in each of the recoveries `again`. */
  datatype Move = Still | Committed(t: Txn) | Crashed(t: Txn, k: nat, again: seq<nat>)

  ghost predicate MovePossible(p: Layout, d: Disk, mv: Move)
  {
    match mv
    case Still => true
    case Committed(t) => Clean(d, p) && ValidTxn(d, p, t)
    case Crashed(t, k, again) =>
      && Clean(d, p) && ValidTxn(d, p, t) && k <= |CommitWrites(d, p, t)|
      && Recoverable(Apply(d, CommitWrites(d, p, t)[..k]), p)
  }

  ghost function Cut(p: Layout, d: Disk, t: Txn, k: nat): (e: Disk)
    requires ValidTxn(d, p, t) && k <= |CommitWrites(d, p, t)|
  {
    Apply(d, CommitWrites(d, p, t)[..k])
  }

  /** How many block writes a recovery gets to when power fails after k. */
  function Reached(p: Layout, e: Disk, k: nat): (r: nat)
    requires Recoverable(e, p)
    ensures r <= |RecoverWrites(e, p)|
  {
    Min(k, |RecoverWrites(e, p)|)
  }

  /** What recoveries that the power fails in leave. */
  ghost function Retried(p: Layout, e: Disk, again: seq<nat>): (d: Disk)
    requires Recoverable(e, p)
    ensures Recoverable(d, p) && Home(d, p) == Home(e, p) && |d| == |e|
    decreases |again|
  {
    if again == [] then e
    else
      var d := Retried(p, e, again[..|again| - 1]);
      var k := Reached(p, d, again[|again| - 1]);
      RecoveryCrash(d, p, k);
      Apply(d, RecoverWrites(d, p)[..k])
  }

  ghost function RetryEvents(p: Layout, e: Disk, again: seq<nat>): (r: seq<Event>)
    requires Recoverable(e, p)
    ensures |r| == |again|
  {
    if again == [] then []
    else
      var n := |again| - 1;
      RetryEvents(p, e, again[..n]) + [CrashInRecovery(Reached(p, Retried(p, e, again[..n]), again[n]))]
  }

  ghost function RetryStates(p: Layout, e: Disk, again: seq<nat>): (r: seq<Machine>)
    requires Recoverable(e, p)
    ensures |r| == |again|
  {
    if again == [] then [] else RetryStates(p, e, again[..|again| - 1]) + [Machine(Retried(p, e, again), false)]
  }

  ghost function After(p: Layout, d: Disk, mv: Move): (e: Disk)
    requires MovePossible(p, d, mv)
  {
    match mv
    case Still => d
    case Committed(t) => Apply(d, CommitWrites(d, p, t))
    case Crashed(t, k, again) =>
      var e := Retried(p, Cut(p, d, t, k), again);
      Apply(e, RecoverWrites(e, p))
  }

  ghost function EventsOf(p: Layout, d: Disk, mv: Move): (r: seq<Event>)
    requires MovePossible(p, d, mv)
  {
    match mv
    case Still => []
    case Committed(t) => [Commit(t)]
    case Crashed(t, k, again) => [CrashInCommit(t, k)] + RetryEvents(p, Cut(p, d, t, k), again) + [Recover]
  }

  ghost function StatesOf(p: Layout, d: Disk, mv: Move): (r: seq<Machine>)
    requires MovePossible(p, d, mv)
    ensures |r| == |EventsOf(p, d, mv)|
  {
    match mv
    case Still => []
    case Committed(t) => [Machine(After(p, d, mv), true)]
    case Crashed(t, k, again) =>
      var e := Cut(p, d, t, k);
      [Machine(e, false)] + RetryStates(p, e, again) + [Machine(After(p, d, mv), true)]
  }

  /** The transaction that became durable, if one did. */
  ghost function Kept(mv: Move): (r: seq<Txn>)
  {
    match mv
    case Still => []
    case Committed(t) => [t]
    case Crashed(t, k, again) => if k <= |t.blocks| then [] else [t]
  }

  /** The disk made move mv while the home blocks a crash would leave went from h to h'. */
  ghost predicate Moved(p: Layout, d: Disk, mv: Move, d': Disk, h: map<nat, Block>, h': map<nat, Block>)
  {
    && MovePossible(p, d, mv) && d' == After(p, d, mv)
    && if Kept(mv) == [] then h' == h else |Kept(mv)[0].data| == |Kept(mv)[0].blocks| && h' == Install(h, Kept(mv)[0])
  }

  /** The disk's part of the story so far. */
  ghost predicate AtDisk(p: Layout, events: seq<Event>, states: seq<Machine>, d: Disk)
  {
    IsRun(p, events, states) && states[|events|] == Machine(d, true)
  }

  /** Recoveries that fail are steps of the machine, after which no more is durable. */
  lemma {:induction false} ExtendRetries(p: Layout, events: seq<Event>, states: seq<Machine>, e: Disk, again: seq<nat>)
    requires IsRun(p, events, states) && states[|events|] == Machine(e, false) && Recoverable(e, p)
    ensures var evs, sts := events + RetryEvents(p, e, again), states + RetryStates(p, e, again);
      && IsRun(p, evs, sts) && |sts| == |evs| + 1 && sts[|evs|] == Machine(Retried(p, e, again), false)
      && Durable(evs) == Durable(events)
    decreases |again|
  {
    hide Apply, RecoverWrites, Recoverable, Home, IsRun, Durable, Reached;
    RunShape(p, events, states);
    if again == [] {
      assert events + [] == events && states + [] == states;
    } else {
      var n := |again| - 1;
      ExtendRetries(p, events, states, e, again[..n]);
      var evs, sts := events + RetryEvents(p, e, again[..n]), states + RetryStates(p, e, again[..n]);
      var d := Retried(p, e, again[..n]);
      var ev := CrashInRecovery(Reached(p, d, again[n]));
      RunNext(p, evs, sts, d, false, ev);
      assert evs + [ev] == events + RetryEvents(p, e, again);
      assert sts + [Machine(Retried(p, e, again), false)] == states + RetryStates(p, e, again);
      assert Durable(evs) + [] == Durable(evs);
    }
  }

  lemma RunShape(p: Layout, events: seq<Event>, states: seq<Machine>)
    requires IsRun(p, events, states)
    ensures |states| == |events| + 1
  {
  }

  lemma Extend(p: Layout, events: seq<Event>, states: seq<Machine>, d: Disk, mv: Move)
    requires AtDisk(p, events, states, d) && MovePossible(p, d, mv)
    ensures AtDisk(p, events + EventsOf(p, d, mv), states + StatesOf(p, d, mv), After(p, d, mv))
    ensures Durable(events + EventsOf(p, d, mv)) == Durable(events) + Kept(mv)
  {
    hide Apply, CommitWrites, RecoverWrites, Clean, Recoverable, ValidTxn, Home, IsRun, Durable, RetryEvents,
         RetryStates, Retried;
    RunShape(p, events, states);
    match mv
    case Still =>
      assert events + [] == events && states + [] == states && Durable(events) + [] == Durable(events);
    case Committed(t) =>
      RunNext(p, events, states, d, true, Commit(t));
    case Crashed(t, k, again) =>
      var cut, e := CrashInCommit(t, k), Cut(p, d, t, k);
      RunNext(p, events, states, d, true, cut);
      ExtendRetries(p, events + [cut], states + [Machine(e, false)], e, again);
      var evs := events + [cut] + RetryEvents(p, e, again);
      var sts := states + [Machine(e, false)] + RetryStates(p, e, again);
      RunNext(p, evs, sts, Retried(p, e, again), false, Recover);
      assert events + EventsOf(p, d, mv) == evs + [Recover];
      assert states + StatesOf(p, d, mv) == sts + [Machine(After(p, d, mv), true)];
      assert Durable(evs) + [] == Durable(evs);
  }

  // ---- the calls ----

  /** With no buffer held, bread finds no buffer exactly when the log pins all of them and lists
      other blocks. */
  lemma NoRoomIffFull(bufs: seq<Buf>, entries: seq<nat>, b: nat)
    requires |bufs| == NBUF + 1 && NoDuplicates(bufs) && L.Tracks(bufs, entries) && Distinct(entries)
    requires forall i :: 0 <= i < NBUF ==> bufs[i].refcnt == 0 && (bufs[i].dirty ==> bufs[i].dev == 1)
    ensures L.Jammed(bufs, b) <==> |entries| >= NBUF && b !in entries
  {
    if |entries| < NBUF {
      L.IdleHasSpare(bufs, entries);
    } else {
      AllPinned(bufs, entries);
      if b in entries { assert Pinned(bufs, entries[IndexIn(entries, b)]); }
    }
  }

  lemma AllPinned(bufs: seq<Buf>, entries: seq<nat>)
    requires |bufs| == NBUF + 1 && L.Tracks(bufs, entries) && Distinct(entries) && |entries| >= NBUF
    ensures forall i :: 0 <= i < NBUF ==> bufs[i].dirty
  {
    if x :| 0 <= x < NBUF && !bufs[x].dirty {
      var all := L.BlocksOf(bufs, NBUF);
      var rest := all[..x] + all[x + 1..];
      forall j | 0 <= j < |entries|
        ensures entries[j] in rest
      {
        assert Pinned(bufs, entries[j]);
        var i :| 0 <= i < NBUF && bufs[i].dirty && bufs[i].blockno == entries[j];
        assert rest[if i < x then i else i - 1] == entries[j];
      }
      L.DistinctFit(entries, rest);
    }
  }

  lemma RoomAt(log: L.Log, b: nat)
    requires log.Valid() && log.Idle()
    ensures log.NoRoomFor(b) <==> (log.n >= NBUF && b !in log.block[..log.n])
  {
    hide Linked, MostRecentFirst, Clean;
    NoRoomIffFull(log.cache.buf[..], log.block[..log.n], b);
  }

  lemma HomeUpdate(p: Layout, bs: seq<Block>, b: nat, data: Block)
    requires b < |bs| && !InLog(p, b)
    ensures HomeOf(p, bs[b := data]) == HomeOf(p, bs)[b := data]
  {
  }

  lemma HomeSame(p: Layout, bs: seq<Block>, cs: seq<Block>)
    requires |cs| == |bs| && forall b: nat :: b < |bs| && !InLog(p, b) ==> cs[b] == bs[b]
    ensures HomeOf(p, cs) == HomeOf(p, bs)
  {
  }

  /** Installing the running transaction turns what the disk has into what readers see. */
  lemma TransactionIsView(log: L.Log)
    requires log.Ready()
    ensures Install(HomeOf(log.p, log.cache.memdisk[..]), log.Transaction()) == HomeOf(log.p, log.cache.view)
  {
    L.UnpinnedView(log.cache.buf[..], log.cache.memdisk[..], log.cache.view, log.cache.scratch, log.block[..log.n]);
  }

  /** initlog after a crash. */
  method Restart(log: L.Log) returns (next: L.Log)
    requires Recoverable(log.cache.memdisk[..], log.p)
    modifies log.cache.memdisk
    ensures fresh(next) && fresh(next.block) && fresh(next.cache) && fresh(next.cache.buf)
    ensures next.cache.memdisk == log.cache.memdisk && next.p == log.p
    ensures Shows(next, Fresh(Home(old(log.cache.memdisk[..]), log.p)))
    ensures log.cache.memdisk[..] == Apply(old(log.cache.memdisk[..]), RecoverWrites(old(log.cache.memdisk[..]), log.p))
  {
    hide L.Log.Valid, L.Log.Idle, Home, HomeOf, Apply, RecoverWrites, Clean;
    next := L.Boot(log.cache.memdisk, log.p);
    CleanIsHome(log.p, log.cache.memdisk[..]);
  }

  /** A panic stops the machine outside a commit. */
  method Crash(log: L.Log, ghost h: map<nat, Block>) returns (next: L.Log, ghost mv: Move)
    requires Clean(log.cache.memdisk[..], log.p) && h == HomeOf(log.p, log.cache.memdisk[..])
    modifies log.cache.memdisk
    ensures fresh(next) && fresh(next.block) && fresh(next.cache) && fresh(next.cache.buf)
    ensures next.cache.memdisk == log.cache.memdisk && next.p == log.p
    ensures Shows(next, Fresh(h)) && Kept(mv) == []
    ensures Moved(log.p, old(log.cache.memdisk[..]), mv, log.cache.memdisk[..], h, h)
  {
    hide L.Log.Valid, L.Log.Idle, Home, HomeOf, RecoverWrites;
    ghost var d := log.cache.memdisk[..];
    mv := Crashed(Txn([], []), 0, []);
    assert CommitWrites(d, log.p, Txn([], [])) == [];
    CleanIsHome(log.p, d);
    next := Restart(log);
  }

  /** The first k of the block writes ws reach the disk. */
  method WriteFirst(memdisk: array<Block>, ws: seq<Write>, k: nat)
    requires k <= |ws|
    modifies memdisk
    ensures memdisk[..] == Apply(old(memdisk[..]), ws[..k])
  {
    for i := 0 to k
      invariant memdisk[..] == Apply(old(memdisk[..]), ws[..i])
    {
      ghost var e := memdisk[..];
      assert ws[..i + 1][..i] == ws[..i];
      if ws[i].blockno < memdisk.Length {
        memdisk[ws[i].blockno] := ws[i].data;
        assert memdisk[..] == e[ws[i].blockno := ws[i].data];
      }
    }
  }

  /** What the log would write into its slots: the content of the pinned buffers. */
  method PinnedData(log: L.Log) returns (data: seq<Block>)
    requires log.Valid() && log.Ready()
    ensures data == log.Contents()
  {
    data := [];
    for i := 0 to log.n
      invariant data == log.Contents()[..i]
    {
      assert Pinned(log.cache.buf[..], log.block[..log.n][i]);
      var x := log.cache.FindCached(1, log.block[i]);
      data := data + [log.cache.buf[x].data];
    }
  }

  /** Recovery starts again and again, and the power fails in it each time. */
  method Retry(memdisk: array<Block>, p: Layout, again: seq<nat>)
    requires Recoverable(memdisk[..], p)
    modifies memdisk
    ensures memdisk[..] == Retried(p, old(memdisk[..]), again)
  {
    hide Recoverable, Apply, RecoverWrites, Home;
    for i := 0 to |again|
      invariant memdisk[..] == Retried(p, old(memdisk[..]), again[..i])
    {
      assert again[..i + 1][..i] == again[..i];
      var ws := RecoverWrites(memdisk[..], p);
      WriteFirst(memdisk, ws, Reached(p, memdisk[..], again[i]));
    }
    assert again[..|again|] == again;
  }

  lemma Facts(log: L.Log, m: Mem)
    requires Shows(log, m)
    ensures |m.listed| == log.n <= LOGSIZE && Clean(log.cache.memdisk[..], log.p) && log.Ready()
    ensures |log.cache.view| == log.cache.memdisk.Length && (m.committing ==> m.outstanding == 0)
    ensures !Full(m) ==> L.Spare(log.cache.buf[..])
  {
    hide Linked, MostRecentFirst, Clean;
    if !Full(m) { L.IdleHasSpare(log.cache.buf[..], log.block[..log.n]); }
  }

  method DoRead(log: L.Log, b: nat, ghost m: Mem) returns (r: Option<Block>)
    requires Shows(log, m) && IsHome(log.cache.memdisk[..], log.p, b)
    modifies log.cache, log.cache.buf, log.cache.memdisk
    ensures log.cache.memdisk[..] == old(log.cache.memdisk[..])
    ensures r.None? <==> Full(m) && b !in m.listed
    ensures r.Some? ==> b in m.now && r.value == m.now[b] && Shows(log, m)
  {
    hide L.Log.Valid, L.Log.NoRoomFor, L.Log.Ready;
    RoomAt(log, b);
    Facts(log, m);
    r := log.Read(b);
  }

  method DoWrite(log: L.Log, b: nat, data: Block, ghost op: nat, ghost m: Mem) returns (ok: bool)
    requires Shows(log, m) && IsHome(log.cache.memdisk[..], log.p, b)
    modifies log, log.block, log.cache, log.cache.buf, log.cache.memdisk
    ensures log.cache.memdisk[..] == old(log.cache.memdisk[..])
    ensures ok <==> !(NoSpace(log.p, m) || m.outstanding < 1)
    ensures ok ==> Shows(log, Written(m, b, data))
  {
    hide L.Log.Valid, L.Log.NoRoomFor, L.Log.Ready, HomeOf;
    RoomAt(log, b);
    Facts(log, m);
    HomeUpdate(log.p, log.cache.view, b, data);
    var r := log.Update(b, data, if op < |log.left| then op else 0);
    ok := r.Some? && r.value.Logged?;
    assert r.Some? ==> r.value.Logged? || r.value.TooBig? || r.value.OutsideOfTrans?;
  }

  method DoCommit(log: L.Log, ghost m: Mem) returns (next: L.Log, ok: bool, ghost mv: Move)
    requires Shows(log, m) && m.committing
    modifies log, log.block, log.cache, log.cache.buf, log.cache.memdisk
    ensures next.cache.memdisk == log.cache.memdisk && next.p == log.p
    ensures next == log || (fresh(next) && fresh(next.block) && fresh(next.cache) && fresh(next.cache.buf))
    ensures ok <==> !Full(m)
    ensures ok <==> Kept(mv) != []
    ensures var h := if ok then m.now else m.stable;
      Shows(next, Fresh(h)) && Moved(log.p, old(log.cache.memdisk[..]), mv, log.cache.memdisk[..], m.stable, h)
  {
    hide L.Log.Valid, BCache.Valid, L.Spare, L.Jammed, Clean, Loggable, Recoverable, Home, HomeOf, Install,
         CommitWrites,
         RecoverWrites, Apply;
    next := log;
    Facts(log, m);
    SlotUncached(log, m);
    ghost var d, t, v := log.cache.memdisk[..], log.Transaction(), log.cache.view;
    TransactionIsView(log);
    CleanIsHome(log.p, d);
    ghost var k;
    ok, k := log.CommitAndReopen();
    CommitCrash(d, log.p, t, k);
    if ok {
      mv := Committed(t);
      assert CommitWrites(d, log.p, t)[..k] == CommitWrites(d, log.p, t);
      HomeSame(log.p, v, log.cache.memdisk[..]);
    } else {
      mv := Crashed(t, k, []);
      next := Restart(log);
    }
  }

  /** When the log pins every buffer, there is none to read the first log slot into. */
  lemma SlotUncached(log: L.Log, m: Mem)
    requires Shows(log, m)
    ensures Full(m) ==> log.n > 0 && L.Jammed(log.cache.buf[..], log.p.start + 1)
  {
    hide Linked, MostRecentFirst, Clean, HomeOf, L.Jammed, L.Tracks;
    if Full(m) {
      RoomAt(log, log.p.start + 1);
      assert forall i :: 0 <= i < log.n ==> IsHome(log.cache.memdisk[..], log.p, log.block[..log.n][i]);
    }
  }

  /** Power fails. If a commit is on, the disk has seen the first k of its block writes, which are
      those of CommitWrites in order (see Log.Commit); or none, if it cannot start. */
  method DoPowerFail(log: L.Log, k: nat, again: seq<nat>, ghost m: Mem) returns (next: L.Log, ghost mv: Move)
    requires Shows(log, m)
    modifies log.cache.memdisk
    ensures fresh(next) && fresh(next.block) && fresh(next.cache) && fresh(next.cache.buf)
    ensures next.cache.memdisk == log.cache.memdisk && next.p == log.p
    ensures Kept(mv) != [] <==> m.committing && !Full(m) && 0 < |m.listed| < k
    ensures var h := if Kept(mv) != [] then m.now else m.stable;
      Shows(next, Fresh(h)) && Moved(log.p, old(log.cache.memdisk[..]), mv, log.cache.memdisk[..], m.stable, h)
  {
    hide L.Log.Valid, L.Log.Idle, BCache.Valid, L.Spare, Clean, Recoverable, Home, HomeOf, Install, CommitWrites,
         RecoverWrites, Apply;
    Facts(log, m);
    ghost var d := log.cache.memdisk[..];
    CleanIsHome(log.p, d);
    TransactionIsView(log);
    var t, ws := Txn([], []), [];
    if log.committing && log.n < NBUF {
      var data := PinnedData(log);
      t := Txn(log.block[..log.n], data);
      ws := CommitWrites(log.cache.memdisk[..], log.p, t);
    } else {
      NothingToWrite(d, log.p);
    }
    CommitLength(d, log.p, t);
    var n := Min(k, |ws|);
    CommitCrash(d, log.p, t, n);
    WriteFirst(log.cache.memdisk, ws, n);
    Retry(log.cache.memdisk, log.p, again);
    mv := Crashed(t, n, again);
    next := Restart(log);
  }

  lemma NothingToWrite(d: Disk, p: Layout)
    requires Clean(d, p)
    ensures ValidTxn(d, p, Txn([], [])) && CommitWrites(d, p, Txn([], [])) == []
  {
  }

  /** One call on the running log. */
  method Step(log: L.Log, c: Call, ghost m: Mem) returns (next: L.Log, r: Reply, ghost mv: Move, ghost m': Mem)
    requires Shows(log, m) && Proper(log.cache.memdisk[..], log.p, c)
    modifies log, log.block, log.cache, log.cache.buf, log.cache.memdisk
    ensures next.cache.memdisk == log.cache.memdisk && next.p == log.p
    ensures next == log || (fresh(next) && fresh(next.block) && fresh(next.cache) && fresh(next.cache.buf))
    ensures Shows(next, m') && Answers(log.p, m, c, r, Kept(mv) != [], m')
    ensures Moved(log.p, old(log.cache.memdisk[..]), mv, log.cache.memdisk[..], m.stable, m'.stable)
  {
    hide L.Log.Valid, L.Log.Ready, Clean, HomeOf, IsHome, CommitWrites, RecoverWrites, Apply, Install;
    next, r, mv, m' := log, Done, Still, m;
    Facts(log, m);
    match c
    case ReadBlock(b) =>
      var x := DoRead(log, b, m);
      if x.Some? {
        r := Content(x.value);
      } else {
        next, mv := Crash(log, m.stable);
        r, m' := Rebooted, Fresh(m.stable);
      }
    case WriteBlock(b, data, op) =>
      var ok := DoWrite(log, b, data, op, m);
      if ok {
        m' := Written(m, b, data);
      } else {
        next, mv := Crash(log, m.stable);
        r, m' := Rebooted, Fresh(m.stable);
      }
    case BeginOp =>
      var admitted := log.BeginOp();
      if admitted {
        m' := m.(outstanding := m.outstanding + 1);
      } else {
        r := Skipped;
      }
    case EndOp(op) =>
      if log.outstanding == 0 {
        r := Skipped;
      } else {
        EndFacts(log);
        var last := log.EndOp(if op < |log.left| then op else 0);
        m' := m.(outstanding := m.outstanding - 1, committing := m.outstanding == 1);
      }
    case CommitLog =>
      if log.committing {
        var ok;
        next, ok, mv := DoCommit(log, m);
        r := if ok then Done else Rebooted;
        m' := Fresh(if ok then m.now else m.stable);
      } else {
        r := Skipped;
      }
    case PowerFail(k, again) =>
      next, mv := DoPowerFail(log, k, again, m);
      r, m' := Rebooted, Fresh(if Kept(mv) != [] then m.now else m.stable);
  }

  lemma EndFacts(log: L.Log)
    requires log.Valid()
    ensures |log.left| == log.outstanding
  {
  }

  // ---- any number of calls ----

  datatype Story = Story(calls: seq<Call>, replies: seq<Reply>, moves: seq<Move>, mems: seq<Mem>,
                         events: seq<Event>, states: seq<Machine>)

  /** The content at the start and after each transaction that became durable. */
  ghost function Marks(moves: seq<Move>, mems: seq<Mem>): (r: seq<map<nat, Block>>)
    requires |mems| == |moves| + 1
    ensures |r| > 0
  {
    if moves == [] then [mems[0].stable]
    else
      var n := |moves| - 1;
      Marks(moves[..n], mems[..n + 1]) + (if Kept(moves[n]) == [] then [] else [mems[n + 1].stable])
  }

  /** Each transaction takes one content to the next. */
  ghost predicate Chain(marks: seq<map<nat, Block>>, ts: seq<Txn>)
  {
    && |marks| == |ts| + 1
    && (forall k :: 0 <= k < |ts| ==> |ts[k].data| == |ts[k].blocks|)
    && forall k, l :: 0 <= k < l < |marks| && l == k + 1 ==> marks[l] == Install(marks[k], ts[k])
  }

  /** Every call was answered as by the two maps. */
  ghost predicate Heard(p: Layout, s: Story, m: Mem)
  {
    && |s.calls| == |s.replies| == |s.moves| && |s.mems| == |s.calls| + 1 && s.mems[|s.calls|] == m
    && forall i, j :: 0 <= i < j < |s.mems| && j == i + 1 ==>
        Answers(p, s.mems[i], s.calls[i], s.replies[i], Kept(s.moves[i]) != [], s.mems[j])
  }

  /** The disk went through a run of commits, crashes and recoveries, and its durable transactions
      are the steps between the marks. */
  ghost predicate Stored(p: Layout, s: Story, d: Disk, m: Mem)
    requires |s.mems| == |s.moves| + 1
  {
    && AtDisk(p, s.events, s.states, d)
    && var marks := Marks(s.moves, s.mems); Chain(marks, Durable(s.events)) && marks[|marks| - 1] == m.stable
  }

  ghost predicate Told(p: Layout, s: Story, d: Disk, m: Mem) { Heard(p, s, m) && Stored(p, s, d, m) }

  ghost function Tell(p: Layout, s: Story, d: Disk, c: Call, r: Reply, mv: Move, m': Mem): (t: Story)
    requires MovePossible(p, d, mv)
  {
    Story(s.calls + [c], s.replies + [r], s.moves + [mv], s.mems + [m'],
          s.events + EventsOf(p, d, mv), s.states + StatesOf(p, d, mv))
  }

  lemma ChainNext(marks: seq<map<nat, Block>>, ts: seq<Txn>, t: Txn, h: map<nat, Block>)
    requires Chain(marks, ts) && |t.data| == |t.blocks| && h == Install(marks[|marks| - 1], t)
    ensures Chain(marks + [h], ts + [t])
  {
    hide Install;
  }

  lemma MarksNext(moves: seq<Move>, mems: seq<Mem>, mv: Move, m: Mem)
    requires |mems| == |moves| + 1
    ensures Marks(moves + [mv], mems + [m]) == Marks(moves, mems) + (if Kept(mv) == [] then [] else [m.stable])
  {
    hide Kept;
    assert (moves + [mv])[..|moves|] == moves && (mems + [m])[..|mems|] == mems;
  }

  lemma StoredNext(p: Layout, s: Story, d: Disk, m: Mem, c: Call, r: Reply, mv: Move, d': Disk, m': Mem)
    requires |s.mems| == |s.moves| + 1 && Stored(p, s, d, m) && Moved(p, d, mv, d', m.stable, m'.stable)
    ensures Stored(p, Tell(p, s, d, c, r, mv, m'), d', m')
  {
    hide MovePossible, After, AtDisk, Install, EventsOf, StatesOf, Kept, Chain, Marks, Durable;
    Extend(p, s.events, s.states, d, mv);
    MarksNext(s.moves, s.mems, mv, m');
    KeptAtMostOne(mv);
    if Kept(mv) != [] {
      ChainNext(Marks(s.moves, s.mems), Durable(s.events), Kept(mv)[0], m'.stable);
    } else {
      assert Durable(s.events) + [] == Durable(s.events) && Marks(s.moves, s.mems) + [] == Marks(s.moves, s.mems);
    }
  }

  lemma ToldNext(p: Layout, s: Story, d: Disk, m: Mem, c: Call, r: Reply, mv: Move, d': Disk, m': Mem)
    requires Told(p, s, d, m) && Answers(p, m, c, r, Kept(mv) != [], m') && Moved(p, d, mv, d', m.stable, m'.stable)
    ensures Told(p, Tell(p, s, d, c, r, mv, m'), d', m')
  {
    hide Answers, Stored, Moved, EventsOf, StatesOf, Kept;
    MoveFits(p, d, mv, d', m.stable, m'.stable);
    StoredNext(p, s, d, m, c, r, mv, d', m');
  }

  lemma KeptAtMostOne(mv: Move)
    ensures Kept(mv) == [] || Kept(mv) == [Kept(mv)[0]]
  {
  }

  lemma ToldStart(p: Layout, d: Disk, m: Mem)
    requires Clean(d, p)
    ensures Told(p, Story([], [], [], [m], [], [Machine(d, true)]), d, m)
  {
  }

  /** Any sequence of calls on the running log is answered as by the two maps. */
  method Run(log: L.Log, calls: seq<Call>, ghost m: Mem)
    returns (next: L.Log, replies: seq<Reply>, ghost s: Story, ghost m': Mem)
    requires Shows(log, m) && forall i :: 0 <= i < |calls| ==> Proper(log.cache.memdisk[..], log.p, calls[i])
    modifies log, log.block, log.cache, log.cache.buf, log.cache.memdisk
    ensures next.cache.memdisk == log.cache.memdisk && next.p == log.p && Shows(next, m')
    ensures s.calls == calls && s.replies == replies && s.mems != [] && s.mems[0] == m
    ensures s.states != [] && s.states[0] == Machine(old(log.cache.memdisk[..]), true)
    ensures Told(log.p, s, log.cache.memdisk[..], m')
  {
    hide Shows, Told, Answers, Moved, Clean;
    next, replies, m' := log, [], m;
    ghost var d0 := log.cache.memdisk[..];
    Facts(log, m);
    s := Story([], [], [], [m], [], [Machine(d0, true)]);
    ToldStart(log.p, d0, m);
    for i := 0 to |calls|
      invariant next.cache.memdisk == log.cache.memdisk && next.p == log.p && Shows(next, m')
      invariant next == log || (fresh(next) && fresh(next.block) && fresh(next.cache) && fresh(next.cache.buf))
      invariant s.calls == calls[..i] && s.replies == replies && s.mems != [] && s.mems[0] == m
      invariant s.states != [] && s.states[0] == Machine(d0, true)
      invariant |log.cache.memdisk[..]| == |d0| && Told(log.p, s, log.cache.memdisk[..], m')
    {
      ghost var d, was := log.cache.memdisk[..], m';
      var r;
      ghost var mv;
      next, r, mv, m' := Step(next, calls[i], m');
      ToldNext(log.p, s, d, was, calls[i], r, mv, log.cache.memdisk[..], m');
      MoveFits(log.p, d, mv, log.cache.memdisk[..], was.stable, m'.stable);
      s := Tell(log.p, s, d, calls[i], r, mv, m');
      replies := replies + [r];
    }
    assert calls[..|calls|] == calls;
  }

  lemma MoveFits(p: Layout, d: Disk, mv: Move, d': Disk, h: map<nat, Block>, h': map<nat, Block>)
    requires Moved(p, d, mv, d', h, h')
    ensures |d'| == |d| && MovePossible(p, d, mv)
  {
  }

  // ---- a commit that cannot start ----

  /** Three operations with blocks[..k] logged. */
  ghost predicate Filling(m: Mem, h: map<nat, Block>, blocks: seq<nat>, k: nat)
    requires k <= |blocks|
  {
    m.stable == h && m.listed == blocks[..k] && m.outstanding == 3 && !m.committing
  }

  lemma FillNext(p: Layout, m: Mem, h: map<nat, Block>, blocks: seq<nat>, k: nat, data: Block)
    requires k < |blocks| <= LOGSIZE < p.size && Distinct(blocks) && Filling(m, h, blocks, k)
    ensures !NoSpace(p, m) && Filling(Written(m, blocks[k], data), h, blocks, k + 1)
  {
    assert blocks[k] !in blocks[..k] && blocks[..k + 1] == blocks[..k] + [blocks[k]];
  }

  /** Three operations that each log as many blocks as they may, on a log that is large enough for
      them, and end: all goes well until the commit, which panics before its first block write. */
  method Jam(log: L.Log, blocks: seq<nat>, data: Block, ghost m: Mem)
    returns (next: L.Log, replies: seq<Reply>)
    requires Shows(log, m) && m == Fresh(m.stable) && log.p.size > LOGSIZE
    requires |blocks| == LOGSIZE == 3 * MAXOPBLOCKS && Distinct(blocks)
    requires forall k :: 0 <= k < |blocks| ==> IsHome(log.cache.memdisk[..], log.p, blocks[k])
    modifies log, log.block, log.cache, log.cache.buf, log.cache.memdisk
    ensures next.p == log.p && Shows(next, m)
    ensures |replies| == LOGSIZE + 7 && replies[LOGSIZE + 6] == Rebooted
    ensures forall i :: 0 <= i < LOGSIZE + 6 ==> replies[i] == Done
  {
    hide Shows, Moved, HomeOf;
    var r, r1, r2;
    ghost var mv, m';
    next, r, mv, m' := Step(log, BeginOp, m);
    next, r1, mv, m' := Step(next, BeginOp, m');
    next, r2, mv, m' := Step(next, BeginOp, m');
    replies := [r, r1, r2];
    assert Filling(m', m.stable, blocks, 0);
    for k := 0 to LOGSIZE
      invariant next.cache.memdisk == log.cache.memdisk && next.p == log.p
      invariant next == log || (fresh(next) && fresh(next.block) && fresh(next.cache) && fresh(next.cache.buf))
      invariant Shows(next, m') && Filling(m', m.stable, blocks, k)
      invariant |replies| == k + 3 && forall i :: 0 <= i < k + 3 ==> replies[i] == Done
    {
      FillNext(log.p, m', m.stable, blocks, k, data);
      next, r, mv, m' := Step(next, WriteBlock(blocks[k], data, k / MAXOPBLOCKS), m');
      replies := replies + [r];
    }
    next, r, mv, m' := Step(next, EndOp(0), m');
    next, r1, mv, m' := Step(next, EndOp(0), m');
    next, r2, mv, m' := Step(next, EndOp(0), m');
    replies := replies + [r, r1, r2];
    next, r, mv, m' := Step(next, CommitLog, m');
    replies := replies + [r];
  }
}
