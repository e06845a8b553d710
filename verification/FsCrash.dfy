/** Files across crashes: the file system's operations as transactions of the log. What a crash
    leaves, once recovery has run, is the file system as it was between two operations. */
module FsCrash {
  import opened Common
  import opened FsLayout
  import opened FsOwnership
  import opened FsContent
  import CR = CrashRecovery

  /** The log lies between the superblock and the inodes. */
  predicate LogBelow(g: Geometry, p: CR.Layout) { p.start + p.size <= g.inodestart }

  /** Transaction t takes the home blocks of bs to those of bs'. */
  ghost predicate Effect(p: CR.Layout, bs: Store, bs': Store, t: CR.Txn)
  {
    && |bs'| == |bs| && |t.data| == |t.blocks|
    && CR.Install(CR.HomeOf(p, bs), t) == CR.HomeOf(p, bs')
  }

  /** The transactions are the first steps of the history. */
  ghost predicate Steps(p: CR.Layout, hist: seq<Snap>, ts: seq<CR.Txn>)
  {
    && |ts| < |hist|
    && (forall k :: 0 <= k < |ts| ==> |ts[k].data| == |ts[k].blocks|)
    && (forall k, m :: 0 <= k < m < |hist| && m == k + 1 && k < |ts| ==> Effect(p, hist[k].bs, hist[m].bs, ts[k]))
  }

  /** Installing them one after the other follows the history. */
  lemma {:induction false} HistoryInstalled(p: CR.Layout, hist: seq<Snap>, ts: seq<CR.Txn>)
    requires Steps(p, hist, ts)
    ensures CR.InstallAll(CR.HomeOf(p, hist[0].bs), ts) == CR.HomeOf(p, hist[|ts|].bs)
    decreases |ts|
  {
    hide CR.Install, CR.HomeOf;
    if ts != [] {
      var n := |ts| - 1;
      assert Steps(p, hist, ts[..n]);
      HistoryInstalled(p, hist, ts[..n]);
      assert Effect(p, hist[n].bs, hist[n + 1].bs, ts[n]);
    }
  }

  /** A file system does not depend on what is in the log area. */
  lemma BehindLog(g: Geometry, bs: Store, bs': Store, T: Table, owner: map<nat, Slot>)
    requires FsOk(g, bs, T, owner) && |bs'| == |bs| && forall b :: g.inodestart <= b < |bs| ==> bs'[b] == bs[b]
    ensures FsOk(g, bs', T, owner) && FilesOf(g, bs', T) == FilesOf(g, bs, T) && AttrsOf(g, bs') == AttrsOf(g, bs)
  {
    hide Placed, SlotAddr, BlockOf, Content, DiskSize, DiskAddrs, DiskAttrs, Bit;
    OwnedIsData(g, bs, T, owner);
    SameSlots(g, bs, bs', T, owner);
    SameMap(g, bs, bs', owner, {});
    FilesUnmoved(g, bs, bs', T, owner);
    forall j | 0 <= j < g.ninodes
      ensures DiskSize(g, bs', j) == DiskSize(g, bs, j) && DiskAddrs(g, bs', j) == DiskAddrs(g, bs, j)
      ensures DiskAttrs(g, bs', j) == DiskAttrs(g, bs, j)
    {
      InodeBehindLog(g, bs, bs', j);
    }
  }

  lemma InodeBehindLog(g: Geometry, bs: Store, bs': Store, j: nat)
    requires Fits(g, bs) && |bs'| == |bs| && (forall b :: g.inodestart <= b < |bs| ==> bs'[b] == bs[b]) && j < g.ninodes
    ensures Fits(g, bs') && DiskSize(g, bs', j) == DiskSize(g, bs, j) && DiskAddrs(g, bs', j) == DiskAddrs(g, bs, j)
    ensures DiskAttrs(g, bs', j) == DiskAttrs(g, bs, j)
  {
    IBlockBelowMap(g, bs, j);
  }

  /** The log serves the file system: the transactions that reached their commit point are the
      first steps of the file system's history, and the disk started where the history starts. */
  ghost predicate Serves(p: CR.Layout, events: seq<CR.Event>, states: seq<CR.Machine>, hist: seq<Snap>)
  {
    && CR.IsRun(p, events, states) && Steps(p, hist, CR.Durable(events))
    && |states[0].disk| == |hist[0].bs| && CR.HomeOf(p, states[0].disk) == CR.HomeOf(p, hist[0].bs)
  }

  /** Disk d holds the consistent file system s, with the same files and attributes. */
  ghost predicate Carries(g: Geometry, d: Store, s: Snap)
  {
    && FsOk(g, d, s.T, s.owner) && FsOk(g, s.bs, s.T, s.owner)
    && FilesOf(g, d, s.T) == FilesOf(g, s.bs, s.T) && AttrsOf(g, d) == AttrsOf(g, s.bs)
  }

  /** Crash consistency of the file system: over every run with any number of crashes in commit and
      in recovery, whenever the machine is up the disk holds a consistent file system, with exactly
      the files there were after the last operation that reached its commit point. */
  lemma FilesSurviveCrashes(g: Geometry, p: CR.Layout, events: seq<CR.Event>, states: seq<CR.Machine>, hist: seq<Snap>)
    requires Serves(p, events, states, hist) && LogBelow(g, p) && states[|events|].up
    requires forall k :: 0 <= k < |hist| ==> FsOk(g, hist[k].bs, hist[k].T, hist[k].owner)
    ensures Carries(g, states[|events|].disk, hist[|CR.Durable(events)|])
  {
    hide CR.Home, CR.InstallAll, CR.Clean, CR.Recoverable, CR.IsRun, Steps, FsOk, FilesOf, AttrsOf, CR.HomeOf;
    RunStarts(p, events, states);
    var n, d := |CR.Durable(events)|, states[|events|].disk;
    StepsFit(p, hist, CR.Durable(events), n);
    RunLength(p, events, states, |events|);
    CR.CrashAtomicity(p, events, states);
    CR.CleanIsHome(p, states[0].disk);
    CR.CleanIsHome(p, d);
    HistoryInstalled(p, hist, CR.Durable(events));
    SameHome(p, d, hist[n].bs);
    BehindLog(g, hist[n].bs, d, hist[n].T, hist[n].owner);
  }

  lemma {:induction false} StepsFit(p: CR.Layout, hist: seq<Snap>, ts: seq<CR.Txn>, k: nat)
    requires Steps(p, hist, ts) && k <= |ts|
    ensures |ts| < |hist| && |hist[k].bs| == |hist[0].bs|
    decreases k
  {
    if k > 0 {
      StepsFit(p, hist, ts, k - 1);
      assert Effect(p, hist[k - 1].bs, hist[k].bs, ts[k - 1]);
    }
  }

  lemma {:induction false} RunLength(p: CR.Layout, events: seq<CR.Event>, states: seq<CR.Machine>, k: nat)
    requires CR.IsRun(p, events, states) && k <= |events|
    ensures |states[k].disk| == |states[0].disk|
    decreases k
  {
    if k > 0 {
      RunLength(p, events, states, k - 1);
      assert states[k - 1 + 1] == CR.Next(states[k - 1], p, events[k - 1]);
    }
  }

  lemma RunStarts(p: CR.Layout, events: seq<CR.Event>, states: seq<CR.Machine>)
    requires CR.IsRun(p, events, states)
    ensures |states| == |events| + 1 && CR.Clean(states[0].disk, p)
  {
  }

  lemma SameHome(p: CR.Layout, d: Store, e: Store)
    requires CR.HomeOf(p, d) == CR.HomeOf(p, e) && |d| == |e|
    ensures forall b :: p.start + p.size <= b < |d| ==> d[b] == e[b]
  {
    forall b: nat | p.start + p.size <= b < |d|
      ensures d[b] == e[b]
    {
      assert CR.HomeOf(p, d)[b] == d[b] && CR.HomeOf(p, e)[b] == e[b];
    }
  }

  // ---- operations are transactions ----

  lemma {:induction false} Listed(s: set<nat>) returns (r: seq<nat>)
    ensures CR.Distinct(r) && |r| == |s| && forall b :: b in r <==> b in s
    decreases |s|
  {
    if s == {} {
      r := [];
    } else {
      var b :| b in s;
      var rest := Listed(s - {b});
      r := rest + [b];
    }
  }

  lemma {:induction false} Untouched(bs: Store, ws: seq<CR.Write>, b: nat)
    requires b < |bs| && b !in Touched(ws)
    ensures CR.Apply(bs, ws)[b] == bs[b]
    decreases |ws|
  {
    if ws != [] { Untouched(bs, ws[..|ws| - 1], b); }
  }

  lemma {:induction false} TouchedRange(g: Geometry, bs: Store, bs': Store, ws: seq<CR.Write>, b: nat)
    requires Changes(g, bs, bs', ws) && b in Touched(ws)
    ensures g.inodestart <= b < |bs|
    decreases |ws|
  {
    var n := |ws| - 1;
    if b != ws[n].blockno { TouchedRange(g, bs, CR.Apply(bs, ws[..n]), ws[..n], b); }
  }

  predicate FitsLog(p: CR.Layout, n: nat) { n <= CR.LOGSIZE && n <= p.size - 1 }

  /** What log_writes changed is a transaction that the log can take, if they name few enough blocks. */
  lemma WritesAreTransaction(g: Geometry, p: CR.Layout, bs: Store, bs': Store, ws: seq<CR.Write>) returns (t: CR.Txn)
    requires Changes(g, bs, bs', ws) && LogBelow(g, p) && CR.LogFits(bs, p) && FitsLog(p, |Touched(ws)|)
    ensures Effect(p, bs, bs', t) && CR.ValidTxn(bs, p, t) && |t.blocks| == |Touched(ws)|
    ensures forall b :: b in t.blocks <==> b in Touched(ws)
  {
    hide Changes, Touched;
    var blocks := Listed(Touched(ws));
    forall b | b in Touched(ws)
      ensures g.inodestart <= b < |bs|
    {
      TouchedRange(g, bs, bs', ws, b);
    }
    ChangesFit(g, bs, bs', ws);
    t := CR.Txn(blocks, seq(|blocks|, i requires 0 <= i < |blocks| => assert blocks[i] in Touched(ws); bs'[blocks[i]]));
    forall i | 0 <= i < |blocks|
      ensures CR.IsHome(bs, p, blocks[i])
    {
      assert blocks[i] in Touched(ws);
    }
    forall b: nat | b < |bs| && b !in blocks
      ensures bs'[b] == bs[b]
    {
      UntouchedBlock(g, bs, bs', ws, b);
    }
  }

  lemma ChangesFit(g: Geometry, bs: Store, bs': Store, ws: seq<CR.Write>)
    requires Changes(g, bs, bs', ws)
    ensures |bs'| == |bs|
  {
  }

  lemma UntouchedBlock(g: Geometry, bs: Store, bs': Store, ws: seq<CR.Write>, b: nat)
    requires Changes(g, bs, bs', ws) && b < |bs| && b !in Touched(ws)
    ensures |bs'| == |bs| && bs'[b] == bs[b]
  {
    Untouched(bs, ws, b);
  }

  /** The log_writes of operations q to r - 1. */
  ghost function Together(ops: seq<seq<CR.Write>>, q: nat, r: nat): (ws: seq<CR.Write>)
    requires q <= r <= |ops|
  {
    if q == r then [] else Together(ops, q, r - 1) + ops[r - 1]
  }

  lemma ChangesThen(g: Geometry, a: Store, b: Store, c: Store, ws: seq<CR.Write>, vs: seq<CR.Write>)
    requires Changes(g, a, b, ws) && Changes(g, b, c, vs)
    ensures Changes(g, a, c, ws + vs)
  {
    CR.ApplyAppend(a, ws, vs);
  }

  /** A group of operations is one change of the blocks. */
  lemma {:induction false} GroupChanges(g: Geometry, hist: seq<Snap>, ops: seq<seq<CR.Write>>, start: Start,
                                        inum: nat,
                                        off: nat, addr: seq<byte>, q: nat, r: nat)
    requires ChunkHistory(g, hist, ops, start, inum, off, addr) && q <= r <= |ops|
    ensures Changes(g, hist[q].bs, hist[r].bs, Together(ops, q, r))
    decreases r - q
  {
    hide Changes, ChunkAt, Touched;
    if q == r {
      ChangesStart(g, hist[q].bs);
    } else {
      GroupChanges(g, hist, ops, start, inum, off, addr, q, r - 1);
      ChangesThen(g, hist[q].bs, hist[r - 1].bs, hist[r].bs, Together(ops, q, r - 1), ops[r - 1]);
    }
  }

  /** The moments of a history at which transactions ended. */
  ghost function Moments(hist: seq<Snap>, at: seq<nat>): (r: seq<Snap>)
    requires forall k :: 0 <= k < |at| ==> at[k] < |hist|
    ensures |r| == |at| && forall k :: 0 <= k < |at| ==> r[k] == hist[at[k]]
  {
    seq(|at|, k requires 0 <= k < |at| => hist[at[k]])
  }

  /** filewrite across crashes: however its operations are grouped into transactions, a disk that has
      been recovered holds a consistent file system in which a whole number of chunks has been
      written, at the right place, and no other file has changed. */
  lemma FileWriteSurvivesCrashes(g: Geometry, p: CR.Layout, hist: seq<Snap>, ops: seq<seq<CR.Write>>,
                                 start: Start, inum: nat,
                                 off: nat, addr: seq<byte>, at: seq<nat>,
                                 events: seq<CR.Event>, states: seq<CR.Machine>)
    requires ChunkHistory(g, hist, ops, start, inum, off, addr) && forall k :: 0 <= k < |at| ==> at[k] < |hist|
    requires Serves(p, events, states, Moments(hist, at)) && LogBelow(g, p) && states[|events|].up
    ensures var n, d := |CR.Durable(events)|, states[|events|].disk;
      n < |at| && ChunkAt(g, Snap(d, hist[at[n]].T, hist[at[n]].owner), start, inum, off, addr, at[n])
  {
    hide CR.IsRun, FsOk, FilesOf, AttrsOf, Written, Steps;
    var n := |CR.Durable(events)|;
    var moments := Moments(hist, at);
    StepsFit(p, moments, CR.Durable(events), n);
    forall k | 0 <= k < |moments|
      ensures FsOk(g, moments[k].bs, moments[k].T, moments[k].owner)
    {
      assert ChunkAt(g, hist[at[k]], start, inum, off, addr, at[k]);
    }
    FilesSurviveCrashes(g, p, events, states, moments);
    assert ChunkAt(g, hist[at[n]], start, inum, off, addr, at[n]);
    RunStarts(p, events, states);
  }

  // ---- runs that serve filewrite ----

  /** `at` cuts the operations into groups that each fit in the log. */
  ghost predicate Groups(p: CR.Layout, ops: seq<seq<CR.Write>>, at: seq<nat>)
  {
    && at != [] && at[0] == 0 && (forall k :: 0 <= k < |at| ==> at[k] <= |ops|)
    && forall k, m :: 0 <= k < m < |at| && m == k + 1 ==>
        at[k] <= at[m] && FitsLog(p, |Touched(Together(ops, at[k], at[m]))|)
  }

  /** A group of operations of filewrite is one transaction, on any disk of that size. */
  lemma GroupIsTransaction(g: Geometry, p: CR.Layout, hist: seq<Snap>, ops: seq<seq<CR.Write>>, start: Start,
                           inum: nat,
                           off: nat, addr: seq<byte>, q: nat, r: nat, d: Store) returns (t: CR.Txn)
    requires ChunkHistory(g, hist, ops, start, inum, off, addr) && LogBelow(g, p) && q <= r <= |ops|
    requires FitsLog(p, |Touched(Together(ops, q, r))|) && CR.LogFits(d, p) && |d| == |hist[q].bs|
    ensures Effect(p, hist[q].bs, hist[r].bs, t) && CR.ValidTxn(d, p, t) && |t.blocks| == |Touched(Together(ops, q, r))|
  {
    hide ChunkHistory, Changes, Touched, Together, Effect;
    HistorySize(g, hist, ops, start, inum, off, addr);
    GroupChanges(g, hist, ops, start, inum, off, addr, q, r);
    t := WritesAreTransaction(g, p, hist[q].bs, hist[r].bs, Together(ops, q, r));
  }

  /** A run that serves a history serves every longer one. */
  lemma ServesLonger(p: CR.Layout, events: seq<CR.Event>, states: seq<CR.Machine>, hist: seq<Snap>, n: nat)
    requires n <= |hist| && Serves(p, events, states, hist[..n])
    ensures Serves(p, events, states, hist)
  {
    hide Effect, CR.Durable, CR.IsRun;
    var ts := CR.Durable(events);
    assert forall k :: 0 <= k < n ==> hist[..n][k] == hist[k];
  }

  /** An event after which no more is durable. */
  lemma ServesQuiet(p: CR.Layout, events: seq<CR.Event>, states: seq<CR.Machine>, hist: seq<Snap>, e: CR.Event)
    requires Serves(p, events, states, hist) && |states| == |events| + 1
    requires CR.Possible(states[|events|], p, e) && CR.KeptBy(e) == []
    ensures Serves(p, events + [e], states + [CR.Next(states[|events|], p, e)], hist)
    ensures CR.Durable(events + [e]) == CR.Durable(events)
  {
    hide Effect, CR.Possible, CR.Next, CR.KeptBy, CR.IsRun, CR.Durable;
    CR.RunNext(p, events, states, states[|events|].disk, states[|events|].up, e);
    assert CR.Durable(events) + [] == CR.Durable(events);
  }

  /** An event that makes the next step durable. */
  lemma ServesKept(p: CR.Layout, events: seq<CR.Event>, states: seq<CR.Machine>, hist: seq<Snap>, e: CR.Event,
                   t: CR.Txn)
    requires Serves(p, events, states, hist) && |states| == |events| + 1 && |hist| >= |CR.Durable(events)| + 2
    requires CR.Possible(states[|events|], p, e) && CR.KeptBy(e) == [t]
    requires var n := |CR.Durable(events)|; Effect(p, hist[n].bs, hist[n + 1].bs, t)
    ensures Serves(p, events + [e], states + [CR.Next(states[|events|], p, e)], hist)
    ensures CR.Durable(events + [e]) == CR.Durable(events) + [t]
  {
    hide CR.Possible, CR.Next, CR.KeptBy, CR.IsRun, CR.Durable, CR.Install, CR.HomeOf;
    CR.RunNext(p, events, states, states[|events|].disk, states[|events|].up, e);
  }

  /** Where the next group meets the machine. */
  lemma NextGroup(g: Geometry, p: CR.Layout, hist: seq<Snap>, ops: seq<seq<CR.Write>>, start: Start,
                  inum: nat,
                  off: nat, addr: seq<byte>, at: seq<nat>, events: seq<CR.Event>, states: seq<CR.Machine>)
    returns (t: CR.Txn)
    requires ChunkHistory(g, hist, ops, start, inum, off, addr) && LogBelow(g, p) && Groups(p, ops, at)
    requires Serves(p, events, states, Moments(hist, at)) && |at| == |CR.Durable(events)| + 2
    requires |states| == |events| + 1 && states[|events|].up
    ensures var n, d := |at| - 2, states[|events|].disk;
      && Effect(p, hist[at[n]].bs, hist[at[n + 1]].bs, t) && |t.blocks| == |Touched(Together(ops, at[n], at[n + 1]))|
      && CR.Clean(d, p) && CR.ValidTxn(d, p, t)
  {
    hide ChunkHistory, Touched, Together, Effect, CR.Durable, CR.InstallAll, CR.Home;
    var n, d := |at| - 2, states[|events|].disk;
    CR.CrashAtomicity(p, events, states);
    RunLength(p, events, states, |events|);
    HistorySize(g, hist, ops, start, inum, off, addr);
    StepsFit(p, Moments(hist, at), CR.Durable(events), n);
    t := GroupIsTransaction(g, p, hist, ops, start, inum, off, addr, at[n], at[n + 1], d);
  }

  lemma HistorySize(g: Geometry, hist: seq<Snap>, ops: seq<seq<CR.Write>>, start: Start, inum: nat, off: nat,
                    addr: seq<byte>)
    requires ChunkHistory(g, hist, ops, start, inum, off, addr)
    ensures |hist| == |ops| + 1
  {
  }

  /** Committing the groups one after the other is a run of the machine that serves filewrite. */
  lemma {:induction false} CommitGroups(g: Geometry, p: CR.Layout, hist: seq<Snap>, ops: seq<seq<CR.Write>>,
                                        start: Start,
                                        inum: nat, off: nat, addr: seq<byte>, at: seq<nat>)
    returns (events: seq<CR.Event>, states: seq<CR.Machine>)
    requires ChunkHistory(g, hist, ops, start, inum, off, addr) && LogBelow(g, p) && Groups(p, ops, at)
    requires CR.Clean(hist[0].bs, p)
    ensures Serves(p, events, states, Moments(hist, at)) && |CR.Durable(events)| == |at| - 1
    ensures |states| == |events| + 1 && states[|events|].up && states[0].disk == hist[0].bs
    decreases |at|
  {
    hide ChunkHistory, Touched, Together, Effect, CR.Clean, CR.ValidTxn, CR.Install, CR.HomeOf, CR.CommitWrites;
    HistorySize(g, hist, ops, start, inum, off, addr);
    var n := |at| - 1;
    if n == 0 {
      events, states := [], [CR.Machine(hist[0].bs, true)];
    } else {
      assert Groups(p, ops, at[..n]);
      events, states := CommitGroups(g, p, hist, ops, start, inum, off, addr, at[..n]);
      var moments := Moments(hist, at);
      assert moments[..n] == Moments(hist, at[..n]);
      ServesLonger(p, events, states, moments, n);
      var t := NextGroup(g, p, hist, ops, start, inum, off, addr, at, events, states);
      ServesKept(p, events, states, moments, CR.Commit(t), t);
      events, states := events + [CR.Commit(t)], states + [CR.Next(states[|events|], p, CR.Commit(t))];
    }
  }

  /** Whatever group is being committed when the power fails, and after however many of its block
      writes, once recovery has run the disk holds a consistent file system in which filewrite has
      written the chunks of all earlier groups, and those of this group exactly if its header had
      been written; no other file has changed. */
  lemma FileWriteCut(g: Geometry, p: CR.Layout, hist: seq<Snap>, ops: seq<seq<CR.Write>>, start: Start,
                     inum: nat,
                     off: nat, addr: seq<byte>, at: seq<nat>, k: nat)
    returns (events: seq<CR.Event>, states: seq<CR.Machine>, n: nat)
    requires ChunkHistory(g, hist, ops, start, inum, off, addr) && LogBelow(g, p) && Groups(p, ops, at) && |at| >= 2
    requires CR.Clean(hist[0].bs, p) && k <= CR.CommitSize(|Touched(Together(ops, at[|at| - 2], at[|at| - 1]))|)
    ensures Serves(p, events, states, Moments(hist, at)) && states[0].disk == hist[0].bs && states[|events|].up
    ensures n == if k <= |Touched(Together(ops, at[|at| - 2], at[|at| - 1]))| then at[|at| - 2] else at[|at| - 1]
    ensures ChunkAt(g, Snap(states[|events|].disk, hist[n].T, hist[n].owner), start, inum, off, addr, n)
  {
    hide ChunkHistory, ChunkAt, Touched, Together, Effect, CR.Clean, CR.ValidTxn, CR.Install, CR.HomeOf,
         CR.CommitWrites, CR.RecoverWrites;
    HistorySize(g, hist, ops, start, inum, off, addr);
    var l, moments := |at| - 1, Moments(hist, at);
    assert Groups(p, ops, at[..l]);
    events, states := CommitGroups(g, p, hist, ops, start, inum, off, addr, at[..l]);
    assert moments[..l] == Moments(hist, at[..l]);
    ServesLonger(p, events, states, moments, l);
    var t := NextGroup(g, p, hist, ops, start, inum, off, addr, at, events, states);
    var d := states[|events|].disk;
    var e := CR.CrashInCommit(t, k);
    CR.CommitLength(d, p, t);
    CR.CommitCrash(d, p, t, k);
    if CR.KeptBy(e) == [] {
      ServesQuiet(p, events, states, moments, e);
    } else {
      ServesKept(p, events, states, moments, e, t);
    }
    events, states := events + [e], states + [CR.Next(states[|events|], p, e)];
    ServesQuiet(p, events, states, moments, CR.Recover);
    events, states := events + [CR.Recover], states + [CR.Next(states[|events|], p, CR.Recover)];
    n := at[|CR.Durable(events)|];
    FileWriteSurvivesCrashes(g, p, hist, ops, start, inum, off, addr, at, events, states);
  }
}
