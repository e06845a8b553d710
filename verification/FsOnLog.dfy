/** The file system on the running log: operations go through begin_op, log_write and end_op of
    the log, and what they make durable is the file system's history. */
module FsOnLog {
  import opened Common
  import opened Blocks
  import opened FsLayout
  import opened FsContent
  import opened FsCrash
  import CR = CrashRecovery
  import L = Log
  import LR = LogRun

  /** A story told by the running log serves every history that its marks follow. */
  lemma StoryServes(p: CR.Layout, s: LR.Story, d: Store, m: LR.Mem, hist: seq<Snap>)
    requires LR.Told(p, s, d, m)
    requires var marks := LR.Marks(s.moves, s.mems);
      |marks| <= |hist| && forall k :: 0 <= k < |marks| ==> marks[k] == CR.HomeOf(p, hist[k].bs)
    requires forall k :: 0 <= k < |hist| ==> |hist[k].bs| == |s.states[0].disk|
    requires s.mems[0].stable == CR.HomeOf(p, s.states[0].disk)
    ensures Serves(p, s.events, s.states, hist)
    ensures |CR.Durable(s.events)| == |LR.Marks(s.moves, s.mems)| - 1 && |s.states| == |s.events| + 1
    ensures s.states[|s.events|] == CR.Machine(d, true)
  {
    hide CR.Install, CR.HomeOf, CR.Durable, LR.Answers, LR.Marks, CR.Possible, CR.Next;
    FirstMark(s.moves, s.mems);
    var ts, marks := CR.Durable(s.events), LR.Marks(s.moves, s.mems);
    forall k, n | 0 <= k < n < |hist| && n == k + 1 && k < |ts|
      ensures Effect(p, hist[k].bs, hist[n].bs, ts[k])
    {
      assert marks[n] == CR.Install(marks[k], ts[k]);
    }
  }

  lemma {:induction false} FirstMark(moves: seq<LR.Move>, mems: seq<LR.Mem>)
    requires |mems| == |moves| + 1
    ensures LR.Marks(moves, mems)[0] == mems[0].stable
    decreases |moves|
  {
    if moves != [] { FirstMark(moves[..|moves| - 1], mems[..|moves|]); }
  }

  /** One call, added to the story. */
  method Tells(log: L.Log, c: LR.Call, ghost s: LR.Story, ghost m: LR.Mem)
    returns (next: L.Log, r: LR.Reply, ghost s': LR.Story, ghost m': LR.Mem, ghost kept: bool)
    requires LR.Shows(log, m) && LR.Proper(log.cache.memdisk[..], log.p, c)
    requires LR.Told(log.p, s, log.cache.memdisk[..], m)
    modifies log, log.block, log.cache, log.cache.buf, log.cache.memdisk
    ensures next.cache.memdisk == log.cache.memdisk && next.p == log.p
    ensures next == log || (fresh(next) && fresh(next.block) && fresh(next.cache) && fresh(next.cache.buf))
    ensures LR.Shows(next, m') && LR.Answers(log.p, m, c, r, kept, m') && LR.Told(log.p, s', log.cache.memdisk[..], m')
    ensures Continues(s, s') && |s'.mems| == |s'.moves| + 1
    ensures LR.Marks(s'.moves, s'.mems) == MarksAfter(s, kept, m')
  {
    hide LR.Shows, LR.Answers, LR.Stored, LR.Moved, LR.Marks, LR.Kept, LR.Proper;
    ghost var d, mv := log.cache.memdisk[..], LR.Still;
    next, r, mv, m' := LR.Step(log, c, m);
    LR.ToldNext(log.p, s, d, m, c, r, mv, log.cache.memdisk[..], m');
    LR.MoveFits(log.p, d, mv, log.cache.memdisk[..], m.stable, m'.stable);
    LR.MarksNext(s.moves, s.mems, mv, m');
    StoryStates(log.p, s, d, m);
    s', kept := LR.Tell(log.p, s, d, c, r, mv, m'), LR.Kept(mv) != [];
  }

  lemma StoryStates(p: CR.Layout, s: LR.Story, d: Store, m: LR.Mem)
    requires LR.Told(p, s, d, m)
    ensures s.states != [] && s.mems != [] && |s.mems| == |s.moves| + 1
  {
  }

  /** s' begins where s does. */
  ghost predicate Continues(s: LR.Story, s': LR.Story)
  {
    && s.states != [] && s'.states != [] && s'.states[0] == s.states[0]
    && s.mems != [] && s'.mems != [] && s'.mems[0] == s.mems[0]
  }

  ghost function MarksAfter(s: LR.Story, kept: bool, m: LR.Mem): (r: seq<map<nat, Block>>)
    requires |s.mems| == |s.moves| + 1
  {
    if kept then LR.Marks(s.moves, s.mems) + [m.stable] else LR.Marks(s.moves, s.mems)
  }

  // ---- one operation ----

  /** What the log can take from one operation. The log must have room for one block more than an
      operation may name, because log_write's guard does not look whether the block is listed. */
  ghost predicate Operation(p: CR.Layout, d: Store, ws: seq<CR.Write>)
  {
    && (forall k :: 0 <= k < |ws| ==> CR.IsHome(d, p, ws[k].blockno))
    && |Touched(ws)| <= MAXOPBLOCKS < p.size - 1
  }

  lemma {:induction false} DistinctSize(listed: seq<nat>, s: set<nat>)
    requires CR.Distinct(listed) && forall b :: b in listed <==> b in s
    ensures |listed| == |s|
    decreases |listed|
  {
    if listed == [] {
      assert s == {};
    } else {
      var n := |listed| - 1;
      var rest := s - {listed[n]};
      assert s == rest + {listed[n]} && listed == listed[..n] + [listed[n]];
      DistinctSize(listed[..n], rest);
      AddNew(rest, listed[n]);
    }
  }

  lemma {:induction false} TouchedGrows(ws: seq<CR.Write>, i: nat)
    requires i <= |ws|
    ensures Touched(ws[..i]) <= Touched(ws) && |Touched(ws[..i])| <= |Touched(ws)|
    decreases |ws| - i
  {
    if i == |ws| {
      assert ws[..i] == ws;
    } else {
      TouchedGrows(ws, i + 1);
      assert ws[..i + 1][..i] == ws[..i];
      assert Touched(ws[..i + 1]) == Touched(ws[..i]) + {ws[i].blockno};
    }
    var a, b := Touched(ws[..i]), Touched(ws);
    assert b == a + (b - a);
  }

  /** In the middle of an operation, after its first i log_writes. */
  ghost predicate Midway(p: CR.Layout, m: LR.Mem, bs: Store, ws: seq<CR.Write>, i: nat)
    requires i <= |ws|
  {
    && m.outstanding == 1 && !m.committing
    && m.stable == CR.HomeOf(p, bs) && m.now == CR.HomeOf(p, CR.Apply(bs, ws[..i]))
    && CR.Distinct(m.listed) && forall b :: b in m.listed <==> b in Touched(ws[..i])
  }

  lemma MidwayRoom(p: CR.Layout, d: Store, m: LR.Mem, bs: Store, ws: seq<CR.Write>, i: nat)
    requires Operation(p, d, ws) && i <= |ws| && Midway(p, m, bs, ws, i)
    ensures !LR.NoSpace(p, m) && !LR.Full(m) && m.outstanding == 1 && !m.committing
    ensures |m.listed| == |Touched(ws[..i])|
  {
    hide CR.HomeOf, CR.Apply, Touched;
    DistinctSize(m.listed, Touched(ws[..i]));
    TouchedGrows(ws, i);
  }

  lemma MidwayNext(p: CR.Layout, d: Store, m: LR.Mem, bs: Store, ws: seq<CR.Write>, i: nat)
    requires Operation(p, d, ws) && i < |ws| && |bs| == |d| && Midway(p, m, bs, ws, i)
    ensures Midway(p, LR.Written(m, ws[i].blockno, ws[i].data), bs, ws, i + 1)
  {
    hide CR.HomeOf, CR.Apply;
    CR.ApplyNext(bs, ws, i);
    LR.HomeUpdate(p, CR.Apply(bs, ws[..i]), ws[i].blockno, ws[i].data);
    assert ws[..i + 1][..i] == ws[..i];
    assert Touched(ws[..i + 1]) == Touched(ws[..i]) + {ws[i].blockno};
  }

  /** begin_op and the first n log_writes. */
  method BeginAndWrite(log: L.Log, ws: seq<CR.Write>, n: nat, ghost s: LR.Story, ghost m: LR.Mem, ghost bs: Store)
    returns (next: L.Log, ghost s': LR.Story, ghost m': LR.Mem)
    requires LR.Shows(log, m) && LR.Told(log.p, s, log.cache.memdisk[..], m) && m == LR.Fresh(CR.HomeOf(log.p, bs))
    requires Operation(log.p, log.cache.memdisk[..], ws) && n <= |ws| && |bs| == log.cache.memdisk.Length
    modifies log, log.block, log.cache, log.cache.buf, log.cache.memdisk
    ensures next.cache.memdisk == log.cache.memdisk && next.p == log.p
    ensures next == log || (fresh(next) && fresh(next.block) && fresh(next.cache) && fresh(next.cache.buf))
    ensures LR.Shows(next, m') && LR.Told(log.p, s', log.cache.memdisk[..], m') && Continues(s, s')
    ensures Midway(log.p, m', bs, ws, n) && LR.Marks(s'.moves, s'.mems) == LR.Marks(s.moves, s.mems)
  {
    hide LR.Shows, LR.Told, LR.Marks, Midway, CR.Apply, CR.HomeOf;
    StoryStates(log.p, s, log.cache.memdisk[..], m);
    var r;
    ghost var kept;
    next, r, s', m', kept := Tells(log, LR.BeginOp, s, m);
    MidwayStart(log.p, m', bs, ws);
    for i := 0 to n
      invariant next.cache.memdisk == log.cache.memdisk && next.p == log.p
      invariant next == log || (fresh(next) && fresh(next.block) && fresh(next.cache) && fresh(next.cache.buf))
      invariant LR.Shows(next, m') && LR.Told(log.p, s', log.cache.memdisk[..], m') && Continues(s, s')
      invariant Midway(log.p, m', bs, ws, i)
      invariant |s'.mems| == |s'.moves| + 1 && LR.Marks(s'.moves, s'.mems) == LR.Marks(s.moves, s.mems)
    {
      MidwayRoom(log.p, log.cache.memdisk[..], m', bs, ws, i);
      MidwayNext(log.p, log.cache.memdisk[..], m', bs, ws, i);
      next, r, s', m', kept := Tells(next, LR.WriteBlock(ws[i].blockno, ws[i].data, 0), s', m');
    }
  }

  lemma MidwayStart(p: CR.Layout, m: LR.Mem, bs: Store, ws: seq<CR.Write>)
    requires m == LR.Fresh(CR.HomeOf(p, bs)).(outstanding := 1)
    ensures Midway(p, m, bs, ws, 0)
  {
    assert CR.Apply(bs, ws[..0]) == bs;
  }

  /** A whole operation: begin_op, its log_writes, end_op and the commit. It becomes durable. */
  method Perform(log: L.Log, ws: seq<CR.Write>, ghost s: LR.Story, ghost m: LR.Mem, ghost bs: Store)
    returns (next: L.Log, ghost s': LR.Story, ghost m': LR.Mem)
    requires LR.Shows(log, m) && LR.Told(log.p, s, log.cache.memdisk[..], m) && m == LR.Fresh(CR.HomeOf(log.p, bs))
    requires Operation(log.p, log.cache.memdisk[..], ws) && |bs| == log.cache.memdisk.Length
    modifies log, log.block, log.cache, log.cache.buf, log.cache.memdisk
    ensures next.cache.memdisk == log.cache.memdisk && next.p == log.p
    ensures next == log || (fresh(next) && fresh(next.block) && fresh(next.cache) && fresh(next.cache.buf))
    ensures LR.Shows(next, m') && LR.Told(log.p, s', log.cache.memdisk[..], m') && Continues(s, s')
    ensures m' == LR.Fresh(CR.HomeOf(log.p, CR.Apply(bs, ws)))
    ensures LR.Marks(s'.moves, s'.mems) == LR.Marks(s.moves, s.mems) + [m'.stable]
  {
    hide LR.Shows, LR.Told, LR.Marks, CR.Apply, CR.HomeOf;
    StoryStates(log.p, s, log.cache.memdisk[..], m);
    next, s', m' := BeginAndWrite(log, ws, |ws|, s, m, bs);
    MidwayRoom(log.p, log.cache.memdisk[..], m', bs, ws, |ws|);
    assert ws[..|ws|] == ws;
    StoryStates(log.p, s', log.cache.memdisk[..], m');
    var r;
    ghost var kept;
    next, r, s', m', kept := Tells(next, LR.EndOp(0), s', m');
    next, r, s', m', kept := Tells(next, LR.CommitLog, s', m');
  }

  /** When the power fails: after n log_writes of an operation, or after k block writes of its commit;
      and then in recovery, again and again. */
  datatype Fault = InOperation(n: nat, again: seq<nat>) | InCommit(k: nat, again: seq<nat>)

  /** Had the header of the commit been written? */
  ghost predicate Survives(ws: seq<CR.Write>, f: Fault) { f.InCommit? && 0 < |Touched(ws)| < f.k }

  /** An operation that the power fails in. All of it stays or nothing. */
  method Interrupt(log: L.Log, ws: seq<CR.Write>, f: Fault, ghost s: LR.Story, ghost m: LR.Mem, ghost bs: Store)
    returns (next: L.Log, ghost s': LR.Story, ghost m': LR.Mem)
    requires LR.Shows(log, m) && LR.Told(log.p, s, log.cache.memdisk[..], m) && m == LR.Fresh(CR.HomeOf(log.p, bs))
    requires Operation(log.p, log.cache.memdisk[..], ws) && (f.InOperation? ==> f.n <= |ws|)
    requires |bs| == log.cache.memdisk.Length
    modifies log, log.block, log.cache, log.cache.buf, log.cache.memdisk
    ensures next.cache.memdisk == log.cache.memdisk && next.p == log.p
    ensures LR.Shows(next, m') && LR.Told(log.p, s', log.cache.memdisk[..], m') && Continues(s, s')
    ensures m' == (if Survives(ws, f) then LR.Fresh(CR.HomeOf(log.p, CR.Apply(bs, ws))) else m)
    ensures LR.Marks(s'.moves, s'.mems) ==
      LR.Marks(s.moves, s.mems) + (if Survives(ws, f) then [m'.stable] else [])
  {
    hide LR.Shows, LR.Told, LR.Marks, CR.Apply, CR.HomeOf, Touched;
    StoryStates(log.p, s, log.cache.memdisk[..], m);
    var n := if f.InOperation? then f.n else |ws|;
    next, s', m' := BeginAndWrite(log, ws, n, s, m, bs);
    MidwayRoom(log.p, log.cache.memdisk[..], m', bs, ws, n);
    assert ws[..|ws|] == ws;
    StoryStates(log.p, s', log.cache.memdisk[..], m');
    var r;
    ghost var kept;
    if f.InOperation? {
      next, r, s', m', kept := Tells(next, LR.PowerFail(0, f.again), s', m');
      assert LR.Marks(s.moves, s.mems) + [] == LR.Marks(s.moves, s.mems);
    } else {
      next, r, s', m', kept := Tells(next, LR.EndOp(0), s', m');
      next, r, s', m', kept := Tells(next, LR.PowerFail(f.k, f.again), s', m');
      assert LR.Marks(s.moves, s.mems) + [] == LR.Marks(s.moves, s.mems);
    }
  }

  // ---- filewrite ----

  /** An operation of filewrite is one that the log can take. */
  lemma ChunkIsOperation(g: Geometry, p: CR.Layout, hist: seq<Snap>, ops: seq<seq<CR.Write>>, start: Start,
                         inum: nat,
                         off: nat, addr: seq<byte>, q: nat, d: Store)
    requires ChunkHistory(g, hist, ops, start, inum, off, addr) && LogBelow(g, p) && q < |ops|
    requires |d| == |hist[q].bs| && MAXOPBLOCKS < p.size - 1
    ensures Operation(p, d, ops[q]) && hist[q + 1].bs == CR.Apply(hist[q].bs, ops[q])
  {
    hide ChunkAt, Touched, CR.Apply;
    assert OneOperation(g, hist[q].bs, hist[q + 1].bs, ops[q]);
  }

  lemma {:induction false} SameLength(g: Geometry, hist: seq<Snap>, ops: seq<seq<CR.Write>>, start: Start,
                                      inum: nat,
                                      off: nat, addr: seq<byte>, q: nat)
    requires ChunkHistory(g, hist, ops, start, inum, off, addr) && q < |hist|
    ensures |hist[q].bs| == |hist[0].bs|
    decreases q
  {
    hide ChunkAt, Touched, CR.Apply;
    if q > 0 {
      SameLength(g, hist, ops, start, inum, off, addr, q - 1);
      assert OneOperation(g, hist[q - 1].bs, hist[q].bs, ops[q - 1]);
    }
  }

  /** The marks of the story so far are the moments of the history so far. */
  ghost predicate Following(p: CR.Layout, s: LR.Story, hist: seq<Snap>, q: nat)
    requires |s.mems| == |s.moves| + 1
  {
    var marks := LR.Marks(s.moves, s.mems);
    |marks| == q + 1 <= |hist| && forall k :: 0 <= k <= q ==> marks[k] == CR.HomeOf(p, hist[k].bs)
  }

  /** What the machine has on disk when its story follows filewrite's history up to q. */
  lemma FollowsFileWrite(g: Geometry, p: CR.Layout, hist: seq<Snap>, ops: seq<seq<CR.Write>>, start: Start,
                         inum: nat,
                         off: nat, addr: seq<byte>, q: nat, s: LR.Story, d: Store, m: LR.Mem)
    requires ChunkHistory(g, hist, ops, start, inum, off, addr) && LogBelow(g, p) && LR.Told(p, s, d, m)
    requires Following(p, s, hist, q)
    requires s.states[0].disk == hist[0].bs && s.mems[0].stable == CR.HomeOf(p, hist[0].bs)
    ensures Serves(p, s.events, s.states, hist) && |CR.Durable(s.events)| == q < |hist|
    ensures ChunkAt(g, Snap(d, hist[q].T, hist[q].owner), start, inum, off, addr, q)
  {
    hide CR.HomeOf, CR.IsRun, LR.Marks, LR.Answers, LR.Chain, FsOk, FilesOf, AttrsOf, Written, Steps, Changes;
    forall k | 0 <= k < |hist|
      ensures |hist[k].bs| == |hist[0].bs|
    {
      SameLength(g, hist, ops, start, inum, off, addr, k);
    }
    StoryServes(p, s, d, m, hist);
    forall k | 0 <= k < |hist|
      ensures FsOk(g, hist[k].bs, hist[k].T, hist[k].owner)
    {
      assert ChunkAt(g, hist[k], start, inum, off, addr, k);
    }
    FilesSurviveCrashes(g, p, s.events, s.states, hist);
    assert ChunkAt(g, hist[q], start, inum, off, addr, q);
  }

  /** How many operations are whole when the power fails in operation q. */
  ghost function Whole(ops: seq<seq<CR.Write>>, q: nat, f: Fault): (r: nat)
    requires q <= |ops|
    ensures q <= r <= |ops|
  {
    if q < |ops| && Survives(ops[q], f) then q + 1 else q
  }

  /** filewrite on the running log: after q of its operations the power fails in the next one, behind
      any of its log_writes or any block write of its commit, and in any number of recoveries. The
      machine comes up with a disk that holds a consistent file system in which exactly those chunks
      have been written whose commit had written its header, and no other file has changed. */
  method FileWriteOnLog(log: L.Log, ops: seq<seq<CR.Write>>, q: nat, f: Fault, ghost g: Geometry, ghost hist: seq<Snap>,
                        ghost start: Start, ghost inum: nat, ghost off: nat, ghost addr: seq<byte>)
    returns (next: L.Log, ghost s: LR.Story)
    requires ChunkHistory(g, hist, ops, start, inum, off, addr) && LogBelow(g, log.p) && MAXOPBLOCKS < log.p.size - 1
    requires LR.Shows(log, LR.Fresh(CR.HomeOf(log.p, hist[0].bs))) && log.cache.memdisk[..] == hist[0].bs
    requires q <= |ops| && (q < |ops| && f.InOperation? ==> f.n <= |ops[q]|)
    modifies log, log.block, log.cache, log.cache.buf, log.cache.memdisk
    ensures next.cache.memdisk == log.cache.memdisk && next.p == log.p
    ensures LR.Shows(next, LR.Fresh(CR.HomeOf(log.p, hist[Whole(ops, q, f)].bs)))
    ensures Serves(log.p, s.events, s.states, hist) && |CR.Durable(s.events)| == Whole(ops, q, f)
    ensures var w := Whole(ops, q, f);
      ChunkAt(g, Snap(log.cache.memdisk[..], hist[w].T, hist[w].owner), start, inum, off, addr, w)
  {
    hide LR.Shows, LR.Told, LR.Marks, CR.Apply, CR.HomeOf, ChunkHistory, ChunkAt, Serves, Operation, Following,
         Survives;
    HistorySize(g, hist, ops, start, inum, off, addr);
    next := log;
    ghost var p, d0 := log.p, log.cache.memdisk[..];
    ghost var m0 := LR.Fresh(CR.HomeOf(p, d0));
    ghost var m := m0;
    s := LR.Story([], [], [], [m], [], [CR.Machine(d0, true)]);
    StoryStart(log, p, s, m, hist);
    for i := 0 to q
      invariant next.cache.memdisk == log.cache.memdisk && next.p == p
      invariant next == log || (fresh(next) && fresh(next.block) && fresh(next.cache) && fresh(next.cache.buf))
      invariant LR.Shows(next, m) && LR.Told(p, s, log.cache.memdisk[..], m) && m == LR.Fresh(CR.HomeOf(p, hist[i].bs))
      invariant s.states != [] && s.states[0] == CR.Machine(d0, true) && s.mems != [] && s.mems[0] == m0
      invariant |s.mems| == |s.moves| + 1 && Following(p, s, hist, i)
    {
      SameLength(g, hist, ops, start, inum, off, addr, i);
      ChunkIsOperation(g, p, hist, ops, start, inum, off, addr, i, log.cache.memdisk[..]);
      ghost var s0 := s;
      next, s, m := Perform(next, ops[i], s, m, hist[i].bs);
      StoryStates(p, s, log.cache.memdisk[..], m);
      FollowNext(p, s0, s, hist, i, m);
    }
    if q < |ops| {
      SameLength(g, hist, ops, start, inum, off, addr, q);
      ChunkIsOperation(g, p, hist, ops, start, inum, off, addr, q, log.cache.memdisk[..]);
      ghost var s0 := s;
      next, s, m := Interrupt(next, ops[q], f, s, m, hist[q].bs);
      StoryStates(p, s, log.cache.memdisk[..], m);
      if Survives(ops[q], f) {
        FollowNext(p, s0, s, hist, q, m);
      } else {
        FollowSame(p, s0, s, hist, q);
      }
    }
    FollowsFileWrite(g, p, hist, ops, start, inum, off, addr, Whole(ops, q, f), s, log.cache.memdisk[..], m);
  }

  lemma StoryStart(log: L.Log, p: CR.Layout, s: LR.Story, m: LR.Mem, hist: seq<Snap>)
    requires hist != [] && p == log.p && LR.Shows(log, m) && log.cache.memdisk[..] == hist[0].bs
    requires m == LR.Fresh(CR.HomeOf(p, hist[0].bs))
    requires s == LR.Story([], [], [], [m], [], [CR.Machine(hist[0].bs, true)])
    ensures LR.Told(p, s, hist[0].bs, m) && Following(p, s, hist, 0)
  {
    hide CR.HomeOf, LR.Told, CR.Clean;
    LR.Facts(log, m);
    LR.ToldStart(p, hist[0].bs, m);
  }

  lemma FollowNext(p: CR.Layout, s: LR.Story, s': LR.Story, hist: seq<Snap>, q: nat, m: LR.Mem)
    requires |s.mems| == |s.moves| + 1 && |s'.mems| == |s'.moves| + 1 && q + 1 < |hist| && Following(p, s, hist, q)
    requires LR.Marks(s'.moves, s'.mems) == LR.Marks(s.moves, s.mems) + [m.stable]
    requires m.stable == CR.HomeOf(p, hist[q + 1].bs)
    ensures Following(p, s', hist, q + 1)
  {
    hide CR.HomeOf, LR.Marks;
  }

  lemma FollowSame(p: CR.Layout, s: LR.Story, s': LR.Story, hist: seq<Snap>, q: nat)
    requires |s.mems| == |s.moves| + 1 && |s'.mems| == |s'.moves| + 1 && Following(p, s, hist, q)
    requires LR.Marks(s'.moves, s'.mems) == LR.Marks(s.moves, s.mems) + []
    ensures Following(p, s', hist, q)
  {
  }
}
