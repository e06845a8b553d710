/** The redo log at the level of the disk: every operation of log.c is the sequence of
    single-block writes it issues, and a crash cuts such a sequence at any point. */
module CrashRecovery {
  import opened Common
  import opened Blocks

  const LOGSIZE := 3 * MAXOPBLOCKS

  type Disk = seq<Block>

  datatype Write = Write(blockno: nat, data: Block)

  /** Where the log lives: block `start` is the header, the next `size - 1` hold data. */
  datatype Layout = Layout(start: nat, size: nat)

  /** One transaction: `data[i]` is the new content of home block `blocks[i]`. */
  datatype Txn = Txn(blocks: seq<nat>, data: seq<Block>)

  predicate InLog(p: Layout, b: nat) { p.start <= b < p.start + p.size }

  predicate IsHome(d: Disk, p: Layout, b: nat) { b < |d| && !InLog(p, b) }

  predicate Distinct(s: seq<nat>) { forall i, j :: 0 <= i < j < |s| ==> s[i] != s[j] }

  predicate LogFits(d: Disk, p: Layout)
  {
    0 < p.size && p.start + p.size <= |d| && |d| <= UINT_LIMIT
  }

  /** What log_write and the reservation establish about the blocks of a transaction. */
  predicate Loggable(d: Disk, p: Layout, blocks: seq<nat>)
  {
    && LogFits(d, p)
    && |blocks| <= LOGSIZE && |blocks| <= p.size - 1
    && Distinct(blocks)
    && forall i :: 0 <= i < |blocks| ==> IsHome(d, p, blocks[i])
  }

  predicate ValidTxn(d: Disk, p: Layout, t: Txn)
  {
    Loggable(d, p, t.blocks) && |t.data| == |t.blocks|
  }

  // ---- the header block (struct logheader) ----

  /** write_head: store n and the first n entries over the old header block. */
  function HeaderBlock(old_: Block, blocks: seq<nat>): (r: Block)
    requires |blocks| <= LOGSIZE
    requires forall i :: 0 <= i < |blocks| ==> blocks[i] < UINT_LIMIT
  {
    PutWords(SetWord(old_, 0, |blocks|), 1, blocks)
  }

  /** read_head: the block numbers listed by a header with a count in range. */
  function HeaderEntries(h: Block): (r: seq<nat>)
    requires Word(h, 0) <= LOGSIZE
  {
    seq(Word(h, 0), i requires 0 <= i < Word(h, 0) => Word(h, 1 + i))
  }

  lemma HeaderRoundTrip(old_: Block, blocks: seq<nat>)
    requires |blocks| <= LOGSIZE
    requires forall i :: 0 <= i < |blocks| ==> blocks[i] < UINT_LIMIT
    ensures Word(HeaderBlock(old_, blocks), 0) == |blocks|
    ensures HeaderEntries(HeaderBlock(old_, blocks)) == blocks
  {
    var h0 := SetWord(old_, 0, |blocks|);
    PutWordsAt(h0, 1, blocks, 0);
    WordOfSetWord(old_, 0, |blocks|);
    forall i | 0 <= i < |blocks|
      ensures HeaderEntries(HeaderBlock(old_, blocks))[i] == blocks[i]
    {
      PutWordsAt(h0, 1, blocks, 1 + i);
    }
  }

  // ---- disks with a readable log, and the file system content they stand for ----

  /** The header lists distinct home blocks, so recovery can follow it. */
  predicate Recoverable(d: Disk, p: Layout)
  {
    LogFits(d, p) && Word(d[p.start], 0) <= LOGSIZE && Loggable(d, p, HeaderEntries(d[p.start]))
  }

  function Pending(d: Disk, p: Layout): (r: seq<nat>)
    requires Recoverable(d, p)
  {
    HeaderEntries(d[p.start])
  }

  predicate Clean(d: Disk, p: Layout) { Recoverable(d, p) && Pending(d, p) == [] }

  function IndexIn(s: seq<nat>, b: nat): (i: nat)
    requires b in s
    ensures i < |s| && s[i] == b
  {
    if s[0] == b then 0 else 1 + IndexIn(s[1..], b)
  }

  /** The home blocks with the copies in the first log slots replacing `blocks`. */
  function Redo(d: Disk, p: Layout, blocks: seq<nat>): (m: map<nat, Block>)
    requires p.start + 1 + |blocks| <= |d|
  {
    map b: nat | b < |d| && !InLog(p, b) ::
      if b in blocks then d[p.start + 1 + IndexIn(blocks, b)] else d[b]
  }

  /** The home blocks a disk stands for: a block with a committed log copy has the
      content of that copy, every other block its own. */
  function Home(d: Disk, p: Layout): (m: map<nat, Block>)
    requires Recoverable(d, p)
  {
    Redo(d, p, Pending(d, p))
  }

  /** The blocks outside the log. */
  function HomeOf(p: Layout, bs: seq<Block>): (m: map<nat, Block>)
  {
    map b: nat | b < |bs| && !InLog(p, b) :: bs[b]
  }

  lemma CleanIsHome(p: Layout, d: Disk)
    requires Clean(d, p)
    ensures Home(d, p) == HomeOf(p, d)
  {
  }

  /** The effect of a transaction on the home blocks, all at once. */
  function Install(m: map<nat, Block>, t: Txn): (r: map<nat, Block>)
    requires |t.data| == |t.blocks|
  {
    map b | b in m :: if b in t.blocks then t.data[IndexIn(t.blocks, b)] else m[b]
  }

  // ---- the writes each operation issues ----

  function Apply(d: Disk, ws: seq<Write>): (r: Disk)
    ensures |r| == |d|
  {
    if ws == [] then d
    else
      var w := ws[|ws| - 1];
      var e := Apply(d, ws[..|ws| - 1]);
      if w.blockno < |e| then e[w.blockno := w.data] else e
  }

  lemma {:induction false} ApplyAppend(d: Disk, a: seq<Write>, b: seq<Write>)
    ensures Apply(d, a + b) == Apply(Apply(d, a), b)
  {
    if b == [] {
      assert a + b == a;
    } else {
      var m := |b| - 1;
      assert (a + b)[..|a| + m] == a + b[..m];
      ApplyAppend(d, a, b[..m]);
    }
  }

  lemma ApplyPast(d: Disk, a: seq<Write>, b: seq<Write>, j: nat)
    requires j <= |b|
    ensures Apply(d, (a + b)[..|a| + j]) == Apply(Apply(d, a), b[..j])
  {
    assert (a + b)[..|a| + j] == a + b[..j];
    ApplyAppend(d, a, b[..j]);
  }

  lemma ApplyNext(d: Disk, ws: seq<Write>, k: nat)
    requires k < |ws| && ws[k].blockno < |d|
    ensures Apply(d, ws[..k + 1]) == Apply(d, ws[..k])[ws[k].blockno := ws[k].data]
  {
    assert ws[..k + 1][..k] == ws[..k];
  }

  /** write_log: copy block i of the transaction into log slot i. */
  function LogWrites(p: Layout, data: seq<Block>): (r: seq<Write>)
    ensures |r| == |data|
  {
    seq(|data|, i requires 0 <= i < |data| => Write(p.start + 1 + i, data[i]))
  }

  /** install_trans: copy log slot i to its home block. */
  function InstallWrites(blocks: seq<nat>, data: seq<Block>): (r: seq<Write>)
    requires |data| == |blocks|
    ensures |r| == |blocks|
  {
    seq(|blocks|, i requires 0 <= i < |blocks| => Write(blocks[i], data[i]))
  }

  /** commit(): nothing for an empty transaction, otherwise log, header, install, clear. */
  function CommitWrites(d: Disk, p: Layout, t: Txn): (r: seq<Write>)
    requires ValidTxn(d, p, t)
  {
    if t.blocks == [] then []
    else
      var h := HeaderBlock(d[p.start], t.blocks);
      LogWrites(p, t.data) + [Write(p.start, h)]
      + InstallWrites(t.blocks, t.data) + [Write(p.start, HeaderBlock(h, []))]
  }

  /** How many block writes a commit of n blocks takes. */
  function CommitSize(n: nat): (r: nat) { if n == 0 then 0 else 2 * n + 2 }

  lemma CommitLength(d: Disk, p: Layout, t: Txn)
    requires ValidTxn(d, p, t)
    ensures |CommitWrites(d, p, t)| == CommitSize(|t.blocks|)
  {
  }

  /** The log slots named by the header of a recoverable disk. */
  function Slots(d: Disk, p: Layout): (r: seq<Block>)
    requires Recoverable(d, p)
    ensures |r| == |Pending(d, p)|
  {
    d[p.start + 1..p.start + 1 + |Pending(d, p)|]
  }

  /** recover_from_log(): install what the header lists, then clear it. */
  function RecoverWrites(d: Disk, p: Layout): (r: seq<Write>)
    requires Recoverable(d, p)
  {
    InstallWrites(Pending(d, p), Slots(d, p)) + [Write(p.start, HeaderBlock(d[p.start], []))]
  }

  // ---- disks that stand for the same content ----

  lemma SlotsInvisible(d: Disk, e: Disk, p: Layout)
    requires Clean(d, p) && |e| == |d| && e[p.start] == d[p.start]
    requires forall b: nat :: IsHome(d, p, b) ==> e[b] == d[b]
    ensures Clean(e, p) && Home(e, p) == Home(d, p)
  {
  }

  /** Copying any of the pending slots home changes nothing a recovery would see. */
  lemma InstallInvisible(d: Disk, e: Disk, p: Layout)
    requires Recoverable(d, p) && |e| == |d|
    requires forall b: nat :: b < |d| && InLog(p, b) ==> e[b] == d[b]
    requires forall b: nat :: IsHome(d, p, b) && b !in Pending(d, p) ==> e[b] == d[b]
    ensures Recoverable(e, p) && Pending(e, p) == Pending(d, p)
    ensures Slots(e, p) == Slots(d, p) && Home(e, p) == Home(d, p)
  {
  }

  lemma HeaderWriteReadable(d: Disk, p: Layout, t: Txn)
    requires Clean(d, p) && ValidTxn(d, p, t)
    requires d[p.start + 1..p.start + 1 + |t.data|] == t.data
    ensures var e := d[p.start := HeaderBlock(d[p.start], t.blocks)];
      Recoverable(e, p) && Pending(e, p) == t.blocks && Slots(e, p) == t.data
  {
    var e := d[p.start := HeaderBlock(d[p.start], t.blocks)];
    HeaderRoundTrip(d[p.start], t.blocks);
    assert Loggable(e, p, t.blocks);
    assert e[p.start + 1..p.start + 1 + |t.data|] == d[p.start + 1..p.start + 1 + |t.data|];
  }

  lemma HeaderWriteCommits(d: Disk, p: Layout, t: Txn)
    requires Clean(d, p) && ValidTxn(d, p, t)
    requires d[p.start + 1..p.start + 1 + |t.data|] == t.data
    ensures var e := d[p.start := HeaderBlock(d[p.start], t.blocks)];
      && Recoverable(e, p) && Pending(e, p) == t.blocks && Slots(e, p) == t.data
      && Home(e, p) == Install(Home(d, p), t)
  {
    HeaderWriteReadable(d, p, t);
    RedoInstalls(d, d[p.start := HeaderBlock(d[p.start], t.blocks)], p, t);
  }

  lemma RedoInstalls(d: Disk, e: Disk, p: Layout, t: Txn)
    requires |t.data| == |t.blocks| && p.start + 1 + |t.blocks| <= |d| == |e|
    requires forall b: nat :: b < |d| && !InLog(p, b) ==> e[b] == d[b]
    requires e[p.start + 1..p.start + 1 + |t.blocks|] == t.data
    ensures Redo(e, p, t.blocks) == Install(Redo(d, p, []), t)
  {
    forall b: nat | b < |d| && !InLog(p, b) && b in t.blocks
      ensures Redo(e, p, t.blocks)[b] == t.data[IndexIn(t.blocks, b)]
    {
      assert e[p.start + 1..p.start + 1 + |t.blocks|][IndexIn(t.blocks, b)] == t.data[IndexIn(t.blocks, b)];
    }
  }

  lemma ClearWriteInvisible(d: Disk, p: Layout)
    requires Recoverable(d, p)
    requires forall i :: 0 <= i < |Pending(d, p)| ==> d[Pending(d, p)[i]] == Slots(d, p)[i]
    ensures var e := d[p.start := HeaderBlock(d[p.start], [])];
      Clean(e, p) && Home(e, p) == Home(d, p)
  {
    HeaderRoundTrip(d[p.start], []);
    var e := d[p.start := HeaderBlock(d[p.start], [])];
    assert Loggable(e, p, []);
    RedoInPlace(d, e, p, Pending(d, p));
  }

  lemma RedoInPlace(d: Disk, e: Disk, p: Layout, blocks: seq<nat>)
    requires p.start + 1 + |blocks| <= |d| == |e|
    requires forall b: nat :: b < |d| && !InLog(p, b) ==> e[b] == d[b]
    requires forall i :: 0 <= i < |blocks| ==> blocks[i] < |d| && d[blocks[i]] == d[p.start + 1 + i]
    ensures Redo(e, p, []) == Redo(d, p, blocks)
  {
  }

  // ---- every prefix of the write sequences ----

  lemma {:induction false} LogEffect(d: Disk, p: Layout, data: seq<Block>, k: nat)
    requires p.start + 1 + |data| <= |d| && k <= |data|
    ensures var e := Apply(d, LogWrites(p, data)[..k]);
      forall i :: 0 <= i < |d| ==>
        e[i] == if p.start < i <= p.start + k then data[i - p.start - 1] else d[i]
  {
    if k > 0 {
      LogEffect(d, p, data, k - 1);
      ApplyNext(d, LogWrites(p, data), k - 1);
    }
  }

  lemma {:induction false} InstallEffect(d: Disk, blocks: seq<nat>, data: seq<Block>, k: nat)
    requires |data| == |blocks| && k <= |blocks| && Distinct(blocks)
    requires forall i :: 0 <= i < |blocks| ==> blocks[i] < |d|
    ensures var e := Apply(d, InstallWrites(blocks, data)[..k]);
      && (forall b: nat :: b < |d| && b !in blocks ==> e[b] == d[b])
      && (forall i :: 0 <= i < k ==> e[blocks[i]] == data[i])
  {
    if k > 0 {
      InstallEffect(d, blocks, data, k - 1);
      ApplyNext(d, InstallWrites(blocks, data), k - 1);
    }
  }

  lemma LogPrefix(d: Disk, p: Layout, t: Txn, k: nat)
    requires Clean(d, p) && ValidTxn(d, p, t) && k <= |t.data|
    ensures var e := Apply(d, LogWrites(p, t.data)[..k]);
      && Clean(e, p) && Home(e, p) == Home(d, p) && e[p.start] == d[p.start]
      && e[p.start + 1..p.start + 1 + k] == t.data[..k]
  {
    LogEffect(d, p, t.data, k);
    SlotsInvisible(d, Apply(d, LogWrites(p, t.data)[..k]), p);
  }

  lemma InstallPrefix(d: Disk, p: Layout, k: nat)
    requires Recoverable(d, p) && k <= |Pending(d, p)|
    ensures var e := Apply(d, InstallWrites(Pending(d, p), Slots(d, p))[..k]);
      && Recoverable(e, p) && e[p.start] == d[p.start]
      && Pending(e, p) == Pending(d, p) && Slots(e, p) == Slots(d, p)
      && Home(e, p) == Home(d, p)
      && forall i :: 0 <= i < k ==> e[Pending(d, p)[i]] == Slots(d, p)[i]
  {
    var blocks := Pending(d, p);
    assert forall i :: 0 <= i < |blocks| ==> IsHome(d, p, blocks[i]);
    InstallEffect(d, blocks, Slots(d, p), k);
    InstallInvisible(d, Apply(d, InstallWrites(blocks, Slots(d, p))[..k]), p);
  }

  /** A crash anywhere inside recovery leaves a disk that stands for the same content;
      recovery that runs to its end puts that content in place and empties the log. */
  lemma RecoveryCrash(d: Disk, p: Layout, k: nat)
    requires Recoverable(d, p) && k <= |RecoverWrites(d, p)|
    ensures var e := Apply(d, RecoverWrites(d, p)[..k]);
      Recoverable(e, p) && Home(e, p) == Home(d, p) && (k == |RecoverWrites(d, p)| ==> Clean(e, p))
  {
    var inst := InstallWrites(Pending(d, p), Slots(d, p));
    var ws := RecoverWrites(d, p);
    var n := |inst|;
    if k <= n {
      assert ws[..k] == inst[..k];
      InstallPrefix(d, p, k);
    } else {
      InstallPrefix(d, p, n);
      assert inst[..n] == inst;
      assert ws[..k] == ws && ws[..n] == inst;
      ClearWriteInvisible(Apply(d, inst), p);
    }
  }

  /** The writes of commit() up to and including the commit point. */
  function CommitHead(d: Disk, p: Layout, t: Txn): (r: seq<Write>)
    requires ValidTxn(d, p, t)
    ensures |r| == |t.blocks| + 1
  {
    LogWrites(p, t.data) + [Write(p.start, HeaderBlock(d[p.start], t.blocks))]
  }

  lemma AtCommitPoint(d: Disk, p: Layout, t: Txn)
    requires Clean(d, p) && ValidTxn(d, p, t)
    ensures var e := Apply(d, CommitHead(d, p, t));
      && Recoverable(e, p) && Home(e, p) == Install(Home(d, p), t)
      && Pending(e, p) == t.blocks && Slots(e, p) == t.data
      && e[p.start] == HeaderBlock(d[p.start], t.blocks)
  {
    hide Apply, Home, Install, Pending, Slots, HeaderBlock;
    var n, logw, head := |t.blocks|, LogWrites(p, t.data), CommitHead(d, p, t);
    LogPrefix(d, p, t, n);
    assert logw[..n] == logw && t.data[..n] == t.data;
    assert head[..n] == logw && head[..n + 1] == head;
    ApplyNext(d, head, n);
    HeaderWriteCommits(Apply(d, logw), p, t);
  }

  /** Once the log slots and the header are on disk, what commit() still has to write
      is exactly what recovery would write. */
  lemma CommitIsLogThenRecover(d: Disk, p: Layout, t: Txn)
    requires Clean(d, p) && ValidTxn(d, p, t) && t.blocks != []
    ensures var e := Apply(d, CommitHead(d, p, t));
      && Recoverable(e, p) && Home(e, p) == Install(Home(d, p), t)
      && CommitWrites(d, p, t) == CommitHead(d, p, t) + RecoverWrites(e, p)
  {
    AtCommitPoint(d, p, t);
    Reassociate(CommitHead(d, p, t), InstallWrites(t.blocks, t.data),
                [Write(p.start, HeaderBlock(HeaderBlock(d[p.start], t.blocks), []))]);
  }

  lemma Reassociate(a: seq<Write>, b: seq<Write>, c: seq<Write>)
    ensures a + b + c == a + (b + c)
  {
  }

  /** The commit point: a crash after k of the writes of commit() keeps the old content
      while the header has not been written, and has the whole transaction afterwards. */
  lemma CommitCrash(d: Disk, p: Layout, t: Txn, k: nat)
    requires Clean(d, p) && ValidTxn(d, p, t) && k <= |CommitWrites(d, p, t)|
    ensures var e := Apply(d, CommitWrites(d, p, t)[..k]);
      && Recoverable(e, p)
      && Home(e, p) == (if k <= |t.blocks| then Home(d, p) else Install(Home(d, p), t))
      && (k == |CommitWrites(d, p, t)| ==> Clean(e, p))
  {
    hide Home, Install, Loggable, HeaderBlock, HeaderEntries, Word;
    var n := |t.blocks|;
    if n == 0 {
    } else if k <= n {
      assert CommitWrites(d, p, t)[..k] == LogWrites(p, t.data)[..k];
      LogPrefix(d, p, t, k);
    } else {
      CommitCrashAfterHeader(d, p, t, k - n - 1);
    }
  }

  lemma CommitCrashAfterHeader(d: Disk, p: Layout, t: Txn, j: nat)
    requires Clean(d, p) && ValidTxn(d, p, t) && t.blocks != []
    requires |t.blocks| + 1 + j <= |CommitWrites(d, p, t)|
    ensures var e := Apply(d, CommitWrites(d, p, t)[..|t.blocks| + 1 + j]);
      && Recoverable(e, p) && Home(e, p) == Install(Home(d, p), t)
      && (|t.blocks| + 1 + j == |CommitWrites(d, p, t)| ==> Clean(e, p))
  {
    hide Home, Install, Apply, Clean, HeaderBlock, CommitWrites, RecoverWrites;
    CommitIsLogThenRecover(d, p, t);
    RecoveryCrashAfter(d, CommitHead(d, p, t), CommitWrites(d, p, t), p, j);
  }

  lemma RecoveryCrashAfter(d: Disk, head: seq<Write>, ws: seq<Write>, p: Layout, j: nat)
    requires Recoverable(Apply(d, head), p) && ws == head + RecoverWrites(Apply(d, head), p)
    requires |head| + j <= |ws|
    ensures var e := Apply(d, ws[..|head| + j]);
      && Recoverable(e, p) && Home(e, p) == Home(Apply(d, head), p) && (|head| + j == |ws| ==> Clean(e, p))
  {
    var mid := Apply(d, head);
    ApplyPast(d, head, RecoverWrites(mid, p), j);
    RecoveryCrash(mid, p, j);
  }

  // ---- whole runs ----

  /** What happens to one machine: transactions committed to the end, commits and
      recoveries cut short by a crash, and recoveries that complete after a crash. */
  datatype Event =
    | Commit(t: Txn)
    | CrashInCommit(t: Txn, k: nat)
    | CrashInRecovery(k: nat)
    | Recover

  /** `up` is false between a crash and the end of the recovery that follows it. */
  datatype Machine = Machine(disk: Disk, up: bool)

  predicate Possible(m: Machine, p: Layout, e: Event)
  {
    match e
    case Commit(t) => m.up && Clean(m.disk, p) && ValidTxn(m.disk, p, t)
    case CrashInCommit(t, k) =>
      m.up && Clean(m.disk, p) && ValidTxn(m.disk, p, t) && k <= |CommitWrites(m.disk, p, t)|
    case CrashInRecovery(k) => !m.up && Recoverable(m.disk, p) && k <= |RecoverWrites(m.disk, p)|
    case Recover => !m.up && Recoverable(m.disk, p)
  }

  function Next(m: Machine, p: Layout, e: Event): (r: Machine)
    requires Possible(m, p, e)
  {
    match e
    case Commit(t) => Machine(Apply(m.disk, CommitWrites(m.disk, p, t)), true)
    case CrashInCommit(t, k) => Machine(Apply(m.disk, CommitWrites(m.disk, p, t)[..k]), false)
    case CrashInRecovery(k) => Machine(Apply(m.disk, RecoverWrites(m.disk, p)[..k]), false)
    case Recover => Machine(Apply(m.disk, RecoverWrites(m.disk, p)), true)
  }

  /** A run over `states`, one more than there are events. */
  ghost predicate IsRun(p: Layout, events: seq<Event>, states: seq<Machine>)
  {
    && |states| == |events| + 1
    && states[0].up && Clean(states[0].disk, p)
    && forall i :: 0 <= i < |events| ==>
        Possible(states[i], p, events[i]) && states[i + 1] == Next(states[i], p, events[i])
  }

  /** The transactions whose commit point was reached, oldest first. */
  function Durable(events: seq<Event>): (r: seq<Txn>)
  {
    if events == [] then []
    else
      var before := Durable(events[..|events| - 1]);
      match events[|events| - 1]
      case Commit(t) => before + [t]
      case CrashInCommit(t, k) => if k <= |t.blocks| then before else before + [t]
      case _ => before
  }

  ghost function KeptBy(e: Event): (r: seq<Txn>)
  {
    if e.Commit? then [e.t] else if e.CrashInCommit? && e.k > |e.t.blocks| then [e.t] else []
  }

  /** One more event. */
  lemma RunNext(p: Layout, events: seq<Event>, states: seq<Machine>, d: Disk, up: bool, e: Event)
    requires IsRun(p, events, states) && states[|events|] == Machine(d, up) && Possible(Machine(d, up), p, e)
    ensures var m := Next(Machine(d, up), p, e);
      IsRun(p, events + [e], states + [m]) && (states + [m])[|events| + 1] == m
    ensures Durable(events + [e]) == Durable(events) + KeptBy(e)
  {
    hide Possible, Next, Durable, KeptBy;
    var events', states' := events + [e], states + [Next(Machine(d, up), p, e)];
    forall i | 0 <= i < |events'|
      ensures Possible(states'[i], p, events'[i]) && states'[i + 1] == Next(states'[i], p, events'[i])
    {
      if i < |events| { assert states'[i] == states[i] && states'[i + 1] == states[i + 1] && events'[i] == events[i]; }
    }
    DurableNext(events, e);
  }

  lemma DurableNext(events: seq<Event>, e: Event)
    ensures Durable(events + [e]) == Durable(events) + KeptBy(e)
  {
    assert (events + [e])[..|events|] == events;
  }

  function InstallAll(m: map<nat, Block>, ts: seq<Txn>): (r: map<nat, Block>)
    requires forall i :: 0 <= i < |ts| ==> |ts[i].data| == |ts[i].blocks|
  {
    if ts == [] then m else Install(InstallAll(m, ts[..|ts| - 1]), ts[|ts| - 1])
  }

  lemma StepHome(m: Machine, p: Layout, e: Event)
    requires Possible(m, p, e) && Recoverable(m.disk, p)
    ensures var r := Next(m, p, e);
      && Recoverable(r.disk, p) && (r.up ==> Clean(r.disk, p))
      && Home(r.disk, p) == (
          match e
          case Commit(t) => Install(Home(m.disk, p), t)
          case CrashInCommit(t, k) => if k <= |t.blocks| then Home(m.disk, p) else Install(Home(m.disk, p), t)
          case _ => Home(m.disk, p))
  {
    match e
    case Commit(t) =>
      var ws := CommitWrites(m.disk, p, t);
      CommitCrash(m.disk, p, t, |ws|);
      assert ws[..|ws|] == ws;
    case CrashInCommit(t, k) => CommitCrash(m.disk, p, t, k);
    case CrashInRecovery(k) => RecoveryCrash(m.disk, p, k);
    case Recover =>
      var ws := RecoverWrites(m.disk, p);
      RecoveryCrash(m.disk, p, |ws|);
      assert ws[..|ws|] == ws;
  }

  /** Crash atomicity over every run: at every moment the disk stands for exactly the
      transactions that reached their commit point, whole and in order; whenever the
      machine is up the log is empty, so the home blocks themselves hold that content. */
  lemma {:induction false} CrashAtomicity(p: Layout, events: seq<Event>, states: seq<Machine>)
    requires IsRun(p, events, states)
    ensures forall i :: 0 <= i < |Durable(events)| ==>
      |Durable(events)[i].data| == |Durable(events)[i].blocks|
    ensures var last := states[|events|];
      && Recoverable(last.disk, p) && (last.up ==> Clean(last.disk, p))
      && Home(last.disk, p) == InstallAll(Home(states[0].disk, p), Durable(events))
    decreases |events|
  {
    if events != [] {
      var n := |events| - 1;
      var before, e := events[..n], events[n];
      assert forall i :: 0 <= i < n ==> before[i] == events[i];
      CrashAtomicity(p, before, states[..n + 1]);
      StepHome(states[n], p, e);
      var ts := Durable(before);
      if Durable(events) != ts {
        assert Durable(events)[..|ts|] == ts;
      }
    }
  }

  /** On a clean disk the content is the home blocks, byte for byte. */
  lemma CleanHomeIsDisk(d: Disk, p: Layout, b: nat)
    requires Clean(d, p) && IsHome(d, p, b)
    ensures b in Home(d, p) && Home(d, p)[b] == d[b]
  {
  }
}
