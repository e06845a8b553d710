/** The per-CPU scheduler of proc.c: how each policy chooses the next process. */
module Scheduler {
  import opened Common
  import opened ProcTable

  const QUANTUM := 10
  const PRIORITY_Q: seq<nat> := [1, 2, 4, 8, 16, 32]
  const RAND_LIMIT := 0x8000 // fastrand returns 0..0x7FFF

  // ---- policy 4: lottery ----

  function RunnableShare(p: Proc): (r: nat) { if p.state == RUNNABLE then p.ticketCount else 0 }

  /** Tickets of the RUNNABLE processes in the first slots. */
  ghost function Below(procs: seq<Proc>): (r: nat)
  {
    if procs == [] then 0 else Below(procs[..|procs| - 1]) + RunnableShare(procs[|procs| - 1])
  }

  ghost function RunningTickets(procs: seq<Proc>): (r: nat)
  {
    if procs == [] then 0
    else
      var last := procs[|procs| - 1];
      RunningTickets(procs[..|procs| - 1]) + if last.state == RUNNING then last.ticketCount else 0
  }

  /** Winning number w falls on the tickets of slot i. */
  ghost predicate Selects(procs: seq<Proc>, w: int, i: nat)
  {
    i < |procs| && procs[i].state == RUNNABLE && Below(procs[..i]) <= w < Below(procs[..i]) + procs[i].ticketCount
  }

  /** The scan for the lottery winner. */
  method LotteryScan(proc: array<Proc>, winner: nat) returns (p: nat)
    requires proc.Length == NPROC
    ensures p <= NPROC && (p < NPROC ==> Selects(proc[..], winner, p))
    ensures p == NPROC ==> winner >= Below(proc[..])
  {
    var w: int := winner;
    p := 0;
    while p < NPROC
      invariant 0 <= p <= NPROC && 0 <= w
      invariant w == winner - Below(proc[..p])
    {
      assert proc[..p + 1][..p] == proc[..p];
      if proc[p].state == RUNNABLE {
        w := w - proc[p].ticketCount;
        if w < 0 {
          assert proc[..][..p] == proc[..p];
          return;
        }
      }
      p := p + 1;
    }
    assert proc[..NPROC] == proc[..];
  }

  lemma {:induction false} TicketsSplit(procs: seq<Proc>)
    ensures Tickets(procs) == Below(procs) + RunningTickets(procs)
  {
    if procs != [] { TicketsSplit(procs[..|procs| - 1]); }
  }

  lemma {:induction false} BelowMonotone(procs: seq<Proc>, i: nat, j: nat)
    requires i <= j <= |procs|
    ensures Below(procs[..i]) <= Below(procs[..j])
    decreases j
  {
    if i < j {
      assert procs[..j][..j - 1] == procs[..j - 1];
      BelowMonotone(procs, i, j - 1);
    }
  }

  lemma BelowNext(procs: seq<Proc>, i: nat)
    requires i < |procs|
    ensures Below(procs[..i + 1]) == Below(procs[..i]) + RunnableShare(procs[i])
  {
    assert procs[..i + 1][..i] == procs[..i];
  }

  /** A winning number selects at most one slot. */
  lemma SelectsOne(procs: seq<Proc>, w: int, i: nat, j: nat)
    requires Selects(procs, w, i) && Selects(procs, w, j)
    ensures i == j
  {
    BelowNext(procs, i);
    BelowNext(procs, j);
    if i < j { BelowMonotone(procs, i + 1, j); } else if j < i { BelowMonotone(procs, j + 1, i); }
  }

  /** The winning numbers below the ticket total that select slot i. */
  ghost function WinnersOf(procs: seq<Proc>, i: nat): (r: set<nat>)
  {
    set w | w in Numbers(0, Tickets(procs)) && Selects(procs, w, i)
  }

  /** The winning numbers that select nobody. */
  ghost function Blanks(procs: seq<Proc>): (r: set<nat>)
  {
    set w | w in Numbers(0, Tickets(procs)) && forall i :: 0 <= i < |procs| ==> !Selects(procs, w, i)
  }

  /** Of the numbers below the total, as many select a RUNNABLE process as it has tickets, and
      as many select nobody as the RUNNING processes have. */
  lemma LotteryShares(procs: seq<Proc>, i: nat)
    requires i < |procs|
    ensures |WinnersOf(procs, i)| == RunnableShare(procs[i])
    ensures |Blanks(procs)| == RunningTickets(procs)
  {
    hide *;
    WinnersAreTickets(procs, i);
    NumbersCount(Below(procs[..i]), Below(procs[..i]) + RunnableShare(procs[i]));
    BlanksAreTop(procs);
    TicketsSplit(procs);
    NumbersCount(Below(procs), Tickets(procs));
  }

  lemma WinnersAreTickets(procs: seq<Proc>, i: nat)
    requires i < |procs|
    ensures WinnersOf(procs, i) == Numbers(Below(procs[..i]), Below(procs[..i]) + RunnableShare(procs[i]))
  {
    TicketsSplit(procs);
    assert procs[..|procs|] == procs;
    BelowNext(procs, i);
    BelowMonotone(procs, i + 1, |procs|);
  }

  lemma BlanksAreTop(procs: seq<Proc>)
    ensures Blanks(procs) == Numbers(Below(procs), Tickets(procs))
  {
    assert procs[..|procs|] == procs;
    forall w | w in Numbers(0, Tickets(procs))
      ensures w in Blanks(procs) <==> w >= Below(procs)
    {
      if w < Below(procs) {
        var i := FindSelected(procs, w);
      } else {
        forall i | 0 <= i < |procs|
          ensures !Selects(procs, w, i)
        {
          BelowNext(procs, i);
          BelowMonotone(procs, i + 1, |procs|);
        }
      }
    }
  }

  lemma {:induction false} FindSelected(procs: seq<Proc>, w: nat) returns (i: nat)
    requires w < Below(procs)
    ensures Selects(procs, w, i)
  {
    var m := |procs| - 1;
    if w < Below(procs[..m]) {
      i := FindSelected(procs[..m], w);
      assert procs[..m][..i] == procs[..i];
    } else {
      i := m;
    }
  }

  /** The winning number chooses p (NPROC for nobody). */
  ghost predicate LotteryPass(procs: seq<Proc>, w: nat, p: nat)
  {
    if p < NPROC then Selects(procs, w, p) else w >= Below(procs)
  }

  /** The winning number for a total kept in an int: `fastrand() % totalTicketCount`, or 0. */
  function Draw(total: uint, rand: nat): (w: nat)
  {
    if 0 < total < INT_LIMIT then Rem(rand, total) else 0
  }

  /** The draws reach exactly the numbers below this. */
  function Reach(total: uint): (r: nat)
  {
    if 0 < total < INT_LIMIT then Min(total, RAND_LIMIT) else 1
  }

  lemma DrawReaches(total: uint, w: nat)
    ensures (exists rand: nat :: rand < RAND_LIMIT && Draw(total, rand) == w) <==> w < Reach(total)
  {
    hide Rem;
    if 0 < total < INT_LIMIT {
      forall rand: nat
        ensures Draw(total, rand) < total && Draw(total, rand) <= rand
      {
        QuoRem(rand, total);
      }
      if w < total {
        TimesOne(0, total);
        RemOf(0, w, total);
      }
    }
    assert w < Reach(total) ==> w < RAND_LIMIT && Draw(total, w) == w;
  }

  /** Slot i can win: some value of fastrand selects it. */
  ghost predicate Winnable(procs: seq<Proc>, total: uint, i: nat)
  {
    exists rand: nat :: rand < RAND_LIMIT && Selects(procs, Draw(total, rand), i)
  }

  /** A RUNNABLE process can win if and only if its first ticket is within the reach of the draws. */
  lemma WinnableIff(procs: seq<Proc>, total: uint, i: nat)
    requires i < |procs| && procs[i].state == RUNNABLE && procs[i].ticketCount > 0
    ensures Winnable(procs, total, i) <==> Below(procs[..i]) < Reach(total)
  {
    hide Below, Reach, Draw;
    var first := Below(procs[..i]);
    if first < Reach(total) {
      DrawReaches(total, first);
      var rand: nat :| rand < RAND_LIMIT && Draw(total, rand) == first;
      assert Selects(procs, Draw(total, rand), i);
    }
    if rand: nat :| rand < RAND_LIMIT && Selects(procs, Draw(total, rand), i) {
      DrawReaches(total, Draw(total, rand));
    }
  }

  /** In a sound table the total is the tickets modulo 2^32. While the tickets fit an int, a RUNNABLE
      process can win if and only if fewer than RAND_LIMIT tickets come before its own; when they do
      not, the total may be negative or zero, and then only the first RUNNABLE process can win. */
  lemma LotteryReach(procs: seq<Proc>, total: uint, i: nat)
    requires i < |procs| && procs[i].state == RUNNABLE && procs[i].ticketCount > 0
    requires total == Tickets(procs) % UINT_LIMIT
    ensures Tickets(procs) < INT_LIMIT ==> (Winnable(procs, total, i) <==> Below(procs[..i]) < RAND_LIMIT)
    ensures Tickets(procs) >= INT_LIMIT && !(0 < total < INT_LIMIT) ==>
      (Winnable(procs, total, i) <==> forall j :: 0 <= j < i ==> RunnableShare(procs[j]) == 0)
    ensures Tickets(procs) >= INT_LIMIT && 0 < total < INT_LIMIT ==>
      (Winnable(procs, total, i) <==> Below(procs[..i]) < Min(total, RAND_LIMIT))
  {
    hide Below, Tickets, Winnable;
    WinnableIff(procs, total, i);
    FirstTicketBelowTotal(procs, i);
    BelowZero(procs, i);
  }

  lemma FirstTicketBelowTotal(procs: seq<Proc>, i: nat)
    requires i < |procs| && procs[i].state == RUNNABLE && procs[i].ticketCount > 0
    ensures Below(procs[..i]) < Tickets(procs)
  {
    LastTicketWithinTotal(procs, i);
  }

  lemma {:induction false} BelowZero(procs: seq<Proc>, i: nat)
    requires i <= |procs|
    ensures Below(procs[..i]) == 0 <==> forall j :: 0 <= j < i ==> RunnableShare(procs[j]) == 0
    decreases i
  {
    if i > 0 {
      BelowZero(procs, i - 1);
      BelowNext(procs, i - 1);
    }
  }

  /** A first RUNNABLE process that takes 32768 tickets wins every draw, and no other ever does. */
  lemma GreedyProcessWins(procs: seq<Proc>, total: uint, rand: nat)
    requires |procs| > 0 && procs[0].state == RUNNABLE && procs[0].ticketCount == 32768 && rand < RAND_LIMIT
    ensures Selects(procs, Draw(total, rand), 0)
  {
    hide Rem;
    if 0 < total < INT_LIMIT { QuoRem(rand, total); }
    BelowNext(procs, 0);
  }

  lemma GreedyProcessStarvesOthers(procs: seq<Proc>, total: uint, i: nat)
    requires 1 < |procs| && 0 < i < |procs| && procs[0].state == RUNNABLE && procs[0].ticketCount == 32768
    requires procs[i].state == RUNNABLE && procs[i].ticketCount > 0
    ensures !Winnable(procs, total, i)
  {
    hide Winnable, Below;
    WinnableIff(procs, total, i);
    BelowMonotone(procs, 1, i);
    BelowNext(procs, 0);
  }

  /** Two processes with the largest int of tickets each make the total -2, and every draw 0. */
  lemma TicketsOverflow(a: Proc, b: Proc, rand: nat)
    requires a.state == RUNNABLE && b.state == RUNNABLE && a.ticketCount == b.ticketCount == 0x7FFF_FFFF
    ensures Tickets([a, b]) % UINT_LIMIT == UINT_LIMIT - 2 && Draw(Tickets([a, b]) % UINT_LIMIT, rand) == 0
    ensures !Winnable([a, b], Tickets([a, b]) % UINT_LIMIT, 1)
  {
    assert [a, b][..1] == [a] && [a][..0] == [];
    assert Tickets([a, b]) == Tickets([a]) + 0x7FFF_FFFF && Tickets([a]) == Tickets([]) + 0x7FFF_FFFF;
    assert Below([a]) == 0x7FFF_FFFF;
    WinnableIff([a, b], Tickets([a, b]) % UINT_LIMIT, 1);
  }

  /** The draw is the remainder: it differs from rand by a multiple of the total, and lies below it. */
  lemma DrawIsRemainder(total: uint, rand: nat)
    requires 0 < total < INT_LIMIT
    ensures Draw(total, rand) < total && exists q: nat :: rand == q * total + Draw(total, rand)
  {
    var q := rand / total;
    assert rand == q * total + Draw(total, rand);
  }

  /** The values of fastrand below n that draw a number from lo up to hi. */
  ghost function Draws(total: uint, lo: nat, hi: nat, n: nat): (r: set<nat>)
  {
    set rand | rand in Numbers(0, n) && lo <= Draw(total, rand) < hi
  }

  /** How many of the numbers from lo up to hi are below r. */
  function Overlap(lo: nat, hi: nat, r: nat): (c: nat)
    requires lo <= hi
  {
    Max(0, Min(hi, r) - lo)
  }

  lemma OverlapNext(lo: nat, hi: nat, r: nat)
    requires lo <= hi
    ensures Overlap(lo, hi, 0) == 0 && (hi <= r + 1 ==> Overlap(lo, hi, r + 1) == hi - lo)
    ensures Overlap(lo, hi, r + 1) == Overlap(lo, hi, r) + if lo <= r < hi then 1 else 0
  {
  }

  /** How many values below n there are: each number is drawn once per whole turn of the total in n, and
      once more if it is below the rest. */
  lemma {:induction false} DrawsCount(total: uint, lo: nat, hi: nat, n: nat)
    requires 0 < total < INT_LIMIT && lo <= hi <= total
    ensures |Draws(total, lo, hi, n)| == Times(Quo(n, total), hi - lo) + Overlap(lo, hi, Rem(n, total))
    decreases n
  {
    hide Rem, Quo, Times, Draws, Overlap;
    DrawsNext(total, lo, hi, n);
    if n == 0 {
      QuoRemNext(0, total);
      TimesOne(0, hi - lo);
      OverlapNext(lo, hi, 0);
    } else {
      DrawsCount(total, lo, hi, n - 1);
      OverlapNext(lo, hi, Rem(n - 1, total));
      QuoRemNext(n - 1, total);
      QuoRem(n - 1, total);
      TimesOne(Quo(n - 1, total), hi - lo);
    }
  }

  lemma DrawsNext(total: uint, lo: nat, hi: nat, n: nat)
    requires 0 < total < INT_LIMIT
    ensures n == 0 ==> |Draws(total, lo, hi, n)| == 0
    ensures n > 0 ==>
      |Draws(total, lo, hi, n)| == |Draws(total, lo, hi, n - 1)| + if lo <= Rem(n - 1, total) < hi then 1 else 0
  {
    hide Rem;
    if n > 0 {
      assert Draws(total, lo, hi, n)
          == Draws(total, lo, hi, n - 1) + if lo <= Rem(n - 1, total) < hi then {n - 1} else {};
    }
  }

  /** The values of fastrand with which slot i is chosen. */
  ghost function Chances(procs: seq<Proc>, total: uint, i: nat): (r: set<nat>)
  {
    set rand | rand in Numbers(0, RAND_LIMIT) && Selects(procs, Draw(total, rand), i)
  }

  /** While the tickets fit an int, a RUNNABLE process is chosen by its tickets times the whole turns of
      the total in the values of fastrand, and by those of its tickets that the last turn still reaches. */
  lemma LotteryChances(procs: seq<Proc>, total: uint, i: nat)
    requires i < |procs| && procs[i].state == RUNNABLE && 0 < total == Tickets(procs) < INT_LIMIT
    ensures var first, tickets := Below(procs[..i]), procs[i].ticketCount;
      |Chances(procs, total, i)|
      == RAND_LIMIT / total * tickets + Overlap(first, first + tickets, RAND_LIMIT % total)
  {
    hide Below, Tickets, Draw;
    LastTicketWithinTotal(procs, i);
    var lo, hi := Below(procs[..i]), Below(procs[..i]) + procs[i].ticketCount;
    assert Chances(procs, total, i) == Draws(total, lo, hi, RAND_LIMIT);
    DrawsCount(total, lo, hi, RAND_LIMIT);
  }

  lemma LastTicketWithinTotal(procs: seq<Proc>, i: nat)
    requires i < |procs|
    ensures Below(procs[..i]) + RunnableShare(procs[i]) <= Tickets(procs)
  {
    TicketsSplit(procs);
    assert procs[..|procs|] == procs;
    BelowNext(procs, i);
    BelowMonotone(procs, i + 1, |procs|);
  }

  // ---- policies 2 and 3: priority ----

  /** How far slot k is from the cursor, going up and around. */
  function Offset(cursor: nat, k: nat): (r: nat)
    requires cursor < NPROC && k < NPROC
    ensures r < NPROC
  {
    if k >= cursor then k - cursor else k + NPROC - cursor
  }

  /** Slot p is RUNNABLE, none has a smaller priority number, and among equals p comes first
      from the cursor on. */
  ghost predicate FirstOfBest(procs: seq<Proc>, cursor: nat, p: nat)
    requires |procs| == NPROC && cursor < NPROC
  {
    && p < NPROC && procs[p].state == RUNNABLE
    && forall k :: 0 <= k < NPROC && procs[k].state == RUNNABLE ==>
        procs[p].priority < procs[k].priority
        || (procs[p].priority == procs[k].priority && Offset(cursor, p) <= Offset(cursor, k))
  }

  /** One pass of a priority policy from `cursor` chooses p (NPROC for nobody) and leaves `next`. */
  ghost predicate PriorityPass(procs: seq<Proc>, cursor: nat, p: nat, next: nat)
    requires |procs| == NPROC && cursor != NPROC - 1
  {
    && (p < NPROC <==> exists k :: 0 <= k < NPROC && procs[k].state == RUNNABLE)
    && (p < NPROC ==> FirstOfBest(procs, Advance(cursor), p))
    && next == if p < NPROC then p else 0
  }

  /** The scan for the process of smallest priority number, with its early exit at 1. */
  method PriorityScan(proc: array<Proc>, cursor: nat) returns (found: bool, minP: nat)
    requires proc.Length == NPROC && cursor < NPROC
    requires forall k :: 0 <= k < NPROC ==> Sane(proc[k])
    ensures found <==> exists k :: 0 <= k < NPROC && proc[k].state == RUNNABLE
    ensures found ==> FirstOfBest(proc[..], cursor, minP)
  {
    var minPP := 0;
    found, minP := false, 0;
    var p, index := cursor, 0;
    while index < NPROC
      invariant 0 <= index <= NPROC && 0 <= p < NPROC
      invariant index < NPROC ==> Offset(cursor, p) == index
      invariant found <==> exists k :: 0 <= k < NPROC && Offset(cursor, k) < index && proc[k].state == RUNNABLE
      invariant !found ==> minPP == 0
      invariant found ==> minP < NPROC && proc[minP].state == RUNNABLE && minPP == proc[minP].priority > 1
      invariant found ==> Offset(cursor, minP) < index
      invariant found ==> forall k :: 0 <= k < NPROC && Offset(cursor, k) < index && proc[k].state == RUNNABLE ==>
        minPP < proc[k].priority || (minPP == proc[k].priority && Offset(cursor, minP) <= Offset(cursor, k))
    {
      if proc[p].state == RUNNABLE {
        found := true;
        if minPP != 0 {
          if proc[p].priority < minPP {
            minPP, minP := proc[p].priority, p;
          }
        } else {
          minPP, minP := proc[p].priority, p;
        }
        if minPP == 1 {
          break;
        }
      }
      p := p + 1;
      if p >= NPROC {
        p := 0;
      }
      index := index + 1;
    }
  }

  // ---- policies 0 and 1: round robin ----

  /** The adjustment of RRLastProc before every choice: back into the table, then one on,
      except from slot 0. */
  function Advance(cursor: int): (r: nat)
  {
    var c := if cursor < 0 || cursor >= NPROC then 0 else cursor;
    if c > 0 then c + 1 else c
  }

  /** The advanced cursor leaves the table exactly from the last slot. */
  lemma AdvanceInTable(cursor: int)
    ensures Advance(cursor) < NPROC <==> cursor != NPROC - 1
  {
  }

  /** The first RUNNABLE slot from `from` to the end of the table, or NPROC. */
  ghost predicate FirstFrom(procs: seq<Proc>, from: nat, p: nat)
    requires |procs| == NPROC
  {
    && from <= NPROC && from <= p <= NPROC
    && (p < NPROC ==> procs[p].state == RUNNABLE)
    && forall k :: from <= k < p ==> procs[k].state != RUNNABLE
  }

  method RoundRobinScan(proc: array<Proc>, from: nat) returns (p: nat)
    requires proc.Length == NPROC && from <= NPROC
    ensures FirstFrom(proc[..], from, p)
  {
    p := from;
    while p < NPROC && proc[p].state != RUNNABLE
      invariant from <= p <= NPROC
      invariant forall k :: from <= k < p ==> proc[k].state != RUNNABLE
    {
      p := p + 1;
    }
  }

  /** One round robin pass from `cursor` chooses p (NPROC for nobody) and leaves `next`. */
  ghost predicate RoundRobinPass(procs: seq<Proc>, cursor: nat, p: nat, next: nat)
    requires |procs| == NPROC
  {
    FirstFrom(procs, Advance(cursor), p) && next == if p < NPROC then p else 0
  }

  /** Passes of one CPU over successive tables, which others change in between. */
  ghost predicate RoundRobinRun(tables: seq<seq<Proc>>, cursors: seq<nat>, chosen: seq<nat>)
  {
    && |cursors| == |tables| + 1 && |chosen| == |tables|
    && (forall k :: 0 <= k < |tables| ==> |tables[k]| == NPROC)
    && forall k :: 0 <= k < |tables| ==> RoundRobinPass(tables[k], cursors[k], chosen[k], cursors[k + 1])
  }

  /** An upper bound on the passes before slot i is chosen. */
  function Passes(cursor: nat, i: nat): (r: nat)
    requires i < NPROC
    ensures r <= NPROC
  {
    var c := if cursor >= NPROC then 0 else cursor;
    if c < i then i - c else NPROC - c + i
  }

  /** The pass chooses slot i, or the bound goes down, or it chooses slot 0 and the bound stays. */
  lemma PassProgress(procs: seq<Proc>, cursor: nat, p: nat, next: nat, i: nat)
    requires |procs| == NPROC && RoundRobinPass(procs, cursor, p, next) && 0 < i < NPROC && procs[i].state == RUNNABLE
    ensures p == i || Passes(next, i) < Passes(cursor, i) || (p == 0 && Passes(next, i) == Passes(cursor, i))
    ensures p == 0 ==> procs[0].state == RUNNABLE
  {
  }

  /** How many of the choices are not slot 0. */
  ghost function Others(chosen: seq<nat>): (r: nat)
  {
    if chosen == [] then 0 else (if chosen[0] == 0 then 0 else 1) + Others(chosen[1..])
  }

  /** Whatever slot 0 does: a process that stays RUNNABLE can be passed over, but fewer than
      Passes(...) <= NPROC of the passes that pass it over choose something else than slot 0. */
  lemma {:induction false} RoundRobinWait(tables: seq<seq<Proc>>, cursors: seq<nat>, chosen: seq<nat>, i: nat)
    requires RoundRobinRun(tables, cursors, chosen) && 0 < i < NPROC
    requires forall k :: 0 <= k < |tables| ==> tables[k][i].state == RUNNABLE && chosen[k] != i
    ensures Others(chosen) < Passes(cursors[0], i)
    decreases |tables|
  {
    if |tables| > 0 {
      PassProgress(tables[0], cursors[0], chosen[0], cursors[1], i);
      assert RoundRobinRun(tables[1..], cursors[1..], chosen[1..]);
      RoundRobinWait(tables[1..], cursors[1..], chosen[1..], i);
    }
  }

  /** Bounded waiting: while slot 0 is not RUNNABLE, a process that stays RUNNABLE is chosen
      within Passes(...) <= NPROC passes. */
  lemma {:induction false} RoundRobinBoundedWait(tables: seq<seq<Proc>>, cursors: seq<nat>, chosen: seq<nat>, i: nat)
    requires RoundRobinRun(tables, cursors, chosen) && 0 < i < NPROC
    requires |tables| >= Passes(cursors[0], i)
    requires forall k :: 0 <= k < |tables| ==> tables[k][i].state == RUNNABLE && tables[k][0].state != RUNNABLE
    ensures exists k :: 0 <= k < Passes(cursors[0], i) && chosen[k] == i
    decreases |tables|
  {
    PassProgress(tables[0], cursors[0], chosen[0], cursors[1], i);
    if chosen[0] != i {
      assert RoundRobinRun(tables[1..], cursors[1..], chosen[1..]);
      RoundRobinBoundedWait(tables[1..], cursors[1..], chosen[1..], i);
      var k :| 0 <= k < Passes(cursors[1], i) && chosen[1..][k] == i;
      assert chosen[k + 1] == i;
    }
  }

  /** Slot 0 itself is reached after one pass over the rest of the table and one that finds nothing. */
  function ZeroPasses(cursor: nat): (r: nat)
    ensures 0 < r <= NPROC
  {
    if cursor == 0 || cursor >= NPROC then 1 else NPROC - cursor + 1
  }

  /** A process in slot 0 that stays RUNNABLE is chosen within ZeroPasses(...) <= NPROC passes. */
  lemma {:induction false} SlotZeroWait(tables: seq<seq<Proc>>, cursors: seq<nat>, chosen: seq<nat>)
    requires RoundRobinRun(tables, cursors, chosen) && |tables| >= ZeroPasses(cursors[0])
    requires forall k :: 0 <= k < |tables| ==> tables[k][0].state == RUNNABLE
    ensures exists k :: 0 <= k < ZeroPasses(cursors[0]) && chosen[k] == 0
    decreases |tables|
  {
    assert RoundRobinPass(tables[0], cursors[0], chosen[0], cursors[1]);
    if chosen[0] != 0 {
      assert RoundRobinRun(tables[1..], cursors[1..], chosen[1..]);
      SlotZeroWait(tables[1..], cursors[1..], chosen[1..]);
      var k :| 0 <= k < ZeroPasses(cursors[1]) && chosen[1..][k] == 0;
      assert chosen[k + 1] == 0;
    }
  }

  /** While slot 0 stays RUNNABLE too, a process is chosen at all if and only if the cursor starts
      behind slot 0 and before it. */
  lemma RoundRobinPastSlotZero(tables: seq<seq<Proc>>, cursors: seq<nat>, chosen: seq<nat>, i: nat)
    requires RoundRobinRun(tables, cursors, chosen) && 0 < i < NPROC && |tables| >= NPROC && cursors[0] < NPROC
    requires forall k :: 0 <= k < |tables| ==> tables[k][i].state == RUNNABLE && tables[k][0].state == RUNNABLE
    ensures (exists k :: 0 <= k < |tables| && chosen[k] == i) <==> 0 < cursors[0] < i
  {
    if 0 < cursors[0] < i {
      ChosenOnTheWay(tables, cursors, chosen, i);
    } else {
      forall k | 0 <= k < |tables|
        ensures chosen[k] != i
      {
        NeverChosen(tables, cursors, chosen, i, k);
      }
    }
  }

  lemma {:induction false} ChosenOnTheWay(tables: seq<seq<Proc>>, cursors: seq<nat>, chosen: seq<nat>, i: nat)
    requires RoundRobinRun(tables, cursors, chosen) && 0 < cursors[0] < i < NPROC && |tables| >= i - cursors[0]
    requires forall k :: 0 <= k < |tables| ==> tables[k][i].state == RUNNABLE
    ensures exists k :: 0 <= k < |tables| && chosen[k] == i
    decreases |tables|
  {
    assert RoundRobinPass(tables[0], cursors[0], chosen[0], cursors[1]);
    if chosen[0] != i {
      assert RoundRobinRun(tables[1..], cursors[1..], chosen[1..]);
      ChosenOnTheWay(tables[1..], cursors[1..], chosen[1..], i);
      var k :| 0 <= k < |tables| - 1 && chosen[1..][k] == i;
      assert chosen[k + 1] == i;
    }
  }

  lemma {:induction false} NeverChosen(tables: seq<seq<Proc>>, cursors: seq<nat>, chosen: seq<nat>, i: nat, k: nat)
    requires RoundRobinRun(tables, cursors, chosen) && 0 < i < NPROC && k < |tables|
    requires forall j :: 0 <= j < |tables| ==> tables[j][0].state == RUNNABLE
    requires cursors[0] == 0 || i <= cursors[0]
    ensures chosen[k] != i && (cursors[k + 1] == 0 || i <= cursors[k + 1])
  {
    if k > 0 { NeverChosen(tables, cursors, chosen, i, k - 1); }
    assert RoundRobinPass(tables[k], cursors[k], chosen[k], cursors[k + 1]);
  }

  /** A run that starves: with slots 0 and 1 RUNNABLE all the time, n passes choose slot 0 n times. */
  lemma StarvingRun(procs: seq<Proc>, n: nat) returns (tables: seq<seq<Proc>>, cursors: seq<nat>, chosen: seq<nat>)
    requires |procs| == NPROC && procs[0].state == RUNNABLE && procs[1].state == RUNNABLE
    ensures |tables| == n && RoundRobinRun(tables, cursors, chosen) && cursors[0] == 0
    ensures forall k :: 0 <= k < n ==> tables[k] == procs && chosen[k] == 0
  {
    tables, cursors, chosen := seq(n, k => procs), seq(n + 1, k => 0), seq(n, k => 0);
    assert RoundRobinPass(procs, 0, 0, 0);
  }

  // ---- one pass of the scheduler loop ----

  class Cpu {
    var schedAlg: int
    var rrLast: nat
    var ctr: nat

    constructor () ensures schedAlg == 0 && rrLast == 0 { schedAlg, rrLast, ctr := 0, 0, 0; }

    /** The choice of the next process (NPROC for none) and its time quantum, by policy. `rand`
        is what fastrand returns. For the priority policies the cursor must not be at the last
        slot: the source then starts one past the table. */
    method Choose(t: Table, rand: nat) returns (p: nat, timeQ: nat)
      requires t.Valid() && rand < RAND_LIMIT
      requires schedAlg == 2 || schedAlg == 3 ==> rrLast != NPROC - 1
      modifies this`schedAlg, this`rrLast
      ensures p <= NPROC && (p < NPROC ==> t.proc[p].state == RUNNABLE)
      ensures schedAlg == if 0 <= old(schedAlg) <= 4 then old(schedAlg) else 0
      ensures old(schedAlg) !in {2, 3, 4} ==>
        RoundRobinPass(t.proc[..], old(rrLast), p, rrLast) && timeQ == if old(schedAlg) == 0 then 1 else QUANTUM
      ensures old(schedAlg) in {2, 3} ==>
        && PriorityPass(t.proc[..], old(rrLast), p, rrLast)
        && (p < NPROC ==> timeQ == if old(schedAlg) == 3 then PRIORITY_Q[t.proc[p].priority - 1] else 1)
      ensures old(schedAlg) == 4 ==>
        timeQ == 1 && LotteryPass(t.proc[..], Draw(t.total, rand), p)
    {
      hide TimesOk, Tickets, Below;
      timeQ := 1;
      if rrLast >= NPROC {
        rrLast := 0;
      }
      if rrLast > 0 {
        rrLast := rrLast + 1;
      }
      if schedAlg == 2 || schedAlg == 3 {
        var found, minP := PriorityScan(t.proc, rrLast);
        if found {
          p, rrLast := minP, minP;
          if schedAlg == 3 {
            timeQ := PRIORITY_Q[t.proc[p].priority - 1];
          }
        } else {
          p, rrLast := NPROC, 0;
        }
      } else if schedAlg == 4 {
        var winner := Draw(t.total, rand);
        p := LotteryScan(t.proc, winner);
      } else {
        if schedAlg != 0 {
          timeQ := QUANTUM;
        }
        if schedAlg != 1 {
          schedAlg := 0;
        }
        p := RoundRobinScan(t.proc, rrLast);
        rrLast := if p < NPROC then p else 0;
      }
    }

    /** One pass of the scheduler loop: choose, then switch to the chosen process. */
    method Pass(t: Table, rand: nat) returns (p: nat)
      requires t.Valid() && rand < RAND_LIMIT
      requires schedAlg == 2 || schedAlg == 3 ==> rrLast != NPROC - 1
      modifies this, t`accounts, t.proc
      ensures t.Valid() && p <= NPROC
      ensures schedAlg == if 0 <= old(schedAlg) <= 4 then old(schedAlg) else 0
      ensures old(schedAlg) !in {2, 3, 4} ==> RoundRobinPass(old(t.proc[..]), old(rrLast), p, rrLast)
      ensures old(schedAlg) in {2, 3} ==> PriorityPass(old(t.proc[..]), old(rrLast), p, rrLast)
      ensures old(schedAlg) == 4 ==> LotteryPass(old(t.proc[..]), Draw(t.total, rand), p)
      ensures p == NPROC ==> t.proc[..] == old(t.proc[..]) && ctr == old(ctr)
      ensures p < NPROC ==>
        && old(t.proc[p].state) == RUNNABLE
        && ctr == (if old(schedAlg) in {0, 2, 4} then 1
                   else if old(schedAlg) == 3 then PRIORITY_Q[old(t.proc[p].priority) - 1]
                   else QUANTUM)
        && t.proc[..] == old(t.proc[..])[p := ChargeWait(old(t.proc[p]), t.ticks).(state := RUNNING)]
    {
      var timeQ;
      p, timeQ := Choose(t, rand);
      if p < NPROC {
        ctr := timeQ;
        t.Dispatch(p);
      }
    }
  }
}
