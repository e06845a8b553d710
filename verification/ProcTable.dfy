/** The process table of proc.c: state changes, lottery tickets and time accounting. Each
    method is one region under ptable.lock (or one unlocked field update taken as atomic). */
module ProcTable {
  import opened Common

  const NPROC := 64

  datatype ProcState = UNUSED | EMBRYO | SLEEPING | RUNNABLE | RUNNING | ZOMBIE

  /** `parent` and `chan` are slot numbers; other sleep channels are numbers from NPROC up. */
  datatype Proc = Proc(
    state: ProcState, pid: nat, firstPid: nat, parent: nat, chan: nat, killed: bool,
    priority: nat, creationTime: uint, lastChangeTime: uint,
    totalWaitTime: uint, totalCBT: uint, ticketCount: uint)

  /** What a clock that never wraps sees of a process: when it was created and last changed state,
      and how many ticks found it RUNNING, RUNNABLE, an embryo or asleep, and a ZOMBIE. */
  datatype Account = Account(born: nat, changed: nat, run: nat, ready: nat, idle: nat, dead: nat)

  // ---- tickets ----

  predicate Active(p: Proc) { p.state == RUNNABLE || p.state == RUNNING }

  function Share(p: Proc): (r: nat) { if Active(p) then p.ticketCount else 0 }

  /** The tickets of the RUNNABLE and RUNNING processes. */
  ghost function Tickets(procs: seq<Proc>): (r: nat)
  {
    if procs == [] then 0 else Tickets(procs[..|procs| - 1]) + Share(procs[|procs| - 1])
  }

  lemma {:induction false} TicketsUpdate(procs: seq<Proc>, i: nat, p: Proc)
    requires i < |procs|
    ensures Tickets(procs[i := p]) == Tickets(procs) - Share(procs[i]) + Share(p)
  {
    var m := |procs| - 1;
    if i < m {
      TicketsUpdate(procs[..m], i, p);
      assert procs[i := p][..m] == procs[..m][i := p];
    } else {
      assert procs[i := p][..m] == procs[..m];
    }
  }

  // ---- time ----

  /** One tick, counted by the state it finds the process in. */
  ghost function Ticked(s: ProcState, a: Account): (r: Account)
  {
    match s
    case RUNNING => a.(run := a.run + 1)
    case RUNNABLE => a.(ready := a.ready + 1)
    case ZOMBIE => a.(dead := a.dead + 1)
    case UNUSED => a
    case _ => a.(idle := a.idle + 1)
  }

  /** Ticks spent in state s. */
  ghost function SpentIn(s: ProcState, a: Account): (r: nat)
  {
    match s
    case RUNNING => a.run
    case RUNNABLE => a.ready
    case ZOMBIE => a.dead
    case _ => a.idle
  }

  /** The time fields agree with what the clock has seen: burst and wait time are the ticks spent
      RUNNING and RUNNABLE, but for those since the last change of state, which are not charged yet. */
  ghost predicate TimesOk(p: Proc, a: Account, clock: nat)
  {
    && a.born <= a.changed <= clock && clock - a.changed <= SpentIn(p.state, a)
    && clock - a.born == a.run + a.ready + a.idle + a.dead
    && a.dead == (if p.state == ZOMBIE then clock - a.changed else 0)
    && p.creationTime == a.born % UINT_LIMIT && p.lastChangeTime == a.changed % UINT_LIMIT
    && p.totalCBT == (a.run - if p.state == RUNNING then clock - a.changed else 0) % UINT_LIMIT
    && p.totalWaitTime == (a.ready - if p.state == RUNNABLE then clock - a.changed else 0) % UINT_LIMIT
  }

  lemma TickCounts(p: Proc, a: Account, clock: nat)
    requires TimesOk(p, a, clock) && p.state != UNUSED
    ensures TimesOk(p, Ticked(p.state, a), clock + 1)
  {
  }

  function Add(a: uint, b: int): (r: uint) { (a + b) % UINT_LIMIT }

  function Sub(a: uint, b: uint): (r: uint) { (a - b) % UINT_LIMIT }

  lemma SubIsElapsed(now: nat, then_: nat)
    requires then_ <= now
    ensures Sub(now % UINT_LIMIT, then_ % UINT_LIMIT) == (now - then_) % UINT_LIMIT
  {
    var q := now / UINT_LIMIT - then_ / UINT_LIMIT;
    assert now - then_ == q * UINT_LIMIT + (now % UINT_LIMIT - then_ % UINT_LIMIT);
    ModShift(now % UINT_LIMIT - then_ % UINT_LIMIT, q);
  }

  lemma ModShift(x: int, q: int)
    ensures (q * UINT_LIMIT + x) % UINT_LIMIT == x % UINT_LIMIT
  {
  }

  lemma AddWraps(a: nat, b: nat)
    ensures Add(a % UINT_LIMIT, b % UINT_LIMIT) == (a + b) % UINT_LIMIT
  {
    var q := a / UINT_LIMIT + b / UINT_LIMIT;
    assert a + b == q * UINT_LIMIT + (a % UINT_LIMIT + b % UINT_LIMIT);
    ModShift(a % UINT_LIMIT + b % UINT_LIMIT, q);
  }

  // ---- what every step keeps ----

  /** Live slots have a priority in 1..6 and at least one ticket. */
  predicate Sane(p: Proc)
  {
    p.state != UNUSED ==> 1 <= p.priority <= 6 && 1 <= p.ticketCount < INT_LIMIT
  }

  ghost predicate TableOk(procs: seq<Proc>, total: uint, accounts: seq<Account>, clock: nat)
  {
    && |procs| == NPROC && |accounts| == NPROC
    && total == Tickets(procs) % UINT_LIMIT
    && (forall i :: 0 <= i < NPROC ==> Sane(procs[i]))
    && (forall i :: 0 <= i < NPROC && procs[i].state != UNUSED ==> TimesOk(procs[i], accounts[i], clock))
  }

  /** One slot changes and the ticket total follows. */
  lemma SlotStep(procs: seq<Proc>, total: uint, accounts: seq<Account>, clock: nat, i: nat, p: Proc, a: Account)
    requires TableOk(procs, total, accounts, clock) && i < NPROC
    requires Sane(p) && (p.state != UNUSED ==> TimesOk(p, a, clock))
    ensures TableOk(procs[i := p], Add(total, Share(p) - Share(procs[i])), accounts[i := a], clock)
  {
    TicketsUpdate(procs, i, p);
    WrapShift(Tickets(procs), Share(p) - Share(procs[i]));
  }

  lemma SlotStepSame(procs: seq<Proc>, total: uint, accounts: seq<Account>, clock: nat, i: nat, p: Proc, a: Account)
    requires TableOk(procs, total, accounts, clock) && i < NPROC && Share(p) == Share(procs[i])
    requires Sane(p) && (p.state != UNUSED ==> TimesOk(p, a, clock))
    ensures TableOk(procs[i := p], total, accounts[i := a], clock)
  {
    SlotStep(procs, total, accounts, clock, i, p, a);
  }

  lemma SlotGain(procs: seq<Proc>, total: uint, accounts: seq<Account>, clock: nat, i: nat, p: Proc, a: Account)
    requires TableOk(procs, total, accounts, clock) && i < NPROC && !Active(procs[i]) && Active(p)
    requires Sane(p) && TimesOk(p, a, clock)
    ensures TableOk(procs[i := p], Add(total, p.ticketCount), accounts[i := a], clock)
  {
    SlotStep(procs, total, accounts, clock, i, p, a);
  }

  lemma SlotLoss(procs: seq<Proc>, total: uint, accounts: seq<Account>, clock: nat, i: nat, p: Proc, a: Account)
    requires TableOk(procs, total, accounts, clock) && i < NPROC && Active(procs[i]) && !Active(p)
    requires Sane(p) && p.ticketCount == procs[i].ticketCount && TimesOk(p, a, clock)
    ensures TableOk(procs[i := p], Sub(total, p.ticketCount), accounts[i := a], clock)
  {
    SlotStep(procs, total, accounts, clock, i, p, a);
  }

  /** A change that touches neither the state, nor the times, nor the tickets. */
  lemma SlotAside(procs: seq<Proc>, total: uint, accounts: seq<Account>, clock: nat, i: nat, p: Proc)
    requires TableOk(procs, total, accounts, clock) && i < NPROC && Sane(p)
    requires p == procs[i].(killed := p.killed, parent := p.parent, priority := p.priority)
    ensures TableOk(procs[i := p], total, accounts, clock)
  {
    SlotStep(procs, total, accounts, clock, i, p, accounts[i]);
    assert accounts[i := accounts[i]] == accounts;
  }

  lemma SlotRetitle(procs: seq<Proc>, total: uint, accounts: seq<Account>, clock: nat, i: nat, n: uint)
    requires TableOk(procs, total, accounts, clock) && i < NPROC && Active(procs[i]) && 1 <= n < INT_LIMIT
    ensures TableOk(procs[i := procs[i].(ticketCount := n)], Add(total, n - procs[i].ticketCount), accounts, clock)
  {
    SlotStep(procs, total, accounts, clock, i, procs[i].(ticketCount := n), accounts[i]);
    assert accounts[i := accounts[i]] == accounts;
  }

  lemma WrapShift(t: nat, d: int)
    ensures (t % UINT_LIMIT + d) % UINT_LIMIT == (t + d) % UINT_LIMIT
  {
    var q := t / UINT_LIMIT;
    assert t + d == q * UINT_LIMIT + (t % UINT_LIMIT + d);
    ModShift(t % UINT_LIMIT + d, q);
  }

  // ---- what happens to one process, and to its account ----

  /** sched and get_proc_times: the time since the last change was spent running. */
  function ChargeRun(p: Proc, now: uint): (r: Proc)
  {
    p.(totalCBT := Add(p.totalCBT, Sub(now, p.lastChangeTime)), lastChangeTime := now)
  }

  /** The scheduler's dispatch: it was spent waiting. */
  function ChargeWait(p: Proc, now: uint): (r: Proc)
  {
    p.(totalWaitTime := Add(p.totalWaitTime, Sub(now, p.lastChangeTime)), lastChangeTime := now)
  }

  /** fork, wakeup1 and kill: it was spent as an embryo or asleep, and is not recorded. */
  function Forget(p: Proc, now: uint): (r: Proc)
  {
    p.(lastChangeTime := now)
  }

  /** The process is charged up to now and changes state. */
  ghost function Changed(a: Account, clock: nat): (r: Account) { a.(changed := clock) }

  /** Each way a process leaves a state charges exactly the ticks it spent there. */
  lemma ChargesAreTimely(p: Proc, a: Account, clock: nat, s: ProcState)
    requires TimesOk(p, a, clock) && s != UNUSED && s != EMBRYO
    ensures p.state == RUNNING ==> TimesOk(ChargeRun(p, clock % UINT_LIMIT).(state := s), Changed(a, clock), clock)
    ensures p.state == RUNNABLE && s != ZOMBIE ==>
      TimesOk(ChargeWait(p, clock % UINT_LIMIT).(state := s), Changed(a, clock), clock)
    ensures (p.state == EMBRYO || p.state == SLEEPING) && s != ZOMBIE ==>
      TimesOk(Forget(p, clock % UINT_LIMIT).(state := s), Changed(a, clock), clock)
  {
    SubIsElapsed(clock, a.changed);
    if p.state == RUNNING { AddWraps(a.run - (clock - a.changed), clock - a.changed); }
    if p.state == RUNNABLE { AddWraps(a.ready - (clock - a.changed), clock - a.changed); }
  }

  /** What one pass of diagwait's loop decides. */
  datatype WaitResult = Reaped(pid: nat, cbt: uint, wt: uint, tt: uint) | NoChildren | MustSleep

  const BlankProc := Proc(UNUSED, 0, 0, NPROC, 0, false, 0, 0, 0, 0, 0, 0)

  /** A process asleep on chan becomes RUNNABLE; others are untouched. */
  function Woken(p: Proc, chan: nat, now: uint): (r: Proc)
  {
    if AsleepOn(p, chan) then Forget(p.(state := RUNNABLE), now) else p
  }

  predicate AsleepOn(p: Proc, chan: nat) { p.state == SLEEPING && p.chan == chan }

  predicate IsChild(p: Proc, parent: nat) { p.pid == p.firstPid && p.parent == parent }

  /** A slot given back by diagwait. */
  function Cleared(p: Proc): (r: Proc)
  {
    Proc(UNUSED, 0, 0, NPROC, p.chan, false, 0, 0, 0, 0, 0, 0)
  }

  class Table {
    const proc: array<Proc>
    var total: uint
    var nextpid: nat
    var ticks: uint
    ghost var accounts: seq<Account>
    ghost var clock: nat

    ghost predicate Valid()
      reads this, proc
    {
      && proc.Length == NPROC && ticks == clock % UINT_LIMIT
      && TableOk(proc[..], total, accounts, clock)
    }

    constructor ()
      ensures Valid() && fresh(proc) && nextpid == 1 && clock == 0
      ensures forall i :: 0 <= i < NPROC ==> proc[i] == BlankProc
    {
      proc := new Proc[NPROC](i => BlankProc);
      total, nextpid, ticks, clock := 0, 1, 0, 0;
      accounts := seq(NPROC, i => Account(0, 0, 0, 0, 0, 0));
      new;
      NoTickets(proc[..]);
    }

    /** The timer interrupt: every live process has spent one more tick in its state. */
    method Tick()
      requires Valid()
      modifies this`ticks, this`clock, this`accounts
      ensures Valid() && clock == old(clock) + 1 && ticks == (old(ticks) + 1) % UINT_LIMIT
      ensures |accounts| == NPROC
      ensures forall i :: 0 <= i < NPROC ==> accounts[i] == Ticked(proc[i].state, old(accounts)[i])
    {
      hide TimesOk, Tickets, Ticked;
      AddWraps(clock, 1);
      ghost var was := accounts;
      forall i | 0 <= i < NPROC && proc[i].state != UNUSED
        ensures TimesOk(proc[i], Ticked(proc[i].state, was[i]), clock + 1)
      {
        TickCounts(proc[i], was[i], clock);
      }
      accounts := seq(NPROC, i requires 0 <= i < NPROC reads proc, this => Ticked(proc[i].state, was[i]));
      ticks, clock := (ticks + 1) % UINT_LIMIT, clock + 1;
    }

    /** allocproc: the first UNUSED slot becomes an EMBRYO with a new pid, ten tickets and
        priority 3, or 1 for the very first process. */
    method AllocProc() returns (r: Option<nat>)
      requires Valid()
      modifies this`nextpid, this`accounts, proc
      ensures Valid()
      ensures r.None? <==> forall i :: 0 <= i < NPROC ==> old(proc[i].state) != UNUSED
      ensures r.None? ==> proc[..] == old(proc[..]) && nextpid == old(nextpid) && accounts == old(accounts)
      ensures r.Some? ==>
        var i := r.value;
        && i < NPROC && old(proc[i].state) == UNUSED
        && (forall j :: 0 <= j < i ==> old(proc[j].state) != UNUSED)
        && proc[..] == old(proc[..])[i := old(proc[i]).(
             state := EMBRYO, priority := if old(nextpid) == 1 then 1 else 3, ticketCount := 10, pid := old(nextpid),
             creationTime := ticks, lastChangeTime := ticks, totalWaitTime := 0, totalCBT := 0)]
        && nextpid == old(nextpid) + 1
    {
      var i := 0;
      while i < NPROC && proc[i].state != UNUSED
        invariant 0 <= i <= NPROC
        invariant forall j :: 0 <= j < i ==> proc[j].state != UNUSED
      {
        i := i + 1;
      }
      if i == NPROC {
        return None;
      }
      var p := proc[i].(state := EMBRYO, priority := 3, ticketCount := 10, pid := nextpid);
      nextpid := nextpid + 1;
      if p.pid == 1 {
        p := p.(priority := 1);
      }
      p := p.(creationTime := ticks, lastChangeTime := ticks, totalWaitTime := 0, totalCBT := 0);
      ghost var a := Account(clock, clock, 0, 0, 0, 0);
      SlotStep(proc[..], total, accounts, clock, i, p, a);
      proc[i] := p;
      accounts := accounts[i := a];
      r := Some(i);
    }

    /** fork giving up on a new process. */
    method Abandon(i: nat)
      requires Valid() && i < NPROC && proc[i].state == EMBRYO
      modifies proc
      ensures Valid() && proc[..] == old(proc[..])[i := old(proc[i]).(state := UNUSED)]
    {
      SlotStepSame(proc[..], total, accounts, clock, i, proc[i].(state := UNUSED), accounts[i]);
      assert accounts[i := accounts[i]] == accounts;
      proc[i] := proc[i].(state := UNUSED);
    }

    /** The end of fork, userinit and thread_create: the child becomes RUNNABLE. */
    method MakeRunnable(i: nat, firstPid: nat, parent: nat)
      requires Valid() && i < NPROC && proc[i].state == EMBRYO
      modifies this`total, this`accounts, proc
      ensures Valid()
      ensures proc[..] == old(proc[..])[i :=
        Forget(old(proc[i]).(state := RUNNABLE, firstPid := firstPid, parent := parent), ticks)]
      ensures total == Add(old(total), old(proc[i].ticketCount))
      ensures accounts == old(accounts)[i := Changed(old(accounts)[i], clock)]
    {
      hide TimesOk, Add, Sub, Tickets;
      ghost var procs, a := proc[..], accounts[i];
      ChargesAreTimely(proc[i], a, clock, RUNNABLE);
      proc[i] := proc[i].(firstPid := firstPid, parent := parent);
      proc[i] := proc[i].(state := RUNNABLE, lastChangeTime := ticks);
      SlotGain(procs, total, accounts, clock, i, proc[i], Changed(a, clock));
      total := Add(total, proc[i].ticketCount);
      accounts := accounts[i := Changed(a, clock)];
      assert proc[..] == procs[i := proc[i]];
    }

    /** The scheduler switching to a process it has chosen. */
    method Dispatch(i: nat)
      requires Valid() && i < NPROC && proc[i].state == RUNNABLE
      modifies this`accounts, proc
      ensures Valid()
      ensures proc[..] == old(proc[..])[i := ChargeWait(old(proc[i]), ticks).(state := RUNNING)]
      ensures accounts == old(accounts)[i := Changed(old(accounts)[i], clock)]
    {
      hide TimesOk, Add, Sub, Tickets;
      ghost var procs, a := proc[..], accounts[i];
      ChargesAreTimely(proc[i], a, clock, RUNNING);
      proc[i] := proc[i].(totalWaitTime := Add(proc[i].totalWaitTime, Sub(ticks, proc[i].lastChangeTime)));
      proc[i] := proc[i].(lastChangeTime := ticks);
      proc[i] := proc[i].(state := RUNNING);
      SlotStepSame(procs, total, accounts, clock, i, proc[i], Changed(a, clock));
      accounts := accounts[i := Changed(a, clock)];
      assert proc[..] == procs[i := proc[i]];
    }

    /** The accounting at the top of sched. */
    method Sched(i: nat)
      requires proc.Length == NPROC && i < NPROC
      modifies proc
      ensures proc[..] == old(proc[..])[i := ChargeRun(old(proc[i]), ticks)]
    {
      proc[i] := proc[i].(totalCBT := Add(proc[i].totalCBT, Sub(ticks, proc[i].lastChangeTime)));
      proc[i] := proc[i].(lastChangeTime := ticks);
    }

    method Yield(i: nat)
      requires Valid() && i < NPROC && proc[i].state == RUNNING
      modifies this`accounts, proc
      ensures Valid()
      ensures proc[..] == old(proc[..])[i := ChargeRun(old(proc[i]), ticks).(state := RUNNABLE)]
      ensures accounts == old(accounts)[i := Changed(old(accounts)[i], clock)]
    {
      hide TimesOk, Add, Sub, Tickets;
      ghost var procs, a := proc[..], accounts[i];
      ChargesAreTimely(proc[i], a, clock, RUNNABLE);
      proc[i] := proc[i].(state := RUNNABLE);
      Sched(i);
      SlotStepSame(procs, total, accounts, clock, i, proc[i], Changed(a, clock));
      accounts := accounts[i := Changed(a, clock)];
      assert proc[..] == procs[i := proc[i]];
    }

    method Sleep(i: nat, chan: nat)
      requires Valid() && i < NPROC && proc[i].state == RUNNING
      modifies this`total, this`accounts, proc
      ensures Valid()
      ensures proc[..] == old(proc[..])[i := ChargeRun(old(proc[i]), ticks).(state := SLEEPING, chan := chan)]
      ensures total == Sub(old(total), old(proc[i].ticketCount))
      ensures accounts == old(accounts)[i := Changed(old(accounts)[i], clock)]
    {
      hide TimesOk, Add, Sub, Tickets;
      ghost var procs, a := proc[..], accounts[i];
      ChargesAreTimely(proc[i], a, clock, SLEEPING);
      proc[i] := proc[i].(chan := chan);
      proc[i] := proc[i].(state := SLEEPING);
      ghost var was := total;
      total := Sub(total, proc[i].ticketCount);
      Sched(i);
      SlotLoss(procs, was, accounts, clock, i, proc[i], Changed(a, clock));
      accounts := accounts[i := Changed(a, clock)];
      assert proc[..] == procs[i := proc[i]];
    }

    /** The three assignments that end a sleep, in wakeup1 and in kill. */
    method WakeSlot(i: nat)
      requires Valid() && i < NPROC && proc[i].state == SLEEPING
      modifies this`total, this`accounts, proc
      ensures Valid()
      ensures proc[..] == old(proc[..])[i := Forget(old(proc[i]).(state := RUNNABLE), ticks)]
      ensures total == Add(old(total), old(proc[i].ticketCount))
      ensures accounts == old(accounts)[i := Changed(old(accounts)[i], clock)]
    {
      hide TimesOk, Add, Sub, Tickets;
      ghost var procs, a, was := proc[..], accounts[i], total;
      ChargesAreTimely(proc[i], a, clock, RUNNABLE);
      proc[i] := proc[i].(state := RUNNABLE);
      proc[i] := proc[i].(lastChangeTime := ticks);
      total := Add(total, proc[i].ticketCount);
      SlotGain(procs, was, accounts, clock, i, proc[i], Changed(a, clock));
      accounts := accounts[i := Changed(a, clock)];
      assert proc[..] == procs[i := proc[i]];
    }

    /** wakeup1: every process asleep on chan becomes RUNNABLE and its tickets count again. */
    method Wakeup1(chan: nat)
      requires Valid()
      modifies this`total, this`accounts, proc
      ensures Valid()
      ensures forall i :: 0 <= i < NPROC ==> proc[i] == Woken(old(proc[i]), chan, ticks)
      ensures forall i :: 0 <= i < NPROC ==>
        accounts[i] == if AsleepOn(old(proc[i]), chan) then Changed(old(accounts)[i], clock) else old(accounts)[i]
    {
      hide Add, Sub, Tickets;
      for i := 0 to NPROC
        invariant Valid()
        invariant forall j :: 0 <= j < i ==> proc[j] == Woken(old(proc[j]), chan, ticks)
        invariant forall j :: i <= j < NPROC ==> proc[j] == old(proc[j])
        invariant forall j :: 0 <= j < NPROC ==>
          accounts[j] == if j < i && AsleepOn(old(proc[j]), chan) then Changed(old(accounts)[j], clock)
                         else old(accounts)[j]
      {
        if proc[i].state == SLEEPING && proc[i].chan == chan {
          WakeSlot(i);
        }
      }
    }

    /** kill: the first process with that pid is marked, and woken if it sleeps. */
    method Kill(pid: nat) returns (found: bool)
      requires Valid()
      modifies this`total, this`accounts, proc
      ensures Valid()
      ensures found <==> exists i :: 0 <= i < NPROC && old(proc[i].pid) == pid
      ensures !found ==> proc[..] == old(proc[..]) && total == old(total)
      ensures found ==>
        exists i :: (
          && 0 <= i < NPROC && old(proc[i].pid) == pid
          && (forall j :: 0 <= j < i ==> old(proc[j].pid) != pid)
          && proc[..] == old(proc[..])[i := Woken(old(proc[i]), old(proc[i]).chan, ticks).(killed := true)])
    {
      hide TimesOk, Add, Sub, Tickets;
      for i := 0 to NPROC
        invariant Valid() && proc[..] == old(proc[..]) && total == old(total) && accounts == old(accounts)
        invariant forall j :: 0 <= j < i ==> proc[j].pid != pid
      {
        if proc[i].pid == pid {
          ghost var procs := proc[..];
          SlotAside(procs, total, accounts, clock, i, proc[i].(killed := true));
          proc[i] := proc[i].(killed := true);
          assert proc[..] == procs[i := proc[i]];
          if proc[i].state == SLEEPING {
            WakeSlot(i);
          }
          assert proc[..] == procs[i := proc[i]];
          return true;
        }
      }
      found := false;
    }

    /** set_ticketCount by the running process i; a count that is not positive is ignored. */
    method SetTicketCount(i: nat, ticketCount: int)
      requires Valid() && i < NPROC && proc[i].state == RUNNING && ticketCount < INT_LIMIT
      modifies this`total, proc
      ensures Valid()
      ensures ticketCount > 0 ==>
        && proc[..] == old(proc[..])[i := old(proc[i]).(ticketCount := ticketCount)]
        && total == Add(old(total), ticketCount - old(proc[i].ticketCount))
      ensures ticketCount <= 0 ==> proc[..] == old(proc[..]) && total == old(total)
    {
      hide TimesOk, Add, Sub, Tickets;
      if ticketCount > 0 {
        ghost var procs, was := proc[..], total;
        total := Add(total, ticketCount - proc[i].ticketCount);
        proc[i] := proc[i].(ticketCount := ticketCount);
        SlotRetitle(procs, was, accounts, clock, i, ticketCount);
        assert proc[..] == procs[i := proc[i]];
      }
    }

    /** set_priority by the running process i: anything outside 1..6 means 5. */
    method SetPriority(i: nat, prio: int)
      requires Valid() && i < NPROC && proc[i].state == RUNNING
      modifies proc
      ensures Valid()
      ensures proc[..] == old(proc[..])[i := old(proc[i]).(priority := if 1 <= prio <= 6 then prio else 5)]
    {
      hide TimesOk, Add, Sub, Tickets;
      var q := prio;
      if q < 1 || q > 6 {
        q := 5;
      }
      ghost var procs := proc[..];
      proc[i] := proc[i].(priority := q);
      SlotAside(procs, total, accounts, clock, i, proc[i]);
      assert proc[..] == procs[i := proc[i]];
    }

    /** get_proc_times: burst, wait and turnaround time are the ticks the clock has counted. */
    method GetProcTimes(i: nat) returns (tt: uint, wt: uint, cbt: uint)
      requires Valid() && i < NPROC && proc[i].state == RUNNING
      modifies this`accounts, proc
      ensures Valid() && proc[..] == old(proc[..])[i := ChargeRun(old(proc[i]), ticks)]
      ensures accounts == old(accounts)[i := Changed(old(accounts)[i], clock)]
      ensures Reported(tt, cbt, wt, accounts[i])
    {
      hide TimesOk, Add, Sub, Tickets, Reported;
      ghost var procs, a := proc[..], accounts[i];
      ChargesAreTimely(proc[i], a, clock, RUNNING);
      Sched(i);
      SlotStepSame(procs, total, accounts, clock, i, proc[i], Changed(a, clock));
      accounts := accounts[i := Changed(a, clock)];
      assert proc[..] == procs[i := proc[i]];
      TurnaroundSplits(proc[i], accounts[i], clock);
      tt, wt, cbt := Sub(ticks, proc[i].creationTime), proc[i].totalWaitTime, proc[i].totalCBT;
    }

    /** One pass of diagwait's loop for process cur: give back the slot of the first exited
        child and report its times, or say why there is none. */
    method WaitPass(cur: nat) returns (r: WaitResult, ghost i: nat)
      requires Valid() && cur < NPROC
      modifies proc
      ensures Valid()
      ensures !r.Reaped? ==> proc[..] == old(proc[..])
      ensures r.Reaped? <==> exists j :: 0 <= j < NPROC && IsChild(old(proc[j]), cur) && old(proc[j]).state == ZOMBIE
      ensures !r.Reaped? ==> (r.NoChildren? <==>
        old(proc[cur]).killed || forall j :: 0 <= j < NPROC ==> !IsChild(old(proc[j]), cur))
      ensures r.Reaped? ==>
        && i < NPROC && IsChild(old(proc[i]), cur) && old(proc[i]).state == ZOMBIE && r.pid == old(proc[i]).pid
        && (forall j :: 0 <= j < i ==> !(IsChild(old(proc[j]), cur) && old(proc[j]).state == ZOMBIE))
        && proc[..] == old(proc[..])[i := Cleared(old(proc[i]))]
        && proc[i].state == UNUSED && proc[i].pid == 0 && !proc[i].killed
        && Reported(r.tt, r.cbt, r.wt, accounts[i])
    {
      hide TimesOk, Add, Sub, Tickets, Reported;
      var havekids, k := false, 0;
      while k < NPROC
        invariant 0 <= k <= NPROC
        invariant havekids <==> exists j :: 0 <= j < k && IsChild(proc[j], cur)
        invariant forall j :: 0 <= j < k ==> !(IsChild(proc[j], cur) && proc[j].state == ZOMBIE)
      {
        if proc[k].pid == proc[k].firstPid && proc[k].parent == cur {
          havekids := true;
          if proc[k].state == ZOMBIE {
            break;
          }
        }
        k := k + 1;
      }
      i := k;
      if k < NPROC {
        ghost var procs, p := proc[..], proc[k];
        TurnaroundSplits(p, accounts[k], clock);
        r := Reaped(proc[k].pid, proc[k].totalCBT, proc[k].totalWaitTime,
                    Sub(proc[k].lastChangeTime, proc[k].creationTime));
        SlotStepSame(procs, total, accounts, clock, k, Cleared(p), accounts[k]);
        assert accounts[k := accounts[k]] == accounts;
        proc[k] := Cleared(proc[k]);
        assert proc[..] == procs[k := Cleared(p)];
      } else if !havekids || proc[cur].killed {
        r := NoChildren;
      } else {
        r := MustSleep;
      }
    }

    /** exit's loop over the table: hand children over to init, and wake init, the parent and
        the other threads that may be waiting. */
    method NotifyExit(cur: nat, init: nat)
      requires Valid() && cur < NPROC && init < NPROC && cur != init && proc[cur].state == RUNNING
      modifies this`total, this`accounts, proc
      ensures Valid()
      ensures forall j :: 0 <= j < NPROC ==> proc[j] == AfterExit(old(proc[..]), cur, init, NPROC, j, ticks)
    {
      for k := 0 to NPROC
        invariant Valid()
        invariant forall j :: 0 <= j < NPROC ==> proc[j] == AfterExit(old(proc[..]), cur, init, k, j, ticks)
      {
        NotifyOne(cur, init, k, old(proc[..]));
      }
    }

    method NotifyOne(cur: nat, init: nat, k: nat, ghost procs: seq<Proc>)
      requires Valid() && cur < NPROC && init < NPROC && cur != init && k < NPROC
      requires |procs| == NPROC && procs[cur].state == RUNNING
      requires forall j :: 0 <= j < NPROC ==> proc[j] == AfterExit(procs, cur, init, k, j, ticks)
      modifies this`total, this`accounts, proc
      ensures Valid()
      ensures forall j :: 0 <= j < NPROC ==> proc[j] == AfterExit(procs, cur, init, k + 1, j, ticks)
    {
      hide TimesOk, Tickets, ExitWakes, TableOk;
      ghost var before := proc[..];
      ExitNext(procs, cur, init, k, ticks);
      if proc[k].pid == 0 || k == cur {
      } else if proc[k].parent == cur {
        SetParent(k, init);
        if proc[k].state == ZOMBIE {
          Wakeup1(init);
        }
      } else if proc[k].firstPid == proc[cur].firstPid || k == proc[cur].parent {
        Wakeup1(k);
      }
    }

    method SetParent(k: nat, parent: nat)
      requires Valid() && k < NPROC
      modifies proc
      ensures Valid() && proc[..] == old(proc[..])[k := old(proc[k]).(parent := parent)]
    {
      hide TimesOk, Add, Sub, Tickets;
      ghost var procs := proc[..];
      SlotAside(procs, total, accounts, clock, k, proc[k].(parent := parent));
      proc[k] := proc[k].(parent := parent);
      assert proc[..] == procs[k := proc[k]];
    }

    /** exit: after the notifications the process is a ZOMBIE and its tickets are gone. */
    method Exit(cur: nat, init: nat)
      requires Valid() && cur < NPROC && init < NPROC && cur != init && proc[cur].state == RUNNING
      modifies this`total, this`accounts, proc
      ensures Valid()
      ensures proc[cur] == ChargeRun(old(proc[cur]), ticks).(state := ZOMBIE)
      ensures forall j :: 0 <= j < NPROC && j != cur ==>
        proc[j] == AfterExit(old(proc[..]), cur, init, NPROC, j, ticks)
      ensures forall j :: 0 <= j < NPROC && j != cur ==> Bereaved(old(proc[j]), proc[j], cur, init, ticks)
    {
      hide TimesOk, Add, Sub, Tickets, AfterExit, Bereaved;
      NotifyExit(cur, init);
      Handover(old(proc[..]), cur, init, ticks);
      ExitSelf(old(proc[..]), cur, init, ticks);
      ghost var procs, a, was := proc[..], accounts[cur], total;
      ChargesAreTimely(proc[cur], a, clock, ZOMBIE);
      proc[cur] := proc[cur].(state := ZOMBIE);
      total := Sub(total, proc[cur].ticketCount);
      Sched(cur);
      SlotLoss(procs, was, accounts, clock, cur, proc[cur], Changed(a, clock));
      accounts := accounts[cur := Changed(a, clock)];
      assert proc[..] == procs[cur := proc[cur]];
    }
  }

  /** Slot p is a child of the exiting process; or someone who may be waiting for it. */
  predicate ExitChild(procs: seq<Proc>, cur: nat, p: nat)
    requires cur < |procs| && p < |procs|
  {
    procs[p].pid != 0 && p != cur && procs[p].parent == cur
  }

  predicate ExitWaiter(procs: seq<Proc>, cur: nat, p: nat)
    requires cur < |procs| && p < |procs|
  {
    && procs[p].pid != 0 && p != cur && procs[p].parent != cur
    && (procs[p].firstPid == procs[cur].firstPid || p == procs[cur].parent)
  }

  /** Does exit, having looked at the slots below k, wake the sleepers on chan? */
  predicate ExitWakes(procs: seq<Proc>, cur: nat, init: nat, k: nat, chan: nat)
    requires |procs| == NPROC && cur < NPROC && k <= NPROC
  {
    exists p :: 0 <= p < k &&
      (|| (ExitChild(procs, cur, p) && procs[p].state == ZOMBIE && chan == init)
       || (ExitWaiter(procs, cur, p) && chan == p))
  }

  function AfterExit(procs: seq<Proc>, cur: nat, init: nat, k: nat, j: nat, now: uint): (r: Proc)
    requires |procs| == NPROC && cur < NPROC && k <= NPROC && j < NPROC
  {
    var q := if procs[j].state == SLEEPING && ExitWakes(procs, cur, init, k, procs[j].chan)
             then Forget(procs[j].(state := RUNNABLE), now) else procs[j];
    if j < k && ExitChild(procs, cur, j) then q.(parent := init) else q
  }

  /** What looking at slot k adds. */
  lemma ExitNext(procs: seq<Proc>, cur: nat, init: nat, k: nat, now: uint)
    requires |procs| == NPROC && cur < NPROC && k < NPROC
    ensures forall j :: 0 <= j < NPROC ==>
      AfterExit(procs, cur, init, k + 1, j, now) ==
        var v := AfterExit(procs, cur, init, k, j, now);
        if ExitChild(procs, cur, k) then
          var u := if j == k then v.(parent := init) else v;
          if procs[k].state == ZOMBIE then Woken(u, init, now) else u
        else if ExitWaiter(procs, cur, k) then Woken(v, k, now)
        else v
  {
    forall chan: nat
      ensures ExitWakes(procs, cur, init, k + 1, chan) <==>
        || ExitWakes(procs, cur, init, k, chan)
        || (ExitChild(procs, cur, k) && procs[k].state == ZOMBIE && chan == init)
        || (ExitWaiter(procs, cur, k) && chan == k)
    {
      if || (ExitChild(procs, cur, k) && procs[k].state == ZOMBIE && chan == init)
         || (ExitWaiter(procs, cur, k) && chan == k) {
        assert ExitWakes(procs, cur, init, k + 1, chan);
      }
    }
  }

  /** What the exit of cur does to another process: a child of it that has a pid is now a child of init, so
      nobody with a pid has cur as parent; a sleeper may have been woken; nothing else has changed. */
  predicate Bereaved(p: Proc, q: Proc, cur: nat, init: nat, now: uint)
  {
    && q.parent == (if p.pid != 0 && p.parent == cur then init else p.parent)
    && (q.pid != 0 ==> q.parent != cur)
    && (q == p.(parent := q.parent)
        || (p.state == SLEEPING && q == p.(parent := q.parent, state := RUNNABLE, lastChangeTime := now)))
  }

  lemma Handover(procs: seq<Proc>, cur: nat, init: nat, now: uint)
    requires |procs| == NPROC && cur < NPROC && init != cur
    ensures forall j :: 0 <= j < NPROC && j != cur ==>
      Bereaved(procs[j], AfterExit(procs, cur, init, NPROC, j, now), cur, init, now)
  {
    hide ExitWakes;
  }

  lemma ExitSelf(procs: seq<Proc>, cur: nat, init: nat, now: uint)
    requires |procs| == NPROC && cur < NPROC && procs[cur].state == RUNNING
    ensures AfterExit(procs, cur, init, NPROC, cur, now) == procs[cur]
  {
  }

  /** A parent asleep in diagwait, that is on its own slot, does not miss the exit. */
  lemma ExitWakesParent(procs: seq<Proc>, cur: nat, init: nat, now: uint)
    requires |procs| == NPROC && cur < NPROC
    requires var p := procs[cur].parent;
      p < NPROC && p != cur && procs[p].pid != 0 && procs[p].parent != cur && AsleepOn(procs[p], p)
    ensures AfterExit(procs, cur, init, NPROC, procs[cur].parent, now).state == RUNNABLE
  {
  }

  /** What a process reports when it has just been charged: burst and wait time are the ticks that
      found it RUNNING and RUNNABLE, and the turnaround time is those and the ticks that found it an
      embryo or asleep, also when counters have wrapped. */
  predicate Reported(tt: uint, cbt: uint, wt: uint, a: Account)
  {
    && cbt == a.run % UINT_LIMIT && wt == a.ready % UINT_LIMIT
    && tt == (a.run + a.ready + a.idle) % UINT_LIMIT && tt == (cbt + wt + a.idle) % UINT_LIMIT
  }

  lemma TurnaroundSplits(p: Proc, a: Account, clock: nat)
    requires TimesOk(p, a, clock) && (p.state == ZOMBIE || (p.state == RUNNING && a.changed == clock))
    ensures Reported(Sub(p.lastChangeTime, p.creationTime), p.totalCBT, p.totalWaitTime, a)
  {
    SubIsElapsed(a.changed, a.born);
    assert a.changed - a.born == a.run + a.ready + a.idle;
    AddWraps(a.run, a.ready);
    WrapShift(a.run + a.ready, a.idle);
    WrapShift(p.totalCBT + p.totalWaitTime, a.idle);
  }

  lemma {:induction false} NoTickets(procs: seq<Proc>)
    requires forall i :: 0 <= i < |procs| ==> procs[i].state == UNUSED
    ensures Tickets(procs) == 0
  {
    if procs != [] { NoTickets(procs[..|procs| - 1]); }
  }
}
