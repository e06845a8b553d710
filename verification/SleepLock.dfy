/** Sleep locks (sleeplock.c) and the sleep/wakeup protocol of proc.c under them: any number
    of processes, interleaved at every acquire, release and assignment. */
module SleepLock {
  import opened Common

  /** Where a process is. `lk` is the spinlock inside the sleep lock, `pt` is ptable.lock. */
  datatype Pc =
    | Idle           // outside
    | Enter          // acquiresleep: about to acquire lk
    | Test           // holds lk, at `while (lk->locked)`
    | SleepEnter     // holds lk, in sleep(), about to acquire pt
    | SleepBoth      // holds lk and pt, about to release lk
    | SleepSet       // holds pt, about to set SLEEPING and switch away
    | Asleep         // SLEEPING on this lock
    | Awake          // RUNNABLE again; runs once the scheduler hands it pt
    | Resumed        // holds pt, about to release it
    | Reenter        // about to acquire lk again
    | Got            // holds lk, has set locked
    | Holder         // owns the sleep lock
    | Leave          // releasesleep: about to acquire lk
    | LeaveLk        // holds lk, about to clear locked
    | Cleared        // holds lk, locked is clear, about to acquire pt for wakeup()
    | Waking         // holds lk and pt, about to run wakeup1()
    | Woke           // holds lk and pt, about to release pt
    | LeaveDone      // holds lk, about to release it

  datatype State = State(locked: bool, pid: nat, lk: Option<nat>, pt: Option<nat>, pc: seq<Pc>)

  predicate HasLk(c: Pc)
  {
    c in {Test, SleepEnter, SleepBoth, Got, LeaveLk, Cleared, Waking, Woke, LeaveDone}
  }

  predicate HasPt(c: Pc) { c in {SleepBoth, SleepSet, Resumed, Waking, Woke} }

  /** The process has been granted the sleep lock and has not cleared it. */
  predicate Owns(c: Pc) { c in {Got, Holder, Leave, LeaveLk} }

  function At(s: State, i: nat, c: Pc): (r: State)
    requires i < |s.pc|
  {
    s.(pc := s.pc[i := c])
  }

  /** wakeup1 on this lock. */
  function WakeAll(pc: seq<Pc>): (r: seq<Pc>)
    ensures |r| == |pc| && forall i :: 0 <= i < |pc| ==> r[i] == if pc[i] == Asleep then Awake else pc[i]
  {
    seq(|pc|, i requires 0 <= i < |pc| => if pc[i] == Asleep then Awake else pc[i])
  }

  /** Can process i take its next step? Idle processes may always come. */
  predicate Enabled(s: State, i: nat)
    requires i < |s.pc|
  {
    match s.pc[i]
    case Enter => s.lk.None?
    case Reenter => s.lk.None?
    case Leave => s.lk.None?
    case SleepEnter => s.pt.None?
    case Awake => s.pt.None?
    case Cleared => s.pt.None?
    case Asleep => false
    case _ => true
  }

  /** The next step of process i. */
  function Next(s: State, i: nat): (r: State)
    requires i < |s.pc| && Enabled(s, i)
  {
    match s.pc[i]
    case Idle => At(s, i, Enter)
    case Enter => At(s, i, Test).(lk := Some(i))
    case Test => if s.locked then At(s, i, SleepEnter) else At(s, i, Got).(locked := true, pid := i)
    case SleepEnter => At(s, i, SleepBoth).(pt := Some(i))
    case SleepBoth => At(s, i, SleepSet).(lk := None)
    case SleepSet => At(s, i, Asleep).(pt := None)
    case Awake => At(s, i, Resumed).(pt := Some(i))
    case Resumed => At(s, i, Reenter).(pt := None)
    case Reenter => At(s, i, Test).(lk := Some(i))
    case Got => At(s, i, Holder).(lk := None)
    case Holder => At(s, i, Leave)
    case Leave => At(s, i, LeaveLk).(lk := Some(i))
    case LeaveLk => At(s, i, Cleared).(locked := false, pid := 0)
    case Cleared => At(s, i, Waking).(pt := Some(i))
    case Waking => At(s, i, Woke).(pc := WakeAll(s.pc)[i := Woke])
    case Woke => At(s, i, LeaveDone).(pt := None)
    case LeaveDone => At(s, i, Idle).(lk := None)
  }

  /** A step of the system: some process moves, or kill() makes a sleeper RUNNABLE. */
  ghost predicate Step(s: State, t: State)
  {
    || (exists i :: 0 <= i < |s.pc| && Enabled(s, i) && t == Next(s, i))
    || (exists i :: 0 <= i < |s.pc| && s.pc[i] == Asleep && s.pt.None? && t == At(s, i, Awake))
  }

  predicate Initial(s: State)
  {
    !s.locked && s.lk.None? && s.pt.None? && forall i :: 0 <= i < |s.pc| ==> s.pc[i] == Idle
  }

  ghost predicate Run(states: seq<State>)
  {
    && states != [] && Initial(states[0])
    && forall k :: 0 <= k < |states| - 1 ==> Step(states[k], states[k + 1])
  }

  // ---- the invariant ----

  /** A releaser has cleared `locked` and has not called wakeup1 yet. */
  ghost predicate WakeupComing(s: State)
  {
    exists i :: 0 <= i < |s.pc| && (s.pc[i] == Cleared || s.pc[i] == Waking)
  }

  ghost predicate LkOk(s: State)
  {
    && (forall i :: 0 <= i < |s.pc| ==> (HasLk(s.pc[i]) <==> s.lk == Some(i)))
    && (s.lk.Some? ==> s.lk.value < |s.pc|)
  }

  ghost predicate PtOk(s: State)
  {
    && (forall i :: 0 <= i < |s.pc| ==> (HasPt(s.pc[i]) <==> s.pt == Some(i)))
    && (s.pt.Some? ==> s.pt.value < |s.pc|)
  }

  /** Each spinlock is held by exactly the process whose position says so. */
  ghost predicate Spinlocks(s: State) { LkOk(s) && PtOk(s) }

  /** At most one process owns the lock, and `locked` says whether one does. */
  ghost predicate Exclusive(s: State)
  {
    && (forall i :: 0 <= i < |s.pc| && Owns(s.pc[i]) ==> s.locked && s.pid == i)
    && (s.locked ==> s.pid < |s.pc| && Owns(s.pc[s.pid]))
  }

  /** A process on its way to sleep saw `locked` set, and if it has been cleared since, or while
      the process slept, a wakeup is coming. */
  ghost predicate NoLostWakeup(s: State)
  {
    && (forall i :: 0 <= i < |s.pc| && (s.pc[i] == SleepEnter || s.pc[i] == SleepBoth) ==> s.locked)
    && (forall i :: 0 <= i < |s.pc| && (s.pc[i] == SleepSet || s.pc[i] == Asleep) ==> s.locked || WakeupComing(s))
  }

  ghost predicate Inv(s: State) { Spinlocks(s) && Exclusive(s) && NoLostWakeup(s) }

  lemma StepKeepsLk(s: State, i: nat)
    requires LkOk(s) && i < |s.pc| && Enabled(s, i)
    ensures LkOk(Next(s, i))
  {
  }

  lemma StepKeepsPt(s: State, i: nat)
    requires PtOk(s) && i < |s.pc| && Enabled(s, i)
    ensures PtOk(Next(s, i))
  {
  }

  lemma StepKeepsExclusive(s: State, i: nat)
    requires Inv(s) && i < |s.pc| && Enabled(s, i)
    ensures Exclusive(Next(s, i))
  {
  }

  /** A coming wakeup stays on its way unless it is delivered. */
  lemma StepKeepsComing(s: State, i: nat)
    requires Inv(s) && i < |s.pc| && Enabled(s, i) && WakeupComing(s) && s.pc[i] != Waking
    ensures WakeupComing(Next(s, i))
  {
    var j :| 0 <= j < |s.pc| && (s.pc[j] == Cleared || s.pc[j] == Waking);
    assert Next(s, i).pc[j] == if i == j then Waking else s.pc[j];
  }

  lemma StepKeepsNoLostWakeup(s: State, i: nat)
    requires Inv(s) && i < |s.pc| && Enabled(s, i)
    ensures NoLostWakeup(Next(s, i))
  {
    var t := Next(s, i);
    if s.pc[i] == LeaveLk {
      assert t.pc[i] == Cleared;
    }
    if WakeupComing(s) && s.pc[i] != Waking {
      StepKeepsComing(s, i);
    }
  }

  lemma KillKeepsInv(s: State, i: nat)
    requires Inv(s) && i < |s.pc| && s.pc[i] == Asleep && s.pt.None?
    ensures Inv(At(s, i, Awake))
  {
    var t := At(s, i, Awake);
    if WakeupComing(s) {
      var j :| 0 <= j < |s.pc| && (s.pc[j] == Cleared || s.pc[j] == Waking);
      assert t.pc[j] == s.pc[j];
    }
  }

  lemma {:induction false} RunKeepsInv(states: seq<State>)
    requires Run(states)
    ensures Inv(states[|states| - 1])
    decreases |states|
  {
    var m := |states| - 1;
    if m > 0 {
      RunKeepsInv(states[..m]);
      var s, t := states[m - 1], states[m];
      assert Step(s, t);
      if i :| 0 <= i < |s.pc| && Enabled(s, i) && t == Next(s, i) {
        StepKeepsLk(s, i);
        StepKeepsPt(s, i);
        StepKeepsExclusive(s, i);
        StepKeepsNoLostWakeup(s, i);
      } else {
        var i :| 0 <= i < |s.pc| && s.pc[i] == Asleep && s.pt.None? && t == At(s, i, Awake);
        KillKeepsInv(s, i);
      }
    }
  }

  // ---- what it means ----

  /** In every reachable state at most one process owns the sleep lock. */
  lemma MutualExclusion(states: seq<State>, i: nat, j: nat)
    requires Run(states)
    requires var s := states[|states| - 1]; i < |s.pc| && j < |s.pc| && Owns(s.pc[i]) && Owns(s.pc[j])
    ensures i == j
  {
    RunKeepsInv(states);
  }

  /** In every reachable state, if a process sleeps on a free lock, then a releaser is between
      clearing `locked` and its wakeup. */
  lemma SleepersAreWoken(states: seq<State>, i: nat)
    requires Run(states)
    requires var s := states[|states| - 1]; i < |s.pc| && s.pc[i] == Asleep && !s.locked
    ensures WakeupComing(states[|states| - 1])
  {
    RunKeepsInv(states);
  }

  /** After its wakeup1 nobody sleeps on the lock. */
  lemma WakeupWakesAll(s: State, i: nat, j: nat)
    requires Inv(s) && i < |s.pc| && s.pc[i] == Waking && j < |s.pc|
    ensures Next(s, i).pc[j] != Asleep && Next(s, i).pc[j] != SleepSet
  {
  }

  /** The two spinlocks cannot deadlock: as long as some process is inside acquiresleep or
      releasesleep and awake, some process that is not Idle or Holder can step. */
  lemma NoDeadlock(states: seq<State>, i: nat) returns (j: nat)
    requires Run(states)
    requires var s := states[|states| - 1]; i < |s.pc| && s.pc[i] !in {Idle, Holder, Asleep}
    ensures var s := states[|states| - 1];
      j < |s.pc| && s.pc[j] !in {Idle, Holder} && Enabled(s, j)
  {
    RunKeepsInv(states);
    var s := states[|states| - 1];
    j := if s.pt.Some? then s.pt.value else if s.lk.Some? then s.lk.value else i;
  }

  // ---- what a process reaches ----

  /** Only process i moves. */
  ghost predicate Alone(states: seq<State>, i: nat)
  {
    && states != [] && (forall k :: 0 <= k < |states| ==> i < |states[k].pc|)
    && forall k :: 0 <= k < |states| - 1 ==> Enabled(states[k], i) && states[k + 1] == Next(states[k], i)
  }

  /** Process i takes one more step. */
  lemma Further(states: seq<State>, i: nat) returns (more: seq<State>)
    requires Alone(states, i) && Enabled(states[|states| - 1], i)
    ensures Alone(more, i) && more == states + [Next(states[|states| - 1], i)]
  {
    more := states + [Next(states[|states| - 1], i)];
  }

  /** A process that asks for a free lock, or comes back to it from sleep, gets it if nobody interferes,
      and nothing else has changed. */
  lemma FreeLockIsGranted(s: State, i: nat) returns (states: seq<State>)
    requires i < |s.pc| && s.pc[i] in {Enter, Reenter, Awake} && !s.locked && s.lk.None? && s.pt.None?
    ensures Alone(states, i) && states[0] == s
    ensures states[|states| - 1] == At(s, i, Holder).(locked := true, pid := i)
  {
    states := [s];
    if s.pc[i] == Awake {
      states := Further(states, i);
      states := Further(states, i);
    }
    states := Further(states, i);
    states := Further(states, i);
    states := Further(states, i);
    assert s.pc[i := Test][i := Got][i := Holder] == s.pc[i := Holder];
    if s.pc[i] == Awake { assert s.pc[i := Resumed][i := Reenter][i := Test] == s.pc[i := Test]; }
  }

  /** One that asks for a lock that is taken goes to sleep, with both spinlocks free again. */
  lemma TakenLockIsWaitedFor(s: State, i: nat) returns (states: seq<State>)
    requires i < |s.pc| && s.pc[i] in {Enter, Reenter} && s.locked && s.lk.None? && s.pt.None?
    ensures Alone(states, i) && states[0] == s
    ensures states[|states| - 1] == At(s, i, Asleep)
  {
    states := [s];
    states := Further(states, i);
    states := Further(states, i);
    states := Further(states, i);
    states := Further(states, i);
    states := Further(states, i);
    assert s.pc[i := Test][i := SleepEnter][i := SleepBoth][i := SleepSet][i := Asleep] == s.pc[i := Asleep];
  }

  /** One that releases the lock leaves it free, is out, and has woken everyone who slept on it. */
  lemma ReleaseFreesAndWakes(s: State, i: nat) returns (states: seq<State>)
    requires i < |s.pc| && s.pc[i] == Leave && s.lk.None? && s.pt.None?
    ensures Alone(states, i) && states[0] == s
    ensures states[|states| - 1] == State(false, 0, None, None, WakeAll(s.pc)[i := Idle])
  {
    states := [s];
    states := Further(states, i);
    states := Further(states, i);
    states := Further(states, i);
    assert states[3].pc == s.pc[i := Waking];
    states := Further(states, i);
    states := Further(states, i);
    states := Further(states, i);
    assert states[6].pc == WakeAll(s.pc)[i := Idle];
  }
}
