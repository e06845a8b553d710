/** The log space reservation of begin_op, log_write and end_op as a protocol between any
    number of operations, and how it meets the size guard of log_write. */
module Reservation {
  import opened Common
  import opened CrashRecovery
  import opened Log

  /** `n` blocks are listed; `left[i]` is what outstanding operation i may still add. */
  datatype State = State(n: nat, left: seq<int>)

  const Start := State(0, [])

  /** begin_op admitted; a fresh block logged within the budget; an operation ended, with
      a commit if it was the last. Absorbed writes and refusals change nothing. */
  predicate Step(s: State, t: State)
  {
    || (s.n + (|s.left| + 1) * MAXOPBLOCKS <= LOGSIZE && t == State(s.n, s.left + [MAXOPBLOCKS]))
    || (exists i :: 0 <= i < |s.left| && s.left[i] > 0 && t == State(s.n + 1, s.left[i := s.left[i] - 1]))
    || (exists i :: 0 <= i < |s.left|
          && t == State(if |s.left| == 1 then 0 else s.n, s.left[..i] + s.left[i + 1..]))
  }

  ghost predicate Run(states: seq<State>)
  {
    && states != [] && states[0] == Start
    && forall i :: 0 <= i < |states| - 1 ==> Step(states[i], states[i + 1])
  }

  ghost predicate Reachable(s: State)
  {
    exists states :: Run(states) && states[|states| - 1] == s
  }

  ghost predicate WithinLog(s: State)
  {
    && (forall i :: 0 <= i < |s.left| ==> 0 <= s.left[i] <= MAXOPBLOCKS)
    && s.n + Sum(s.left) <= LOGSIZE
  }

  lemma StepWithinLog(s: State, t: State)
    requires WithinLog(s) && Step(s, t)
    ensures WithinLog(t)
  {
    hide Sum;
    if s.n + (|s.left| + 1) * MAXOPBLOCKS <= LOGSIZE && t == State(s.n, s.left + [MAXOPBLOCKS]) {
      SumSnoc(s.left, MAXOPBLOCKS);
      SumAtMost(s.left);
    } else if i :| 0 <= i < |s.left| && s.left[i] > 0 && t == State(s.n + 1, s.left[i := s.left[i] - 1]) {
      SumUpdate(s.left, i, s.left[i] - 1);
    } else {
      var i :| 0 <= i < |s.left|
        && t == State(if |s.left| == 1 then 0 else s.n, s.left[..i] + s.left[i + 1..]);
      SumRemove(s.left, i);
    }
  }

  /** In every reachable state the listed blocks and the unused reservations fit. */
  lemma {:induction false} ReachableWithinLog(states: seq<State>)
    requires Run(states)
    ensures WithinLog(states[|states| - 1])
    decreases |states|
  {
    var m := |states| - 1;
    if m > 0 {
      ReachableWithinLog(states[..m]);
      StepWithinLog(states[m - 1], states[m]);
    }
  }

  lemma Extend(s: State, t: State)
    requires Reachable(s) && Step(s, t)
    ensures Reachable(t)
  {
    var states :| Run(states) && states[|states| - 1] == s;
    assert Run(states + [t]);
  }

  /** Three operations admitted, which have then logged k blocks in turn. */
  function Filled(k: nat): (s: State)
    requires k <= LOGSIZE
  {
    State(k,
          [MAXOPBLOCKS - Min(k, 10), MAXOPBLOCKS - Min(if k < 10 then 0 else k - 10, 10),
           MAXOPBLOCKS - if k < 20 then 0 else k - 20])
  }

  lemma {:induction false} FilledReachable(k: nat)
    requires k <= LOGSIZE
    ensures Reachable(Filled(k))
  {
    if k == 0 {
      assert Run([Start]);
      var s1, s2 := State(0, [MAXOPBLOCKS]), State(0, [MAXOPBLOCKS, MAXOPBLOCKS]);
      Extend(Start, s1);
      Extend(s1, s2);
      Extend(s2, Filled(0));
    } else {
      FilledReachable(k - 1);
      var s, i := Filled(k - 1), (k - 1) / 10;
      assert s.left[i] > 0 && Filled(k) == State(s.n + 1, s.left[i := s.left[i] - 1]);
      Extend(s, Filled(k));
    }
  }

  ghost predicate HasBudget(s: State) { exists i :: 0 <= i < |s.left| && s.left[i] > 0 }

  /** log_write's guard. */
  predicate TooBigFor(n: nat, size: nat) { n >= LOGSIZE || n >= size - 1 }

  lemma BudgetLeavesRoom(s: State)
    requires WithinLog(s) && HasBudget(s)
    ensures s.n < LOGSIZE
  {
    var i :| 0 <= i < |s.left| && s.left[i] > 0;
    SumUpdate(s.left, i, 0);
    SumNonNegative(s.left[i := 0]);
  }

  lemma {:induction false} SumNonNegative(s: seq<int>)
    requires forall i :: 0 <= i < |s| ==> 0 <= s[i]
    ensures Sum(s) >= 0
  {
    if s != [] { SumNonNegative(s[..|s| - 1]); }
  }

  lemma ReachableFits(s: State)
    requires Reachable(s)
    ensures WithinLog(s) && s.n <= LOGSIZE
  {
    var states :| Run(states) && states[|states| - 1] == s;
    ReachableWithinLog(states);
    SumNonNegative(s.left);
  }

  /** A fresh block inside an operation's budget can be stopped by the guard exactly when the on-disk
      log has no more than LOGSIZE blocks, header included. mkfs.c:25 makes it LOGSIZE. */
  lemma BudgetMeetsGuard(size: nat)
    ensures (exists s :: Reachable(s) && HasBudget(s) && TooBigFor(s.n, size)) <==> size <= LOGSIZE
  {
    if size <= LOGSIZE {
      FilledReachable(LOGSIZE - 1);
      assert Filled(LOGSIZE - 1).left[2] > 0;
      assert HasBudget(Filled(LOGSIZE - 1)) && TooBigFor(Filled(LOGSIZE - 1).n, size);
    } else {
      forall s | Reachable(s) && HasBudget(s)
        ensures !TooBigFor(s.n, size)
      {
        ReachableFits(s);
        BudgetLeavesRoom(s);
      }
    }
  }

  /** An operation is outstanding and a block is listed, so it may log that block again. */
  predicate MayAbsorb(s: State) { |s.left| > 0 && s.n > 0 }

  /** The guard comes before absorption: once three operations have used up their budgets, it stops
      a write of a block that is listed already, however large the on-disk log is. */
  lemma AbsorbedMeetsGuard(size: nat)
    ensures var s := Filled(LOGSIZE);
      Reachable(s) && MayAbsorb(s) && !HasBudget(s) && TooBigFor(s.n, size)
  {
    FilledReachable(LOGSIZE);
  }

  /** On a log of more than LOGSIZE blocks that is the only case: the guard stops a write if and only
      if the list is full, and then every budget has been spent. */
  lemma GuardOnLargeLog(size: nat, s: State)
    requires size > LOGSIZE && Reachable(s)
    ensures TooBigFor(s.n, size) <==> s.n == LOGSIZE
    ensures TooBigFor(s.n, size) ==> !HasBudget(s) && forall i :: 0 <= i < |s.left| ==> s.left[i] == 0
  {
    ReachableFits(s);
    if HasBudget(s) { BudgetLeavesRoom(s); }
  }
}
