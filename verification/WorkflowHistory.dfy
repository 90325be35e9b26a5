/** The states a workflow went through in a run. */
module WorkflowHistory {
  import opened Wrappers
  import opened Workflow
  import opened Orchestrator

  function StateOf(db: Db, e: string): Option<WorkflowState> {
    if e in db.workflows then Some(db.workflows[e].state) else None
  }

  /** A call leaves a workflow's state alone, creates it as New, or moves it along one transition. */
  lemma CallMovesState(db: Db, op: Op, sha3: string -> string, e: string)
    ensures var s, s' := StateOf(db, e), StateOf(Call(db, op, sha3).0, e);
            || s' == s
            || (s.None? && s' == Some(New))
            || (s.Some? && s'.Some? && CanTransition(s.value, s'.value))
  {
    hide DoCreate, DoTransition, CanTransition;
    if !op.CreateWorkflow? && !op.TransitionTo? {
      OtherCallsKeepWorkflows(db, op, sha3);
    }
  }

  /** `starts[k]` is where the run enters rank k: from there until `starts[k + 1]`, or the end, the workflow is
      at rank k; before `starts[0]` it does not exist. So every rank was passed once and in order. */
  ghost predicate PassedInOrder(dbs: seq<Db>, e: string, n: nat, starts: seq<nat>) {
    && 1 <= |starts| && n < |dbs|
    && (forall k :: 0 <= k < |starts| ==> starts[k] <= n)
    && (forall k, l :: 0 <= k < l < |starts| ==> starts[k] < starts[l])
    && (forall i :: 0 <= i < starts[0] ==> StateOf(dbs[i], e).None?)
    && (forall k, i :: 0 <= k < |starts| && starts[k] <= i <= n && (k + 1 < |starts| ==> i < starts[k + 1]) ==>
                         StateOf(dbs[i], e).Some? && Rank(StateOf(dbs[i], e).value) == k)
  }

  lemma RankEnds()
    ensures Rank(New) == 0 && Rank(FailedDeadLetter) == 11
  {
  }

  /** A workflow that has not failed passed every state up to its own exactly once, in order. */
  lemma {:induction false} HistoryInOrder(dbs: seq<Db>, ops: seq<Op>, sha3: string -> string, n: nat, e: string)
    returns (starts: seq<nat>)
    requires Run(dbs, ops, sha3) && n <= |ops|
    requires StateOf(dbs[n], e).Some? && StateOf(dbs[n], e) != Some(FailedDeadLetter)
    ensures PassedInOrder(dbs, e, n, starts) && |starts| == Rank(StateOf(dbs[n], e).value) + 1
    decreases n
  {
    hide Call, CanTransition, Rank;
    RankEnds();
    var i := n - 1;
    assert dbs[i + 1] == Call(dbs[i], ops[i], sha3).0;
    CallMovesState(dbs[i], ops[i], sha3, e);
    var s, s' := StateOf(dbs[i], e), StateOf(dbs[n], e);
    if s.None? {
      starts := [n];
      NeverEarlier(dbs, ops, sha3, i, e);
    } else {
      TransitionIffNextRank(s.value, s'.value);
      starts := HistoryInOrder(dbs, ops, sha3, i, e);
      if s' != s {
        starts := starts + [n];
      }
    }
  }

  /** A failed workflow passed every state up to some one before Confirmed exactly once, in order, failed at the next
      move, and stayed failed. */
  lemma {:induction false} FailedAfterPassing(dbs: seq<Db>, ops: seq<Op>, sha3: string -> string, n: nat, e: string)
    returns (failed: nat, starts: seq<nat>)
    requires Run(dbs, ops, sha3) && n <= |ops| && StateOf(dbs[n], e) == Some(FailedDeadLetter)
    ensures 1 <= failed <= n && forall i :: failed <= i <= n ==> StateOf(dbs[i], e) == Some(FailedDeadLetter)
    ensures PassedInOrder(dbs, e, failed - 1, starts) && |starts| <= Rank(Confirmed)
    decreases n
  {
    hide Call, CanTransition, Rank, PassedInOrder;
    var i := n - 1;
    assert dbs[i + 1] == Call(dbs[i], ops[i], sha3).0;
    CallMovesState(dbs[i], ops[i], sha3, e);
    var s := StateOf(dbs[i], e);
    if s == Some(FailedDeadLetter) {
      failed, starts := FailedAfterPassing(dbs, ops, sha3, i, e);
    } else {
      TransitionIffNextRank(s.value, FailedDeadLetter);
      failed := n;
      starts := HistoryInOrder(dbs, ops, sha3, i, e);
    }
  }

  /** Workflows are never removed. */
  lemma {:induction false} NeverEarlier(dbs: seq<Db>, ops: seq<Op>, sha3: string -> string, n: nat, e: string)
    requires Run(dbs, ops, sha3) && n <= |ops| && StateOf(dbs[n], e).None?
    ensures forall i :: 0 <= i <= n ==> StateOf(dbs[i], e).None?
  {
    hide Call;
    if 0 < n {
      assert dbs[n - 1 + 1] == Call(dbs[n - 1], ops[n - 1], sha3).0;
      CallMovesState(dbs[n - 1], ops[n - 1], sha3, e);
      NeverEarlier(dbs, ops, sha3, n - 1, e);
    }
  }
}
