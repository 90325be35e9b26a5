/** The signer's request ledger: `sign_request_dedup`, `sign_request_result` and `consumed_action_jti`. */
module RequestLedger {
  import opened Wrappers
  import opened MachineInts

  datatype Status = InProgress | Completed

  datatype Request = Request(escrow: string, op: string, round: string, txset: string, status: Status)

  datatype Response = Response(op: string, json: string)

  datatype Use = Use(escrow: string, op: string, round: string, reqId: string, expUnixS: i64)

  datatype Ledger = Ledger(requests: map<string, Request>, results: map<string, Response>, jtis: map<string, Use>)

  datatype Error = DuplicateReqId | NotInProgress | ResultExists | ReplayedJti

  /** One call, committed or refused. */
  datatype Op =
    | Start(reqId: string, escrow: string, op: string, round: string, txset: string)
    | Complete(reqId: string)
    | CompleteWithResult(reqId: string, op: string, json: string)
    | Abort(reqId: string)
    | ConsumeJti(jti: string, use: Use)

  const Empty: Ledger := Ledger(map[], map[], map[])

  predicate IsRunning(l: Ledger, reqId: string) {
    reqId in l.requests && l.requests[reqId].status == InProgress
  }

  predicate IsCompleted(l: Ledger, reqId: string) {
    reqId in l.requests && l.requests[reqId].status == Completed
  }

  function MarkCompleted(l: Ledger, reqId: string): Ledger
    requires IsRunning(l, reqId)
  {
    l.(requests := l.requests[reqId := l.requests[reqId].(status := Completed)])
  }

  /** The error a call answers with, if any. */
  function Refusal(l: Ledger, op: Op): Option<Error> {
    match op
    case Start(reqId, _, _, _, _) => if reqId in l.requests then Some(DuplicateReqId) else None
    case Complete(reqId) => if IsRunning(l, reqId) then None else Some(NotInProgress)
    case CompleteWithResult(reqId, _, _) =>
      if !IsRunning(l, reqId) then Some(NotInProgress) else if reqId in l.results then Some(ResultExists) else None
    case Abort(_) => None
    case ConsumeJti(jti, _) => if jti in l.jtis then Some(ReplayedJti) else None
  }

  /** The ledger after a call; a refused call changes nothing. */
  function Apply(l: Ledger, op: Op): Ledger {
    if Refusal(l, op).Some? then l
    else match op
      case Start(reqId, escrow, o, round, txset) =>
        l.(requests := l.requests[reqId := Request(escrow, o, round, txset, InProgress)])
      case Complete(reqId) => MarkCompleted(l, reqId)
      case CompleteWithResult(reqId, o, json) =>
        MarkCompleted(l, reqId).(results := l.results[reqId := Response(o, json)])
      case Abort(reqId) => if IsRunning(l, reqId) then l.(requests := l.requests - {reqId}) else l
      case ConsumeJti(jti, use) => l.(jtis := l.jtis[jti := use])
  }

  // ---- runs ----

  ghost predicate Run(ls: seq<Ledger>, ops: seq<Op>) {
    && |ls| == |ops| + 1 && ls[0] == Empty
    && forall i :: 0 <= i < |ops| ==> ls[i + 1] == Apply(ls[i], ops[i])
  }

  lemma RunExtends(ls: seq<Ledger>, ops: seq<Op>, op: Op)
    requires Run(ls, ops)
    ensures Run(ls + [Apply(ls[|ops|], op)], ops + [op])
  {
    hide Apply;
    var ls', ops' := ls + [Apply(ls[|ops|], op)], ops + [op];
    forall i | 0 <= i < |ops'| ensures ls'[i + 1] == Apply(ls'[i], ops'[i]) {
      if i < |ops| {
        assert ls'[i] == ls[i] && ls'[i + 1] == ls[i + 1] && ops'[i] == ops[i];
      }
    }
  }

  predicate Completes(op: Op, reqId: string) {
    op == Complete(reqId) || (op.CompleteWithResult? && op.reqId == reqId)
  }

  /** A stored result belongs to a completed request. */
  ghost predicate ResultsOfCompleted(l: Ledger) {
    forall reqId :: reqId in l.results ==> IsCompleted(l, reqId)
  }

  lemma {:induction false} ResultsAlwaysOfCompleted(ls: seq<Ledger>, ops: seq<Op>, n: nat)
    requires Run(ls, ops) && n <= |ops|
    ensures ResultsOfCompleted(ls[n])
  {
    if 0 < n {
      ResultsAlwaysOfCompleted(ls, ops, n - 1);
      assert ls[n - 1 + 1] == Apply(ls[n - 1], ops[n - 1]);
    }
  }

  /** Storing a result never collides with an earlier one. */
  lemma ResultInsertNeverCollides(ls: seq<Ledger>, ops: seq<Op>, n: nat)
    requires Run(ls, ops) && n < |ops|
    ensures Refusal(ls[n], ops[n]) != Some(ResultExists)
  {
    ResultsAlwaysOfCompleted(ls, ops, n);
  }

  /** A completed request keeps its row and its result, whatever is called afterwards. */
  lemma {:induction false} CompletedIsFinal(ls: seq<Ledger>, ops: seq<Op>, i: nat, j: nat, reqId: string)
    requires Run(ls, ops) && i <= j <= |ops| && IsCompleted(ls[i], reqId)
    ensures reqId in ls[j].requests && ls[j].requests[reqId] == ls[i].requests[reqId]
    ensures reqId in ls[j].results <==> reqId in ls[i].results
    ensures reqId in ls[i].results ==> ls[j].results[reqId] == ls[i].results[reqId]
    decreases j
  {
    if i < j {
      CompletedIsFinal(ls, ops, i, j - 1, reqId);
      assert ls[j - 1 + 1] == Apply(ls[j - 1], ops[j - 1]);
    }
  }

  /** After a request completed, starting or completing it again is refused. */
  lemma CompletedRefusesMore(ls: seq<Ledger>, ops: seq<Op>, i: nat, j: nat, reqId: string)
    requires Run(ls, ops) && i <= j < |ops| && IsCompleted(ls[i], reqId)
    ensures ops[j].Start? && ops[j].reqId == reqId ==> Refusal(ls[j], ops[j]) == Some(DuplicateReqId)
    ensures Completes(ops[j], reqId) ==> Refusal(ls[j], ops[j]) == Some(NotInProgress)
  {
    CompletedIsFinal(ls, ops, i, j, reqId);
  }

  /** A request completes at most once in a run. */
  lemma CompletesAtMostOnce(ls: seq<Ledger>, ops: seq<Op>, i: nat, j: nat, reqId: string)
    requires Run(ls, ops) && i < |ops| && j < |ops|
    requires Completes(ops[i], reqId) && Refusal(ls[i], ops[i]).None?
    requires Completes(ops[j], reqId) && Refusal(ls[j], ops[j]).None?
    ensures i == j
  {
    assert ls[i + 1] == Apply(ls[i], ops[i]);
    assert ls[j + 1] == Apply(ls[j], ops[j]);
    if i < j {
      CompletedRefusesMore(ls, ops, i + 1, j, reqId);
    } else if j < i {
      CompletedRefusesMore(ls, ops, j + 1, i, reqId);
    }
  }

  lemma {:induction false} ConsumedStays(ls: seq<Ledger>, ops: seq<Op>, i: nat, j: nat, jti: string)
    requires Run(ls, ops) && i <= j <= |ops| && jti in ls[i].jtis
    ensures jti in ls[j].jtis && ls[j].jtis[jti] == ls[i].jtis[jti]
    decreases j
  {
    if i < j {
      ConsumedStays(ls, ops, i, j - 1, jti);
      assert ls[j - 1 + 1] == Apply(ls[j - 1], ops[j - 1]);
    }
  }

  /** A token id is consumed at most once in a run. */
  lemma ConsumedAtMostOnce(ls: seq<Ledger>, ops: seq<Op>, i: nat, j: nat)
    requires Run(ls, ops) && i < |ops| && j < |ops|
    requires ops[i].ConsumeJti? && ops[j].ConsumeJti? && ops[i].jti == ops[j].jti
    requires Refusal(ls[i], ops[i]).None? && Refusal(ls[j], ops[j]).None?
    ensures i == j
  {
    assert ls[i + 1] == Apply(ls[i], ops[i]);
    assert ls[j + 1] == Apply(ls[j], ops[j]);
    if i < j {
      ConsumedStays(ls, ops, i + 1, j, ops[i].jti);
    } else if j < i {
      ConsumedStays(ls, ops, j + 1, i, ops[i].jti);
    }
  }

  // ---- what the tables say about the past ----

  /** Some call so far completed the request. */
  ghost predicate EverCompleted(ls: seq<Ledger>, ops: seq<Op>, reqId: string)
    requires |ls| == |ops| + 1
  {
    exists i :: 0 <= i < |ops| && Completes(ops[i], reqId) && Refusal(ls[i], ops[i]).None?
  }

  /** Some call so far consumed the token id. */
  ghost predicate EverConsumed(ls: seq<Ledger>, ops: seq<Op>, jti: string)
    requires |ls| == |ops| + 1
  {
    exists i :: 0 <= i < |ops| && ops[i].ConsumeJti? && ops[i].jti == jti && Refusal(ls[i], ops[i]).None?
  }

  /** A request is marked completed if and only if some call completed it. */
  lemma {:induction false} CompletedIffEver(ls: seq<Ledger>, ops: seq<Op>, reqId: string)
    requires Run(ls, ops)
    ensures EverCompleted(ls, ops, reqId) <==> IsCompleted(ls[|ops|], reqId)
  {
    if i :| 0 <= i < |ops| && Completes(ops[i], reqId) && Refusal(ls[i], ops[i]).None? {
      assert ls[i + 1] == Apply(ls[i], ops[i]);
      CompletedIsFinal(ls, ops, i + 1, |ops|, reqId);
    }
    if IsCompleted(ls[|ops|], reqId) {
      var i := WasCompleted(ls, ops, |ops|, reqId);
    }
  }

  lemma {:induction false} WasCompleted(ls: seq<Ledger>, ops: seq<Op>, n: nat, reqId: string) returns (i: nat)
    requires Run(ls, ops) && n <= |ops| && IsCompleted(ls[n], reqId)
    ensures i < n && Completes(ops[i], reqId) && Refusal(ls[i], ops[i]).None?
    decreases n
  {
    i := n - 1;
    assert ls[i + 1] == Apply(ls[i], ops[i]);
    if !(Completes(ops[i], reqId) && Refusal(ls[i], ops[i]).None?) {
      i := WasCompleted(ls, ops, n - 1, reqId);
    }
  }

  /** A token id is stored if and only if some call consumed it. */
  lemma {:induction false} ConsumedIffEver(ls: seq<Ledger>, ops: seq<Op>, jti: string)
    requires Run(ls, ops)
    ensures EverConsumed(ls, ops, jti) <==> jti in ls[|ops|].jtis
  {
    if i :| 0 <= i < |ops| && ops[i].ConsumeJti? && ops[i].jti == jti && Refusal(ls[i], ops[i]).None? {
      assert ls[i + 1] == Apply(ls[i], ops[i]);
      ConsumedStays(ls, ops, i + 1, |ops|, jti);
    }
    if jti in ls[|ops|].jtis {
      var i := WasConsumed(ls, ops, |ops|, jti);
    }
  }

  lemma {:induction false} WasConsumed(ls: seq<Ledger>, ops: seq<Op>, n: nat, jti: string) returns (i: nat)
    requires Run(ls, ops) && n <= |ops| && jti in ls[n].jtis
    ensures i < n && ops[i].ConsumeJti? && ops[i].jti == jti && Refusal(ls[i], ops[i]).None?
    decreases n
  {
    i := n - 1;
    assert ls[i + 1] == Apply(ls[i], ops[i]);
    if !(ops[i].ConsumeJti? && ops[i].jti == jti && Refusal(ls[i], ops[i]).None?) {
      i := WasConsumed(ls, ops, n - 1, jti);
    }
  }

  /** The same requests as before; only the status of one of them may differ. */
  ghost predicate OnlyCompletes(before: map<string, Request>, after: map<string, Request>, reqId: string) {
    && after.Keys == before.Keys
    && (forall q :: q in before && q != reqId ==> after[q] == before[q])
    && (reqId in before ==>
          && after[reqId].escrow == before[reqId].escrow && after[reqId].op == before[reqId].op
          && after[reqId].round == before[reqId].round && after[reqId].txset == before[reqId].txset)
  }

  // ---- the tables as the signer updates them ----

  /** The tables, and the run that led to them: every method keeps the run up to date, so what holds of all runs
      holds of the object. */
  class SignerRequests {
    var requests: map<string, Request>
    var results: map<string, Response>
    var jtis: map<string, Use>
    ghost var ls: seq<Ledger>
    ghost var ops: seq<Op>

    ghost function View(): Ledger
      reads this
    {
      Ledger(requests, results, jtis)
    }

    ghost predicate Valid()
      reads this
    {
      Run(ls, ops) && ls[|ops|] == View()
    }

    constructor ()
      ensures Valid() && ops == []
    {
      requests, results, jtis := map[], map[], map[];
      ls, ops := [Empty], [];
    }

    ghost method Log(call: Op)
      requires Run(ls, ops) && View() == Apply(ls[|ops|], call)
      modifies `ls, `ops
      ensures Valid() && ops == old(ops) + [call] && ls == old(ls) + [View()]
    {
      RunExtends(ls, ops, call);
      ls, ops := ls + [View()], ops + [call];
    }

    /** Granted exactly for an unknown request id, so never for one that was ever completed. */
    method StartSignRequest(reqId: string, escrow: string, op: string, round: string, txset: string)
      returns (error: Option<Error>)
      requires Valid()
      modifies this
      ensures Valid() && ops == old(ops) + [Start(reqId, escrow, op, round, txset)]
      ensures error.None? <==> reqId !in old(requests)
      ensures error.None? ==> !EverCompleted(old(ls), old(ops), reqId) && IsRunning(View(), reqId)
      ensures error.None? ==> requests == old(requests)[reqId := Request(escrow, op, round, txset, InProgress)]
      ensures (error.Some? ==> requests == old(requests)) && results == old(results) && jtis == old(jtis)
    {
      CompletedIffEver(ls, ops, reqId);
      if reqId in requests {
        error := Some(DuplicateReqId);
      } else {
        requests := requests[reqId := Request(escrow, op, round, txset, InProgress)];
        error := None;
      }
      Log(Start(reqId, escrow, op, round, txset));
    }

    /** Granted exactly for a request in progress, which no call has completed before and this one has. */
    method CompleteSignRequest(reqId: string) returns (error: Option<Error>)
      requires Valid()
      modifies this
      ensures Valid() && ops == old(ops) + [Complete(reqId)]
      ensures error.None? <==> IsRunning(old(View()), reqId)
      ensures error.None? ==> !EverCompleted(old(ls), old(ops), reqId) && EverCompleted(ls, ops, reqId)
      ensures OnlyCompletes(old(requests), requests, reqId)
      ensures (error.Some? ==> requests == old(requests)) && results == old(results) && jtis == old(jtis)
    {
      CompletedIffEver(ls, ops, reqId);
      if reqId !in requests || requests[reqId].status != InProgress {
        error := Some(NotInProgress);
      } else {
        requests := requests[reqId := requests[reqId].(status := Completed)];
        error := None;
      }
      Log(Complete(reqId));
      CompletedIffEver(ls, ops, reqId);
    }

    /** As a completion, and the result is stored with it; no earlier result is ever in the way. */
    method CompleteSignRequestWithResult(reqId: string, op: string, json: string) returns (error: Option<Error>)
      requires Valid()
      modifies this
      ensures Valid() && ops == old(ops) + [CompleteWithResult(reqId, op, json)]
      ensures error.None? <==> IsRunning(old(View()), reqId)
      ensures error.None? ==> reqId !in old(results) && results == old(results)[reqId := Response(op, json)]
      ensures error.None? ==> !EverCompleted(old(ls), old(ops), reqId) && EverCompleted(ls, ops, reqId)
      ensures OnlyCompletes(old(requests), requests, reqId)
      ensures (error.Some? ==> requests == old(requests) && results == old(results)) && jtis == old(jtis)
    {
      CompletedIffEver(ls, ops, reqId);
      ResultsAlwaysOfCompleted(ls, ops, |ops|);
      if reqId !in requests || requests[reqId].status != InProgress {
        error := Some(NotInProgress);
      } else if reqId in results {
        error := Some(ResultExists);
      } else {
        requests := requests[reqId := requests[reqId].(status := Completed)];
        results := results[reqId := Response(op, json)];
        error := None;
      }
      Log(CompleteWithResult(reqId, op, json));
      CompletedIffEver(ls, ops, reqId);
    }

    /** Afterwards the request is not in progress; a completed request, and every other one, is untouched. */
    method AbortSignRequest(reqId: string)
      requires Valid()
      modifies this
      ensures Valid() && ops == old(ops) + [Abort(reqId)]
      ensures !IsRunning(View(), reqId)
      ensures forall q :: q != reqId || IsCompleted(old(View()), q) ==>
                            (q in requests <==> q in old(requests)) && (q in requests ==> requests[q] == old(requests)[q])
      ensures results == old(results) && jtis == old(jtis)
    {
      if reqId in requests && requests[reqId].status == InProgress {
        requests := requests - {reqId};
      }
      Log(Abort(reqId));
    }

    /** Granted exactly the first time: if and only if no call has consumed the token id before. */
    method ConsumeActionJti(jti: string, use: Use) returns (error: Option<Error>)
      requires Valid()
      modifies this
      ensures Valid() && ops == old(ops) + [ConsumeJti(jti, use)]
      ensures error.None? <==> !EverConsumed(old(ls), old(ops), jti)
      ensures EverConsumed(ls, ops, jti)
      ensures jtis == if error.None? then old(jtis)[jti := use] else old(jtis)
      ensures requests == old(requests) && results == old(results)
    {
      ConsumedIffEver(ls, ops, jti);
      if jti in jtis {
        error := Some(ReplayedJti);
      } else {
        jtis := jtis[jti := use];
        error := None;
      }
      Log(ConsumeJti(jti, use));
      ConsumedIffEver(ls, ops, jti);
    }
  }
}
