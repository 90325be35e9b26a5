/** The orchestrator's database object: its tables are updated in place, one transaction per method. */
module OrchestratorDb {
  import opened Wrappers
  import opened MachineInts
  import opened Text
  import opened Workflow
  import opened Orchestrator
  import opened StepLog
  import opened WorkflowHistory
  import opened OutboxLife
  import opened OutboxLog
  import opened OutboxReadings
  import opened ProofStore
  import opened Upserts

  /** Normalise each participant and refuse a repeated one. */
  method NormalizeParticipantList(participants: seq<string>) returns (r: Option<seq<string>>)
    ensures r == if participants == [] then None else NormalizeParticipants(participants)
  {
    if participants == [] {
      return None;
    }
    hide NormalizeParticipants, NormalizeNonEmpty;
    var out, seen := [], {};
    EmptyList();
    for i := 0 to |participants|
      invariant NormalizeParticipants(participants[..i]) == Some(out)
      invariant seen == set p | p in out
    {
      OneMore(participants, i);
      var p := NormalizeNonEmpty(participants[i]);
      if p.None? || p.value in seen {
        PrefixRefused(participants, i + 1);
        return None;
      }
      seen := seen + {p.value};
      out := out + [p.value];
    }
    assert participants[..|participants|] == participants;
    return Some(out);
  }

  lemma EmptyList()
    ensures NormalizeParticipants([]) == Some([])
  {
  }

  lemma OneMore(ps: seq<string>, i: nat)
    requires i < |ps| && NormalizeParticipants(ps[..i]).Some?
    ensures var init, p := NormalizeParticipants(ps[..i]).value, NormalizeNonEmpty(ps[i]);
            NormalizeParticipants(ps[..i + 1]) == if p.None? || p.value in init then None else Some(init + [p.value])
  {
    hide NormalizeNonEmpty;
    assert ps[..i + 1][..i] == ps[..i];
  }

  lemma {:induction false} PrefixRefused(ps: seq<string>, n: nat)
    requires n <= |ps| && NormalizeParticipants(ps[..n]).None?
    ensures NormalizeParticipants(ps).None?
    decreases |ps|
  {
    if n == |ps| {
      assert ps[..n] == ps;
    } else {
      var init := ps[..|ps| - 1];
      assert init[..n] == ps[..n];
      PrefixRefused(init, n);
    }
  }

  lemma NeverHadWorkflow(dbs: seq<Db>, ops: seq<Op>, sha3: string -> string, e: string)
    requires Run(dbs, ops, sha3) && e !in dbs[|ops|].workflows
    ensures forall i :: 0 <= i < |dbs| ==> e !in dbs[i].workflows
  {
    hide Call;
    NeverEarlier(dbs, ops, sha3, |ops|, e);
    assert forall i :: 0 <= i < |dbs| ==> StateOf(dbs[i], e).None?;
  }

  lemma PassedUpTo(dbs: seq<Db>, ops: seq<Op>, sha3: string -> string, e: string) returns (starts: seq<nat>)
    requires Run(dbs, ops, sha3) && e in dbs[|ops|].workflows && dbs[|ops|].workflows[e].state != FailedDeadLetter
    ensures PassedInOrder(dbs, e, |ops|, starts) && |starts| == Rank(dbs[|ops|].workflows[e].state) + 1
  {
    hide Call;
    starts := HistoryInOrder(dbs, ops, sha3, |ops|, e);
  }

  /** The tables, and the run that led to them: every method keeps the run up to date, so what holds of all runs
      holds of the object. */
  class OrchestratorDb {
    const sha3: string -> string
    var workflows: map<string, Instance>
    var steps: map<string, StepRow>
    var outbox: seq<OutboxRow>
    var deadLetters: seq<DeadLetter>
    var proposals: map<string, Proposal>
    var admissions: map<string, Admission>
    var proofs: map<ProofKey, Proof>
    ghost var dbs: seq<Db>
    ghost var ops: seq<Op>

    function View(): Db
      reads this
    {
      Db(workflows, steps, outbox, deadLetters, proposals, admissions, proofs)
    }

    ghost predicate Valid()
      reads this
    {
      Run(dbs, ops, sha3) && dbs[|ops|] == View()
    }

    constructor (sha3: string -> string)
      ensures Valid() && ops == [] && this.sha3 == sha3
    {
      this.sha3 := sha3;
      workflows, steps, outbox, deadLetters := map[], map[], [], [];
      proposals, admissions, proofs := map[], map[], map[];
      dbs, ops := [Empty], [];
    }

    ghost method Log(op: Op)
      requires Run(dbs, ops, sha3) && View() == Call(dbs[|ops|], op, sha3).0
      modifies `dbs, `ops
      ensures Valid() && ops == old(ops) + [op] && dbs == old(dbs) + [View()]
    {
      hide Call;
      RunExtends(dbs, ops, op, sha3);
      dbs, ops := dbs + [View()], ops + [op];
    }

    // ---- workflows ----

    /** Granted exactly for well-formed input and an escrow that never had a workflow; it then starts as New. */
    method Create(escrow: string, snapshotHash: string, participants: seq<string>) returns (answer: Answer)
      requires Valid()
      modifies this
      ensures Valid() && ops == old(ops) + [CreateWorkflow(escrow, snapshotHash, participants)]
      ensures answer == Call(old(View()), CreateWorkflow(escrow, snapshotHash, participants), sha3).1
      ensures var e, s, ps := NormalizeHex(escrow, 32), NormalizeHex(snapshotHash, 64), NormalizeParticipants(participants);
              && (answer == Done <==> e.Some? && s.Some? && participants != [] && ps.Some? && e.value !in old(workflows))
              && (answer == Done ==> workflows == old(workflows)[e.value := Instance(New, s.value, ps.value)])
              && (answer == Done ==> forall i :: 0 <= i < |old(dbs)| ==> e.value !in old(dbs)[i].workflows)
      ensures View() == old(View()).(workflows := workflows) && (answer != Done ==> View() == old(View()))
    {
      assert |dbs| == |ops| + 1;
      hide NormalizeHex, NormalizeParticipants, Call, Run, StateOf;
      ghost var op := CreateWorkflow(escrow, snapshotHash, participants);
      CallIsItsFunction(View(), op, sha3);
      var e := NormalizeHex(escrow, 32);
      var s := NormalizeHex(snapshotHash, 64);
      var ps := NormalizeParticipantList(participants);
      if e.None? || s.None? || ps.None? {
        answer := Refused(InvalidInput);
      } else if e.value in workflows {
        answer := Refused(WorkflowExists);
      } else {
        NeverHadWorkflow(dbs, ops, sha3, e.value);
        workflows := workflows[e.value := Instance(New, s.value, ps.value)];
        answer := Done;
      }
      Log(op);
    }

    /** Granted exactly for an allowed transition; only this workflow's state changes, and it has then passed every
        state up to the new one once and in order. */
    method Transition(escrow: string, state: WorkflowState) returns (answer: Answer)
      requires Valid()
      modifies this
      ensures Valid() && ops == old(ops) + [TransitionTo(escrow, state)]
      ensures answer == Call(old(View()), TransitionTo(escrow, state), sha3).1
      ensures var e := NormalizeHex(escrow, 32);
              && (answer == Done <==>
                  e.Some? && e.value in old(workflows) && CanTransition(old(workflows)[e.value].state, state))
              && (answer == Done ==> workflows == old(workflows)[e.value := old(workflows)[e.value].(state := state)])
              && (answer == Done && state != FailedDeadLetter ==>
                    exists starts :: PassedInOrder(dbs, e.value, |ops|, starts) && |starts| == Rank(state) + 1)
      ensures View() == old(View()).(workflows := workflows) && (answer != Done ==> View() == old(View()))
    {
      assert |dbs| == |ops| + 1;
      hide NormalizeHex, CanTransition, Call, PassedInOrder, Rank, Run, StateOf;
      ghost var op := TransitionTo(escrow, state);
      CallIsItsFunction(View(), op, sha3);
      var e := NormalizeHex(escrow, 32);
      if e.None? {
        answer := Refused(InvalidInput);
      } else if e.value !in workflows {
        answer := Refused(WorkflowNotFound);
      } else if !CanTransition(workflows[e.value].state, state) {
        answer := Refused(InvalidTransition);
      } else {
        workflows := workflows[e.value := workflows[e.value].(state := state)];
        answer := Done;
      }
      Log(op);
      if answer == Done && state != FailedDeadLetter {
        ghost var starts := PassedUpTo(dbs, ops, sha3, e.value);
      }
    }

    // ---- step log ----

    /** A step that passes the checks is entered if its key never was, a repeat if it was entered with this payload,
        a conflict if with another; only an entry changes the log, and only a conflict leaves a dead letter. */
    method Record(escrow: string, state: WorkflowState, from: string, seqNo: u64, msgType: string, payloadHash: string)
      returns (answer: Answer)
      requires Valid()
      modifies this
      ensures Valid() && ops == old(ops) + [RecordStep(escrow, state, from, seqNo, msgType, payloadHash)]
      ensures answer == Call(old(View()), RecordStep(escrow, state, from, seqNo, msgType, payloadHash), sha3).1
      ensures var x := NormalizeStep(RecordStep(escrow, state, from, seqNo, msgType, payloadHash));
              && StepEffect(old(View()), View(), x, answer, sha3)
              && (Injective(sha3) && x.Some? && StepObstacle(old(View()), x.value).None? ==>
                    AnswersFromHistory(dbs, ops, sha3, |old(ops)|, x.value, answer))
    {
      assert |dbs| == |ops| + 1;
      hide NormalizeStep, StepObstacle, Entered, Call, AnswersFromHistory, Injective, Run, StepEffect;
      var op := RecordStep(escrow, state, from, seqNo, msgType, payloadHash);
      CallIsItsFunction(View(), op, sha3);
      StepMeans(View(), op, sha3);
      ghost var before := View();
      var input := NormalizeStep(op);
      if input.None? {
        answer := Refused(InvalidInput);
      } else {
        answer := Enter(input.value);
      }
      assert (View(), answer) == Call(before, op, sha3);
      Log(op);
      if Injective(sha3) && input.Some? && StepObstacle(before, input.value).None? {
        StepAnswer(dbs, ops, sha3, |old(ops)|, input.value);
      }
    }

    /** The checks, then the look-up of the key, then the insert. */
    method Enter(x: StepInput) returns (answer: Answer)
      modifies `steps, `deadLetters
      ensures (View(), answer) == Entered(old(View()), x, sha3)
    {
      hide StepObstacle, StepKey, Lower, ConflictLetter;
      var obstacle := StepObstacle(View(), x);
      if obstacle.Some? {
        return Refused(obstacle.value);
      }
      var key := StepKey(x, sha3);
      if key in steps {
        if Lower(steps[key].payloadHash) == Lower(x.payloadHash) {
          return Repeat;
        }
        deadLetters := deadLetters + [ConflictLetter(x)];
        return Refused(IdempotencyConflict);
      }
      steps := steps[key := StepRow(x.escrow, x.state, x.from, ClampToI64(x.seqNo), x.msgType, x.payloadHash)];
      return Done;
    }

    // ---- outbox ----

    /** A message that passes the checks and cannot be mistaken is a repeat if and only if it is stored already. */
    method Enqueue(escrow: string, state: WorkflowState, to: string, msgType: string, json: string)
      returns (answer: Answer)
      requires Valid()
      modifies this
      ensures Valid() && ops == old(ops) + [EnqueueOutbox(escrow, state, to, msgType, json)]
      ensures answer == Call(old(View()), EnqueueOutbox(escrow, state, to, msgType, json), sha3).1
      ensures var x := NormalizeOutbox(EnqueueOutbox(escrow, state, to, msgType, json));
              EnqueueEffect(old(View()), View(), x, answer, sha3) && AnswersExactly(old(View()), x, answer, sha3)
    {
      assert |dbs| == |ops| + 1;
      hide NormalizeOutbox, Appended, Call, Run, EnqueueEffect, AnswersExactly;
      var op := EnqueueOutbox(escrow, state, to, msgType, json);
      CallIsItsFunction(View(), op, sha3);
      EnqueueMeans(View(), op, sha3);
      EnqueueAnswersExactly(dbs, ops, sha3, op);
      ghost var before := View();
      var input := NormalizeOutbox(op);
      if input.None? {
        answer := Refused(InvalidInput);
      } else {
        answer := Append(input.value);
      }
      assert (View(), answer) == Call(before, op, sha3);
      Log(op);
    }

    /** The checks, then the look-up of the key, then the insert. */
    method Append(x: OutboxInput) returns (answer: Answer)
      modifies `outbox
      ensures (View(), answer) == Appended(old(View()), x, sha3)
    {
      hide OutboxObstacle, OutboxKey;
      var obstacle := OutboxObstacle(View(), x);
      if obstacle.Some? {
        return Refused(obstacle.value);
      }
      var key := OutboxKey(x, sha3);
      if HasIdemKey(outbox, key) {
        return Repeat;
      }
      outbox := outbox + [OutboxRow(x.escrow, x.state, x.to, x.msgType, x.json, key, PendingSend, 0)];
      return Done;
    }

    /** Granted exactly on a pending or sent row, which becomes sent; attempts are the sends and retries so far. */
    method MarkOutboxSent(id: int) returns (answer: Answer)
      requires Valid()
      modifies this
      ensures Valid() && ops == old(ops) + [MarkSent(id)]
      ensures answer == Call(old(View()), MarkSent(id), sha3).1
      ensures answer == Done <==> IsOpen(old(View()), id)
      ensures answer == Done ==> |outbox| == |old(outbox)| && outbox[id - 1].status == Sent && OnlyMarked(old(outbox), outbox, id - 1)
      ensures answer == Done ==> outbox[id - 1].attempts == Sends(dbs, ops, sha3, id, |ops|) + Retries(dbs, ops, sha3, id, |ops|)
      ensures View() == old(View()).(outbox := outbox) && (answer != Done ==> View() == old(View()))
    {
      assert |dbs| == |ops| + 1;
      hide Call, Run, Sends, Retries;
      CallIsItsFunction(View(), MarkSent(id), sha3);
      if id <= 0 {
        answer := Refused(InvalidInput);
      } else if id > |outbox| || Terminal(outbox[id - 1].status) {
        answer := Refused(OutboxRowUnavailable);
      } else {
        outbox := outbox[id - 1 := outbox[id - 1].(status := Sent, attempts := outbox[id - 1].attempts + 1)];
        answer := Done;
      }
      Log(MarkSent(id));
      if answer == Done {
        AttemptsAreSendsPlusRetries(dbs, ops, sha3, id, |ops|);
      }
    }

    /** Granted exactly on a pending or sent row, which becomes acked. */
    method MarkOutboxAcked(id: int) returns (answer: Answer)
      requires Valid()
      modifies this
      ensures Valid() && ops == old(ops) + [MarkAcked(id)]
      ensures answer == Call(old(View()), MarkAcked(id), sha3).1
      ensures answer == Done <==> IsOpen(old(View()), id)
      ensures answer == Done ==> |outbox| == |old(outbox)| && outbox[id - 1].status == Acked && OnlyMarked(old(outbox), outbox, id - 1)
      ensures answer == Done ==> outbox[id - 1].attempts == old(outbox)[id - 1].attempts
      ensures View() == old(View()).(outbox := outbox) && (answer != Done ==> View() == old(View()))
    {
      assert |dbs| == |ops| + 1;
      hide Call, Run;
      CallIsItsFunction(View(), MarkAcked(id), sha3);
      if id <= 0 {
        answer := Refused(InvalidInput);
      } else if id > |outbox| || Terminal(outbox[id - 1].status) {
        answer := Refused(OutboxRowUnavailable);
      } else {
        outbox := outbox[id - 1 := outbox[id - 1].(status := Acked)];
        answer := Done;
      }
      Log(MarkAcked(id));
    }

    /** Granted exactly on a pending or sent row with a reason; the row is buried, with one record that describes it,
        exactly when its attempts reach the threshold, and is pending otherwise. */
    method MarkOutboxRetry(id: int, code: string, detail: string, deadLetterAfter: u32) returns (answer: Answer)
      requires Valid()
      modifies this
      ensures Valid() && ops == old(ops) + [MarkRetry(id, code, detail, deadLetterAfter)]
      ensures answer == Call(old(View()), MarkRetry(id, code, detail, deadLetterAfter), sha3).1
      ensures answer == Done <==>
              IsOpen(old(View()), id) && NormalizeNonEmpty(code).Some? && NormalizeNonEmpty(detail).Some?
      ensures answer == Done ==> |outbox| == |old(outbox)| && RetryEffect(old(View()), View(), id, code, detail, deadLetterAfter, sha3)
      ensures answer == Done ==> outbox[id - 1].attempts == Sends(dbs, ops, sha3, id, |ops|) + Retries(dbs, ops, sha3, id, |ops|)
      ensures View() == old(View()).(outbox := outbox, deadLetters := deadLetters) && (answer != Done ==> View() == old(View()))
    {
      assert |dbs| == |ops| + 1;
      hide Call, Run, Sends, Retries, NormalizeNonEmpty, RetryEffect, Retried, FiledLetters, Trim, Marks;
      var op := MarkRetry(id, code, detail, deadLetterAfter);
      CallIsItsFunction(View(), op, sha3);
      RetryMeans(View(), op, sha3);
      var c := NormalizeNonEmpty(code);
      var d := NormalizeNonEmpty(detail);
      if id <= 0 || c.None? || d.None? {
        answer := Refused(InvalidInput);
      } else if id > |outbox| || Terminal(outbox[id - 1].status) {
        answer := Refused(OutboxRowUnavailable);
      } else {
        var row := outbox[id - 1];
        outbox := outbox[id - 1 := Retried(row, op)];
        deadLetters := deadLetters + FiledLetters(row, op, sha3);
        answer := Done;
      }
      Log(op);
      if answer == Done {
        AttemptsAreSendsPlusRetries(dbs, ops, sha3, id, |ops|);
      }
    }

    // ---- proposals, admissions, proofs ----

    /** Granted exactly for a well-formed release or refund in a proposing state; the escrow has then this one
        proposal. */
    method UpsertProposalBlob(escrow: string, action: string, txData: string, txset: string) returns (answer: Answer)
      requires Valid()
      modifies this
      ensures Valid() && ops == old(ops) + [UpsertProposal(escrow, action, txData, txset)]
      ensures answer == Call(old(View()), UpsertProposal(escrow, action, txData, txset), sha3).1
      ensures ProposalEffect(old(View()), View(), escrow, action, txData, txset, answer)
    {
      assert |dbs| == |ops| + 1;
      hide DoUpsertProposal, Call, Run, ProposalEffect;
      ghost var op := UpsertProposal(escrow, action, txData, txset);
      CallIsItsFunction(View(), op, sha3);
      ProposalMeans(View(), escrow, action, txData, txset, sha3);
      answer := StoreProposal(escrow, action, txData, txset);
      Log(op);
    }

    method StoreProposal(escrow: string, action: string, txData: string, txset: string) returns (answer: Answer)
      modifies `proposals
      ensures (View(), answer) == DoUpsertProposal(old(View()), UpsertProposal(escrow, action, txData, txset))
    {
      hide NormalizeHex, NormalizeAction, NormalizeEvenHex, Trim, Lower, AllHex, IsLowerHex;
      var e := NormalizeHex(escrow, 32);
      var a := NormalizeAction(action);
      var d := NormalizeEvenHex(txData);
      var t := NormalizeHex(txset, 64);
      if e.None? || a.None? || d.None? || t.None? {
        return Refused(InvalidInput);
      }
      if e.value !in workflows {
        return Refused(WorkflowNotFound);
      }
      var s := workflows[e.value].state;
      if s != Funded && s != TxSignPending && s != TxSignedQuorum {
        return Refused(StatePrecondition);
      }
      proposals := proposals[e.value := Proposal(a.value, d.value, t.value)];
      return Done;
    }

    /** Granted exactly for an artifact of the workflow's own snapshot; the escrow has then this one artifact. */
    method UpsertAdmissionArtifact(escrow: string, row: Admission) returns (answer: Answer)
      requires Valid()
      modifies this
      ensures Valid() && ops == old(ops) + [UpsertAdmission(escrow, row)]
      ensures answer == Call(old(View()), UpsertAdmission(escrow, row), sha3).1
      ensures AdmissionEffect(old(View()), View(), escrow, row, answer)
    {
      assert |dbs| == |ops| + 1;
      hide DoUpsertAdmission, Call, Run, AdmissionEffect;
      ghost var op := UpsertAdmission(escrow, row);
      CallIsItsFunction(View(), op, sha3);
      AdmissionMeans(View(), escrow, row, sha3);
      answer := StoreAdmission(escrow, row);
      Log(op);
    }

    method StoreAdmission(escrow: string, row: Admission) returns (answer: Answer)
      modifies `admissions
      ensures (View(), answer) == DoUpsertAdmission(old(View()), UpsertAdmission(escrow, row))
    {
      hide NormalizeHex, NormalizeAction, Trim, Lower, AllHex, IsLowerHex;
      var e := NormalizeHex(escrow, 32);
      var s := NormalizeHex(row.snapshotHash, 64);
      var a := NormalizeAction(row.action);
      if e.None? || s.None? || a.None? {
        return Refused(InvalidInput);
      }
      if e.value !in workflows {
        return Refused(WorkflowNotFound);
      }
      if workflows[e.value].snapshotHash != s.value {
        return Refused(SnapshotMismatch);
      }
      admissions := admissions[e.value := row.(snapshotHash := s.value, action := a.value)];
      return Done;
    }

    /** Granted exactly in a signing state for a request id no other proof has; all proofs are then well formed and
        no two share a request id. */
    method UpsertQuorumSignProof(escrow: string, role: string, round: string, txset: string, jti: string, reqId: string)
      returns (answer: Answer)
      requires Valid()
      modifies this
      ensures Valid() && ops == old(ops) + [UpsertProof(escrow, role, round, txset, jti, reqId)]
      ensures answer == Call(old(View()), UpsertProof(escrow, role, round, txset, jti, reqId), sha3).1
      ensures ProofEffect(old(View()), View(), UpsertProof(escrow, role, round, txset, jti, reqId), answer)
      ensures Sound(proofs)
    {
      assert |dbs| == |ops| + 1;
      hide DoUpsertProof, Call, Run, Sound, ProofEffect;
      var op := UpsertProof(escrow, role, round, txset, jti, reqId);
      CallIsItsFunction(View(), op, sha3);
      ProofMeans(View(), op, sha3);
      answer := StoreProof(op);
      Log(op);
      ProofsAreSound(dbs, ops, sha3, |ops|);
    }

    method StoreProof(op: Op) returns (answer: Answer)
      requires op.UpsertProof?
      modifies `proofs
      ensures (View(), answer) == DoUpsertProof(old(View()), op)
    {
      hide NormalizeProof, AllowsSigning, FoldedProof, WellFormedProof;
      var input := NormalizeProof(op);
      if input.None? {
        return Refused(InvalidInput);
      }
      var (key, proof) := input.value;
      if key.escrow !in workflows {
        return Refused(WorkflowNotFound);
      }
      if !AllowsSigning(workflows[key.escrow].state) {
        return Refused(StatePrecondition);
      }
      if ReqIdInUse(proofs, key, proof.reqId) {
        return Refused(ReqIdTaken);
      }
      proofs := proofs[key := proof];
      return Done;
    }
  }
}
