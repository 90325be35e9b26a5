/** Why the orchestrator refuses a call: every refusal has the reason it names, and every call with a reason against it
    is refused. */
module Refusals {
  import opened Wrappers
  import opened MachineInts
  import opened Text
  import opened Workflow
  import opened Keys
  import opened Orchestrator
  import opened Upserts

  ghost predicate GoodParticipants(ps: seq<string>) {
    && ps != [] && (forall i :: 0 <= i < |ps| ==> HasNonBlank(ps[i]))
    && forall i, j :: 0 <= i < j < |ps| ==> Trim(ps[i]) != Trim(ps[j])
  }

  /** A state is the workflow's own or one it may move to. */
  ghost predicate Near(current: WorkflowState, s: WorkflowState) {
    || current == s || (s != FailedDeadLetter && Rank(s) == Rank(current) + 1)
    || (s == FailedDeadLetter && Rank(current) < Rank(Confirmed))
  }

  /** Reasons against a step or message of `party` about state `s`. */
  ghost predicate MessageReason(db: Db, id: string, party: string, s: WorkflowState, msgType: string, e: Error) {
    match e
    case WorkflowNotFound => id !in db.workflows
    case NotAllowlisted => id in db.workflows && party !in db.workflows[id].participants
    case StatePrecondition => id in db.workflows && !Near(db.workflows[id].state, s)
    case UnexpectedMsgType => ExpectedMsgType(s).Some? && ExpectedMsgType(s).value != msgType
    case _ => false
  }

  ghost predicate MarkReason(db: Db, id: int, e: Error) {
    match e
    case InvalidInput => id < 1
    case OutboxRowUnavailable => id > |db.outbox| || (1 <= id && db.outbox[id - 1].status in {Acked, DeadLettered})
    case _ => false
  }

  ghost predicate CreateReason(db: Db, escrow: string, snapshotHash: string, ps: seq<string>, e: Error) {
    match e
    case InvalidInput =>
      !(IsLowerHex(Folded(escrow), 32) && IsLowerHex(Folded(snapshotHash), 64) && GoodParticipants(ps))
    case WorkflowExists => Folded(escrow) in db.workflows
    case _ => false
  }

  ghost predicate MoveReason(db: Db, escrow: string, s: WorkflowState, e: Error) {
    var id := Folded(escrow);
    match e
    case InvalidInput => !IsLowerHex(id, 32)
    case WorkflowNotFound => id !in db.workflows
    case InvalidTransition => id in db.workflows && (db.workflows[id].state == s || !Near(db.workflows[id].state, s))
    case _ => false
  }

  ghost predicate StepReason(db: Db, op: Op, sha3: string -> string, e: Error)
    requires op.RecordStep?
  {
    var id, payload := Folded(op.escrow), Folded(op.payloadHash);
    var key := sha3(StepMaterial(id, op.state, Trim(op.from), op.seqNo));
    match e
    case InvalidInput =>
      !(IsLowerHex(id, 32) && HasNonBlank(op.from) && HasNonBlank(op.msgType) && IsLowerHex(payload, 64))
    case IdempotencyConflict => key in db.steps && Lower(db.steps[key].payloadHash) != payload
    case _ => MessageReason(db, id, Trim(op.from), op.state, Trim(op.msgType), e)
  }

  ghost predicate EnqueueReason(db: Db, op: Op, e: Error)
    requires op.EnqueueOutbox?
  {
    match e
    case InvalidInput => !(IsLowerHex(Folded(op.escrow), 32) && HasNonBlank(op.to) && HasNonBlank(op.msgType))
    case _ => MessageReason(db, Folded(op.escrow), Trim(op.to), op.state, Trim(op.msgType), e)
  }

  ghost predicate ProposalReason(db: Db, op: Op, e: Error)
    requires op.UpsertProposal?
  {
    var id := Folded(op.escrow);
    match e
    case InvalidInput => !GoodProposal(id, Folded(op.action), Folded(op.txData), Folded(op.txset))
    case WorkflowNotFound => id !in db.workflows
    case StatePrecondition => id in db.workflows && !(Rank(Funded) <= Rank(db.workflows[id].state) <= Rank(TxSignedQuorum))
    case _ => false
  }

  ghost predicate AdmissionReason(db: Db, escrow: string, row: Admission, e: Error) {
    var id, s, a := Folded(escrow), Folded(row.snapshotHash), Folded(row.action);
    match e
    case InvalidInput => !(IsLowerHex(id, 32) && IsLowerHex(s, 64) && (a == "release" || a == "refund"))
    case WorkflowNotFound => id !in db.workflows
    case SnapshotMismatch => id in db.workflows && db.workflows[id].snapshotHash != s
    case _ => false
  }

  ghost predicate ProofReason(db: Db, op: Op, e: Error)
    requires op.UpsertProof?
  {
    var (key, proof) := FoldedProof(op);
    match e
    case InvalidInput => !WellFormedProof(key, proof)
    case WorkflowNotFound => key.escrow !in db.workflows
    case StatePrecondition =>
      key.escrow in db.workflows && !(Rank(Funded) <= Rank(db.workflows[key.escrow].state) <= Rank(Submitted))
    case ReqIdTaken => exists k :: k in db.proofs && k != key && db.proofs[k].reqId == proof.reqId
    case _ => false
  }

  /** `e` is a reason against the call. */
  ghost predicate Reason(db: Db, op: Op, sha3: string -> string, e: Error) {
    match op
    case CreateWorkflow(escrow, snapshotHash, ps) => CreateReason(db, escrow, snapshotHash, ps, e)
    case TransitionTo(escrow, s) => MoveReason(db, escrow, s, e)
    case RecordStep(_, _, _, _, _, _) => StepReason(db, op, sha3, e)
    case EnqueueOutbox(_, _, _, _, _) => EnqueueReason(db, op, e)
    case MarkSent(id) => MarkReason(db, id, e)
    case MarkAcked(id) => MarkReason(db, id, e)
    case MarkRetry(id, code, detail, _) =>
      MarkReason(db, id, e) || (e == InvalidInput && !(HasNonBlank(code) && HasNonBlank(detail)))
    case AddDeadLetter(escrow, _) => e == InvalidInput && !IsLowerHex(Folded(escrow), 32)
    case UpsertProposal(_, _, _, _) => ProposalReason(db, op, e)
    case UpsertAdmission(escrow, row) => AdmissionReason(db, escrow, row, e)
    case UpsertProof(_, _, _, _, _, _) => ProofReason(db, op, e)
  }

  /** The call is refused exactly if there is a reason against it, and the reason it names is one. */
  ghost predicate Reasoned(db: Db, op: Op, sha3: string -> string) {
    var answer := Call(db, op, sha3).1;
    && (answer.Refused? ==> Reason(db, op, sha3, answer.error))
    && (forall e :: Reason(db, op, sha3, e) ==> answer.Refused?)
  }

  lemma NearIff(current: WorkflowState, s: WorkflowState)
    ensures StateAllows(current, s) <==> Near(current, s)
    ensures CanTransition(current, s) <==> current != s && Near(current, s)
  {
    hide CanTransition;
    TransitionIffNextRank(current, s);
  }

  lemma CreateReasoned(db: Db, op: Op, sha3: string -> string)
    requires op.CreateWorkflow?
    ensures Reasoned(db, op, sha3)
  {
    hide Trim, Lower, AllHex, IsLowerHex, NormalizeHex, NormalizeParticipants, GoodParticipants, Call;
    CallIsItsFunction(db, op, sha3);
    FoldedHex(op.escrow, 32);
    FoldedHex(op.snapshotHash, 64);
    ParticipantsIff(op.participants);
  }

  lemma ParticipantsIff(ps: seq<string>)
    ensures GoodParticipants(ps) <==> ps != [] && NormalizeParticipants(ps).Some?
  {
    hide Trim, NormalizeParticipants, HasNonBlank;
    forall i | 0 <= i < |ps| ensures HasNonBlank(ps[i]) <==> Trim(ps[i]) != [] {
      TrimLeavesIff(ps[i]);
    }
    if NormalizeParticipants(ps).None? {
      ParticipantsRefused(ps);
    } else {
      var r := NormalizeParticipants(ps).value;
      assert forall i :: 0 <= i < |ps| ==> NormalizeNonEmpty(ps[i]) == Some(r[i]);
    }
  }

  lemma MoveReasoned(db: Db, op: Op, sha3: string -> string)
    requires op.TransitionTo?
    ensures Reasoned(db, op, sha3)
  {
    hide Trim, Lower, AllHex, IsLowerHex, NormalizeHex, CanTransition, Rank, Call;
    CallIsItsFunction(db, op, sha3);
    FoldedHex(op.escrow, 32);
    if Folded(op.escrow) in db.workflows {
      NearIff(db.workflows[Folded(op.escrow)].state, op.state);
    }
  }

  lemma StepReasoned(db: Db, op: Op, sha3: string -> string)
    requires op.RecordStep?
    ensures Reasoned(db, op, sha3)
  {
    hide Trim, Lower, AllHex, IsLowerHex, NormalizeHex, NormalizeStep, StepMaterial, Near, StateAllows, HasNonBlank, Call;
    StepAsGiven(op);
    CallIsItsFunction(db, op, sha3);
    FoldedHex(op.escrow, 32);
    FoldedHex(op.payloadHash, 64);
    TrimLeavesIff(op.from);
    TrimLeavesIff(op.msgType);
    FoldedTwice(op.payloadHash);
    if Folded(op.escrow) in db.workflows {
      NearIff(db.workflows[Folded(op.escrow)].state, op.state);
    }
  }

  lemma FoldedTwice(s: string)
    ensures Lower(Folded(s)) == Folded(s)
  {
    hide Trim;
  }

  lemma EnqueueReasoned(db: Db, op: Op, sha3: string -> string)
    requires op.EnqueueOutbox?
    ensures Reasoned(db, op, sha3)
  {
    hide Trim, Lower, AllHex, IsLowerHex, NormalizeHex, NormalizeOutbox, OutboxKey, HasIdemKey, Near, StateAllows, HasNonBlank;
    hide Call;
    OutboxAsGiven(op);
    CallIsItsFunction(db, op, sha3);
    FoldedHex(op.escrow, 32);
    TrimLeavesIff(op.to);
    TrimLeavesIff(op.msgType);
    if Folded(op.escrow) in db.workflows {
      NearIff(db.workflows[Folded(op.escrow)].state, op.state);
    }
  }

  lemma MarkReasoned(db: Db, op: Op, sha3: string -> string)
    requires op.MarkSent? || op.MarkAcked? || op.MarkRetry?
    ensures Reasoned(db, op, sha3)
  {
    hide Trim, HasNonBlank, Retried, FiledLetters, Call;
    CallIsItsFunction(db, op, sha3);
    if op.MarkRetry? {
      TrimLeavesIff(op.code);
      TrimLeavesIff(op.detail);
    }
  }

  lemma ProposalReasoned(db: Db, op: Op, sha3: string -> string)
    requires op.UpsertProposal?
    ensures Reasoned(db, op, sha3)
  {
    hide Trim, Lower, AllHex, IsLowerHex, NormalizeHex, NormalizeAction, NormalizeEvenHex, GoodProposal, Call;
    CallIsItsFunction(db, op, sha3);
    ProposalInput(op.escrow, op.action, op.txData, op.txset);
  }

  lemma AdmissionReasoned(db: Db, op: Op, sha3: string -> string)
    requires op.UpsertAdmission?
    ensures Reasoned(db, op, sha3)
  {
    hide Trim, Lower, AllHex, IsLowerHex, NormalizeHex, NormalizeAction, Call;
    CallIsItsFunction(db, op, sha3);
    FoldedHex(op.escrow, 32);
    FoldedHex(op.row.snapshotHash, 64);
  }

  lemma ProofReasoned(db: Db, op: Op, sha3: string -> string)
    requires op.UpsertProof?
    ensures Reasoned(db, op, sha3)
  {
    hide NormalizeProof, WellFormedProof, FoldedProof, AllowsSigning, Rank, Call;
    CallIsItsFunction(db, op, sha3);
    ProofIff(op);
    var e := FoldedProof(op).0.escrow;
    if e in db.workflows {
      SigningIffRank(db.workflows[e].state);
    }
  }

  /** Every call of the database is refused exactly if there is a reason against it, and names one. */
  lemma RefusedForAReason(db: Db, op: Op, sha3: string -> string)
    ensures Reasoned(db, op, sha3)
  {
    hide Reasoned;
    match op
    case CreateWorkflow(_, _, _) => CreateReasoned(db, op, sha3);
    case TransitionTo(_, _) => MoveReasoned(db, op, sha3);
    case RecordStep(_, _, _, _, _, _) => StepReasoned(db, op, sha3);
    case EnqueueOutbox(_, _, _, _, _) => EnqueueReasoned(db, op, sha3);
    case AddDeadLetter(_, _) => LetterReasoned(db, op, sha3);
    case UpsertProposal(_, _, _, _) => ProposalReasoned(db, op, sha3);
    case UpsertAdmission(_, _) => AdmissionReasoned(db, op, sha3);
    case UpsertProof(_, _, _, _, _, _) => ProofReasoned(db, op, sha3);
    case _ => MarkReasoned(db, op, sha3);
  }

  lemma LetterReasoned(db: Db, op: Op, sha3: string -> string)
    requires op.AddDeadLetter?
    ensures Reasoned(db, op, sha3)
  {
    hide Trim, Lower, AllHex, IsLowerHex, NormalizeHex, Call;
    CallIsItsFunction(db, op, sha3);
    FoldedHex(op.escrow, 32);
  }
}
