/** The orchestrator's database: workflows, step log, outbox, dead letters, proposals, admissions and
    quorum proofs. Each call is one transaction on the tables as a value. */
module Orchestrator {
  import opened Wrappers
  import opened MachineInts
  import opened Text
  import opened Workflow
  import opened Keys

  datatype Instance = Instance(state: WorkflowState, snapshotHash: string, participants: seq<string>)

  datatype StepRow = StepRow(
    escrow: string, state: WorkflowState, from: string, seqNo: i64, msgType: string, payloadHash: string)

  datatype OutboxStatus = PendingSend | Sent | Acked | DeadLettered

  datatype OutboxRow = OutboxRow(
    escrow: string, state: WorkflowState, to: string, msgType: string, json: string, idemKey: string,
    status: OutboxStatus, attempts: nat)

  datatype DeadLetter = DeadLetter(
    escrow: string, stage: string, code: string, detail: string, attempts: u32, payloadHash: Option<string>)

  datatype Proposal = Proposal(action: string, txData: string, txset: string)

  datatype Admission = Admission(
    snapshotHash: string, action: string, trustEpoch: string, artifactHash: string, artifactJson: string)

  datatype ProofKey = ProofKey(escrow: string, role: string, round: string, txset: string)

  datatype Proof = Proof(jti: string, reqId: string)

  /** Outbox row `id` is `outbox[id - 1]`; rows are never deleted. */
  datatype Db = Db(
    workflows: map<string, Instance>, steps: map<string, StepRow>, outbox: seq<OutboxRow>,
    deadLetters: seq<DeadLetter>, proposals: map<string, Proposal>, admissions: map<string, Admission>,
    proofs: map<ProofKey, Proof>)

  const Empty: Db := Db(map[], map[], [], [], map[], map[], map[])

  datatype Op =
    | CreateWorkflow(escrow: string, snapshotHash: string, participants: seq<string>)
    | TransitionTo(escrow: string, state: WorkflowState)
    | RecordStep(escrow: string, state: WorkflowState, from: string, seqNo: u64, msgType: string, payloadHash: string)
    | EnqueueOutbox(escrow: string, state: WorkflowState, to: string, msgType: string, json: string)
    | MarkSent(id: int)
    | MarkAcked(id: int)
    | MarkRetry(id: int, code: string, detail: string, deadLetterAfter: u32)
    | AddDeadLetter(escrow: string, letter: DeadLetter)
    | UpsertProposal(escrow: string, action: string, txData: string, txset: string)
    | UpsertAdmission(escrow: string, row: Admission)
    | UpsertProof(escrow: string, role: string, round: string, txset: string, jti: string, reqId: string)

  datatype Error =
    | InvalidInput | WorkflowExists | WorkflowNotFound | InvalidTransition | NotAllowlisted | StatePrecondition
    | UnexpectedMsgType | IdempotencyConflict | OutboxRowUnavailable | SnapshotMismatch | ReqIdTaken

  /** `Repeat` is the answer to a step or an outbox message that is already recorded. */
  datatype Answer = Done | Repeat | Refused(error: Error)

  // ---- normalised inputs ----

  function NormalizeParticipants(ps: seq<string>): (r: Option<seq<string>>)
    ensures r.Some? ==> |r.value| == |ps| && forall i, j :: 0 <= i < j < |ps| ==> r.value[i] != r.value[j]
    ensures r.Some? ==> forall i :: 0 <= i < |ps| ==> NormalizeNonEmpty(ps[i]) == Some(r.value[i])
  {
    if ps == [] then Some([])
    else
      var init :- NormalizeParticipants(ps[..|ps| - 1]);
      var last :- NormalizeNonEmpty(ps[|ps| - 1]);
      if last in init then None else Some(init + [last])
  }

  /** A list is refused only for a blank name or a repeated one. */
  lemma {:induction false} ParticipantsRefused(ps: seq<string>)
    requires NormalizeParticipants(ps).None?
    ensures (exists i :: 0 <= i < |ps| && Trim(ps[i]) == []) || exists i, j :: 0 <= i < j < |ps| && Trim(ps[i]) == Trim(ps[j])
  {
    hide Trim;
    var init := ps[..|ps| - 1];
    if NormalizeParticipants(init).None? {
      ParticipantsRefused(init);
      if i, j :| 0 <= i < j < |init| && Trim(init[i]) == Trim(init[j]) {
        assert Trim(ps[i]) == Trim(ps[j]);
      } else {
        var i :| 0 <= i < |init| && Trim(init[i]) == [];
        assert Trim(ps[i]) == [];
      }
    } else {
      var out, last := NormalizeParticipants(init).value, Trim(ps[|ps| - 1]);
      if last in out {
        var i :| 0 <= i < |out| && out[i] == last;
        assert Trim(init[i]) == out[i] && init[i] == ps[i];
      }
    }
  }

  function NormalizeAction(value: string): (r: Option<string>)
    ensures r.Some? ==> r.value == Lower(Trim(value))
    ensures r.Some? <==> Lower(Trim(value)) == "release" || Lower(Trim(value)) == "refund"
  {
    var a := Lower(Trim(value));
    if a == "release" || a == "refund" then Some(a) else None
  }

  function NormalizeRole(value: string): (r: Option<string>)
    ensures r.Some? ==> r.value == Lower(Trim(value))
    ensures r.Some? <==> RoundOfRole(Lower(Trim(value))).Some?
  {
    var a := Lower(Trim(value));
    if a == "buyer" || a == "seller" || a == "arbiter" then Some(a) else None
  }

  /** The round in which a role's signature counts towards the quorum. */
  function RoundOfRole(role: string): Option<string> {
    if role == "arbiter" then Some("arbiter_first")
    else if role == "seller" then Some("seller_second")
    else if role == "buyer" then Some("buyer_second")
    else None
  }

  function NormalizeRound(role: string, round: string): (r: Option<string>)
    ensures r.Some? ==> r == RoundOfRole(role) && r.value == Lower(Trim(round))
    ensures r.Some? <==> RoundOfRole(role) == Some(Lower(Trim(round)))
  {
    var a := Lower(Trim(round));
    if a == [] || RoundOfRole(role) != Some(a) then None else Some(a)
  }

  function NormalizeJti(value: string): (r: Option<string>)
    ensures r.Some? ==> IsBounded(r.value, 256) && r.value == Trim(value)
    ensures r.Some? <==> IsBounded(Trim(value), 256)
  {
    var v :- NormalizeNonEmpty(value);
    if Utf8Len(v) > 256 then None else Some(v)
  }

  function NormalizeEvenHex(value: string): (r: Option<string>)
    ensures r.Some? ==> r.value == Lower(Trim(value))
    ensures r.Some? <==> Trim(value) != [] && |Trim(value)| % 2 == 0 && AllHex(Trim(value))
  {
    var t := Trim(value);
    if t == [] || Utf8Len(t) % 2 != 0 || !AllHex(t) then None else Some(Lower(t))
  }

  /** A step or outbox message is for the current state or for one that can come next. */
  predicate StateAllows(current: WorkflowState, s: WorkflowState) {
    current == s || CanTransition(current, s)
  }

  predicate MsgTypeFits(s: WorkflowState, msgType: string) {
    ExpectedMsgType(s).Some? ==> ExpectedMsgType(s).value == msgType
  }

  /** States in which signatures count: proofs are stored, bundles read and tokens issued. */
  predicate AllowsSigning(s: WorkflowState) {
    s == Funded || s == TxSignPending || s == TxSignedQuorum || s == Submitted
  }

  /** Signatures count from funding to submission. */
  lemma SigningIffRank(s: WorkflowState)
    ensures AllowsSigning(s) <==> Rank(Funded) <= Rank(s) <= Rank(Submitted)
  {
  }

  // ---- workflows ----

  function DoCreate(db: Db, op: Op): (r: (Db, Answer))
    requires op.CreateWorkflow?
    ensures r.0 == db.(workflows := r.0.workflows)
    ensures r.1.Refused? ==> r.0 == db && r.1.error != IdempotencyConflict
    ensures forall e :: e in db.workflows ==> e in r.0.workflows && r.0.workflows[e] == db.workflows[e]
    ensures forall e :: e in r.0.workflows && e !in db.workflows ==>
                          && r.0.workflows[e].state == New
                          && forall p :: p in r.0.workflows[e].participants ==> NormalizeNonEmpty(p) == Some(p)
  {
    var e, s, ps := NormalizeHex(op.escrow, 32), NormalizeHex(op.snapshotHash, 64), NormalizeParticipants(op.participants);
    if e.None? || s.None? || op.participants == [] || ps.None? then (db, Refused(InvalidInput))
    else if e.value in db.workflows then (db, Refused(WorkflowExists))
    else (db.(workflows := db.workflows[e.value := Instance(New, s.value, ps.value)]), Done)
  }

  function DoTransition(db: Db, op: Op): (r: (Db, Answer))
    requires op.TransitionTo?
    ensures r.0 == db.(workflows := r.0.workflows)
    ensures r.1.Refused? ==> r.0 == db && r.1.error != IdempotencyConflict
    ensures r.0.workflows.Keys == db.workflows.Keys
    ensures forall e :: e in db.workflows ==>
                          && r.0.workflows[e] == db.workflows[e].(state := r.0.workflows[e].state)
                          && StateAllows(db.workflows[e].state, r.0.workflows[e].state)
  {
    var e := NormalizeHex(op.escrow, 32);
    if e.None? then (db, Refused(InvalidInput))
    else if e.value !in db.workflows then (db, Refused(WorkflowNotFound))
    else
      var wf := db.workflows[e.value];
      if !CanTransition(wf.state, op.state) then (db, Refused(InvalidTransition))
      else (db.(workflows := db.workflows[e.value := wf.(state := op.state)]), Done)
  }

  // ---- step log ----

  /** The four fields of the idempotency key and the rest of a step, normalised. */
  datatype StepInput = StepInput(
    escrow: string, state: WorkflowState, from: string, seqNo: u64, msgType: string, payloadHash: string)

  function NormalizeStep(op: Op): (r: Option<StepInput>)
    requires op.RecordStep?
    ensures r.Some? ==> IsLowerHex(r.value.escrow, 32) && IsLowerHex(r.value.payloadHash, 64)
  {
    var e :- NormalizeHex(op.escrow, 32);
    var f :- NormalizeNonEmpty(op.from);
    var m :- NormalizeNonEmpty(op.msgType);
    var p :- NormalizeHex(op.payloadHash, 64);
    Some(StepInput(e, op.state, f, op.seqNo, m, p))
  }

  /** A step is read as given up to case and blanks, unless a part is malformed or blank. */
  lemma StepAsGiven(op: Op)
    requires op.RecordStep?
    ensures NormalizeStep(op) ==
            if NormalizeHex(op.escrow, 32).None? || Trim(op.from) == [] || Trim(op.msgType) == []
               || NormalizeHex(op.payloadHash, 64).None?
            then None
            else Some(StepInput(Lower(Trim(op.escrow)), op.state, Trim(op.from), op.seqNo, Trim(op.msgType),
                                Lower(Trim(op.payloadHash))))
  {
    hide Trim, Lower, AllHex, IsLowerHex, NormalizeHex;
  }

  function StepKey(i: StepInput, sha3: string -> string): string {
    sha3(StepMaterial(i.escrow, i.state, i.from, i.seqNo))
  }

  /** Why a step is refused before the log is consulted. */
  function StepObstacle(db: Db, i: StepInput): (r: Option<Error>)
    ensures r != Some(IdempotencyConflict)
  {
    if i.escrow !in db.workflows then Some(WorkflowNotFound)
    else if i.from !in db.workflows[i.escrow].participants then Some(NotAllowlisted)
    else if !StateAllows(db.workflows[i.escrow].state, i.state) then Some(StatePrecondition)
    else if !MsgTypeFits(i.state, i.msgType) then Some(UnexpectedMsgType)
    else None
  }

  function ConflictLetter(i: StepInput): DeadLetter {
    DeadLetter(i.escrow, "step_record", "idem_payload_conflict",
               "same idempotency key with different payload hash", 1, Some(i.payloadHash))
  }

  function Entered(db: Db, i: StepInput, sha3: string -> string): (r: (Db, Answer))
    ensures r.0 == db.(steps := r.0.steps, deadLetters := r.0.deadLetters)
    ensures r.1.Refused? && r.1.error != IdempotencyConflict ==> r.0 == db
  {
    var obstacle, key := StepObstacle(db, i), StepKey(i, sha3);
    if obstacle.Some? then (db, Refused(obstacle.value))
    else if key in db.steps then
      if Lower(db.steps[key].payloadHash) == Lower(i.payloadHash) then (db, Repeat)
      else (db.(deadLetters := db.deadLetters + [ConflictLetter(i)]), Refused(IdempotencyConflict))
    else
      var row := StepRow(i.escrow, i.state, i.from, ClampToI64(i.seqNo), i.msgType, i.payloadHash);
      (db.(steps := db.steps[key := row]), Done)
  }

  function DoRecordStep(db: Db, op: Op, sha3: string -> string): (r: (Db, Answer))
    requires op.RecordStep?
    ensures r.0 == db.(steps := r.0.steps, deadLetters := r.0.deadLetters)
    ensures r.1.Refused? && r.1.error != IdempotencyConflict ==> r.0 == db
  {
    var input := NormalizeStep(op);
    if input.None? then (db, Refused(InvalidInput)) else Entered(db, input.value, sha3)
  }

  // ---- outbox ----

  predicate HasIdemKey(outbox: seq<OutboxRow>, key: string) {
    exists i :: 0 <= i < |outbox| && outbox[i].idemKey == key
  }

  /** An outbox message, normalised. */
  datatype OutboxInput = OutboxInput(escrow: string, state: WorkflowState, to: string, msgType: string, json: string)

  function NormalizeOutbox(op: Op): (r: Option<OutboxInput>)
    requires op.EnqueueOutbox?
    ensures r.Some? ==> IsLowerHex(r.value.escrow, 32)
    ensures r.Some? ==> NormalizeNonEmpty(r.value.msgType) == Some(r.value.msgType)
  {
    var e :- NormalizeHex(op.escrow, 32);
    var t :- NormalizeNonEmpty(op.to);
    var m :- NormalizeNonEmpty(op.msgType);
    Some(OutboxInput(e, op.state, t, m, op.json))
  }

  /** A message is read as given up to case and blanks, unless a part is malformed or blank. */
  lemma OutboxAsGiven(op: Op)
    requires op.EnqueueOutbox?
    ensures NormalizeOutbox(op) ==
            if NormalizeHex(op.escrow, 32).None? || Trim(op.to) == [] || Trim(op.msgType) == [] then None
            else Some(OutboxInput(Lower(Trim(op.escrow)), op.state, Trim(op.to), Trim(op.msgType), op.json))
  {
    hide Trim, Lower, AllHex, IsLowerHex, NormalizeHex;
  }

  function OutboxKey(i: OutboxInput, sha3: string -> string): string {
    sha3(OutboxMaterial(i.escrow, i.state, i.to, i.msgType, sha3(i.json)))
  }

  /** Why a message is refused before its key is looked up. */
  function OutboxObstacle(db: Db, i: OutboxInput): (r: Option<Error>)
    ensures r != Some(IdempotencyConflict)
  {
    if i.escrow !in db.workflows then Some(WorkflowNotFound)
    else if i.to !in db.workflows[i.escrow].participants then Some(NotAllowlisted)
    else if !StateAllows(db.workflows[i.escrow].state, i.state) then Some(StatePrecondition)
    else if !MsgTypeFits(i.state, i.msgType) then Some(UnexpectedMsgType)
    else None
  }

  function Appended(db: Db, i: OutboxInput, sha3: string -> string): (r: (Db, Answer))
    ensures r.0 == db.(outbox := r.0.outbox)
    ensures r.1.Refused? ==> r.1.error != IdempotencyConflict
    ensures r.1 != Done ==> r.0 == db
    ensures r.1 == Done ==> exists row ::
              r.0.outbox == db.outbox + [row] && row.status == PendingSend && row.attempts == 0
  {
    var obstacle, key := OutboxObstacle(db, i), OutboxKey(i, sha3);
    if obstacle.Some? then (db, Refused(obstacle.value))
    else if HasIdemKey(db.outbox, key) then (db, Repeat)
    else
      var row := OutboxRow(i.escrow, i.state, i.to, i.msgType, i.json, key, PendingSend, 0);
      (db.(outbox := db.outbox + [row]), Done)
  }

  function DoEnqueue(db: Db, op: Op, sha3: string -> string): (r: (Db, Answer))
    requires op.EnqueueOutbox?
    ensures r.0 == db.(outbox := r.0.outbox)
    ensures r.1.Refused? ==> r.1.error != IdempotencyConflict
    ensures r.1 != Done ==> r.0 == db
    ensures r.1 == Done ==> exists row ::
              r.0.outbox == db.outbox + [row] && row.status == PendingSend && row.attempts == 0
  {
    var input := NormalizeOutbox(op);
    if input.None? then (db, Refused(InvalidInput)) else Appended(db, input.value, sha3)
  }

  predicate Terminal(s: OutboxStatus) {
    s == Acked || s == DeadLettered
  }

  /** The row exists and is pending or sent. */
  predicate IsOpen(db: Db, id: int) {
    1 <= id <= |db.outbox| && !Terminal(db.outbox[id - 1].status)
  }

  function DoMarkSent(db: Db, op: Op): (r: (Db, Answer))
    requires op.MarkSent?
    ensures r.0 == db.(outbox := r.0.outbox)
    ensures r.1 != Done ==> r.0 == db && r.1.Refused? && r.1.error != IdempotencyConflict
  {
    if op.id <= 0 then (db, Refused(InvalidInput))
    else if !IsOpen(db, op.id) then (db, Refused(OutboxRowUnavailable))
    else
      var row := db.outbox[op.id - 1];
      (db.(outbox := db.outbox[op.id - 1 := row.(status := Sent, attempts := row.attempts + 1)]), Done)
  }

  function DoMarkAcked(db: Db, op: Op): (r: (Db, Answer))
    requires op.MarkAcked?
    ensures r.0 == db.(outbox := r.0.outbox)
    ensures r.1 != Done ==> r.0 == db && r.1.Refused? && r.1.error != IdempotencyConflict
  {
    if op.id <= 0 then (db, Refused(InvalidInput))
    else if !IsOpen(db, op.id) then (db, Refused(OutboxRowUnavailable))
    else (db.(outbox := db.outbox[op.id - 1 := db.outbox[op.id - 1].(status := Acked)]), Done)
  }

  /** A retry buries the row once its attempts reach the threshold, which is at least 1. */
  predicate Buries(row: OutboxRow, deadLetterAfter: u32) {
    row.attempts + 1 >= Max(deadLetterAfter, 1)
  }

  function Retried(row: OutboxRow, op: Op): OutboxRow
    requires op.MarkRetry?
  {
    row.(status := if Buries(row, op.deadLetterAfter) then DeadLettered else PendingSend, attempts := row.attempts + 1)
  }

  function BurialLetter(row: OutboxRow, code: string, detail: string, sha3: string -> string): DeadLetter {
    DeadLetter(row.escrow, "outbox_delivery", code, detail, Min(row.attempts + 1, U32_MAX), Some(sha3(row.json)))
  }

  /** The dead letters a granted retry files: one if it buries the row. */
  function FiledLetters(row: OutboxRow, op: Op, sha3: string -> string): (letters: seq<DeadLetter>)
    requires op.MarkRetry?
    ensures |letters| <= 1
  {
    var code, detail := NormalizeNonEmpty(op.code), NormalizeNonEmpty(op.detail);
    if Buries(row, op.deadLetterAfter) && code.Some? && detail.Some?
    then [BurialLetter(row, code.value, detail.value, sha3)] else []
  }

  function DoMarkRetry(db: Db, op: Op, sha3: string -> string): (r: (Db, Answer))
    requires op.MarkRetry?
    ensures r.0 == db.(outbox := r.0.outbox, deadLetters := r.0.deadLetters)
    ensures r.1 != Done ==> r.0 == db && r.1.Refused? && r.1.error != IdempotencyConflict
    ensures r.1 == Done ==>
              && NormalizeNonEmpty(op.code).Some? && NormalizeNonEmpty(op.detail).Some? && IsOpen(db, op.id)
              && r.0.outbox == db.outbox[op.id - 1 := Retried(db.outbox[op.id - 1], op)]
              && r.0.deadLetters == db.deadLetters + FiledLetters(db.outbox[op.id - 1], op, sha3)
  {
    if op.id <= 0 || NormalizeNonEmpty(op.code).None? || NormalizeNonEmpty(op.detail).None?
    then (db, Refused(InvalidInput))
    else if !IsOpen(db, op.id) then (db, Refused(OutboxRowUnavailable))
    else
      var row := db.outbox[op.id - 1];
      (db.(outbox := db.outbox[op.id - 1 := Retried(row, op)],
           deadLetters := db.deadLetters + FiledLetters(row, op, sha3)), Done)
  }

  function DoAddDeadLetter(db: Db, op: Op): (r: (Db, Answer))
    requires op.AddDeadLetter?
    ensures r.0 == db.(deadLetters := r.0.deadLetters)
    ensures r.1.Refused? ==> r.0 == db && r.1.error != IdempotencyConflict
  {
    var e := NormalizeHex(op.escrow, 32);
    if e.None? then (db, Refused(InvalidInput))
    else (db.(deadLetters := db.deadLetters + [op.letter.(escrow := e.value)]), Done)
  }

  // ---- proposals, admissions, proofs ----

  function DoUpsertProposal(db: Db, op: Op): (r: (Db, Answer))
    requires op.UpsertProposal?
    ensures r.0 == db.(proposals := r.0.proposals)
    ensures r.1.Refused? ==> r.0 == db && r.1.error != IdempotencyConflict
  {
    var e, a, d, t :=
      NormalizeHex(op.escrow, 32), NormalizeAction(op.action), NormalizeEvenHex(op.txData), NormalizeHex(op.txset, 64);
    if e.None? || a.None? || d.None? || t.None? then (db, Refused(InvalidInput))
    else if e.value !in db.workflows then (db, Refused(WorkflowNotFound))
    else
      var s := db.workflows[e.value].state;
      if !(s == Funded || s == TxSignPending || s == TxSignedQuorum) then (db, Refused(StatePrecondition))
      else (db.(proposals := db.proposals[e.value := Proposal(a.value, d.value, t.value)]), Done)
  }

  function DoUpsertAdmission(db: Db, op: Op): (r: (Db, Answer))
    requires op.UpsertAdmission?
    ensures r.0 == db.(admissions := r.0.admissions)
    ensures r.1.Refused? ==> r.0 == db && r.1.error != IdempotencyConflict
  {
    var e, s, a := NormalizeHex(op.escrow, 32), NormalizeHex(op.row.snapshotHash, 64), NormalizeAction(op.row.action);
    if e.None? || s.None? || a.None? then (db, Refused(InvalidInput))
    else if e.value !in db.workflows then (db, Refused(WorkflowNotFound))
    else if db.workflows[e.value].snapshotHash != s.value then (db, Refused(SnapshotMismatch))
    else (db.(admissions := db.admissions[e.value := op.row.(snapshotHash := s.value, action := a.value)]), Done)
  }

  /** Some other proof already carries the request id. */
  predicate ReqIdInUse(proofs: map<ProofKey, Proof>, key: ProofKey, reqId: string) {
    exists k :: k in proofs && k != key && proofs[k].reqId == reqId
  }

  /** Every field of a stored proof is in normal form and the round is the role's own. */
  predicate WellFormedProof(key: ProofKey, proof: Proof) {
    && IsLowerHex(key.escrow, 32) && IsLowerHex(key.txset, 64) && RoundOfRole(key.role) == Some(key.round)
    && IsBounded(proof.jti, 256) && IsLowerHex(proof.reqId, 64)
  }

  /** The proof as the operator gave it, up to case and blanks. */
  function FoldedProof(op: Op): (ProofKey, Proof)
    requires op.UpsertProof?
  {
    (ProofKey(Lower(Trim(op.escrow)), Lower(Trim(op.role)), Lower(Trim(op.round)), Lower(Trim(op.txset))),
     Proof(Trim(op.jti), Lower(Trim(op.reqId))))
  }

  function NormalizeProof(op: Op): (r: Option<(ProofKey, Proof)>)
    requires op.UpsertProof?
    ensures r.Some? ==> r.value == FoldedProof(op)
    ensures r.Some? ==> WellFormedProof(r.value.0, r.value.1)
  {
    hide Trim, Lower, Utf8Len, AllHex, IsLowerHexDigit;
    var e :- NormalizeHex(op.escrow, 32);
    var role :- NormalizeRole(op.role);
    var round :- NormalizeRound(role, op.round);
    var txset :- NormalizeHex(op.txset, 64);
    var jti :- NormalizeJti(op.jti);
    var reqId :- NormalizeHex(op.reqId, 64);
    Some((ProofKey(e, role, round, txset), Proof(jti, reqId)))
  }

  /** A proof is refused as input only if it is not well formed once folded. */
  lemma ProofIff(op: Op)
    requires op.UpsertProof?
    ensures NormalizeProof(op).Some? <==> WellFormedProof(FoldedProof(op).0, FoldedProof(op).1)
  {
    hide Trim, Lower, Utf8Len, IsBounded, AllHex, IsLowerHex, NormalizeHex, NormalizeRole, NormalizeRound, NormalizeJti;
    FoldedHexIff(Trim(op.escrow), 32);
    FoldedHexIff(Trim(op.txset), 64);
    FoldedHexIff(Trim(op.reqId), 64);
  }

  function DoUpsertProof(db: Db, op: Op): (r: (Db, Answer))
    requires op.UpsertProof?
    ensures r.0 == db.(proofs := r.0.proofs)
    ensures r.1 != Done ==> r.0 == db && r.1.Refused? && r.1.error != IdempotencyConflict
  {
    var input := NormalizeProof(op);
    if input.None? then (db, Refused(InvalidInput))
    else
      var (key, proof) := input.value;
      if key.escrow !in db.workflows then (db, Refused(WorkflowNotFound))
      else if !AllowsSigning(db.workflows[key.escrow].state) then (db, Refused(StatePrecondition))
      else if ReqIdInUse(db.proofs, key, proof.reqId) then (db, Refused(ReqIdTaken))
      else (db.(proofs := db.proofs[key := proof]), Done)
  }

  function Call(db: Db, op: Op, sha3: string -> string): (Db, Answer) {
    match op
    case CreateWorkflow(_, _, _) => DoCreate(db, op)
    case TransitionTo(_, _) => DoTransition(db, op)
    case RecordStep(_, _, _, _, _, _) => DoRecordStep(db, op, sha3)
    case EnqueueOutbox(_, _, _, _, _) => DoEnqueue(db, op, sha3)
    case MarkSent(_) => DoMarkSent(db, op)
    case MarkAcked(_) => DoMarkAcked(db, op)
    case MarkRetry(_, _, _, _) => DoMarkRetry(db, op, sha3)
    case AddDeadLetter(_, _) => DoAddDeadLetter(db, op)
    case UpsertProposal(_, _, _, _) => DoUpsertProposal(db, op)
    case UpsertAdmission(_, _) => DoUpsertAdmission(db, op)
    case UpsertProof(_, _, _, _, _, _) => DoUpsertProof(db, op)
  }

  // ---- runs ----

  /** A run from the empty database. */
  ghost predicate Run(dbs: seq<Db>, ops: seq<Op>, sha3: string -> string) {
    && |dbs| == |ops| + 1 && dbs[0] == Empty
    && forall i :: 0 <= i < |ops| ==> dbs[i + 1] == Call(dbs[i], ops[i], sha3).0
  }

  lemma RunExtends(dbs: seq<Db>, ops: seq<Op>, op: Op, sha3: string -> string)
    requires Run(dbs, ops, sha3)
    ensures Run(dbs + [Call(dbs[|ops|], op, sha3).0], ops + [op], sha3)
  {
    hide Call;
    var dbs', ops' := dbs + [Call(dbs[|ops|], op, sha3).0], ops + [op];
    forall i | 0 <= i < |ops'| ensures dbs'[i + 1] == Call(dbs'[i], ops'[i], sha3).0 {
      if i < |ops| {
        assert dbs'[i] == dbs[i] && dbs'[i + 1] == dbs[i + 1] && ops'[i] == ops[i];
      }
    }
  }

  // ---- which calls touch which table ----

  lemma CallIsItsFunction(db: Db, op: Op, sha3: string -> string)
    ensures op.CreateWorkflow? ==> Call(db, op, sha3) == DoCreate(db, op)
    ensures op.TransitionTo? ==> Call(db, op, sha3) == DoTransition(db, op)
    ensures op.RecordStep? ==> Call(db, op, sha3) == DoRecordStep(db, op, sha3)
    ensures op.EnqueueOutbox? ==> Call(db, op, sha3) == DoEnqueue(db, op, sha3)
    ensures op.MarkSent? ==> Call(db, op, sha3) == DoMarkSent(db, op)
    ensures op.MarkAcked? ==> Call(db, op, sha3) == DoMarkAcked(db, op)
    ensures op.MarkRetry? ==> Call(db, op, sha3) == DoMarkRetry(db, op, sha3)
    ensures op.AddDeadLetter? ==> Call(db, op, sha3) == DoAddDeadLetter(db, op)
    ensures op.UpsertProposal? ==> Call(db, op, sha3) == DoUpsertProposal(db, op)
    ensures op.UpsertAdmission? ==> Call(db, op, sha3) == DoUpsertAdmission(db, op)
    ensures op.UpsertProof? ==> Call(db, op, sha3) == DoUpsertProof(db, op)
  {
    hide DoCreate, DoTransition, DoRecordStep, DoEnqueue, DoMarkSent, DoMarkAcked, DoMarkRetry;
    hide DoAddDeadLetter, DoUpsertProposal, DoUpsertAdmission, DoUpsertProof;
  }

  lemma OtherCallsKeepWorkflows(db: Db, op: Op, sha3: string -> string)
    requires !op.CreateWorkflow? && !op.TransitionTo?
    ensures Call(db, op, sha3).0.workflows == db.workflows
  {
    hide DoCreate, DoTransition, DoRecordStep, DoEnqueue, DoMarkSent, DoMarkAcked, DoMarkRetry;
    hide DoAddDeadLetter, DoUpsertProposal, DoUpsertAdmission, DoUpsertProof;
  }

  lemma OtherCallsKeepSteps(db: Db, op: Op, sha3: string -> string)
    requires !op.RecordStep?
    ensures Call(db, op, sha3).0.steps == db.steps
  {
    hide DoCreate, DoTransition, DoRecordStep, DoEnqueue, DoMarkSent, DoMarkAcked, DoMarkRetry;
    hide DoAddDeadLetter, DoUpsertProposal, DoUpsertAdmission, DoUpsertProof;
  }

  lemma OtherCallsKeepOutbox(db: Db, op: Op, sha3: string -> string)
    requires !op.EnqueueOutbox? && !op.MarkSent? && !op.MarkAcked? && !op.MarkRetry?
    ensures Call(db, op, sha3).0.outbox == db.outbox
  {
    hide DoCreate, DoTransition, DoRecordStep, DoEnqueue, DoMarkSent, DoMarkAcked, DoMarkRetry;
    hide DoAddDeadLetter, DoUpsertProposal, DoUpsertAdmission, DoUpsertProof;
  }

  lemma OtherCallsKeepProofs(db: Db, op: Op, sha3: string -> string)
    requires !op.UpsertProof?
    ensures Call(db, op, sha3).0.proofs == db.proofs
  {
    hide DoCreate, DoTransition, DoRecordStep, DoEnqueue, DoMarkSent, DoMarkAcked, DoMarkRetry;
    hide DoAddDeadLetter, DoUpsertProposal, DoUpsertAdmission, DoUpsertProof;
  }

  lemma OtherCallsKeepDeadLetters(db: Db, op: Op, sha3: string -> string)
    requires !op.RecordStep? && !op.MarkRetry? && !op.AddDeadLetter?
    ensures Call(db, op, sha3).0.deadLetters == db.deadLetters
  {
    hide DoCreate, DoTransition, DoRecordStep, DoEnqueue, DoMarkSent, DoMarkAcked, DoMarkRetry;
    hide DoAddDeadLetter, DoUpsertProposal, DoUpsertAdmission, DoUpsertProof;
  }

  /** A refused call changes nothing, except that a payload conflict leaves its dead letter. */
  lemma RefusedChangesNothing(db: Db, op: Op, sha3: string -> string)
    requires Call(db, op, sha3).1.Refused? && Call(db, op, sha3).1 != Refused(IdempotencyConflict)
    ensures Call(db, op, sha3).0 == db
  {
    hide DoCreate, DoTransition, DoRecordStep, DoEnqueue, DoMarkSent, DoMarkAcked, DoMarkRetry;
    hide DoAddDeadLetter, DoUpsertProposal, DoUpsertAdmission, DoUpsertProof;
  }
}
