/** Idempotency of the outbox over every run: when a message counts as a repeat. */
module OutboxLog {
  import opened Wrappers
  import opened Text
  import opened Workflow
  import opened Keys
  import opened Orchestrator
  import opened OutboxLife
  import opened StepLog

  /** The hash is injective and its digests contain no colon. */
  ghost predicate GoodHash(sha3: string -> string) {
    Injective(sha3) && forall x: string :: ':' !in sha3(x)
  }

  function InputOf(row: OutboxRow): OutboxInput {
    OutboxInput(row.escrow, row.state, row.to, row.msgType, row.json)
  }

  ghost predicate Keyed(row: OutboxRow, sha3: string -> string) {
    row.idemKey == OutboxKey(InputOf(row), sha3) && IsLowerHex(row.escrow, 32)
  }

  /** The key sees the same text: same escrow, state and payload, and "to:type" reads the same. The messages
      themselves can differ in where recipient ends and type begins. */
  predicate SameText(x: OutboxInput, y: OutboxInput) {
    x.escrow == y.escrow && x.state == y.state && x.json == y.json && Addressed(x.to, x.msgType) == Addressed(y.to, y.msgType)
  }

  predicate TextStored(outbox: seq<OutboxRow>, x: OutboxInput) {
    exists k :: 0 <= k < |outbox| && SameText(InputOf(outbox[k]), x)
  }

  lemma MarkedKeepsInput(row: OutboxRow, op: Op)
    requires op.MarkSent? || op.MarkAcked? || op.MarkRetry?
    ensures InputOf(Marked(row, op)) == InputOf(row) && Marked(row, op).idemKey == row.idemKey
  {
  }

  /** An enqueue appends the message under its key, or changes nothing. */
  lemma EnqueueAppends(db: Db, op: Op, sha3: string -> string)
    requires op.EnqueueOutbox?
    ensures var r := Call(db, op, sha3);
            if r.1 == Done then
              && NormalizeOutbox(op).Some?
              && var i := NormalizeOutbox(op).value;
                 OutboxObstacle(db, i).None? &&
                 r.0.outbox == db.outbox + [OutboxRow(i.escrow, i.state, i.to, i.msgType, i.json, OutboxKey(i, sha3), PendingSend, 0)]
            else r.0.outbox == db.outbox
  {
    hide Call, NormalizeOutbox, OutboxObstacle, OutboxKey, HasIdemKey;
    CallIsItsFunction(db, op, sha3);
  }

  /** What the checks leave behind: the recipient is a participant, the type is trimmed and fits the state. */
  ghost predicate Checked(db: Db, row: OutboxRow) {
    && row.escrow in db.workflows && row.to in db.workflows[row.escrow].participants
    && MsgTypeFits(row.state, row.msgType) && NormalizeNonEmpty(row.msgType) == Some(row.msgType)
  }

  lemma CallKeepsChecked(db: Db, op: Op, sha3: string -> string, row: OutboxRow)
    requires Checked(db, row)
    ensures Checked(Call(db, op, sha3).0, row)
  {
    hide Call, MsgTypeFits, NormalizeNonEmpty;
    CallKeepsTerms(db, op, sha3, row.escrow);
    var before, after := db.workflows[row.escrow], Call(db, op, sha3).0.workflows[row.escrow];
    assert before.(state := New).participants == after.(state := New).participants;
  }

  /** Every stored row passed the checks, and still does. */
  lemma {:induction false} RowsAreChecked(dbs: seq<Db>, ops: seq<Op>, sha3: string -> string, n: nat, k: nat)
    requires Run(dbs, ops, sha3) && n <= |ops| && k < |dbs[n].outbox|
    ensures Checked(dbs[n], dbs[n].outbox[k])
    decreases n
  {
    hide Call, OutboxKey, NormalizeOutbox, Succeeds, IsLowerHex, Marked, MsgTypeFits, NormalizeNonEmpty;
    var db, op := dbs[n - 1], ops[n - 1];
    assert dbs[n - 1 + 1] == Call(db, op, sha3).0;
    CallOnRow(db, op, sha3, k + 1);
    if k < |db.outbox| {
      RowsAreChecked(dbs, ops, sha3, n - 1, k);
      CallKeepsChecked(db, op, sha3, db.outbox[k]);
      if Marks(db, op, sha3, k + 1) {
        MarkedKeepsInput(db.outbox[k], op);
      }
    } else if op.EnqueueOutbox? {
      EnqueueAppends(db, op, sha3);
      CallKeepsChecked(db, op, sha3, dbs[n].outbox[k]);
    } else {
      OthersAddNoRow(db, op, sha3);
    }
  }

  /** Every row is stored under the key of its content, which never changes. */
  lemma {:induction false} RowsAreKeyed(dbs: seq<Db>, ops: seq<Op>, sha3: string -> string, n: nat, k: nat)
    requires Run(dbs, ops, sha3) && n <= |ops| && k < |dbs[n].outbox|
    ensures Keyed(dbs[n].outbox[k], sha3)
    decreases n
  {
    hide Call, OutboxKey, NormalizeOutbox, Succeeds, IsLowerHex, Marked;
    var db, op := dbs[n - 1], ops[n - 1];
    assert dbs[n - 1 + 1] == Call(db, op, sha3).0;
    CallOnRow(db, op, sha3, k + 1);
    if k < |db.outbox| {
      RowsAreKeyed(dbs, ops, sha3, n - 1, k);
      if Marks(db, op, sha3, k + 1) {
        MarkedKeepsInput(db.outbox[k], op);
      }
    } else if op.EnqueueOutbox? {
      EnqueueAppends(db, op, sha3);
    } else {
      OthersAddNoRow(db, op, sha3);
    }
  }

  lemma OthersAddNoRow(db: Db, op: Op, sha3: string -> string)
    requires !op.EnqueueOutbox?
    ensures |Call(db, op, sha3).0.outbox| == |db.outbox|
  {
    hide Call;
    CallIsItsFunction(db, op, sha3);
    if !op.MarkSent? && !op.MarkAcked? && !op.MarkRetry? {
      OtherCallsKeepOutbox(db, op, sha3);
    }
  }

  /** Under a good hash two messages share a key exactly when the key sees the same text. */
  lemma KeyIffSameText(x: OutboxInput, y: OutboxInput, sha3: string -> string)
    requires GoodHash(sha3) && IsLowerHex(x.escrow, 32) && IsLowerHex(y.escrow, 32)
    ensures OutboxKey(x, sha3) == OutboxKey(y, sha3) <==> SameText(x, y)
  {
    hide Addressed, OutboxMaterial;
    HexHasNoColon(x.escrow, 32);
    HexHasNoColon(y.escrow, 32);
    OutboxMaterialCollides(x.escrow, x.state, x.to, x.msgType, sha3(x.json), y.escrow, y.state, y.to, y.msgType, sha3(y.json));
  }

  /** Over every run, a message that passes the checks is answered as a repeat if and only if the outbox already
      holds a message with the same key text; otherwise it is appended, pending and not yet attempted. */
  lemma {:induction false} EnqueueAnswer(dbs: seq<Db>, ops: seq<Op>, sha3: string -> string, n: nat, op: Op)
    requires Run(dbs, ops, sha3) && n <= |ops| && GoodHash(sha3)
    requires op.EnqueueOutbox? && NormalizeOutbox(op).Some? && OutboxObstacle(dbs[n], NormalizeOutbox(op).value).None?
    ensures Call(dbs[n], op, sha3).1 == if TextStored(dbs[n].outbox, NormalizeOutbox(op).value) then Repeat else Done
  {
    hide Call, NormalizeOutbox, OutboxObstacle, OutboxKey, SameText, GoodHash, IsLowerHex;
    CallIsItsFunction(dbs[n], op, sha3);
    var x := NormalizeOutbox(op).value;
    forall k | 0 <= k < |dbs[n].outbox|
      ensures dbs[n].outbox[k].idemKey == OutboxKey(x, sha3) <==> SameText(InputOf(dbs[n].outbox[k]), x)
    {
      RowsAreKeyed(dbs, ops, sha3, n, k);
      KeyIffSameText(InputOf(dbs[n].outbox[k]), x, sha3);
    }
  }
}
