/** The life of an outbox row in a run: attempts, retries and the dead-letter records. */
module OutboxLife {
  import opened Wrappers
  import opened MachineInts
  import opened Text
  import opened Orchestrator

  predicate Succeeds(db: Db, op: Op, sha3: string -> string) {
    Call(db, op, sha3).1 == Done
  }

  /** A successful mark of row `id`. */
  predicate Marks(db: Db, op: Op, sha3: string -> string, id: nat) {
    (op.MarkSent? || op.MarkAcked? || op.MarkRetry?) && op.id == id && Succeeds(db, op, sha3)
  }

  predicate BuriesRow(db: Db, op: Op, sha3: string -> string, id: nat) {
    op.MarkRetry? && Marks(db, op, sha3, id) && 1 <= id <= |db.outbox| && Buries(db.outbox[id - 1], op.deadLetterAfter)
  }

  /** The row after a successful mark. */
  function Marked(row: OutboxRow, op: Op): OutboxRow
    requires op.MarkSent? || op.MarkAcked? || op.MarkRetry?
  {
    if op.MarkSent? then row.(status := Sent, attempts := row.attempts + 1)
    else if op.MarkAcked? then row.(status := Acked)
    else Retried(row, op)
  }

  /** What a call does to row `id`: nothing unless it is a successful mark, which needs the row to be open. */
  ghost predicate RowEffect(db: Db, op: Op, sha3: string -> string, id: nat)
    requires 1 <= id
  {
    var db' := Call(db, op, sha3).0;
    && |db.outbox| <= |db'.outbox| <= |db.outbox| + 1
    && (id <= |db.outbox| && !Marks(db, op, sha3, id) ==> db'.outbox[id - 1] == db.outbox[id - 1])
    && (id == |db.outbox| + 1 <= |db'.outbox| ==>
          db'.outbox[id - 1].status == PendingSend && db'.outbox[id - 1].attempts == 0)
    && (Marks(db, op, sha3, id) ==>
          IsOpen(db, id) && db'.outbox == db.outbox[id - 1 := Marked(db.outbox[id - 1], op)])
  }

  lemma CallOnRow(db: Db, op: Op, sha3: string -> string, id: nat)
    requires 1 <= id
    ensures RowEffect(db, op, sha3, id)
  {
    hide Call, Succeeds, RowEffect;
    match op
    case MarkSent(_) => MarkOnRow(db, op, sha3, id);
    case MarkAcked(_) => MarkOnRow(db, op, sha3, id);
    case MarkRetry(_, _, _, _) => RetryOnRow(db, op, sha3, id);
    case EnqueueOutbox(_, _, _, _, _) => EnqueueOnRow(db, op, sha3, id);
    case _ => OtherOnRow(db, op, sha3, id);
  }

  lemma MarkOnRow(db: Db, op: Op, sha3: string -> string, id: nat)
    requires 1 <= id && (op.MarkSent? || op.MarkAcked?)
    ensures RowEffect(db, op, sha3, id)
  {
    hide Call;
    CallIsItsFunction(db, op, sha3);
  }

  lemma RetryOnRow(db: Db, op: Op, sha3: string -> string, id: nat)
    requires 1 <= id && op.MarkRetry?
    ensures RowEffect(db, op, sha3, id)
  {
    hide Call, DoMarkRetry, BurialLetter, Buries;
    CallIsItsFunction(db, op, sha3);
  }

  lemma EnqueueOnRow(db: Db, op: Op, sha3: string -> string, id: nat)
    requires 1 <= id && op.EnqueueOutbox?
    ensures RowEffect(db, op, sha3, id)
  {
    hide Call, DoEnqueue;
    CallIsItsFunction(db, op, sha3);
  }

  lemma OtherOnRow(db: Db, op: Op, sha3: string -> string, id: nat)
    requires 1 <= id && !op.EnqueueOutbox? && !op.MarkSent? && !op.MarkAcked? && !op.MarkRetry?
    ensures RowEffect(db, op, sha3, id)
  {
    hide Call;
    OtherCallsKeepOutbox(db, op, sha3);
  }

  /** Rows are never removed. */
  lemma {:induction false} OutboxGrows(dbs: seq<Db>, ops: seq<Op>, sha3: string -> string, i: nat, j: nat)
    requires Run(dbs, ops, sha3) && i <= j <= |ops|
    ensures |dbs[i].outbox| <= |dbs[j].outbox|
    decreases j
  {
    hide Call;
    if i < j {
      OutboxGrows(dbs, ops, sha3, i, j - 1);
      assert dbs[j - 1 + 1] == Call(dbs[j - 1], ops[j - 1], sha3).0;
      CallOnRow(dbs[j - 1], ops[j - 1], sha3, 1);
    }
  }

  /** Acked and dead-lettered rows never change again. */
  lemma {:induction false} TerminalIsAbsorbing(dbs: seq<Db>, ops: seq<Op>, sha3: string -> string, i: nat, j: nat, id: nat)
    requires Run(dbs, ops, sha3) && i <= j <= |ops|
    requires 1 <= id <= |dbs[i].outbox| && Terminal(dbs[i].outbox[id - 1].status)
    ensures id <= |dbs[j].outbox| && dbs[j].outbox[id - 1] == dbs[i].outbox[id - 1]
    decreases j
  {
    hide Call, Succeeds;
    if i < j {
      TerminalIsAbsorbing(dbs, ops, sha3, i, j - 1, id);
      assert dbs[j - 1 + 1] == Call(dbs[j - 1], ops[j - 1], sha3).0;
      CallOnRow(dbs[j - 1], ops[j - 1], sha3, id);
    }
  }

  // ---- attempts ----

  /** Successful sends of row `id` among the first `n` calls. */
  function Sends(dbs: seq<Db>, ops: seq<Op>, sha3: string -> string, id: nat, n: nat): nat
    requires n <= |ops| < |dbs|
  {
    if n == 0 then 0
    else Sends(dbs, ops, sha3, id, n - 1)
         + (if ops[n - 1].MarkSent? && Marks(dbs[n - 1], ops[n - 1], sha3, id) then 1 else 0)
  }

  /** Successful retries of row `id` among the first `n` calls. */
  function Retries(dbs: seq<Db>, ops: seq<Op>, sha3: string -> string, id: nat, n: nat): nat
    requires n <= |ops| < |dbs|
  {
    if n == 0 then 0
    else Retries(dbs, ops, sha3, id, n - 1)
         + (if ops[n - 1].MarkRetry? && Marks(dbs[n - 1], ops[n - 1], sha3, id) then 1 else 0)
  }

  /** A row's attempts are its sends plus its retries. */
  lemma {:induction false} AttemptsAreSendsPlusRetries(dbs: seq<Db>, ops: seq<Op>, sha3: string -> string, id: nat, n: nat)
    requires Run(dbs, ops, sha3) && n <= |ops| && 1 <= id
    ensures |dbs[n].outbox| < id ==> Sends(dbs, ops, sha3, id, n) == 0 && Retries(dbs, ops, sha3, id, n) == 0
    ensures id <= |dbs[n].outbox| ==>
              dbs[n].outbox[id - 1].attempts == Sends(dbs, ops, sha3, id, n) + Retries(dbs, ops, sha3, id, n)
  {
    hide Call, Succeeds;
    if 0 < n {
      AttemptsAreSendsPlusRetries(dbs, ops, sha3, id, n - 1);
      assert dbs[n - 1 + 1] == Call(dbs[n - 1], ops[n - 1], sha3).0;
      CallOnRow(dbs[n - 1], ops[n - 1], sha3, id);
    }
  }

  /** With one threshold N (at least 1) for all retries of a row, it is retried at most N times, and a row
      retried N times is dead-lettered. */
  lemma {:induction false} RetriesBounded(
    dbs: seq<Db>, ops: seq<Op>, sha3: string -> string, id: nat, threshold: u32, n: nat)
    requires Run(dbs, ops, sha3) && n <= |ops| && 1 <= id <= |dbs[n].outbox|
    requires forall i :: 0 <= i < n && ops[i].MarkRetry? && ops[i].id == id ==> ops[i].deadLetterAfter == threshold
    ensures Retries(dbs, ops, sha3, id, n) <= Max(threshold, 1)
    ensures Retries(dbs, ops, sha3, id, n) == Max(threshold, 1) ==> dbs[n].outbox[id - 1].status == DeadLettered
    decreases n
  {
    hide Call;
    if 0 < n {
      var db, op := dbs[n - 1], ops[n - 1];
      assert dbs[n - 1 + 1] == Call(db, op, sha3).0;
      CallOnRow(db, op, sha3, id);
      AttemptsAreSendsPlusRetries(dbs, ops, sha3, id, n - 1);
      if id <= |db.outbox| {
        RetriesBounded(dbs, ops, sha3, id, threshold, n - 1);
      }
    }
  }

  // ---- dead-letter records ----

  function NewlyBuried(db: Db, op: Op, sha3: string -> string): seq<nat> {
    if op.MarkRetry? && op.id >= 1 && BuriesRow(db, op, sha3, op.id) then [op.id as nat] else []
  }

  /** The rows buried by the first `n` calls, in order. */
  function Buried(dbs: seq<Db>, ops: seq<Op>, sha3: string -> string, n: nat): seq<nat>
    requires n <= |ops| < |dbs|
  {
    if n == 0 then [] else Buried(dbs, ops, sha3, n - 1) + NewlyBuried(dbs[n - 1], ops[n - 1], sha3)
  }

  /** The position of the dead letter a retry files, if it files one. */
  function NewlyFiled(db: Db, op: Op, sha3: string -> string): seq<nat> {
    if op.MarkRetry? && |db.deadLetters| < |Call(db, op, sha3).0.deadLetters| then [|db.deadLetters|] else []
  }

  /** The positions of the dead letters that retries filed among the first `n` calls, in order. */
  function Filed(dbs: seq<Db>, ops: seq<Op>, sha3: string -> string, n: nat): seq<nat>
    requires n <= |ops| < |dbs|
  {
    if n == 0 then [] else Filed(dbs, ops, sha3, n - 1) + NewlyFiled(dbs[n - 1], ops[n - 1], sha3)
  }

  /** The record describes the buried row. */
  predicate Describes(l: DeadLetter, row: OutboxRow, sha3: string -> string) {
    && l.escrow == row.escrow && l.stage == "outbox_delivery"
    && l.attempts == Min(row.attempts, U32_MAX) && l.payloadHash == Some(sha3(row.json))
  }

  /** Dead letters are only ever appended, one per call at most. A retry appends one exactly when it buries its
      row, and that record describes the row. */
  ghost predicate FilesLetter(db: Db, op: Op, sha3: string -> string) {
    var before, after := db.deadLetters, Call(db, op, sha3).0.deadLetters;
    && before <= after && |after| <= |before| + 1
    && (op.MarkRetry? ==> (|before| < |after| <==> op.id >= 1 && BuriesRow(db, op, sha3, op.id)))
    && (op.MarkRetry? && |before| < |after| ==> Describes(after[|before|], Marked(db.outbox[op.id - 1], op), sha3))
  }

  lemma CallFilesLetter(db: Db, op: Op, sha3: string -> string)
    ensures FilesLetter(db, op, sha3)
  {
    hide FilesLetter;
    match op
    case MarkRetry(_, _, _, _) => RetryFilesLetter(db, op, sha3);
    case AddDeadLetter(_, _) => AddFilesLetter(db, op, sha3);
    case RecordStep(_, _, _, _, _, _) => StepFilesLetter(db, op, sha3);
    case _ => OthersFileNothing(db, op, sha3);
  }

  lemma RetryFilesLetter(db: Db, op: Op, sha3: string -> string)
    requires op.MarkRetry?
    ensures FilesLetter(db, op, sha3)
  {
    hide Buries, DoMarkRetry, Call, NormalizeNonEmpty;
    CallIsItsFunction(db, op, sha3);
    if DoMarkRetry(db, op, sha3).1 == Done {
      var letters := FiledLetters(db.outbox[op.id - 1], op, sha3);
      assert letters == [] ==> db.deadLetters + letters == db.deadLetters;
    }
  }

  lemma AddFilesLetter(db: Db, op: Op, sha3: string -> string)
    requires op.AddDeadLetter?
    ensures FilesLetter(db, op, sha3)
  {
    hide NormalizeHex, Call;
    CallIsItsFunction(db, op, sha3);
  }

  lemma StepFilesLetter(db: Db, op: Op, sha3: string -> string)
    requires op.RecordStep?
    ensures FilesLetter(db, op, sha3)
  {
    hide StepObstacle, StepKey, NormalizeStep, Lower, Call, ConflictLetter;
    CallIsItsFunction(db, op, sha3);
  }

  lemma OthersFileNothing(db: Db, op: Op, sha3: string -> string)
    requires !op.MarkRetry? && !op.AddDeadLetter? && !op.RecordStep?
    ensures FilesLetter(db, op, sha3)
  {
    hide Call;
    OtherCallsKeepDeadLetters(db, op, sha3);
  }

  predicate IsBuried(db: Db, id: nat) {
    1 <= id <= |db.outbox| && db.outbox[id - 1].status == DeadLettered
  }

  /** A call buries the row it says it buries and no other, and changes no buried row. */
  lemma CallBuries(db: Db, op: Op, sha3: string -> string, id: nat)
    ensures var db' := Call(db, op, sha3).0;
            && (IsBuried(db', id) <==> IsBuried(db, id) || BuriesRow(db, op, sha3, id))
            && (IsBuried(db, id) ==> db'.outbox[id - 1] == db.outbox[id - 1] && !BuriesRow(db, op, sha3, id))
            && (BuriesRow(db, op, sha3, id) ==> db'.outbox[id - 1] == Marked(db.outbox[id - 1], op))
  {
    hide Call, Succeeds;
    if 1 <= id {
      CallOnRow(db, op, sha3, id);
    }
  }

  /** The rows `buried` are the dead-lettered ones, each once. */
  ghost predicate BuriedAre(db: Db, buried: seq<nat>) {
    && (forall k, l :: 0 <= k < l < |buried| ==> buried[k] != buried[l])
    && (forall id: nat :: id in buried <==> IsBuried(db, id))
  }

  /** The k-th filed record, at position `filed[k]`, describes the k-th buried row as it is now. */
  ghost predicate LettersMatch(db: Db, buried: seq<nat>, filed: seq<nat>, sha3: string -> string) {
    && |filed| == |buried|
    && (forall k, l :: 0 <= k < l < |filed| ==> filed[k] < filed[l])
    && (forall k :: 0 <= k < |filed| ==>
          && filed[k] < |db.deadLetters| && IsBuried(db, buried[k])
          && Describes(db.deadLetters[filed[k]], db.outbox[buried[k] - 1], sha3))
  }

  lemma BuriedStillAre(db: Db, op: Op, sha3: string -> string, buried: seq<nat>)
    requires BuriedAre(db, buried)
    ensures BuriedAre(Call(db, op, sha3).0, buried + NewlyBuried(db, op, sha3))
  {
    hide Call, BuriesRow, IsBuried;
    OnlyItsRow(db, op, sha3);
    forall id: nat
      ensures IsBuried(Call(db, op, sha3).0, id) <==> IsBuried(db, id) || BuriesRow(db, op, sha3, id)
      ensures IsBuried(db, id) ==> !BuriesRow(db, op, sha3, id)
    {
      CallBuries(db, op, sha3, id);
    }
  }

  lemma LettersStillMatch(db: Db, op: Op, sha3: string -> string, buried: seq<nat>, filed: seq<nat>)
    requires LettersMatch(db, buried, filed, sha3)
    ensures LettersMatch(Call(db, op, sha3).0, buried + NewlyBuried(db, op, sha3), filed + NewlyFiled(db, op, sha3), sha3)
  {
    hide Call, BuriesRow, Describes, Marked;
    CallFilesLetter(db, op, sha3);
    OnlyItsRow(db, op, sha3);
    forall k | 0 <= k < |buried|
      ensures IsBuried(Call(db, op, sha3).0, buried[k])
      ensures Call(db, op, sha3).0.outbox[buried[k] - 1] == db.outbox[buried[k] - 1]
    {
      CallBuries(db, op, sha3, buried[k]);
    }
    if op.MarkRetry? && op.id >= 1 {
      CallBuries(db, op, sha3, op.id);
    }
  }

  lemma OnlyItsRow(db: Db, op: Op, sha3: string -> string)
    ensures forall id: nat :: BuriesRow(db, op, sha3, id) ==> op.MarkRetry? && id == op.id && 1 <= id <= |db.outbox|
  {
    hide Call;
  }

  /** In every run the records filed by retries and the dead-lettered rows match one for one and in order, and
      each record describes its row. Records that other calls file, under whatever stage, play no part. */
  lemma {:induction false} OneLetterPerBuriedRow(dbs: seq<Db>, ops: seq<Op>, sha3: string -> string, n: nat)
    requires Run(dbs, ops, sha3) && n <= |ops|
    ensures BuriedAre(dbs[n], Buried(dbs, ops, sha3, n))
    ensures LettersMatch(dbs[n], Buried(dbs, ops, sha3, n), Filed(dbs, ops, sha3, n), sha3)
  {
    hide Call, NewlyBuried, NewlyFiled;
    if 0 < n {
      hide LettersMatch, BuriedAre;
      var buried, filed := Buried(dbs, ops, sha3, n - 1), Filed(dbs, ops, sha3, n - 1);
      assert dbs[n - 1 + 1] == Call(dbs[n - 1], ops[n - 1], sha3).0;
      OneLetterPerBuriedRow(dbs, ops, sha3, n - 1);
      BuriedStillAre(dbs[n - 1], ops[n - 1], sha3, buried);
      LettersStillMatch(dbs[n - 1], ops[n - 1], sha3, buried, filed);
    }
  }

  // ---- marks, as the caller sees them ----

  /** Only row `k` changed, and only in status and attempts. */
  ghost predicate OnlyMarked(before: seq<OutboxRow>, after: seq<OutboxRow>, k: nat) {
    && |after| == |before| && k < |before|
    && (forall i :: 0 <= i < |before| && i != k ==> after[i] == before[i])
    && after[k] == before[k].(status := after[k].status, attempts := after[k].attempts)
  }

  /** A granted retry adds an attempt; the row is buried exactly at the threshold, which is at least 1, and exactly
      then one record is filed, and it describes the row. */
  ghost predicate RetryEffect(
    before: Db, after: Db, id: nat, code: string, detail: string, deadLetterAfter: u32, sha3: string -> string)
    requires 1 <= id <= |before.outbox| == |after.outbox|
  {
    var row := after.outbox[id - 1];
    && OnlyMarked(before.outbox, after.outbox, id - 1) && row.attempts == before.outbox[id - 1].attempts + 1
    && row.status == (if row.attempts >= Max(deadLetterAfter, 1) then DeadLettered else PendingSend)
    && before.deadLetters <= after.deadLetters
    && |after.deadLetters| == |before.deadLetters| + (if row.status == DeadLettered then 1 else 0)
    && (row.status == DeadLettered ==>
          var letter := after.deadLetters[|before.deadLetters|];
          Describes(letter, row, sha3) && letter.code == Trim(code) && letter.detail == Trim(detail))
  }

  lemma RetryMeans(db: Db, op: Op, sha3: string -> string)
    requires op.MarkRetry?
    ensures Call(db, op, sha3).1 == Done ==>
              && IsOpen(db, op.id) && |Call(db, op, sha3).0.outbox| == |db.outbox|
              && RetryEffect(db, Call(db, op, sha3).0, op.id, op.code, op.detail, op.deadLetterAfter, sha3)
  {
    hide Call, DoMarkRetry, NormalizeNonEmpty, Trim;
    CallIsItsFunction(db, op, sha3);
    if DoMarkRetry(db, op, sha3).1 == Done {
      var letters := FiledLetters(db.outbox[op.id - 1], op, sha3);
      assert letters == [] ==> db.deadLetters + letters == db.deadLetters;
    }
  }
}
