/** The orchestrator's step log over whole runs: write-once, idempotent, and only from participants. */
module StepLog {
  import opened Wrappers
  import opened MachineInts
  import opened Text
  import opened Workflow
  import opened Keys
  import opened Orchestrator
  import opened Sets

  ghost predicate Injective(f: string -> string) {
    forall a, b :: f(a) == f(b) ==> a == b
  }

  /** Call `op` in `db` enters step `x` into the log. */
  ghost predicate Enters(db: Db, op: Op, sha3: string -> string, x: StepInput) {
    op.RecordStep? && NormalizeStep(op) == Some(x) && Call(db, op, sha3).1 == Done
  }

  /** The four fields that identify a step. */
  predicate SameKey(x: StepInput, y: StepInput) {
    x.escrow == y.escrow && x.state == y.state && x.from == y.from && x.seqNo == y.seqNo
  }

  function RowOf(x: StepInput): StepRow {
    StepRow(x.escrow, x.state, x.from, ClampToI64(x.seqNo), x.msgType, x.payloadHash)
  }

  lemma EnteringWrites(db: Db, op: Op, sha3: string -> string, x: StepInput)
    requires Enters(db, op, sha3, x)
    ensures StepObstacle(db, x).None? && StepKey(x, sha3) !in db.steps
    ensures Call(db, op, sha3).0.steps == db.steps[StepKey(x, sha3) := RowOf(x)]
  {
    hide NormalizeStep, StepObstacle, StepKey, Lower;
  }

  lemma NotEnteringKeepsSteps(db: Db, op: Op, sha3: string -> string)
    requires !op.RecordStep? || Call(db, op, sha3).1 != Done
    ensures Call(db, op, sha3).0.steps == db.steps
  {
    hide NormalizeStep, StepObstacle, StepKey, Lower;
    if op.RecordStep? {
      assert Call(db, op, sha3) == DoRecordStep(db, op, sha3);
    } else {
      OtherCallsKeepSteps(db, op, sha3);
    }
  }

  lemma DoneEnters(db: Db, op: Op, sha3: string -> string)
    requires op.RecordStep? && Call(db, op, sha3).1 == Done
    ensures NormalizeStep(op).Some? && Enters(db, op, sha3, NormalizeStep(op).value)
  {
    hide NormalizeStep, StepObstacle, StepKey, Lower;
  }

  /** A step once in the log is never changed or removed. */
  lemma {:induction false} StepIsWriteOnce(dbs: seq<Db>, ops: seq<Op>, sha3: string -> string, i: nat, j: nat, key: string)
    requires Run(dbs, ops, sha3) && i <= j <= |ops| && key in dbs[i].steps
    ensures key in dbs[j].steps && dbs[j].steps[key] == dbs[i].steps[key]
    decreases j
  {
    hide Call, Enters, StepKey, NormalizeStep, RowOf;
    if i < j {
      StepIsWriteOnce(dbs, ops, sha3, i, j - 1, key);
      var db, op := dbs[j - 1], ops[j - 1];
      assert dbs[j - 1 + 1] == Call(db, op, sha3).0;
      if op.RecordStep? && Call(db, op, sha3).1 == Done {
        DoneEnters(db, op, sha3);
        EnteringWrites(db, op, sha3, NormalizeStep(op).value);
      } else {
        NotEnteringKeepsSteps(db, op, sha3);
      }
    }
  }

  /** Every logged step was entered by some earlier call. */
  lemma {:induction false} StepWasEntered(dbs: seq<Db>, ops: seq<Op>, sha3: string -> string, n: nat, key: string)
    returns (k: nat, x: StepInput)
    requires Run(dbs, ops, sha3) && n <= |ops| && key in dbs[n].steps
    ensures k < n && Enters(dbs[k], ops[k], sha3, x) && key == StepKey(x, sha3) && dbs[n].steps[key] == RowOf(x)
    decreases n
  {
    hide Call, Enters, StepKey, RowOf, NormalizeStep;
    var db, op := dbs[n - 1], ops[n - 1];
    assert dbs[n - 1 + 1] == Call(db, op, sha3).0;
    if op.RecordStep? && Call(db, op, sha3).1 == Done {
      DoneEnters(db, op, sha3);
      x := NormalizeStep(op).value;
      EnteringWrites(db, op, sha3, x);
      if key == StepKey(x, sha3) {
        k := n - 1;
      } else {
        k, x := StepWasEntered(dbs, ops, sha3, n - 1, key);
      }
    } else {
      NotEnteringKeepsSteps(db, op, sha3);
      k, x := StepWasEntered(dbs, ops, sha3, n - 1, key);
    }
  }

  lemma KeysTellStepsApart(x: StepInput, y: StepInput, sha3: string -> string)
    requires Injective(sha3) && ':' !in x.escrow && ':' !in y.escrow
    ensures StepKey(x, sha3) == StepKey(y, sha3) <==> SameKey(x, y)
  {
    hide StepMaterial;
    if StepKey(x, sha3) == StepKey(y, sha3) {
      StepMaterialInjective(x.escrow, x.state, x.from, x.seqNo, y.escrow, y.state, y.from, y.seqNo);
    }
  }

  lemma HexHasNoColon(s: string, n: nat)
    requires IsLowerHex(s, n)
    ensures ':' !in s && Lower(s) == s
  {
  }

  /** How a step that passes the preconditions is answered, from the log alone. */
  lemma AnswerFromLog(db: Db, op: Op, sha3: string -> string, x: StepInput)
    requires op.RecordStep? && NormalizeStep(op) == Some(x) && StepObstacle(db, x).None?
    requires StepKey(x, sha3) in db.steps ==> IsLowerHex(db.steps[StepKey(x, sha3)].payloadHash, 64)
    ensures var key := StepKey(x, sha3);
            Call(db, op, sha3).1 ==
            if key !in db.steps then Done
            else if db.steps[key].payloadHash == x.payloadHash then Repeat
            else Refused(IdempotencyConflict)
  {
    hide StepObstacle, StepKey;
    HexHasNoColon(x.payloadHash, 64);
    if StepKey(x, sha3) in db.steps {
      HexHasNoColon(db.steps[StepKey(x, sha3)].payloadHash, 64);
    }
    hide NormalizeStep, Lower;
  }

  /** Step `x` was entered before step `n` of the run with payload `p`. */
  ghost predicate EnteredBefore(dbs: seq<Db>, ops: seq<Op>, sha3: string -> string, n: nat, x: StepInput, p: string)
    requires Run(dbs, ops, sha3) && n <= |ops|
  {
    exists k: nat, y: StepInput ::
      k < n && Enters(dbs[k], ops[k], sha3, y) && SameKey(x, y) && y.payloadHash == p
  }

  /** New if the key was never entered, a repeat if it was entered with this payload, a conflict if with another. */
  ghost predicate AnswersFromHistory(
    dbs: seq<Db>, ops: seq<Op>, sha3: string -> string, n: nat, x: StepInput, answer: Answer)
    requires Run(dbs, ops, sha3) && n <= |ops|
  {
    && (answer == Done <==> forall p :: !EnteredBefore(dbs, ops, sha3, n, x, p))
    && (answer == Repeat <==> EnteredBefore(dbs, ops, sha3, n, x, x.payloadHash))
    && (answer == Refused(IdempotencyConflict) <==>
        exists p :: p != x.payloadHash && EnteredBefore(dbs, ops, sha3, n, x, p))
  }

  /** The log is idempotent over every run: a step that passes the preconditions is accepted if its key was never
      entered before, answered as a repeat if it was entered with the same payload, and refused as a conflict
      if it was entered with another one; and no key is ever entered with two payloads. */
  lemma {:induction false} StepAnswer(dbs: seq<Db>, ops: seq<Op>, sha3: string -> string, n: nat, x: StepInput)
    requires Run(dbs, ops, sha3) && Injective(sha3) && n < |ops|
    requires ops[n].RecordStep? && NormalizeStep(ops[n]) == Some(x) && StepObstacle(dbs[n], x).None?
    ensures AnswersFromHistory(dbs, ops, sha3, n, x, Call(dbs[n], ops[n], sha3).1)
  {
    hide Call, StepKey, StepObstacle, NormalizeStep, Enters, RowOf, SameKey;
    var key := StepKey(x, sha3);
    EnteredIffLogged(dbs, ops, sha3, n, x);
    if key in dbs[n].steps {
      var k, y := StepWasEntered(dbs, ops, sha3, n, key);
      PayloadIsHex(dbs[k], ops[k], sha3, y);
      assert EnteredBefore(dbs, ops, sha3, n, x, dbs[n].steps[key].payloadHash);
    }
    AnswerFromLog(dbs[n], ops[n], sha3, x);
  }

  lemma PayloadIsHex(db: Db, op: Op, sha3: string -> string, y: StepInput)
    requires Enters(db, op, sha3, y)
    ensures IsLowerHex(RowOf(y).payloadHash, 64) && ':' !in y.escrow
  {
    HexHasNoColon(y.escrow, 32);
  }

  /** Entered with payload `p` means logged with payload `p`. */
  lemma EnteredIffLogged(dbs: seq<Db>, ops: seq<Op>, sha3: string -> string, n: nat, x: StepInput)
    requires Run(dbs, ops, sha3) && Injective(sha3) && n <= |ops| && IsLowerHex(x.escrow, 32)
    ensures forall p :: EnteredBefore(dbs, ops, sha3, n, x, p) <==>
              StepKey(x, sha3) in dbs[n].steps && dbs[n].steps[StepKey(x, sha3)].payloadHash == p
  {
    hide Call, StepKey, Enters, SameKey, NormalizeStep;
    var key := StepKey(x, sha3);
    HexHasNoColon(x.escrow, 32);
    forall p | EnteredBefore(dbs, ops, sha3, n, x, p)
      ensures key in dbs[n].steps && dbs[n].steps[key].payloadHash == p
    {
      var k: nat, y: StepInput :|
        k < n && Enters(dbs[k], ops[k], sha3, y) && SameKey(x, y) && y.payloadHash == p;
      PayloadIsHex(dbs[k], ops[k], sha3, y);
      KeysTellStepsApart(x, y, sha3);
      EnteringWrites(dbs[k], ops[k], sha3, y);
      assert dbs[k + 1] == Call(dbs[k], ops[k], sha3).0;
      StepIsWriteOnce(dbs, ops, sha3, k + 1, n, key);
    }
    if key in dbs[n].steps {
      var k, y := StepWasEntered(dbs, ops, sha3, n, key);
      PayloadIsHex(dbs[k], ops[k], sha3, y);
      KeysTellStepsApart(x, y, sha3);
      assert EnteredBefore(dbs, ops, sha3, n, x, y.payloadHash);
    }
  }

  /** A conflict leaves the log alone and adds exactly one dead letter. */
  lemma ConflictLeavesOneLetter(db: Db, op: Op, sha3: string -> string)
    requires op.RecordStep? && Call(db, op, sha3).1 == Refused(IdempotencyConflict)
    ensures NormalizeStep(op).Some?
    ensures Call(db, op, sha3).0 == db.(deadLetters := db.deadLetters + [ConflictLetter(NormalizeStep(op).value)])
  {
    hide StepObstacle, StepKey, NormalizeStep, Lower, ConflictLetter;
    assert Call(db, op, sha3) == DoRecordStep(db, op, sha3);
  }

  /** What a step call changes: an entry adds its row under its key, a conflict adds one dead letter, and nothing
      else changes; input that does not normalise and steps that fail a check are refused with that reason. */
  ghost predicate StepEffect(before: Db, after: Db, x: Option<StepInput>, answer: Answer, sha3: string -> string) {
    && (x.None? ==> answer == Refused(InvalidInput))
    && (x.Some? && StepObstacle(before, x.value).Some? ==> answer == Refused(StepObstacle(before, x.value).value))
    && (answer == Done ==> x.Some? && after.steps == before.steps[StepKey(x.value, sha3) := RowOf(x.value)])
    && (answer == Refused(IdempotencyConflict) ==>
          && x.Some? && |after.deadLetters| == |before.deadLetters| + 1 && before.deadLetters <= after.deadLetters
          && var l := after.deadLetters[|before.deadLetters|];
             && l.escrow == x.value.escrow && l.payloadHash == Some(x.value.payloadHash) && l.attempts == 1
             && l.stage == "step_record" && l.code == "idem_payload_conflict")
    && (answer != Done ==> after.steps == before.steps)
    && (answer != Refused(IdempotencyConflict) ==> after.deadLetters == before.deadLetters)
    && after == before.(steps := after.steps, deadLetters := after.deadLetters)
  }

  lemma StepMeans(db: Db, op: Op, sha3: string -> string)
    requires op.RecordStep?
    ensures StepEffect(db, Call(db, op, sha3).0, NormalizeStep(op), Call(db, op, sha3).1, sha3)
  {
    hide NormalizeStep, StepObstacle, StepKey, Lower, Call;
    CallIsItsFunction(db, op, sha3);
  }

  // ---- participants ----

  /** Snapshot and participants of a workflow never change. */
  lemma {:induction false} WorkflowKeepsTerms(dbs: seq<Db>, ops: seq<Op>, sha3: string -> string, i: nat, j: nat, e: string)
    requires Run(dbs, ops, sha3) && i <= j <= |ops| && e in dbs[i].workflows
    ensures e in dbs[j].workflows
    ensures dbs[j].workflows[e].(state := New) == dbs[i].workflows[e].(state := New)
    decreases j
  {
    hide Call;
    if i < j {
      WorkflowKeepsTerms(dbs, ops, sha3, i, j - 1, e);
      assert dbs[j - 1 + 1] == Call(dbs[j - 1], ops[j - 1], sha3).0;
      CallKeepsTerms(dbs[j - 1], ops[j - 1], sha3, e);
    }
  }

  lemma CallKeepsTerms(db: Db, op: Op, sha3: string -> string, e: string)
    requires e in db.workflows
    ensures e in Call(db, op, sha3).0.workflows
    ensures Call(db, op, sha3).0.workflows[e].(state := New) == db.workflows[e].(state := New)
  {
    hide DoCreate, DoTransition, CanTransition;
    if !op.CreateWorkflow? && !op.TransitionTo? {
      OtherCallsKeepWorkflows(db, op, sha3);
    }
  }

  ghost predicate FromParticipants(db: Db) {
    forall k :: k in db.steps ==>
                  && db.steps[k].escrow in db.workflows
                  && db.steps[k].from in db.workflows[db.steps[k].escrow].participants
  }

  /** Every logged sender is a participant of the step's workflow. */
  lemma {:induction false} StepsOnlyFromParticipants(dbs: seq<Db>, ops: seq<Op>, sha3: string -> string, n: nat)
    requires Run(dbs, ops, sha3) && n <= |ops|
    ensures FromParticipants(dbs[n])
  {
    hide Call, StepKey, NormalizeStep;
    if 0 < n {
      StepsOnlyFromParticipants(dbs, ops, sha3, n - 1);
      var db, op := dbs[n - 1], ops[n - 1];
      assert dbs[n - 1 + 1] == Call(db, op, sha3).0;
      forall k | k in db.steps
        ensures db.steps[k].escrow in dbs[n].workflows
        ensures db.steps[k].from in dbs[n].workflows[db.steps[k].escrow].participants
      {
        CallKeepsTerms(db, op, sha3, db.steps[k].escrow);
      }
      if op.RecordStep? {
        OtherCallsKeepWorkflows(db, op, sha3);
      }
      if op.RecordStep? && Call(db, op, sha3).1 == Done {
        DoneEnters(db, op, sha3);
        EnteringWrites(db, op, sha3, NormalizeStep(op).value);
      } else {
        NotEnteringKeepsSteps(db, op, sha3);
      }
    }
  }

  /** COUNT(DISTINCT from_id) of a state's steps counts this set. */
  function Senders(db: Db, e: string, s: WorkflowState): set<string> {
    set k | k in db.steps && db.steps[k].escrow == e && db.steps[k].state == s :: db.steps[k].from
  }

  lemma {:induction false} ElementsSize(ps: seq<string>)
    ensures |set p | p in ps| <= |ps|
  {
    if ps != [] {
      var init := ps[..|ps| - 1];
      ElementsSize(init);
      assert (set p | p in ps) == (set p | p in init) + {ps[|ps| - 1]};
    }
  }

  /** The distinct-sender count of a state never falls, and never exceeds the number of participants. */
  lemma {:induction false} SenderCountBounded(dbs: seq<Db>, ops: seq<Op>, sha3: string -> string, i: nat, j: nat, e: string, s: WorkflowState)
    requires Run(dbs, ops, sha3) && i <= j <= |ops|
    ensures |Senders(dbs[i], e, s)| <= |Senders(dbs[j], e, s)|
    ensures e !in dbs[j].workflows ==> Senders(dbs[j], e, s) == {}
    ensures e in dbs[j].workflows ==> |Senders(dbs[j], e, s)| <= |dbs[j].workflows[e].participants|
  {
    hide Call;
    forall f | f in Senders(dbs[i], e, s) ensures f in Senders(dbs[j], e, s) {
      var k :| k in dbs[i].steps && dbs[i].steps[k].escrow == e && dbs[i].steps[k].state == s && dbs[i].steps[k].from == f;
      StepIsWriteOnce(dbs, ops, sha3, i, j, k);
    }
    SubsetSize(Senders(dbs[i], e, s), Senders(dbs[j], e, s));
    StepsOnlyFromParticipants(dbs, ops, sha3, j);
    if e in dbs[j].workflows {
      var ps := dbs[j].workflows[e].participants;
      assert Senders(dbs[j], e, s) <= set p | p in ps;
      SubsetSize(Senders(dbs[j], e, s), set p | p in ps);
      ElementsSize(ps);
    }
  }
}
