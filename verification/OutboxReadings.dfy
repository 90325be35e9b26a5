/** When an outbox repeat is that very message, and when a different one can pass for it. */
module OutboxReadings {
  import opened Wrappers
  import opened Text
  import opened Workflow
  import opened Keys
  import opened Orchestrator
  import opened StepLog
  import opened OutboxLog
  import opened GrantedCalls

  /** The text "to:type" can also be read with `t` as the recipient. */
  predicate ReadsAs(t: string, text: string) {
    t + [':'] <= text && NormalizeNonEmpty(text[|t| + 1..]) == Some(text[|t| + 1..])
  }

  /** Some other participant can be read as the recipient. */
  predicate Ambiguous(participants: seq<string>, to: string, msgType: string) {
    exists t :: t in participants && t != to && ReadsAs(t, Addressed(to, msgType))
  }

  ghost predicate ExactlyStored(outbox: seq<OutboxRow>, x: OutboxInput) {
    exists k :: 0 <= k < |outbox| && InputOf(outbox[k]) == x
  }

  /** The state fixes the type, or no other participant can be read as the recipient, or no type has a colon. */
  ghost predicate Unmistakable(db: Db, x: OutboxInput)
    requires x.escrow in db.workflows
  {
    || ExpectedMsgType(x.state).Some?
    || !Ambiguous(db.workflows[x.escrow].participants, x.to, x.msgType)
    || (':' !in x.msgType && forall k :: 0 <= k < |db.outbox| ==> ':' !in db.outbox[k].msgType)
  }

  lemma SameTextIsSame(db: Db, row: OutboxRow, x: OutboxInput)
    requires Checked(db, row) && SameText(InputOf(row), x) && row in db.outbox
    requires x.escrow in db.workflows && MsgTypeFits(x.state, x.msgType) && Unmistakable(db, x)
    ensures InputOf(row) == x
  {
    hide NormalizeNonEmpty;
    var text := Addressed(x.to, x.msgType);
    assert text[|row.to| + 1..] == row.msgType && row.to + [':'] <= text;
    assert ReadsAs(row.to, text);
    if ExpectedMsgType(x.state).Some? {
      SameTypeSameRecipient(row.to, x.to, x.msgType);
    } else if row.to == x.to {
      assert text[|x.to| + 1..] == x.msgType && Addressed(row.to, row.msgType)[|x.to| + 1..] == row.msgType;
    } else if ':' !in x.msgType && ':' !in row.msgType {
      AddressedInjective(row.to, row.msgType, x.to, x.msgType);
    }
  }

  /** Under that condition a message is answered as a repeat if and only if that very message is stored. */
  lemma {:induction false} RepeatIsExact(dbs: seq<Db>, ops: seq<Op>, sha3: string -> string, n: nat, op: Op)
    requires Run(dbs, ops, sha3) && n <= |ops| && GoodHash(sha3)
    requires op.EnqueueOutbox? && NormalizeOutbox(op).Some? && OutboxObstacle(dbs[n], NormalizeOutbox(op).value).None?
    requires Unmistakable(dbs[n], NormalizeOutbox(op).value)
    ensures Call(dbs[n], op, sha3).1 == if ExactlyStored(dbs[n].outbox, NormalizeOutbox(op).value) then Repeat else Done
  {
    hide Call, NormalizeOutbox, SameText, GoodHash, MsgTypeFits, Unmistakable;
    EnqueueAnswer(dbs, ops, sha3, n, op);
    var x := NormalizeOutbox(op).value;
    forall k | 0 <= k < |dbs[n].outbox|
      ensures SameText(InputOf(dbs[n].outbox[k]), x) <==> InputOf(dbs[n].outbox[k]) == x
    {
      RowsAreChecked(dbs, ops, sha3, n, k);
      SameTextReflexive(x);
      if SameText(InputOf(dbs[n].outbox[k]), x) {
        SameTextIsSame(dbs[n], dbs[n].outbox[k], x);
      }
    }
  }

  lemma SameTextReflexive(x: OutboxInput)
    ensures SameText(x, x)
  {
  }

  /** What an enqueue changes: a granted one appends the message, pending and not yet attempted; any other changes
      nothing. Input that does not normalise and messages that fail a check are refused with that reason. */
  ghost predicate EnqueueEffect(before: Db, after: Db, x: Option<OutboxInput>, answer: Answer, sha3: string -> string) {
    && (x.None? ==> answer == Refused(InvalidInput))
    && (x.Some? && OutboxObstacle(before, x.value).Some? ==> answer == Refused(OutboxObstacle(before, x.value).value))
    && (answer == Done ==>
          && x.Some?
          && after.outbox == before.outbox + [OutboxRow(x.value.escrow, x.value.state, x.value.to, x.value.msgType,
                                                        x.value.json, OutboxKey(x.value, sha3), PendingSend, 0)])
    && (answer != Done ==> after.outbox == before.outbox) && after == before.(outbox := after.outbox)
  }

  lemma EnqueueMeans(db: Db, op: Op, sha3: string -> string)
    requires op.EnqueueOutbox?
    ensures EnqueueEffect(db, Call(db, op, sha3).0, NormalizeOutbox(op), Call(db, op, sha3).1, sha3)
  {
    hide NormalizeOutbox, OutboxObstacle, OutboxKey, HasIdemKey, Call;
    CallIsItsFunction(db, op, sha3);
  }

  /** Under a good hash, a message that passes the checks and cannot be mistaken is a repeat if and only if it is
      stored already. */
  ghost predicate AnswersExactly(before: Db, x: Option<OutboxInput>, answer: Answer, sha3: string -> string) {
    GoodHash(sha3) && x.Some? && OutboxObstacle(before, x.value).None? && Unmistakable(before, x.value) ==>
      answer == if ExactlyStored(before.outbox, x.value) then Repeat else Done
  }

  lemma EnqueueAnswersExactly(dbs: seq<Db>, ops: seq<Op>, sha3: string -> string, op: Op)
    requires Run(dbs, ops, sha3) && op.EnqueueOutbox?
    ensures AnswersExactly(dbs[|ops|], NormalizeOutbox(op), Call(dbs[|ops|], op, sha3).1, sha3)
  {
    var x, db := NormalizeOutbox(op), dbs[|ops|];
    hide Run, Call, NormalizeOutbox, GoodHash, Unmistakable, ExactlyStored;
    if GoodHash(sha3) && x.Some? && OutboxObstacle(db, x.value).None? && Unmistakable(db, x.value) {
      RepeatIsExact(dbs, ops, sha3, |ops|, op);
    }
  }

  /** Participants without colons are never ambiguous. */
  lemma NoColonsNotAmbiguous(participants: seq<string>, to: string, msgType: string)
    requires to in participants && forall p :: p in participants ==> ':' !in p
    ensures !Ambiguous(participants, to, msgType)
  {
    hide NormalizeNonEmpty;
    var text := Addressed(to, msgType);
    forall t | t in participants && ReadsAs(t, text) ensures t == to {
      assert text == Addressed(t, text[|t| + 1..]);
      AddressedInjective(t, text[|t| + 1..], to, msgType);
    }
  }

  /** Participants are stored trimmed and non-empty. */
  lemma {:induction false} ParticipantsArePlain(dbs: seq<Db>, ops: seq<Op>, sha3: string -> string, n: nat, e: string, p: string)
    requires Run(dbs, ops, sha3) && n <= |ops| && e in dbs[n].workflows && p in dbs[n].workflows[e].participants
    ensures NormalizeNonEmpty(p) == Some(p)
    decreases n
  {
    hide Call, NormalizeNonEmpty, DoCreate, DoTransition, CanTransition;
    var db, op := dbs[n - 1], ops[n - 1];
    assert dbs[n - 1 + 1] == Call(db, op, sha3).0;
    if e in db.workflows {
      CallKeepsTerms(db, op, sha3, e);
      assert db.workflows[e].(state := New).participants == dbs[n].workflows[e].(state := New).participants;
      ParticipantsArePlain(dbs, ops, sha3, n - 1, e, p);
    } else {
      CallIsItsFunction(db, op, sha3);
      if !op.CreateWorkflow? && !op.TransitionTo? {
        OtherCallsKeepWorkflows(db, op, sha3);
      }
    }
  }

  /** The enqueue of the other reading of `x`, with `t` as the recipient. */
  function OtherReading(x: OutboxInput, t: string): Op
    requires t + [':'] <= Addressed(x.to, x.msgType)
  {
    EnqueueOutbox(x.escrow, x.state, t, Addressed(x.to, x.msgType)[|t| + 1..], x.json)
  }

  lemma OtherReadingPasses(db: Db, x: OutboxInput, t: string)
    requires IsLowerHex(x.escrow, 32) && OutboxObstacle(db, x).None? && ExpectedMsgType(x.state).None?
    requires t in db.workflows[x.escrow].participants && t != x.to && ReadsAs(t, Addressed(x.to, x.msgType))
    requires NormalizeNonEmpty(t) == Some(t)
    ensures var y := NormalizeOutbox(OtherReading(x, t));
            y.Some? && y.value != x && SameText(y.value, x) && OutboxObstacle(db, y.value).None?
  {
    hide NormalizeHex, NormalizeNonEmpty, CanTransition, ExpectedMsgType;
    var text := Addressed(x.to, x.msgType);
    assert text == Addressed(t, text[|t| + 1..]);
  }

  /** Without it, a different message can take the place of `x`: after one granted enqueue of the other reading,
      `x` itself is answered as a repeat although it was never stored. */
  lemma {:induction false} RepeatCanBeWrong(dbs: seq<Db>, ops: seq<Op>, sha3: string -> string, op: Op)
    returns (other: Op)
    requires Run(dbs, ops, sha3) && GoodHash(sha3) && op.EnqueueOutbox? && NormalizeOutbox(op).Some?
    requires OutboxObstacle(dbs[|ops|], NormalizeOutbox(op).value).None?
    requires !TextStored(dbs[|ops|].outbox, NormalizeOutbox(op).value)
    requires var x := NormalizeOutbox(op).value;
             && ExpectedMsgType(x.state).None?
             && x.escrow in dbs[|ops|].workflows
             && Ambiguous(dbs[|ops|].workflows[x.escrow].participants, x.to, x.msgType)
    ensures other.EnqueueOutbox? && Call(dbs[|ops|], other, sha3).1 == Done
    ensures Call(Call(dbs[|ops|], other, sha3).0, op, sha3).1 == Repeat
    ensures NormalizeOutbox(other).Some? && NormalizeOutbox(other) != NormalizeOutbox(op)
    ensures !ExactlyStored(Call(dbs[|ops|], other, sha3).0.outbox, NormalizeOutbox(op).value)
  {
    assert |dbs| == |ops| + 1;
    hide Run, Call, NormalizeOutbox, OutboxObstacle, GoodHash, NormalizeNonEmpty, IsLowerHex, ReadsAs, SameText;
    var x, db := NormalizeOutbox(op).value, dbs[|ops|];
    var t :| t in db.workflows[x.escrow].participants && t != x.to && ReadsAs(t, Addressed(x.to, x.msgType));
    ParticipantsArePlain(dbs, ops, sha3, |ops|, x.escrow, t);
    ReadsHasPrefix(t, Addressed(x.to, x.msgType));
    OtherReadingPasses(db, x, t);
    other := OtherReading(x, t);
    DisplacedByOther(dbs, ops, sha3, op, other);
  }

  lemma ReadsHasPrefix(t: string, text: string)
    requires ReadsAs(t, text)
    ensures t + [':'] <= text
  {
  }

  lemma SameTextTransfers(x: OutboxInput, y: OutboxInput, z: OutboxInput)
    requires SameText(y, z)
    ensures SameText(x, y) <==> SameText(x, z)
  {
  }

  lemma DisplacedByOther(dbs: seq<Db>, ops: seq<Op>, sha3: string -> string, op: Op, other: Op)
    requires Run(dbs, ops, sha3) && GoodHash(sha3) && op.EnqueueOutbox? && other.EnqueueOutbox?
    requires NormalizeOutbox(op).Some? && NormalizeOutbox(other).Some?
    requires var x, y, db := NormalizeOutbox(op).value, NormalizeOutbox(other).value, dbs[|ops|];
             && y != x && SameText(y, x) && !TextStored(db.outbox, x)
             && OutboxObstacle(db, x).None? && OutboxObstacle(db, y).None?
    ensures var db := dbs[|ops|];
            && Call(db, other, sha3).1 == Done && Call(Call(db, other, sha3).0, op, sha3).1 == Repeat
            && !ExactlyStored(Call(db, other, sha3).0.outbox, NormalizeOutbox(op).value)
  {
    assert |dbs| == |ops| + 1;
    hide Call, NormalizeOutbox, SameText, GoodHash, OutboxKey, OutboxObstacle, Run;
    var x, y, db := NormalizeOutbox(op).value, NormalizeOutbox(other).value, dbs[|ops|];
    forall k | 0 <= k < |db.outbox| ensures !SameText(InputOf(db.outbox[k]), y) && InputOf(db.outbox[k]) != x {
      SameTextTransfers(InputOf(db.outbox[k]), y, x);
      SameTextReflexive(x);
    }
    EnqueueAnswer(dbs, ops, sha3, |ops|, other);
    EnqueueAppends(db, other, sha3);
    RunExtends(dbs, ops, other, sha3);
    var dbs', ops' := dbs + [Call(db, other, sha3).0], ops + [other];
    EnqueueKeepsObstacle(db, other, sha3, x);
    var last := |db.outbox|;
    assert InputOf(dbs'[|ops'|].outbox[last]) == y;
    EnqueueAnswer(dbs', ops', sha3, |ops'|, op);
  }

  lemma EnqueueKeepsObstacle(db: Db, op: Op, sha3: string -> string, x: OutboxInput)
    requires op.EnqueueOutbox?
    ensures OutboxObstacle(Call(db, op, sha3).0, x) == OutboxObstacle(db, x)
  {
    hide Call, StateAllows, MsgTypeFits;
    OtherCallsKeepWorkflows(db, op, sha3);
  }

  /** After the granted enqueue `other`, the enqueue `op` is answered as a repeat. */
  ghost predicate Displaces(db: Db, other: Op, op: Op, sha3: string -> string) {
    && other.EnqueueOutbox? && Call(db, other, sha3).1 == Done
    && Call(Call(db, other, sha3).0, op, sha3).1 == Repeat
  }

  /** So, for a message not yet stored, the next repeat of it is sure to be that message if and only if its state
      fixes the type or no other participant can be read as its recipient. */
  lemma {:induction false} NextRepeatIsExactIff(dbs: seq<Db>, ops: seq<Op>, sha3: string -> string, op: Op)
    requires Run(dbs, ops, sha3) && GoodHash(sha3) && op.EnqueueOutbox? && NormalizeOutbox(op).Some?
    requires OutboxObstacle(dbs[|ops|], NormalizeOutbox(op).value).None?
    requires !TextStored(dbs[|ops|].outbox, NormalizeOutbox(op).value)
    ensures var x, db := NormalizeOutbox(op).value, dbs[|ops|];
            (forall other: Op :: Displaces(db, other, op, sha3) ==> NormalizeOutbox(other) == Some(x)) <==>
            ExpectedMsgType(x.state).Some? || !Ambiguous(db.workflows[x.escrow].participants, x.to, x.msgType)
  {
    assert |dbs| == |ops| + 1;
    hide Call, NormalizeOutbox, GoodHash, SameText, OutboxKey, Ambiguous, ExpectedMsgType, Run;
    var x, db := NormalizeOutbox(op).value, dbs[|ops|];
    if ExpectedMsgType(x.state).Some? || !Ambiguous(db.workflows[x.escrow].participants, x.to, x.msgType) {
      forall other: Op | Displaces(db, other, op, sha3)
        ensures NormalizeOutbox(other) == Some(x)
      {
        OnlyItselfRepeats(dbs, ops, sha3, op, other);
      }
    } else {
      var other := RepeatCanBeWrong(dbs, ops, sha3, op);
      assert Displaces(db, other, op, sha3);
    }
  }

  lemma OnlyItselfRepeats(dbs: seq<Db>, ops: seq<Op>, sha3: string -> string, op: Op, other: Op)
    requires Run(dbs, ops, sha3) && GoodHash(sha3) && op.EnqueueOutbox? && NormalizeOutbox(op).Some?
    requires OutboxObstacle(dbs[|ops|], NormalizeOutbox(op).value).None?
    requires !TextStored(dbs[|ops|].outbox, NormalizeOutbox(op).value)
    requires var x := NormalizeOutbox(op).value;
             ExpectedMsgType(x.state).Some? || !Ambiguous(dbs[|ops|].workflows[x.escrow].participants, x.to, x.msgType)
    requires Displaces(dbs[|ops|], other, op, sha3)
    ensures NormalizeOutbox(other) == NormalizeOutbox(op)
  {
    assert |dbs| == |ops| + 1;
    hide Call, NormalizeOutbox, GoodHash, SameText, OutboxKey, Ambiguous, ExpectedMsgType, Run, OutboxObstacle, Unmistakable, TextStored, ExactlyStored;
    var x, db, after := NormalizeOutbox(op).value, dbs[|ops|], Call(dbs[|ops|], other, sha3).0;
    EnqueueAppends(db, other, sha3);
    RunExtends(dbs, ops, other, sha3);
    EnqueueKeepsObstacle(db, other, sha3, x);
    OtherCallsKeepWorkflows(db, other, sha3);
    ObstacleFree(db, x);
    IsUnmistakable(after, x);
    assert (dbs + [after])[|ops + [other]|] == after;
    RepeatIsExact(dbs + [after], ops + [other], sha3, |ops + [other]|, op);
    LastIsIt(db.outbox, after.outbox[|db.outbox|], x);
  }

  /** If appending a row stores `x`, the row is `x`. */
  lemma LastIsIt(outbox: seq<OutboxRow>, row: OutboxRow, x: OutboxInput)
    requires !TextStored(outbox, x) && ExactlyStored(outbox + [row], x)
    ensures InputOf(row) == x
  {
    hide SameText;
    SameTextReflexive(x);
  }

  lemma IsUnmistakable(db: Db, x: OutboxInput)
    requires x.escrow in db.workflows
    requires ExpectedMsgType(x.state).Some? || !Ambiguous(db.workflows[x.escrow].participants, x.to, x.msgType)
    ensures Unmistakable(db, x)
  {
  }

  lemma ObstacleFree(db: Db, x: OutboxInput)
    requires OutboxObstacle(db, x).None?
    ensures x.escrow in db.workflows
  {
  }

  // ---- a run in which a message is lost ----

  const COLON_PARTICIPANTS: seq<string> := ["a:b", "a"]

  lemma ColonParticipantsAreNormal()
    ensures NormalizeParticipants(COLON_PARTICIPANTS) == Some(COLON_PARTICIPANTS)
  {
    PlainWord("a:b");
    PlainWord("a");
    assert |"a:b"| != |"a"|;
    TwoParticipants("a:b", "a");
  }

  lemma TwoParticipants(p: string, q: string)
    requires NormalizeNonEmpty(p) == Some(p) && NormalizeNonEmpty(q) == Some(q) && p != q
    ensures NormalizeParticipants([p, q]) == Some([p, q])
  {
    hide NormalizeNonEmpty;
    var ps := [p, q];
    assert ps[..|ps| - 1] == [p] && [p][..|[p]| - 1] == [] && [] + [p] == [p] && [p] + [q] == ps;
    assert NormalizeParticipants([p]) == Some([p]);
  }

  lemma PlainWord(s: string)
    requires s == "a:b" || s == "a" || s == "c" || s == "b:c"
    ensures NormalizeNonEmpty(s) == Some(s)
  {
    assert s == "a:b" ==> s[0] == 'a' && s[2] == 'b';
    assert s == "b:c" ==> s[0] == 'b' && s[2] == 'c';
  }

  lemma PassesInNew(db: Db, e: string, to: string, msgType: string, json: string, sha3: string -> string)
    requires IsLowerHex(e, 32) && e in db.workflows && db.workflows[e].state == New && to in db.workflows[e].participants
    requires NormalizeNonEmpty(to) == Some(to) && NormalizeNonEmpty(msgType) == Some(msgType)
    ensures var x := OutboxInput(e, New, to, msgType, json);
            && NormalizeOutbox(EnqueueOutbox(e, New, to, msgType, json)) == Some(x) && OutboxObstacle(db, x).None?
            && Call(db, EnqueueOutbox(e, New, to, msgType, json), sha3).1
               == if HasIdemKey(db.outbox, OutboxKey(x, sha3)) then Repeat else Done
  {
    hide Call, NormalizeHex, NormalizeNonEmpty, OutboxKey, HasIdemKey, CanTransition;
    CallIsItsFunction(db, EnqueueOutbox(e, New, to, msgType, json), sha3);
  }

  /** With participants "a:b" and "a" in state New, whatever the hash: once a message of type "c" to "a:b" is stored,
      the different message of type "b:c" to "a" with the same payload is answered as a repeat and not stored. */
  lemma LostMessage(e: string, s: string, json: string, sha3: string -> string)
    returns (dbs: seq<Db>, ops: seq<Op>, op: Op)
    requires IsLowerHex(e, 32) && IsLowerHex(s, 64)
    ensures Run(dbs, ops, sha3) && op == EnqueueOutbox(e, New, "a", "b:c", json)
    ensures Call(dbs[|ops|], op, sha3) == (dbs[|ops|], Repeat)
    ensures NormalizeOutbox(op) == Some(OutboxInput(e, New, "a", "b:c", json))
    ensures !ExactlyStored(dbs[|ops|].outbox, NormalizeOutbox(op).value)
  {
    hide Run, Call, IsLowerHex, NormalizeNonEmpty, NormalizeOutbox, OutboxObstacle, OutboxMaterial;
    ColonParticipantsAreNormal();
    var ps := COLON_PARTICIPANTS;
    var d0 := Empty.(workflows := map[e := Instance(New, s, ps)]);
    EmptyRun(sha3);
    CreateGranted(Empty, e, s, ps, sha3);
    dbs, ops := ExtendRun([Empty], [], CreateWorkflow(e, s, ps), sha3);
    PlainWord("a:b");
    PlainWord("c");
    PlainWord("a");
    PlainWord("b:c");
    assert ps[0] == "a:b" && ps[1] == "a";
    var first := EnqueueOutbox(e, New, "a:b", "c", json);
    PassesInNew(d0, e, "a:b", "c", json, sha3);
    EnqueueAppends(d0, first, sha3);
    OtherCallsKeepWorkflows(d0, first, sha3);
    dbs, ops := ExtendRun(dbs, ops, first, sha3);
    var d1 := dbs[|ops|];
    op := EnqueueOutbox(e, New, "a", "b:c", json);
    PassesInNew(d1, e, "a", "b:c", json, sha3);
    SameKeyText(e, json, sha3);
    assert d1.outbox[0].idemKey == OutboxKey(OutboxInput(e, New, "a", "b:c", json), sha3);
    RepeatKeepsTables(d1, op, sha3);
    assert |"a:b"| != |"a"|;
  }

  lemma EmptyRun(sha3: string -> string)
    ensures Run([Empty], [], sha3)
  {
  }

  lemma SameKeyText(e: string, json: string, sha3: string -> string)
    ensures OutboxKey(OutboxInput(e, New, "a:b", "c", json), sha3) == OutboxKey(OutboxInput(e, New, "a", "b:c", json), sha3)
  {
    assert Addressed("a:b", "c") == Addressed("a", "b:c");
  }

  lemma RepeatKeepsTables(db: Db, op: Op, sha3: string -> string)
    requires op.EnqueueOutbox? && Call(db, op, sha3).1 == Repeat
    ensures Call(db, op, sha3).0 == db
  {
    hide Call, DoEnqueue;
    CallIsItsFunction(db, op, sha3);
  }
}
