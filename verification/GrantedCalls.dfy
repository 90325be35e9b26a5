/** Calls that are granted, with what they change: the steps of concrete runs. */
module GrantedCalls {
  import opened Wrappers
  import opened Text
  import opened Workflow
  import opened Orchestrator

  lemma CreateGranted(db: Db, e: string, s: string, ps: seq<string>, sha3: string -> string)
    requires IsLowerHex(e, 32) && IsLowerHex(s, 64) && e !in db.workflows
    requires ps != [] && NormalizeParticipants(ps) == Some(ps)
    ensures Call(db, CreateWorkflow(e, s, ps), sha3).0 == db.(workflows := db.workflows[e := Instance(New, s, ps)])
  {
    hide NormalizeHex, NormalizeParticipants, Call;
    CallIsItsFunction(db, CreateWorkflow(e, s, ps), sha3);
  }

  lemma MoveGranted(db: Db, e: string, to: WorkflowState, sha3: string -> string)
    requires IsLowerHex(e, 32) && e in db.workflows && CanTransition(db.workflows[e].state, to)
    ensures Call(db, TransitionTo(e, to), sha3).0
         == db.(workflows := db.workflows[e := db.workflows[e].(state := to)])
  {
    hide NormalizeHex, CanTransition, Call;
    CallIsItsFunction(db, TransitionTo(e, to), sha3);
  }

  lemma ReleaseIsNormal()
    ensures NormalizeAction("release") == Some("release")
  {
    hide Trim, Lower, Utf8Len;
    PlainIsNormal("release");
  }

  lemma ProposalGranted(db: Db, e: string, t: string, sha3: string -> string)
    requires IsLowerHex(e, 32) && IsLowerHex(t, 64) && e in db.workflows && db.workflows[e].state == Funded
    ensures Call(db, UpsertProposal(e, "release", "00", t), sha3).0
         == db.(proposals := db.proposals[e := Proposal("release", "00", t)])
  {
    hide NormalizeHex, NormalizeAction, NormalizeEvenHex, Call;
    CallIsItsFunction(db, UpsertProposal(e, "release", "00", t), sha3);
    ReleaseIsNormal();
    ZerosAreNormal();
  }

  lemma ZerosAreNormal()
    ensures NormalizeEvenHex("00") == Some("00")
  {
    var z := "00";
    assert Trim(z) == z by {
      assert !IsWhitespace(z[0]) && !IsWhitespace(z[1]);
    }
    assert Utf8Len(z) == 2;
    assert Lower(z) == z;
  }

  lemma AdmissionGranted(db: Db, e: string, row: Admission, sha3: string -> string)
    requires IsLowerHex(e, 32) && e in db.workflows && row.action == "release"
    requires IsLowerHex(row.snapshotHash, 64) && row.snapshotHash == db.workflows[e].snapshotHash
    ensures Call(db, UpsertAdmission(e, row), sha3).0 == db.(admissions := db.admissions[e := row])
  {
    hide NormalizeHex, NormalizeAction, Call;
    CallIsItsFunction(db, UpsertAdmission(e, row), sha3);
    ReleaseIsNormal();
  }

  lemma RolesAreNormal()
    ensures NormalizeRole("arbiter") == Some("arbiter") && NormalizeRound("arbiter", "arbiter_first") == Some("arbiter_first")
    ensures NormalizeRole("seller") == Some("seller") && NormalizeRound("seller", "seller_second") == Some("seller_second")
  {
    hide Trim, Lower, Utf8Len;
    PlainIsNormal("arbiter");
    PlainIsNormal("seller");
    PlainIsNormal("arbiter_first");
    PlainIsNormal("seller_second");
    assert "seller"[0] != "arbiter"[0];
  }

  lemma PlainIsNormal(s: string)
    requires s != [] && forall i :: 0 <= i < |s| ==> 'a' <= s[i] <= 'z' || s[i] == '_'
    ensures Trim(s) == s && Lower(s) == s && Utf8Len(s) == |s|
  {
    hide Trim, Utf8Len;
  }

  lemma ProofGranted(db: Db, e: string, role: string, round: string, t: string, proof: Proof, sha3: string -> string)
    requires (role == "arbiter" && round == "arbiter_first") || (role == "seller" && round == "seller_second")
    requires IsLowerHex(e, 32) && IsLowerHex(t, 64) && IsLowerHex(proof.reqId, 64) && IsBounded(proof.jti, 256)
    requires e in db.workflows && db.workflows[e].state == Funded
    requires !ReqIdInUse(db.proofs, ProofKey(e, role, round, t), proof.reqId)
    ensures Call(db, UpsertProof(e, role, round, t, proof.jti, proof.reqId), sha3).0
         == db.(proofs := db.proofs[ProofKey(e, role, round, t) := proof])
  {
    hide NormalizeHex, NormalizeRole, NormalizeRound, Trim, Utf8Len, Call;
    RolesAreNormal();
    var op := UpsertProof(e, role, round, t, proof.jti, proof.reqId);
    assert NormalizeJti(proof.jti) == Some(proof.jti);
    assert NormalizeProof(op) == Some((ProofKey(e, role, round, t), proof));
    CallIsItsFunction(db, op, sha3);
  }

  /** One more call. */
  lemma ExtendRun(dbs: seq<Db>, ops: seq<Op>, op: Op, sha3: string -> string) returns (dbs': seq<Db>, ops': seq<Op>)
    requires Run(dbs, ops, sha3)
    ensures Run(dbs', ops', sha3) && dbs'[|ops'|] == Call(dbs[|ops|], op, sha3).0
  {
    RunExtends(dbs, ops, op, sha3);
    dbs', ops' := dbs + [Call(dbs[|ops|], op, sha3).0], ops + [op];
  }
}
