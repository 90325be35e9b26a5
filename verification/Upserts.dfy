/** What the upserts of the orchestrator store, in terms of what the operator typed. */
module Upserts {
  import opened Wrappers
  import opened Text
  import opened Workflow
  import opened Orchestrator

  function Folded(s: string): string {
    Lower(Trim(s))
  }

  lemma FoldedHex(s: string, n: nat)
    ensures NormalizeHex(s, n) == if IsLowerHex(Folded(s), n) then Some(Folded(s)) else None
  {
    hide Trim, Lower, AllHex, IsLowerHex, NormalizeHex;
    FoldedHexIff(Trim(s), n);
  }

  /** The fields of a proposal, once folded. */
  ghost predicate GoodProposal(e: string, a: string, d: string, t: string) {
    IsLowerHex(e, 32) && (a == "release" || a == "refund") && d != [] && |d| % 2 == 0 && AllHex(d) && IsLowerHex(t, 64)
  }

  lemma ProposalInput(escrow: string, action: string, txData: string, txset: string)
    ensures && NormalizeHex(escrow, 32).Some? && NormalizeAction(action).Some? && NormalizeEvenHex(txData).Some?
            && NormalizeHex(txset, 64).Some?
       <==> GoodProposal(Folded(escrow), Folded(action), Folded(txData), Folded(txset))
  {
    hide Trim, Lower, AllHex, IsLowerHex, NormalizeHex, NormalizeAction, NormalizeEvenHex;
    FoldedHex(escrow, 32);
    FoldedHex(txset, 64);
    FoldedHexIff(Trim(txData), 0);
  }

  /** A proposal is stored, folded, exactly for release or refund of an escrow between funding and quorum, with an even
      number of hex digits as transaction data; nothing else changes. */
  ghost predicate ProposalEffect(
    before: Db, after: Db, escrow: string, action: string, txData: string, txset: string, answer: Answer)
  {
    var e, a, d, t := Folded(escrow), Folded(action), Folded(txData), Folded(txset);
    && (answer == Done <==>
        && GoodProposal(e, a, d, t) && e in before.workflows
        && Rank(Funded) <= Rank(before.workflows[e].state) <= Rank(TxSignedQuorum))
    && (answer == Done ==> after.proposals == before.proposals[e := Proposal(a, d, t)])
    && after == before.(proposals := after.proposals) && (answer != Done ==> after == before)
  }

  lemma ProposalMeans(db: Db, escrow: string, action: string, txData: string, txset: string, sha3: string -> string)
    ensures var r := Call(db, UpsertProposal(escrow, action, txData, txset), sha3);
            ProposalEffect(db, r.0, escrow, action, txData, txset, r.1)
  {
    hide Trim, Lower, AllHex, IsLowerHex, NormalizeHex, NormalizeAction, NormalizeEvenHex, GoodProposal, Call;
    CallIsItsFunction(db, UpsertProposal(escrow, action, txData, txset), sha3);
    ProposalInput(escrow, action, txData, txset);
  }

  /** An artifact is stored exactly for release or refund and the workflow's own snapshot; only its snapshot hash and
      action are folded, and nothing else changes. */
  ghost predicate AdmissionEffect(before: Db, after: Db, escrow: string, row: Admission, answer: Answer) {
    var e, s, a := Folded(escrow), Folded(row.snapshotHash), Folded(row.action);
    && (answer == Done <==>
        && IsLowerHex(e, 32) && IsLowerHex(s, 64) && (a == "release" || a == "refund")
        && e in before.workflows && before.workflows[e].snapshotHash == s)
    && (answer == Done ==>
          after.admissions == before.admissions[e := Admission(s, a, row.trustEpoch, row.artifactHash, row.artifactJson)])
    && after == before.(admissions := after.admissions) && (answer != Done ==> after == before)
  }

  lemma AdmissionMeans(db: Db, escrow: string, row: Admission, sha3: string -> string)
    ensures var r := Call(db, UpsertAdmission(escrow, row), sha3);
            AdmissionEffect(db, r.0, escrow, row, r.1)
  {
    hide Trim, Lower, AllHex, IsLowerHex, NormalizeHex, NormalizeAction, Call;
    CallIsItsFunction(db, UpsertAdmission(escrow, row), sha3);
    FoldedHex(escrow, 32);
    FoldedHex(row.snapshotHash, 64);
  }

  /** A proof is stored, folded, exactly if it is then well formed, the escrow is between funding and submission and no
      other proof has its request id; nothing else changes. */
  ghost predicate ProofEffect(before: Db, after: Db, op: Op, answer: Answer)
    requires op.UpsertProof?
  {
    var (key, proof) := FoldedProof(op);
    && (answer == Done <==>
        && WellFormedProof(key, proof)
        && key.escrow in before.workflows && Rank(Funded) <= Rank(before.workflows[key.escrow].state) <= Rank(Submitted)
        && forall k :: k in before.proofs && k != key ==> before.proofs[k].reqId != proof.reqId)
    && (answer == Done ==> after.proofs == before.proofs[key := proof])
    && after == before.(proofs := after.proofs) && (answer != Done ==> after == before)
  }

  lemma ProofMeans(db: Db, op: Op, sha3: string -> string)
    requires op.UpsertProof?
    ensures ProofEffect(db, Call(db, op, sha3).0, op, Call(db, op, sha3).1)
  {
    hide NormalizeProof, WellFormedProof, FoldedProof, AllowsSigning, Rank, Call;
    CallIsItsFunction(db, op, sha3);
    ProofIff(op);
    var e := FoldedProof(op).0.escrow;
    if e in db.workflows {
      SigningIffRank(db.workflows[e].state);
    }
  }

  /** A letter the operator adds is filed last, under the folded escrow and otherwise as given; nothing else changes. */
  lemma LetterMeans(db: Db, escrow: string, letter: DeadLetter, sha3: string -> string)
    ensures var r := Call(db, AddDeadLetter(escrow, letter), sha3);
            && (r.1 == Done <==> IsLowerHex(Folded(escrow), 32))
            && (r.1 == Done ==> r.0 == db.(deadLetters := db.deadLetters + [letter.(escrow := Folded(escrow))]))
            && (r.1 != Done ==> r.0 == db)
  {
    hide Trim, Lower, AllHex, IsLowerHex, NormalizeHex, Call;
    CallIsItsFunction(db, AddDeadLetter(escrow, letter), sha3);
    FoldedHex(escrow, 32);
  }
}
