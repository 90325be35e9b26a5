/** The quorum-proof table in a run. */
module ProofStore {
  import opened Wrappers
  import opened Orchestrator

  /** The call stores `proof` under `key`, and does so while the workflow is in a signing state. */
  ghost predicate Stores(db: Db, op: Op, key: ProofKey, proof: Proof) {
    && op.UpsertProof? && NormalizeProof(op) == Some((key, proof))
    && key.escrow in db.workflows && AllowsSigning(db.workflows[key.escrow].state)
    && !ReqIdInUse(db.proofs, key, proof.reqId)
  }

  /** A call stores one proof or leaves the table alone. */
  lemma CallOnProofs(db: Db, op: Op, sha3: string -> string)
    ensures op.UpsertProof? && Call(db, op, sha3).1 == Done ==>
              exists key, proof :: Stores(db, op, key, proof) && Call(db, op, sha3).0.proofs == db.proofs[key := proof]
    ensures !(op.UpsertProof? && Call(db, op, sha3).1 == Done) ==> Call(db, op, sha3).0.proofs == db.proofs
  {
    hide NormalizeProof, AllowsSigning, ReqIdInUse;
    if op.UpsertProof? {
      assert Call(db, op, sha3) == DoUpsertProof(db, op);
      if Call(db, op, sha3).1 == Done {
        var (key, proof) := NormalizeProof(op).value;
        assert Stores(db, op, key, proof);
      }
    } else {
      OtherCallsKeepProofs(db, op, sha3);
    }
  }

  /** A proof is never removed: its key stays. */
  lemma {:induction false} ProofStays(dbs: seq<Db>, ops: seq<Op>, sha3: string -> string, i: nat, j: nat, key: ProofKey)
    requires Run(dbs, ops, sha3) && i <= j <= |ops| && key in dbs[i].proofs
    ensures key in dbs[j].proofs
    decreases j
  {
    hide Call, Stores;
    if i < j {
      ProofStays(dbs, ops, sha3, i, j - 1, key);
      assert dbs[j - 1 + 1] == Call(dbs[j - 1], ops[j - 1], sha3).0;
      CallOnProofs(dbs[j - 1], ops[j - 1], sha3);
    }
  }

  /** Every stored proof is well formed, and no two proofs share a request id. */
  ghost predicate Sound(proofs: map<ProofKey, Proof>) {
    && (forall k :: k in proofs ==> WellFormedProof(k, proofs[k]))
    && (forall k, l :: k in proofs && l in proofs && k != l ==> proofs[k].reqId != proofs[l].reqId)
  }

  lemma {:induction false} ProofsAreSound(dbs: seq<Db>, ops: seq<Op>, sha3: string -> string, n: nat)
    requires Run(dbs, ops, sha3) && n <= |ops|
    ensures Sound(dbs[n].proofs)
  {
    hide Call, NormalizeProof, WellFormedProof, AllowsSigning;
    if 0 < n {
      ProofsAreSound(dbs, ops, sha3, n - 1);
      assert dbs[n - 1 + 1] == Call(dbs[n - 1], ops[n - 1], sha3).0;
      CallOnProofs(dbs[n - 1], ops[n - 1], sha3);
    }
  }

  /** A proof in the table was put there by some earlier call, at which time the workflow was in a signing state. */
  lemma {:induction false} ProofWasStored(dbs: seq<Db>, ops: seq<Op>, sha3: string -> string, n: nat, key: ProofKey)
    returns (i: nat)
    requires Run(dbs, ops, sha3) && n <= |ops| && key in dbs[n].proofs
    ensures i < n && Stores(dbs[i], ops[i], key, dbs[n].proofs[key])
    decreases n
  {
    hide Call, Stores;
    i := n - 1;
    assert dbs[i + 1] == Call(dbs[i], ops[i], sha3).0;
    CallOnProofs(dbs[i], ops[i], sha3);
    if !Stores(dbs[i], ops[i], key, dbs[n].proofs[key]) {
      i := ProofWasStored(dbs, ops, sha3, n - 1, key);
    }
  }
}
