/** Issuer and verifier together: what an issued token rests on, and when the signer accepts it. */
module TokenAgreement {
  import opened Wrappers
  import opened MachineInts
  import opened Text
  import opened Keys
  import opened Workflow
  import opened Orchestrator
  import opened Claims
  import opened TokenIssuer
  import opened TokenVerifier
  import VerifyLimiter
  import opened StepLog
  import opened WorkflowHistory
  import opened ProofStore
  import opened Radix
  import XmrCodec

  /** The issuer's six reads, at these positions of the run, in order. */
  ghost predicate ReadAt(dbs: seq<Db>, at: seq<nat>, r: Reads) {
    && |at| == 6 && (forall k, l :: 0 <= k <= l < 6 ==> at[k] <= at[l]) && at[5] < |dbs|
    && r == Reads(dbs[at[0]], dbs[at[1]], dbs[at[2]], dbs[at[3]], dbs[at[4]], dbs[at[5]])
  }

  /** The fields of issued claims, read off the parameters and the tables. */
  lemma IssuedFields(p: Params, r: Reads, now: u64, jti: string, c: Claims)
    requires Issue(p, r, now, jti) == Ok(c)
    ensures p.escrow in r.workflow.workflows && AllowsSigning(r.workflow.workflows[p.escrow].state)
    ensures NormalizeHex(r.workflow.workflows[p.escrow].snapshotHash, 64) == Some(c.snapshotHash)
    ensures HasFields(c, p, now, jti)
    ensures p.epoch.Some? ==> c.admissionHash.Some?
    ensures c.admissionHash.Some? ==> IsLowerHex(c.admissionHash.value, 64)
    ensures p.op == SubmitMultisig ==> ReadBundle(p.escrow, p.txset, r).Ok?
    ensures p.op == SubmitMultisig ==>
              var b := ReadBundle(p.escrow, p.txset, r).value;
              && c.proofArbiterJti == NormalizeBounded(b.arbiter.jti, 256) && c.proofArbiterJti.Some?
              && c.proofSellerJti == NormalizeBounded(b.seller.jti, 256) && c.proofSellerJti.Some?
              && c.proofArbiterReqId == NormalizeHex(b.arbiter.reqId, 64) && c.proofArbiterReqId.Some?
              && c.proofSellerReqId == NormalizeHex(b.seller.reqId, 64) && c.proofSellerReqId.Some?
  {
    hide NormalizeHex, NormalizeBounded, AllowsSigning, ReadBundle, WithProofs, AdmissionFor, IsLowerHex;
    hide OpName, RoleName, IssuerRound;
  }

  // ---- what a token rests on ----

  /** Whenever a token is issued, whatever ran between the reads, the workflow had passed every state from New to
      Funded once and in order. */
  lemma IssuedAfterFunding(
    dbs: seq<Db>, ops: seq<Op>, sha3: string -> string, at: seq<nat>, r: Reads, p: Params, now: u64, jti: string, c: Claims)
    returns (starts: seq<nat>)
    requires Run(dbs, ops, sha3) && ReadAt(dbs, at, r) && Issue(p, r, now, jti) == Ok(c)
    ensures PassedInOrder(dbs, p.escrow, at[0], starts) && Rank(Funded) + 1 <= |starts|
  {
    hide Call, Issue;
    IssuedFields(p, r, now, jti, c);
    starts := HistoryInOrder(dbs, ops, sha3, at[0], p.escrow);
  }

  /** The claims name the workflow's snapshot, which it keeps ever after. */
  lemma IssuedSnapshotStays(
    dbs: seq<Db>, ops: seq<Op>, sha3: string -> string, at: seq<nat>, r: Reads, p: Params, now: u64, jti: string, c: Claims,
    j: nat)
    requires Run(dbs, ops, sha3) && ReadAt(dbs, at, r) && Issue(p, r, now, jti) == Ok(c) && at[0] <= j <= |ops|
    ensures p.escrow in dbs[j].workflows
    ensures NormalizeHex(dbs[j].workflows[p.escrow].snapshotHash, 64) == Some(c.snapshotHash)
  {
    hide Call, Issue, NormalizeHex;
    IssuedFields(p, r, now, jti, c);
    WorkflowKeepsTerms(dbs, ops, sha3, at[0], j, p.escrow);
    var before, after := dbs[at[0]].workflows[p.escrow], dbs[j].workflows[p.escrow];
    assert before.(state := New).snapshotHash == after.(state := New).snapshotHash;
  }

  /** The proof under `key` at position `n` was stored by an earlier call in a signing state, and its key stays. */
  ghost predicate Backed(dbs: seq<Db>, ops: seq<Op>, n: nat, key: ProofKey, jti: Option<string>, reqId: Option<string>) {
    && n < |dbs| == |ops| + 1 && key in dbs[n].proofs
    && jti == Some(dbs[n].proofs[key].jti) && reqId == Some(dbs[n].proofs[key].reqId)
    && (exists i: nat :: i < n && Stores(dbs[i], ops[i], key, dbs[n].proofs[key]))
    && (forall j :: n <= j < |dbs| ==> key in dbs[j].proofs)
  }

  /** Submit claims carry the arbiter's and the seller's stored proofs for exactly this escrow and transaction
      set; the proofs are never removed, and their token ids and request ids differ. */
  lemma {:induction false} SubmitClaimsAreBacked(
    dbs: seq<Db>, ops: seq<Op>, sha3: string -> string, at: seq<nat>, r: Reads, p: Params, now: u64, jti: string, c: Claims)
    requires Run(dbs, ops, sha3) && ReadAt(dbs, at, r) && Issue(p, r, now, jti) == Ok(c) && p.op == SubmitMultisig
    ensures c.escrow == p.escrow && c.txset == p.txset
    ensures Backed(dbs, ops, at[4], ArbiterKey(p.escrow, p.txset), c.proofArbiterJti, c.proofArbiterReqId)
    ensures Backed(dbs, ops, at[5], SellerKey(p.escrow, p.txset), c.proofSellerJti, c.proofSellerReqId)
    ensures c.proofArbiterJti != c.proofSellerJti && c.proofArbiterReqId != c.proofSellerReqId
  {
    assert at[5] <= |ops|;
    hide Run, Issue, NormalizeHex, NormalizeBounded, Backed, ReadBundle;
    IssuedFields(p, r, now, jti, c);
    BundleRead(p.escrow, p.txset, r);
    BackedAt(dbs, ops, sha3, at[4], ArbiterKey(p.escrow, p.txset));
    BackedAt(dbs, ops, sha3, at[5], SellerKey(p.escrow, p.txset));
  }

  lemma BundleRead(escrow: string, txset: string, r: Reads)
    requires ReadBundle(escrow, txset, r).Ok?
    ensures var a, s, b := ArbiterKey(escrow, txset), SellerKey(escrow, txset), ReadBundle(escrow, txset, r).value;
            && a in r.arbiter.proofs && b.arbiter == r.arbiter.proofs[a]
            && s in r.seller.proofs && b.seller == r.seller.proofs[s]
            && b.arbiter.jti != b.seller.jti && b.arbiter.reqId != b.seller.reqId
  {
  }

  /** A proof found in a reachable table is backed, and normalising it again changes nothing. */
  lemma BackedAt(dbs: seq<Db>, ops: seq<Op>, sha3: string -> string, n: nat, key: ProofKey)
    requires Run(dbs, ops, sha3) && n <= |ops| && key in dbs[n].proofs
    ensures var proof := dbs[n].proofs[key];
            && Backed(dbs, ops, n, key, Some(proof.jti), Some(proof.reqId))
            && NormalizeBounded(proof.jti, 256) == Some(proof.jti) && NormalizeHex(proof.reqId, 64) == Some(proof.reqId)
            && WellFormedProof(key, proof)
  {
    hide Call, Stores;
    ProofsAreSound(dbs, ops, sha3, n);
    assert WellFormedProof(key, dbs[n].proofs[key]);
    var i := ProofWasStored(dbs, ops, sha3, n, key);
    forall j | n <= j < |dbs| ensures key in dbs[j].proofs {
      ProofStays(dbs, ops, sha3, n, j, key);
    }
  }

  // ---- agreement ----

  /** Lifetime of the issued claims: the ttl, unless the clock is at the end of its range. */
  function Lifetime(p: Params, now: u64): nat {
    SatAddU64(now, p.ttl) - now
  }

  /** The signer is the one the token is for. */
  predicate SameParties(p: Params, cfg: SignerConfig) {
    && p.role == cfg.role && p.issuer == cfg.issuer && p.audience == cfg.audience
    && p.wallet == cfg.wallet && p.sandbox == cfg.sandbox && Lower(p.nettype) == cfg.nettype
    && (cfg.epoch.Some? ==> cfg.epoch.value != [] && p.epoch.Some? && Trim(p.epoch.value) == cfg.epoch.value)
  }

  /** The signer is asked about what the token is for. */
  predicate SameSubject(p: Params, op: TokenOp, snapshotHash: string, req: Request) {
    && p.op == op && p.escrow == req.escrow && NormalizeHex(req.txset, 64) == Some(p.txset)
    && NormalizeHex(req.snapshotHash, 64) == NormalizeHex(snapshotHash, 64)
  }

  /** Both clock readings are inside the validity window, widened by the skew. */
  predicate InWindow(p: Params, issuedAt: u64, cfg: SignerConfig, libNow: u64, now: u64) {
    && issuedAt <= libNow + cfg.skew && libNow <= issuedAt + Lifetime(p, issuedAt) + cfg.skew
    && issuedAt <= SatAddU64(now, cfg.skew) && 0 < Lifetime(p, issuedAt) <= cfg.maxTtl
  }

  /** The stored proofs carry the request ids the signers computed. */
  predicate ProofsFit(p: Params, r: Reads, sha256: string -> string) {
    var a, s := ArbiterKey(p.escrow, p.txset), SellerKey(p.escrow, p.txset);
    && a in r.arbiter.proofs
    && r.arbiter.proofs[a].reqId == SignReqId(p.escrow, "sign_multisig", "arbiter_first", p.txset, sha256)
    && s in r.seller.proofs
    && r.seller.proofs[s].reqId == SignReqId(p.escrow, "sign_multisig", "seller_second", p.txset, sha256)
  }

  /** When the signer accepts an issued token: a condition on what the operator, the signer and the clocks bring. */
  predicate Agrees(
    p: Params, r: Reads, issuedAt: u64, cfg: SignerConfig, op: TokenOp, req: Request, libNow: u64, now: u64,
    sha256: string -> string)
    requires p.escrow in r.workflow.workflows
  {
    && SameParties(p, cfg) && SameSubject(p, op, r.workflow.workflows[p.escrow].snapshotHash, req)
    && InWindow(p, issuedAt, cfg, libNow, now) && Utf8Len(p.subject) <= 128
    && (op == SubmitMultisig ==> ProofsFit(p, r, sha256))
  }

  /** The issuer, the signer and the proof table use the same rounds, and only roles have one. */
  lemma RoundsAgree(op: TokenOp, role: Role)
    ensures IssuerRound(op, role) == SignerRound(op, role)
    ensures RoundOfRole(RoleName(role)) == Some(SignRound(role))
    ensures forall name :: RoundOfRole(name).Some? ==> exists r :: name == RoleName(r)
  {
    assert RoleName(role)[0] == 'a' <==> role == Arbiter;
    assert RoleName(role)[0] == 's' <==> role == Seller;
    assert "arbiter" == RoleName(Arbiter) && "seller" == RoleName(Seller) && "buyer" == RoleName(Buyer);
  }

  lemma {:induction false} DecimalLength(n: nat, k: nat)
    requires 1 <= k && n < Pow(10, k)
    ensures |Decimal(n)| <= k
    decreases k
  {
    if 10 <= n {
      DecimalLength(n / 10, k - 1);
    }
  }

  /** The issuer's token ids pass the signer's check on them. */
  lemma JtiFits(now: u64, role: Role, op: TokenOp, random: seq<byte>)
    requires |random| == 16
    ensures var jti := NewJti(now, role, op, random); Trim(jti) != [] && Utf8Len(jti) <= 256
  {
    hide Utf8Len, Decimal, XmrCodec.HexEncode, Trim, Pow, RoleName, OpName;
    var front := "orch-" + Decimal(now) + "-" + RoleName(role) + "-" + OpName(op) + "-";
    var hex := XmrCodec.HexEncode(random);
    assert |Decimal(now)| <= 20 by {
      TenToTwenty();
      DecimalLength(now, 20);
    }
    AsciiNames(role, op);
    assert IsAscii(front) && IsAscii(hex);
    assert NewJti(now, role, op, random) == front + hex;
    assert (front + hex)[0] == 'o' && IsLowerHexDigit((front + hex)[|front| + 31]);
  }

  lemma TenToTwenty()
    ensures Pow(10, 20) == 100000000000000000000
  {
    assert Pow(10, 5) == 100000;
    assert Pow(10, 10) == 10000000000;
    assert Pow(10, 15) == 1000000000000000;
  }

  lemma AsciiNames(role: Role, op: TokenOp)
    ensures IsAscii(RoleName(role)) && |RoleName(role)| <= 7
    ensures IsAscii(OpName(op)) && |OpName(op)| <= 15
  {
  }

  lemma TimeChecks(c: Claims, p: Params, issuedAt: u64, jti: string, cfg: SignerConfig, libNow: u64, now: u64)
    requires HasFields(c, p, issuedAt, jti)
    ensures JwtAccepts(cfg, c, libNow) && LifetimeObstacle(cfg, c, now).None? <==>
            p.issuer == cfg.issuer && p.audience == cfg.audience && InWindow(p, issuedAt, cfg, libNow, now)
  {
  }

  lemma BindingChecks(c: Claims, p: Params, issuedAt: u64, jti: string, cfg: SignerConfig, round: string, req: Request)
    requires HasFields(c, p, issuedAt, jti) && IsBounded(p.subject, 256) && IsBounded(p.nettype, 32)
    ensures BindingObstacle(cfg, c, round, req).None? <==>
              && Utf8Len(p.subject) <= 128 && p.role == cfg.role && c.round == round && p.escrow == req.escrow
              && p.sandbox == cfg.sandbox && p.wallet == cfg.wallet && Lower(p.nettype) == cfg.nettype
  {
    hide Trim, Utf8Len, Lower, RoleName;
    NamesDiffer(p.role, cfg.role, p.op, p.op);
  }

  lemma EpochChecks(c: Claims, p: Params, issuedAt: u64, jti: string, cfg: SignerConfig)
    requires HasFields(c, p, issuedAt, jti) && (p.epoch.Some? ==> c.admissionHash.Some?)
    requires c.admissionHash.Some? ==> IsLowerHex(c.admissionHash.value, 64)
    ensures EpochObstacle(cfg, c).None? <==>
            (cfg.epoch.Some? ==> cfg.epoch.value != [] && p.epoch.Some? && Trim(p.epoch.value) == cfg.epoch.value)
  {
    hide NormalizeHex;
    if c.admissionHash.Some? {
      LowerHexIsTrimmed(c.admissionHash.value);
    }
  }

  lemma LowerHexIsTrimmed(s: string)
    requires IsLowerHex(s, 64)
    ensures NormalizeNonEmpty(s) == Some(s) && NormalizeHex(s, 64) == Some(s)
  {
    hide Trim, NormalizeHex;
    assert IsLowerHexDigit(s[0]) && IsLowerHexDigit(s[63]);
  }

  lemma HashChecks(c: Claims, p: Params, issuedAt: u64, jti: string, req: Request)
    requires HasFields(c, p, issuedAt, jti) && IsLowerHex(p.txset, 64) && IsLowerHex(c.snapshotHash, 64)
    requires Trim(jti) != [] && Utf8Len(jti) <= 256
    ensures HashObstacle(c, req).None? <==>
            NormalizeHex(req.txset, 64) == Some(p.txset) && NormalizeHex(req.snapshotHash, 64) == Some(c.snapshotHash)
  {
    hide NormalizeHex, Trim, Utf8Len;
  }

  /** The common checks pass exactly when parties, subject and window agree and the subject id is short enough. */
  lemma CommonChecks(
    c: Claims, p: Params, issuedAt: u64, jti: string, cfg: SignerConfig, op: TokenOp, req: Request, libNow: u64, now: u64)
    requires ValidParams(p) && HasFields(c, p, issuedAt, jti) && (p.epoch.Some? ==> c.admissionHash.Some?)
    requires c.admissionHash.Some? ==> IsLowerHex(c.admissionHash.value, 64)
    requires IsLowerHex(c.snapshotHash, 64) && Trim(jti) != [] && Utf8Len(jti) <= 256
    ensures CommonObstacle(cfg, op, c, req, libNow, now).None? <==>
              && SameParties(p, cfg) && SameSubject(p, op, c.snapshotHash, req)
              && InWindow(p, issuedAt, cfg, libNow, now) && Utf8Len(p.subject) <= 128
  {
    hide JwtAccepts, LifetimeObstacle, BindingObstacle, EpochObstacle, HashObstacle, InWindow, NormalizeHex, Lower, Trim, Utf8Len;
    hide OpName, RoleName, IssuerRound, SignerRound, IsBounded, IsLowerHex;
    TimeChecks(c, p, issuedAt, jti, cfg, libNow, now);
    BindingChecks(c, p, issuedAt, jti, cfg, SignerRound(op, cfg.role), req);
    EpochChecks(c, p, issuedAt, jti, cfg);
    HashChecks(c, p, issuedAt, jti, req);
    LowerHexIsTrimmed(c.snapshotHash);
    NamesDiffer(p.role, cfg.role, p.op, op);
    RoundsAgree(p.op, p.role);
  }

  /** The proof checks pass exactly when the stored request ids are the signers'. */
  lemma ProofChecks(
    dbs: seq<Db>, ops: seq<Op>, sha3: string -> string, at: seq<nat>, r: Reads, p: Params, issuedAt: u64, jti: string,
    c: Claims, req: Request, sha256: string -> string)
    requires Run(dbs, ops, sha3) && ReadAt(dbs, at, r) && Issue(p, r, issuedAt, jti) == Ok(c) && p.op == SubmitMultisig
    requires p.escrow == req.escrow && NormalizeHex(req.txset, 64) == Some(p.txset)
    ensures ProofObstacle(c, req, sha256).None? <==> ProofsFit(p, r, sha256)
  {
    assert at[5] <= |ops|;
    hide Run, Issue, NormalizeHex, NormalizeBounded, Backed, SignReqId, ProofObstacle, ReadBundle, WellFormedProof;
    IssuedFields(p, r, issuedAt, jti, c);
    BundleRead(p.escrow, p.txset, r);
    var a, s := ArbiterKey(p.escrow, p.txset), SellerKey(p.escrow, p.txset);
    BackedAt(dbs, ops, sha3, at[4], a);
    BackedAt(dbs, ops, sha3, at[5], s);
    PlainProofChecks(c, req, p.txset, a, r.arbiter.proofs[a], s, r.seller.proofs[s], sha256);
  }

  lemma PlainProofChecks(
    c: Claims, req: Request, txset: string, a: ProofKey, arbiter: Proof, s: ProofKey, seller: Proof,
    sha256: string -> string)
    requires WellFormedProof(a, arbiter) && WellFormedProof(s, seller) && NormalizeHex(req.txset, 64) == Some(txset)
    requires arbiter.jti != seller.jti && arbiter.reqId != seller.reqId
    requires c.proofArbiterJti == Some(arbiter.jti) && c.proofArbiterReqId == Some(arbiter.reqId)
    requires c.proofSellerJti == Some(seller.jti) && c.proofSellerReqId == Some(seller.reqId)
    ensures ProofObstacle(c, req, sha256).None? <==>
              && arbiter.reqId == SignReqId(req.escrow, "sign_multisig", "arbiter_first", txset, sha256)
              && seller.reqId == SignReqId(req.escrow, "sign_multisig", "seller_second", txset, sha256)
  {
    hide NormalizeHex, SignReqId, Trim, Utf8Len, RoundOfRole;
    LowerHexIsTrimmed(arbiter.reqId);
    LowerHexIsTrimmed(seller.reqId);
  }

  /** Issued claims pass the signer's checks if and only if issuer and signer agree. */
  lemma {:induction false} ClaimsPassIff(
    dbs: seq<Db>, ops: seq<Op>, sha3: string -> string, at: seq<nat>, r: Reads, p: Params, issuedAt: u64, jtiAt: u64,
    random: seq<byte>, c: Claims, cfg: SignerConfig, op: TokenOp, req: Request, libNow: u64, now: u64,
    sha256: string -> string)
    requires Run(dbs, ops, sha3) && ReadAt(dbs, at, r) && ValidParams(p) && |random| == 16
    requires Issue(p, r, issuedAt, NewJti(jtiAt, p.role, p.op, random)) == Ok(c)
    ensures p.escrow in r.workflow.workflows
    ensures Obstacle(cfg, op, c, req, libNow, now, sha256).None? <==>
            Agrees(p, r, issuedAt, cfg, op, req, libNow, now, sha256)
    ensures Agrees(p, r, issuedAt, cfg, op, req, libNow, now, sha256) ==>
              ReqIdFor(op, c, req, sha256) == SignReqId(p.escrow, OpName(op), SignerRound(op, cfg.role), p.txset, sha256)
  {
    hide Run, Issue, NormalizeHex, CommonObstacle, ProofObstacle, NewJti, InWindow, ProofsFit, Trim, Utf8Len, Lower;
    hide OpName, RoleName, IssuerRound, SignerRound, IsBounded, IsLowerHex, SignReqId;
    var jti := NewJti(jtiAt, p.role, p.op, random);
    JtiFits(jtiAt, p.role, p.op, random);
    IssuedFields(p, r, issuedAt, jti, c);
    CommonChecks(c, p, issuedAt, jti, cfg, op, req, libNow, now);
    LowerHexIsTrimmed(c.snapshotHash);
    RoundsAgree(p.op, p.role);
    if op == SubmitMultisig && SameSubject(p, op, c.snapshotHash, req) {
      ProofChecks(dbs, ops, sha3, at, r, p, issuedAt, jti, c, req, sha256);
    }
  }

  /** An issued token, or a copy of it whose signature does not verify, is accepted if and only if the limiter has
      room for its digest, the signature verifies, and issuer and signer agree. The request id is then fixed by
      escrow, operation, role and transaction set. */
  lemma {:induction false} IssuedIsAcceptedIff(
    dbs: seq<Db>, ops: seq<Op>, sha3: string -> string, at: seq<nat>, r: Reads, p: Params, issuedAt: u64, jtiAt: u64,
    random: seq<byte>, c: Claims, cfg: SignerConfig, op: TokenOp, req: Request, libNow: u64, now: u64,
    sha256: string -> string, token: string, decode: string -> Option<Claims>,
    entries: VerifyLimiter.Entries, limits: VerifyLimiter.Config, limiterNow: u64, victim: string)
    requires Run(dbs, ops, sha3) && ReadAt(dbs, at, r) && ValidParams(p) && |random| == 16
    requires Issue(p, r, issuedAt, NewJti(jtiAt, p.role, p.op, random)) == Ok(c)
    requires decode(token) == None || decode(token) == Some(c)
    ensures p.escrow in r.workflow.workflows
    ensures var allowed := VerifyLimiter.Allowed(entries, VerifyLimiter.Call(sha256(token), limiterNow, victim), limits);
            var answer := Verdict(allowed, decode(token), cfg, op, req, libNow, now, sha256);
            && (answer.Ok? <==>
                allowed && decode(token) == Some(c) && Agrees(p, r, issuedAt, cfg, op, req, libNow, now, sha256))
            && (answer.Ok? ==>
                answer.value == SignReqId(p.escrow, OpName(op), SignerRound(op, cfg.role), p.txset, sha256))
  {
    hide Run, ReadAt, ValidParams, Issue, Agrees, Obstacle, ReqIdFor, SignReqId, VerifyLimiter.Allowed;
    ClaimsPassIff(dbs, ops, sha3, at, r, p, issuedAt, jtiAt, random, c, cfg, op, req, libNow, now, sha256);
  }

  /** The window is closed at both ends: with everything else agreed, the library's clock may read anything from the
      issue time less the skew to the expiry plus the skew, the expiry itself included. */
  lemma {:induction false} ExpiryIsInclusive(
    dbs: seq<Db>, ops: seq<Op>, sha3: string -> string, at: seq<nat>, r: Reads, p: Params, issuedAt: u64, jtiAt: u64,
    random: seq<byte>, c: Claims, cfg: SignerConfig, op: TokenOp, req: Request, agreedAt: u64, libNow: u64, now: u64,
    sha256: string -> string)
    requires Run(dbs, ops, sha3) && ReadAt(dbs, at, r) && ValidParams(p) && |random| == 16
    requires Issue(p, r, issuedAt, NewJti(jtiAt, p.role, p.op, random)) == Ok(c)
    requires Obstacle(cfg, op, c, req, agreedAt, now, sha256).None?
    ensures Obstacle(cfg, op, c, req, libNow, now, sha256).None? <==>
            issuedAt - cfg.skew <= libNow <= c.exp + cfg.skew
    ensures libNow == c.exp ==> Obstacle(cfg, op, c, req, libNow, now, sha256).None?
  {
    hide Run, ReadAt, ValidParams, Issue, Obstacle, ReqIdFor, SignReqId, SameParties, SameSubject, ProofsFit, NewJti, Utf8Len;
    ClaimsPassIff(dbs, ops, sha3, at, r, p, issuedAt, jtiAt, random, c, cfg, op, req, agreedAt, now, sha256);
    ClaimsPassIff(dbs, ops, sha3, at, r, p, issuedAt, jtiAt, random, c, cfg, op, req, libNow, now, sha256);
    ExpiryField(p, r, issuedAt, NewJti(jtiAt, p.role, p.op, random), c);
  }

  lemma ExpiryField(p: Params, r: Reads, issuedAt: u64, jti: string, c: Claims)
    requires Issue(p, r, issuedAt, jti) == Ok(c)
    ensures c.exp == issuedAt + Lifetime(p, issuedAt)
  {
    hide Issue, OpName, RoleName, IssuerRound;
    IssuedFields(p, r, issuedAt, jti, c);
  }

  // ---- from signatures to submission ----

  /** The request id an accepted token yields depends on escrow, operation, role and transaction set alone. */
  lemma AcceptedReqId(
    cfg: SignerConfig, op: TokenOp, c: Claims, req: Request, libNow: u64, now: u64, sha256: string -> string)
    requires Obstacle(cfg, op, c, req, libNow, now, sha256).None?
    ensures NormalizeHex(req.txset, 64).Some?
    ensures ReqIdFor(op, c, req, sha256) ==
            SignReqId(req.escrow, OpName(op), SignerRound(op, cfg.role), NormalizeHex(req.txset, 64).value, sha256)
  {
    hide JwtAccepts, LifetimeObstacle, EpochObstacle, ProofObstacle, NormalizeHex, Trim, Utf8Len, Lower, SignReqId;
  }

  /** The proof fields an accepted submit token must hold. */
  lemma AcceptedProofs(
    cfg: SignerConfig, c: Claims, req: Request, libNow: u64, now: u64, sha256: string -> string)
    requires Obstacle(cfg, SubmitMultisig, c, req, libNow, now, sha256).None?
    ensures c.proofArbiterReqId.Some? && c.proofSellerReqId.Some? && NormalizeHex(req.txset, 64).Some?
    ensures var t := NormalizeHex(req.txset, 64).value;
            && NormalizeHex(Trim(c.proofArbiterReqId.value), 64) ==
               Some(SignReqId(req.escrow, "sign_multisig", "arbiter_first", t, sha256))
            && NormalizeHex(Trim(c.proofSellerReqId.value), 64) ==
               Some(SignReqId(req.escrow, "sign_multisig", "seller_second", t, sha256))
  {
    hide CommonObstacle, NormalizeHex, Trim, Utf8Len, SignReqId;
  }

  lemma RoundsDiffer(role: Role)
    ensures SignRound(role) == "arbiter_first" <==> role == Arbiter
    ensures SignRound(role) == "seller_second" <==> role == Seller
    ensures '|' !in SignRound(role) && '|' !in "sign_multisig" && '|' !in "arbiter_first" && '|' !in "seller_second"
  {
    assert SignRound(role)[0] == 'a' <==> role == Arbiter;
    assert SignRound(role)[0] == 's' <==> role == Seller;
  }

  /** Take a submit token and a sign token, each accepted by some signer. The submit token's arbiter proof is the
      sign token's request id if and only if the arbiter accepted the sign token for the same escrow and
      transaction set; likewise for the seller. */
  lemma {:induction false} SubmitPinsSignatures(
    cfg: SignerConfig, c: Claims, req: Request, libNow: u64, now: u64,
    signer: SignerConfig, d: Claims, signed: Request, signLibNow: u64, signNow: u64, sha256: string -> string)
    requires Injective(sha256) && '|' !in req.escrow && '|' !in signed.escrow
    requires Obstacle(cfg, SubmitMultisig, c, req, libNow, now, sha256).None?
    requires Obstacle(signer, SignMultisig, d, signed, signLibNow, signNow, sha256).None?
    ensures c.proofArbiterReqId.Some? && c.proofSellerReqId.Some?
    ensures var id, same := ReqIdFor(SignMultisig, d, signed, sha256),
                            signed.escrow == req.escrow && NormalizeHex(signed.txset, 64) == NormalizeHex(req.txset, 64);
            && (NormalizeHex(Trim(c.proofArbiterReqId.value), 64) == Some(id) <==> same && signer.role == Arbiter)
            && (NormalizeHex(Trim(c.proofSellerReqId.value), 64) == Some(id) <==> same && signer.role == Seller)
  {
    hide Obstacle, ReqIdFor, NormalizeHex, Trim, SignRound, RequestMaterial;
    AcceptedReqId(signer, SignMultisig, d, signed, signLibNow, signNow, sha256);
    AcceptedProofs(cfg, c, req, libNow, now, sha256);
    RoundsDiffer(signer.role);
    var t, u := NormalizeHex(req.txset, 64).value, NormalizeHex(signed.txset, 64).value;
    var round := SignRound(signer.role);
    if SignReqId(req.escrow, "sign_multisig", "arbiter_first", t, sha256) == SignReqId(signed.escrow, "sign_multisig", round, u, sha256) {
      RequestMaterialInjective(req.escrow, "sign_multisig", "arbiter_first", t, signed.escrow, "sign_multisig", round, u);
    }
    if SignReqId(req.escrow, "sign_multisig", "seller_second", t, sha256) == SignReqId(signed.escrow, "sign_multisig", round, u, sha256) {
      RequestMaterialInjective(req.escrow, "sign_multisig", "seller_second", t, signed.escrow, "sign_multisig", round, u);
    }
  }
}
