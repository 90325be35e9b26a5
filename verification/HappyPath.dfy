/** Runs that end in tokens: every agreed token can be accepted, and some issued tokens never are. */
module HappyPath {
  import opened Wrappers
  import opened MachineInts
  import opened Text
  import opened Workflow
  import opened Orchestrator
  import opened GrantedCalls
  import opened Claims
  import opened TokenIssuer
  import opened TokenVerifier
  import opened TokenAgreement

  // ---- the run ----

  const PARTICIPANTS: seq<string> := ["p"]

  lemma ParticipantsAreNormal()
    ensures NormalizeParticipants(PARTICIPANTS) == Some(PARTICIPANTS)
  {
    var ps := PARTICIPANTS;
    assert Trim("p") == "p";
    assert NormalizeParticipants(ps[..|ps| - 1]) == Some([]) by {
      assert ps[..|ps| - 1] == [];
    }
    assert [] + ["p"] == ps;
  }

  function StateAt(rank: nat): WorkflowState
    requires rank <= 6
  {
    match rank
    case 0 => New
    case 1 => PrepareCollected
    case 2 => MakeCollected
    case 3 => ExchangeR1Collected
    case 4 => ExchangeR2Collected
    case 5 => FinalizedReady
    case 6 => Funded
  }

  function OneWorkflow(e: string, s: string, state: WorkflowState): Db {
    Empty.(workflows := map[e := Instance(state, s, PARTICIPANTS)])
  }

  /** Any escrow can be taken to any state up to Funded. */
  lemma {:induction false} CanReach(e: string, s: string, rank: nat, sha3: string -> string)
    returns (dbs: seq<Db>, ops: seq<Op>)
    requires IsLowerHex(e, 32) && IsLowerHex(s, 64) && rank <= 6
    ensures Run(dbs, ops, sha3) && dbs[|ops|] == OneWorkflow(e, s, StateAt(rank))
    decreases rank
  {
    hide Call;
    if rank == 0 {
      dbs, ops := [Empty], [];
      ParticipantsAreNormal();
      CreateGranted(Empty, e, s, PARTICIPANTS, sha3);
      dbs, ops := ExtendRun(dbs, ops, CreateWorkflow(e, s, PARTICIPANTS), sha3);
    } else {
      dbs, ops := CanReach(e, s, rank - 1, sha3);
      MoveGranted(dbs[|ops|], e, StateAt(rank), sha3);
      dbs, ops := ExtendRun(dbs, ops, TransitionTo(e, StateAt(rank)), sha3);
    }
  }

  /** The tables once proposal, admission and both proofs are stored. */
  function Ready(p: Params, s: string, adm: Admission, arbiter: Proof, seller: Proof): Db {
    OneWorkflow(p.escrow, s, Funded).(
      proposals := map[p.escrow := Proposal("release", "00", p.txset)],
      admissions := map[p.escrow := adm],
      proofs := map[ArbiterKey(p.escrow, p.txset) := arbiter, SellerKey(p.escrow, p.txset) := seller])
  }

  lemma CanGetReady(p: Params, s: string, adm: Admission, arbiter: Proof, seller: Proof, sha3: string -> string)
    returns (dbs: seq<Db>, ops: seq<Op>)
    requires ValidParams(p) && IsLowerHex(s, 64) && adm.action == "release" && adm.snapshotHash == s
    requires IsLowerHex(arbiter.reqId, 64) && IsLowerHex(seller.reqId, 64) && arbiter.reqId != seller.reqId
    requires IsBounded(arbiter.jti, 256) && IsBounded(seller.jti, 256)
    ensures Run(dbs, ops, sha3) && dbs[|ops|] == Ready(p, s, adm, arbiter, seller)
  {
    hide Run, Call, IsLowerHex, IsBounded;
    var e, t := p.escrow, p.txset;
    dbs, ops := CanReach(e, s, 6, sha3);
    var d0 := OneWorkflow(e, s, Funded);
    ProposalGranted(d0, e, t, sha3);
    dbs, ops := ExtendRun(dbs, ops, UpsertProposal(e, "release", "00", t), sha3);
    var d1 := d0.(proposals := map[e := Proposal("release", "00", t)]);
    AdmissionGranted(d1, e, adm, sha3);
    dbs, ops := ExtendRun(dbs, ops, UpsertAdmission(e, adm), sha3);
    var d2 := d1.(admissions := map[e := adm]);
    ProofGranted(d2, e, "arbiter", "arbiter_first", t, arbiter, sha3);
    dbs, ops := ExtendRun(dbs, ops, UpsertProof(e, "arbiter", "arbiter_first", t, arbiter.jti, arbiter.reqId), sha3);
    var d3 := d2.(proofs := map[ArbiterKey(e, t) := arbiter]);
    ProofGranted(d3, e, "seller", "seller_second", t, seller, sha3);
    dbs, ops := ExtendRun(dbs, ops, UpsertProof(e, "seller", "seller_second", t, seller.jti, seller.reqId), sha3);
  }

  function AllReads(db: Db): Reads {
    Reads(db, db, db, db, db, db)
  }

  lemma ReadyIssues(
    p: Params, s: string, adm: Admission, arbiter: Proof, seller: Proof, now: u64, jti: string)
    requires ValidParams(p) && IsLowerHex(s, 64) && adm.action == "release" && adm.snapshotHash == s
    requires IsLowerHex(adm.artifactHash, 64) && (p.epoch.Some? ==> adm.trustEpoch == p.epoch.value)
    requires IsLowerHex(arbiter.reqId, 64) && IsLowerHex(seller.reqId, 64) && arbiter.reqId != seller.reqId
    requires IsBounded(arbiter.jti, 256) && IsBounded(seller.jti, 256) && arbiter.jti != seller.jti
    ensures Issue(p, AllReads(Ready(p, s, adm, arbiter, seller)), now, jti).Ok?
  {
    hide NormalizeHex, NormalizeBounded, Lower, Trim, Utf8Len, IsLowerHex, Issue;
    PlainIsNormal("release");
    LowerHexIsTrimmed(s);
    LowerHexIsTrimmed(adm.artifactHash);
    LowerHexIsTrimmed(arbiter.reqId);
    LowerHexIsTrimmed(seller.reqId);
    assert "seller"[0] != "arbiter"[0];
    var r := AllReads(Ready(p, s, adm, arbiter, seller));
    assert ProofsReady(p, r) by {
      assert NormalizeBounded(arbiter.jti, 256) == Some(arbiter.jti);
      assert NormalizeBounded(seller.jti, 256) == Some(seller.jti);
    }
    IssuesIff(p, r, now, jti);
  }

  /** Every valid parameter record gets its token in some run, whatever proofs are stored for it. */
  lemma CanBeIssued(
    p: Params, snapshotHash: string, artifactHash: string, arbiter: Proof, seller: Proof, issuedAt: u64, jti: string,
    sha3: string -> string)
    returns (dbs: seq<Db>, ops: seq<Op>, at: seq<nat>, r: Reads, c: Claims)
    requires ValidParams(p) && IsLowerHex(snapshotHash, 64) && IsLowerHex(artifactHash, 64)
    requires IsBounded(arbiter.jti, 256) && IsBounded(seller.jti, 256) && arbiter.jti != seller.jti
    requires IsLowerHex(arbiter.reqId, 64) && IsLowerHex(seller.reqId, 64) && arbiter.reqId != seller.reqId
    ensures Run(dbs, ops, sha3) && ReadAt(dbs, at, r) && Issue(p, r, issuedAt, jti) == Ok(c)
    ensures exists adm :: r == AllReads(Ready(p, snapshotHash, adm, arbiter, seller))
  {
    hide ValidParams, IsLowerHex, IsBounded, Issue, Call;
    var adm := Admission(snapshotHash, "release", if p.epoch.Some? then p.epoch.value else "", artifactHash, "{}");
    dbs, ops := CanGetReady(p, snapshotHash, adm, arbiter, seller, sha3);
    var n := |ops|;
    at, r := [n, n, n, n, n, n], AllReads(dbs[n]);
    ReadyIssues(p, snapshotHash, adm, arbiter, seller, issuedAt, jti);
    c := Issue(p, r, issuedAt, jti).value;
  }

  /** Whatever an operator and a signer agree on, some run of the orchestrator ends in a token for it that the
      signer accepts, provided the two request ids come out as different hex digests. */
  lemma TokenCanBeAccepted(
    p: Params, snapshotHash: string, artifactHash: string, arbiterJti: string, sellerJti: string,
    issuedAt: u64, jtiAt: u64, random: seq<byte>, cfg: SignerConfig, req: Request, libNow: u64, now: u64,
    sha3: string -> string, sha256: string -> string)
    returns (dbs: seq<Db>, ops: seq<Op>, at: seq<nat>, r: Reads, c: Claims)
    requires ValidParams(p) && |random| == 16 && IsLowerHex(snapshotHash, 64) && IsLowerHex(artifactHash, 64)
    requires IsBounded(arbiterJti, 256) && IsBounded(sellerJti, 256) && arbiterJti != sellerJti
    requires var a := SignReqId(p.escrow, "sign_multisig", "arbiter_first", p.txset, sha256);
             var s := SignReqId(p.escrow, "sign_multisig", "seller_second", p.txset, sha256);
             IsLowerHex(a, 64) && IsLowerHex(s, 64) && a != s
    requires SameParties(p, cfg) && SameSubject(p, p.op, snapshotHash, req) && Utf8Len(p.subject) <= 128
    requires InWindow(p, issuedAt, cfg, libNow, now)
    ensures Run(dbs, ops, sha3) && ReadAt(dbs, at, r)
    ensures Issue(p, r, issuedAt, NewJti(jtiAt, p.role, p.op, random)) == Ok(c)
    ensures Obstacle(cfg, p.op, c, req, libNow, now, sha256).None?
  {
    hide ValidParams, IsLowerHex, IsBounded, SignReqId, SameParties, SameSubject, InWindow, Issue, Obstacle, NewJti, Utf8Len;
    hide Run, ReadAt, Call;
    var arbiter := Proof(arbiterJti, SignReqId(p.escrow, "sign_multisig", "arbiter_first", p.txset, sha256));
    var seller := Proof(sellerJti, SignReqId(p.escrow, "sign_multisig", "seller_second", p.txset, sha256));
    var jti := NewJti(jtiAt, p.role, p.op, random);
    dbs, ops, at, r, c := CanBeIssued(p, snapshotHash, artifactHash, arbiter, seller, issuedAt, jti, sha3);
    ClaimsPassIff(dbs, ops, sha3, at, r, p, issuedAt, jtiAt, random, c, cfg, p.op, req, libNow, now, sha256);
    assert "seller"[0] != "arbiter"[0];
  }

  // ---- tokens that are issued and never accepted ----

  function Digits64(c: char): (s: string)
    ensures |s| == 64 && forall i :: 0 <= i < 64 ==> s[i] == c
  {
    seq(64, i => c)
  }

  lemma AnyTokenIsIssued(p: Params, issuedAt: u64, jti: string, sha3: string -> string)
    returns (dbs: seq<Db>, ops: seq<Op>, at: seq<nat>, r: Reads, c: Claims)
    requires ValidParams(p)
    ensures Run(dbs, ops, sha3) && ReadAt(dbs, at, r) && Issue(p, r, issuedAt, jti) == Ok(c)
  {
    hide ValidParams, Issue, Run, ReadAt;
    var zeros, ones := Digits64('0'), Digits64('1');
    assert zeros[0] != ones[0];
    PlainIsNormal("a");
    PlainIsNormal("b");
    assert "a"[0] != "b"[0];
    dbs, ops, at, r, c := CanBeIssued(p, zeros, zeros, Proof("a", zeros), Proof("b", ones), issuedAt, jti, sha3);
  }

  /** Every valid record with a subject of more than 128 bytes gets a token, and no signer, request or clock
      accepts it. */
  lemma {:induction false} LongSubjectIsRefused(p: Params, issuedAt: u64, jtiAt: u64, random: seq<byte>, sha3: string -> string)
    returns (dbs: seq<Db>, ops: seq<Op>, at: seq<nat>, r: Reads, c: Claims)
    requires ValidParams(p) && 128 < Utf8Len(p.subject) && |random| == 16
    ensures Run(dbs, ops, sha3) && ReadAt(dbs, at, r)
    ensures Issue(p, r, issuedAt, NewJti(jtiAt, p.role, p.op, random)) == Ok(c)
    ensures forall cfg: SignerConfig, op, req, libNow: u64, now: u64, sha256: string -> string ::
              Obstacle(cfg, op, c, req, libNow, now, sha256).Some?
  {
    hide ValidParams, Issue, Obstacle, NewJti, Utf8Len, SameParties, SameSubject, InWindow, ProofsFit, ReqIdFor, SignReqId;
    hide Run, ReadAt;
    dbs, ops, at, r, c := AnyTokenIsIssued(p, issuedAt, NewJti(jtiAt, p.role, p.op, random), sha3);
    forall cfg: SignerConfig, op, req, libNow: u64, now: u64, sha256: string -> string
      ensures Obstacle(cfg, op, c, req, libNow, now, sha256).Some?
    {
      ClaimsPassIff(dbs, ops, sha3, at, r, p, issuedAt, jtiAt, random, c, cfg, op, req, libNow, now, sha256);
    }
  }

  /** Every valid record whose trust epoch has blanks around it gets a token, and no signer with that same epoch
      accepts it. */
  lemma {:induction false} PaddedEpochIsRefused(p: Params, issuedAt: u64, jtiAt: u64, random: seq<byte>, sha3: string -> string)
    returns (dbs: seq<Db>, ops: seq<Op>, at: seq<nat>, r: Reads, c: Claims)
    requires ValidParams(p) && p.epoch.Some? && Trim(p.epoch.value) != p.epoch.value && |random| == 16
    ensures Run(dbs, ops, sha3) && ReadAt(dbs, at, r)
    ensures Issue(p, r, issuedAt, NewJti(jtiAt, p.role, p.op, random)) == Ok(c)
    ensures forall cfg: SignerConfig, op, req, libNow: u64, now: u64, sha256: string -> string ::
              cfg.epoch == p.epoch ==> Obstacle(cfg, op, c, req, libNow, now, sha256).Some?
  {
    hide ValidParams, Issue, Obstacle, NewJti, Utf8Len, SameSubject, InWindow, ProofsFit, ReqIdFor, SignReqId, Trim;
    hide Run, ReadAt;
    dbs, ops, at, r, c := AnyTokenIsIssued(p, issuedAt, NewJti(jtiAt, p.role, p.op, random), sha3);
    forall cfg: SignerConfig, op, req, libNow: u64, now: u64, sha256: string -> string | cfg.epoch == p.epoch
      ensures Obstacle(cfg, op, c, req, libNow, now, sha256).Some?
    {
      ClaimsPassIff(dbs, ops, sha3, at, r, p, issuedAt, jtiAt, random, c, cfg, op, req, libNow, now, sha256);
    }
  }

  /** A token can be accepted when the library's clock reads its expiry time. */
  lemma AcceptedAtExpiry(
    p: Params, snapshotHash: string, artifactHash: string, arbiterJti: string, sellerJti: string,
    issuedAt: u64, jtiAt: u64, random: seq<byte>, cfg: SignerConfig, req: Request, now: u64,
    sha3: string -> string, sha256: string -> string)
    returns (dbs: seq<Db>, ops: seq<Op>, at: seq<nat>, r: Reads, c: Claims)
    requires ValidParams(p) && |random| == 16 && IsLowerHex(snapshotHash, 64) && IsLowerHex(artifactHash, 64)
    requires IsBounded(arbiterJti, 256) && IsBounded(sellerJti, 256) && arbiterJti != sellerJti
    requires var a := SignReqId(p.escrow, "sign_multisig", "arbiter_first", p.txset, sha256);
             var s := SignReqId(p.escrow, "sign_multisig", "seller_second", p.txset, sha256);
             IsLowerHex(a, 64) && IsLowerHex(s, 64) && a != s
    requires SameParties(p, cfg) && SameSubject(p, p.op, snapshotHash, req) && Utf8Len(p.subject) <= 128
    requires issuedAt <= SatAddU64(now, cfg.skew) && 0 < Lifetime(p, issuedAt) <= cfg.maxTtl
    ensures Run(dbs, ops, sha3) && ReadAt(dbs, at, r)
    ensures Issue(p, r, issuedAt, NewJti(jtiAt, p.role, p.op, random)) == Ok(c)
    ensures Obstacle(cfg, p.op, c, req, c.exp, now, sha256).None?
  {
    hide ValidParams, IsLowerHex, IsBounded, SignReqId, SameParties, SameSubject, Issue, Obstacle, NewJti, Utf8Len;
    hide Run, ReadAt;
    var exp := SatAddU64(issuedAt, p.ttl);
    dbs, ops, at, r, c := TokenCanBeAccepted(p, snapshotHash, artifactHash, arbiterJti, sellerJti, issuedAt, jtiAt, random,
                                             cfg, req, exp, now, sha3, sha256);
    ExpiryField(p, r, issuedAt, NewJti(jtiAt, p.role, p.op, random), c);
  }
}
