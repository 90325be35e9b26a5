/** The signer's token verifier: the library's checks, then the claims one by one, then the quorum proofs. */
module TokenVerifier {
  import opened Wrappers
  import opened MachineInts
  import opened Text
  import opened Keys
  import opened Claims
  import opened VerifyLimiter

  datatype SignerConfig = SignerConfig(
    role: Role, issuer: string, audience: string, skew: u64, maxTtl: u64, sandbox: string, wallet: string,
    nettype: string, epoch: Option<string>)

  /** What the signer is asked to sign or submit. */
  datatype Request = Request(escrow: string, txset: string, snapshotHash: string)

  datatype VerifyError =
    | RateLimited | InvalidToken | ScopeMismatch | IssuedInFuture | BadLifetime | BadSubject | RoleMismatch
    | RoundMismatch | EscrowMismatch | SandboxMismatch | WalletMismatch | NettypeMismatch | EpochMismatch
    | BadAdmissionHash | BadJti | TxsetMismatch | SnapshotMismatch | MissingProof | ProofsNotDistinct | ProofMismatch

  function SignRound(role: Role): string {
    match role
    case Arbiter => "arbiter_first"
    case Seller => "seller_second"
    case Buyer => "buyer_second"
  }

  function SubmitRound(role: Role): string {
    match role
    case Arbiter => "arbiter_submit"
    case Seller => "seller_submit"
    case Buyer => "buyer_submit"
  }

  function SignerRound(op: TokenOp, role: Role): string {
    match op
    case SignMultisig => SignRound(role)
    case SubmitMultisig => SubmitRound(role)
  }

  function SignReqId(escrow: string, op: string, round: string, txset: string, sha256: string -> string): string {
    sha256(RequestMaterial(escrow, op, round, txset))
  }

  /** Sections 4.1.4 and 4.1.5 of RFC 7519 as the JWT library checks them, with the skew as leeway. */
  predicate JwtAccepts(cfg: SignerConfig, c: Claims, now: u64) {
    now - cfg.skew <= c.exp && c.nbf <= now + cfg.skew && c.iss == cfg.issuer && c.aud == cfg.audience
  }

  function TrimmedNonEmpty(v: Option<string>): Option<string> {
    var s :- v;
    NormalizeNonEmpty(s)
  }

  function EpochObstacle(cfg: SignerConfig, c: Claims): Option<VerifyError> {
    if cfg.epoch.None? then None
    else if TrimmedNonEmpty(c.epoch) != cfg.epoch then Some(EpochMismatch)
    else
      var hash := TrimmedNonEmpty(c.admissionHash);
      if hash.None? || NormalizeHex(hash.value, 64).None? then Some(BadAdmissionHash) else None
  }

  function LifetimeObstacle(cfg: SignerConfig, c: Claims, now: u64): Option<VerifyError> {
    if c.iat > SatAddU64(now, cfg.skew) then Some(IssuedInFuture)
    else if c.exp < c.iat || c.exp < c.nbf then Some(BadLifetime)
    else if c.exp == c.iat || c.exp - c.iat > cfg.maxTtl || c.exp == c.nbf || c.exp - c.nbf > cfg.maxTtl
    then Some(BadLifetime)
    else None
  }

  function BindingObstacle(cfg: SignerConfig, c: Claims, round: string, req: Request): Option<VerifyError> {
    if Trim(c.sub) == [] || Utf8Len(c.sub) > 128 then Some(BadSubject)
    else if c.role != RoleName(cfg.role) then Some(RoleMismatch)
    else if c.round != round then Some(RoundMismatch)
    else if c.escrow != req.escrow then Some(EscrowMismatch)
    else if c.sandbox != cfg.sandbox then Some(SandboxMismatch)
    else if c.wallet != cfg.wallet then Some(WalletMismatch)
    else if Lower(Trim(c.nettype)) != cfg.nettype then Some(NettypeMismatch)
    else None
  }

  function HashObstacle(c: Claims, req: Request): Option<VerifyError> {
    if Trim(c.jti) == [] || Utf8Len(c.jti) > 256 then Some(BadJti)
    else if NormalizeHex(c.txset, 64).None? || NormalizeHex(c.txset, 64) != NormalizeHex(req.txset, 64)
    then Some(TxsetMismatch)
    else if NormalizeHex(c.snapshotHash, 64).None? || NormalizeHex(c.snapshotHash, 64) != NormalizeHex(req.snapshotHash, 64)
    then Some(SnapshotMismatch)
    else None
  }

  /** The first check that fails, in the order the signer makes them; `libNow` is the library's clock reading. */
  function CommonObstacle(
    cfg: SignerConfig, op: TokenOp, c: Claims, req: Request, libNow: u64, now: u64): Option<VerifyError>
  {
    if !JwtAccepts(cfg, c, libNow) then Some(InvalidToken)
    else if c.scope != OpName(op) || c.op != OpName(op) then Some(ScopeMismatch)
    else if LifetimeObstacle(cfg, c, now).Some? then LifetimeObstacle(cfg, c, now)
    else if BindingObstacle(cfg, c, SignerRound(op, cfg.role), req).Some?
    then BindingObstacle(cfg, c, SignerRound(op, cfg.role), req)
    else if EpochObstacle(cfg, c).Some? then EpochObstacle(cfg, c)
    else HashObstacle(c, req)
  }

  /** A submit token must carry two different proofs whose request ids are the ones this escrow and transaction
      set give for the arbiter's and the seller's signature. */
  function ProofObstacle(c: Claims, req: Request, sha256: string -> string): Option<VerifyError> {
    var aj, sj := TrimmedNonEmpty(c.proofArbiterJti), TrimmedNonEmpty(c.proofSellerJti);
    var aq, sq := TrimmedNonEmpty(c.proofArbiterReqId), TrimmedNonEmpty(c.proofSellerReqId);
    if aj.None? || sj.None? || aq.None? || sq.None? then Some(MissingProof)
    else if aj == sj || Utf8Len(aj.value) > 256 || Utf8Len(sj.value) > 256 || aq == sq then Some(ProofsNotDistinct)
    else
      var a, s, t := NormalizeHex(aq.value, 64), NormalizeHex(sq.value, 64), NormalizeHex(req.txset, 64);
      if a.None? || s.None? || t.None? then Some(ProofMismatch)
      else if a.value != SignReqId(req.escrow, "sign_multisig", "arbiter_first", t.value, sha256) then Some(ProofMismatch)
      else if s.value != SignReqId(req.escrow, "sign_multisig", "seller_second", t.value, sha256) then Some(ProofMismatch)
      else None
  }

  function Obstacle(
    cfg: SignerConfig, op: TokenOp, c: Claims, req: Request, libNow: u64, now: u64, sha256: string -> string)
    : Option<VerifyError>
  {
    if CommonObstacle(cfg, op, c, req, libNow, now).Some? then CommonObstacle(cfg, op, c, req, libNow, now)
    else if op == SubmitMultisig then ProofObstacle(c, req, sha256)
    else None
  }

  // ---- what is wrong with a token ----

  /** What a refusal says is wrong, claim by claim and for any claims, issued by the orchestrator or not. */
  ghost predicate Violates(
    e: VerifyError, cfg: SignerConfig, op: TokenOp, c: Claims, req: Request, libNow: u64, now: u64, sha256: string -> string)
  {
    match e
    case RateLimited => false
    case InvalidToken =>
      c.exp + cfg.skew < libNow || libNow + cfg.skew < c.nbf || c.iss != cfg.issuer || c.aud != cfg.audience
    case ScopeMismatch => c.scope != OpName(op) || c.op != OpName(op)
    case IssuedInFuture => now + cfg.skew < c.iat
    case BadLifetime => !(c.iat < c.exp <= c.iat + cfg.maxTtl && c.nbf < c.exp <= c.nbf + cfg.maxTtl)
    case BadSubject => !HasNonBlank(c.sub) || 128 < Utf8Len(c.sub)
    case RoleMismatch => c.role != RoleName(cfg.role)
    case RoundMismatch => c.round != SignerRound(op, cfg.role)
    case EscrowMismatch => c.escrow != req.escrow
    case SandboxMismatch => c.sandbox != cfg.sandbox
    case WalletMismatch => c.wallet != cfg.wallet
    case NettypeMismatch => Lower(Trim(c.nettype)) != cfg.nettype
    case EpochMismatch => cfg.epoch.Some? && !(c.epoch.Some? && HasNonBlank(c.epoch.value) && Trim(c.epoch.value) == cfg.epoch.value)
    case BadAdmissionHash => cfg.epoch.Some? && !(c.admissionHash.Some? && NormalizeHex(c.admissionHash.value, 64).Some?)
    case BadJti => !HasNonBlank(c.jti) || 256 < Utf8Len(c.jti)
    case TxsetMismatch => !SameHash(c.txset, req.txset)
    case SnapshotMismatch => !SameHash(c.snapshotHash, req.snapshotHash)
    case MissingProof => op == SubmitMultisig && !HasProofs(c)
    case ProofsNotDistinct => op == SubmitMultisig && HasProofs(c) && !DistinctProofs(c)
    case ProofMismatch =>
      op == SubmitMultisig && HasProofs(c) &&
      !(IsReqIdOf(c.proofArbiterReqId.value, "arbiter_first", req, sha256)
        && IsReqIdOf(c.proofSellerReqId.value, "seller_second", req, sha256))
  }

  /** Both are 64 hex digits, and the same ones up to case and blanks around them. */
  ghost predicate SameHash(a: string, b: string) {
    NormalizeHex(a, 64).Some? && NormalizeHex(a, 64) == NormalizeHex(b, 64)
  }

  ghost predicate Present(field: Option<string>) {
    field.Some? && HasNonBlank(field.value)
  }

  ghost predicate HasProofs(c: Claims) {
    Present(c.proofArbiterJti) && Present(c.proofSellerJti) && Present(c.proofArbiterReqId) && Present(c.proofSellerReqId)
  }

  ghost predicate DistinctProofs(c: Claims)
    requires HasProofs(c)
  {
    var aj, sj := Trim(c.proofArbiterJti.value), Trim(c.proofSellerJti.value);
    && aj != sj && Utf8Len(aj) <= 256 && Utf8Len(sj) <= 256
    && Trim(c.proofArbiterReqId.value) != Trim(c.proofSellerReqId.value)
  }

  /** The text is the request id of a signature in this round on what is submitted. */
  ghost predicate IsReqIdOf(text: string, round: string, req: Request, sha256: string -> string) {
    var t := NormalizeHex(req.txset, 64);
    t.Some? && NormalizeHex(text, 64) == Some(SignReqId(req.escrow, "sign_multisig", round, t.value, sha256))
  }

  ghost predicate Flawless(
    cfg: SignerConfig, op: TokenOp, c: Claims, req: Request, libNow: u64, now: u64, sha256: string -> string)
  {
    forall e :: !Violates(e, cfg, op, c, req, libNow, now, sha256)
  }

  lemma FieldPresent(field: Option<string>)
    ensures TrimmedNonEmpty(field) == if Present(field) then Some(Trim(field.value)) else None
  {
    hide Trim;
    if field.Some? {
      TrimLeavesIff(field.value);
    }
  }

  lemma TrimmedHexSame(s: string)
    ensures NormalizeHex(Trim(s), 64) == NormalizeHex(s, 64)
  {
    hide Lower, AllHex, NormalizeHex;
    assert Trim(Trim(s)) == Trim(s);
    var a, b := NormalizeHex(Trim(s), 64), NormalizeHex(s, 64);
    assert a.Some? <==> b.Some?;
  }

  lemma HexIsPresent(s: string)
    ensures NormalizeHex(s, 64).Some? ==> HasNonBlank(s)
  {
    hide Trim, HasNonBlank;
    TrimLeavesIff(s);
  }

  lemma LifetimeFindsFlaws(
    cfg: SignerConfig, op: TokenOp, c: Claims, req: Request, libNow: u64, now: u64, sha256: string -> string)
    ensures var o := LifetimeObstacle(cfg, c, now);
            && (o.Some? ==> Violates(o.value, cfg, op, c, req, libNow, now, sha256))
            && (o.None? ==>
                  && !Violates(IssuedInFuture, cfg, op, c, req, libNow, now, sha256)
                  && !Violates(BadLifetime, cfg, op, c, req, libNow, now, sha256))
  {
    hide Trim, Utf8Len, Lower, NormalizeHex, OpName, RoleName, SignerRound, HasProofs, DistinctProofs, IsReqIdOf, HasNonBlank;
  }

  lemma BindingFindsFlaws(
    cfg: SignerConfig, op: TokenOp, c: Claims, req: Request, libNow: u64, now: u64, sha256: string -> string)
    ensures var o := BindingObstacle(cfg, c, SignerRound(op, cfg.role), req);
            && (o.Some? ==> Violates(o.value, cfg, op, c, req, libNow, now, sha256))
            && (o.None? ==>
                  && !Violates(BadSubject, cfg, op, c, req, libNow, now, sha256)
                  && !Violates(RoleMismatch, cfg, op, c, req, libNow, now, sha256)
                  && !Violates(RoundMismatch, cfg, op, c, req, libNow, now, sha256)
                  && !Violates(EscrowMismatch, cfg, op, c, req, libNow, now, sha256)
                  && !Violates(SandboxMismatch, cfg, op, c, req, libNow, now, sha256)
                  && !Violates(WalletMismatch, cfg, op, c, req, libNow, now, sha256)
                  && !Violates(NettypeMismatch, cfg, op, c, req, libNow, now, sha256))
  {
    hide Trim, Utf8Len, Lower, NormalizeHex, OpName, RoleName, SignerRound, HasProofs, DistinctProofs, IsReqIdOf, HasNonBlank;
    TrimLeavesIff(c.sub);
  }

  lemma EpochFindsFlaws(
    cfg: SignerConfig, op: TokenOp, c: Claims, req: Request, libNow: u64, now: u64, sha256: string -> string)
    ensures var o := EpochObstacle(cfg, c);
            && (o.Some? ==> Violates(o.value, cfg, op, c, req, libNow, now, sha256))
            && (o.None? ==>
                  && !Violates(EpochMismatch, cfg, op, c, req, libNow, now, sha256)
                  && !Violates(BadAdmissionHash, cfg, op, c, req, libNow, now, sha256))
  {
    hide Trim, Utf8Len, Lower, NormalizeHex, OpName, RoleName, SignerRound, HasProofs, DistinctProofs, IsReqIdOf, HasNonBlank, TrimmedNonEmpty;
    FieldPresent(c.epoch);
    FieldPresent(c.admissionHash);
    if c.admissionHash.Some? {
      TrimmedHexSame(c.admissionHash.value);
      HexIsPresent(c.admissionHash.value);
    }
  }

  lemma HashFindsFlaws(
    cfg: SignerConfig, op: TokenOp, c: Claims, req: Request, libNow: u64, now: u64, sha256: string -> string)
    ensures var o := HashObstacle(c, req);
            && (o.Some? ==> Violates(o.value, cfg, op, c, req, libNow, now, sha256))
            && (o.None? ==>
                  && !Violates(BadJti, cfg, op, c, req, libNow, now, sha256)
                  && !Violates(TxsetMismatch, cfg, op, c, req, libNow, now, sha256)
                  && !Violates(SnapshotMismatch, cfg, op, c, req, libNow, now, sha256))
  {
    hide Trim, Utf8Len, Lower, NormalizeHex, OpName, RoleName, SignerRound, HasProofs, DistinctProofs, IsReqIdOf, HasNonBlank;
    hide AllHex, IsLowerHex;
    TrimLeavesIff(c.jti);
  }

  /** The checks before the proofs find a flaw if there is one, and name one that is there. */
  lemma CommonFindsFlaws(
    cfg: SignerConfig, op: TokenOp, c: Claims, req: Request, libNow: u64, now: u64, sha256: string -> string)
    ensures var o := CommonObstacle(cfg, op, c, req, libNow, now);
            && (o.Some? ==> Violates(o.value, cfg, op, c, req, libNow, now, sha256))
            && (o.None? ==> forall e :: Violates(e, cfg, op, c, req, libNow, now, sha256) ==>
                              e == MissingProof || e == ProofsNotDistinct || e == ProofMismatch)
  {
    JwtFlaws(cfg, op, c, req, libNow, now, sha256);
    LifetimeFindsFlaws(cfg, op, c, req, libNow, now, sha256);
    BindingFindsFlaws(cfg, op, c, req, libNow, now, sha256);
    EpochFindsFlaws(cfg, op, c, req, libNow, now, sha256);
    HashFindsFlaws(cfg, op, c, req, libNow, now, sha256);
    hide Violates, JwtAccepts, LifetimeObstacle, BindingObstacle, EpochObstacle, HashObstacle, OpName, SignerRound;
  }

  lemma JwtFlaws(
    cfg: SignerConfig, op: TokenOp, c: Claims, req: Request, libNow: u64, now: u64, sha256: string -> string)
    ensures JwtAccepts(cfg, c, libNow) <==> !Violates(InvalidToken, cfg, op, c, req, libNow, now, sha256)
    ensures c.scope == OpName(op) && c.op == OpName(op) <==> !Violates(ScopeMismatch, cfg, op, c, req, libNow, now, sha256)
    ensures !Violates(RateLimited, cfg, op, c, req, libNow, now, sha256)
  {
    hide OpName;
  }

  lemma ProofsFindFlaws(
    cfg: SignerConfig, c: Claims, req: Request, libNow: u64, now: u64, sha256: string -> string)
    ensures var o := ProofObstacle(c, req, sha256);
            && (o.Some? ==> Violates(o.value, cfg, SubmitMultisig, c, req, libNow, now, sha256))
            && (o.None? ==> HasProofs(c) && DistinctProofs(c)
                            && IsReqIdOf(c.proofArbiterReqId.value, "arbiter_first", req, sha256)
                            && IsReqIdOf(c.proofSellerReqId.value, "seller_second", req, sha256))
  {
    hide Trim, Utf8Len, NormalizeHex, SignReqId, HasNonBlank, TrimmedNonEmpty, AllHex, IsLowerHex;
    FieldPresent(c.proofArbiterJti);
    FieldPresent(c.proofSellerJti);
    FieldPresent(c.proofArbiterReqId);
    FieldPresent(c.proofSellerReqId);
    if HasProofs(c) {
      TrimmedHexSame(c.proofArbiterReqId.value);
      TrimmedHexSame(c.proofSellerReqId.value);
    }
  }

  /** Whatever the claims, they pass if and only if nothing is wrong with them, and a refusal names something that is
      wrong. */
  lemma ObstacleIsFlaw(
    cfg: SignerConfig, op: TokenOp, c: Claims, req: Request, libNow: u64, now: u64, sha256: string -> string)
    ensures var o := Obstacle(cfg, op, c, req, libNow, now, sha256);
            && (o.None? <==> Flawless(cfg, op, c, req, libNow, now, sha256))
            && (o.Some? ==> Violates(o.value, cfg, op, c, req, libNow, now, sha256))
  {
    hide CommonObstacle, ProofObstacle, Trim, Utf8Len, Lower, NormalizeHex, HasNonBlank, SignReqId, AllHex, IsLowerHex;
    CommonFindsFlaws(cfg, op, c, req, libNow, now, sha256);
    ProofsFindFlaws(cfg, c, req, libNow, now, sha256);
  }

  /** The request id of an accepted token. */
  function ReqIdFor(op: TokenOp, c: Claims, req: Request, sha256: string -> string): string {
    var txset := NormalizeHex(req.txset, 64);
    SignReqId(req.escrow, OpName(op), c.round, if txset.Some? then txset.value else [], sha256)
  }

  /** The signer's answer: the limiter's verdict first, then the library's, then the checks; an accepted token
      yields its request id. */
  function Verdict(
    allowed: bool, decoded: Option<Claims>, cfg: SignerConfig, op: TokenOp, req: Request, libNow: u64, now: u64,
    sha256: string -> string): Result<string, VerifyError>
  {
    if !allowed then Err(RateLimited)
    else if decoded.None? then Err(InvalidToken)
    else
      var obstacle := Obstacle(cfg, op, decoded.value, req, libNow, now, sha256);
      if obstacle.Some? then Err(obstacle.value) else Ok(ReqIdFor(op, decoded.value, req, sha256))
  }

  /** `decode` is the library's signature check and parser. */
  class ActionTokenVerifier {
    const cfg: SignerConfig
    const limiter: VerifyRateLimiter
    const decode: string -> Option<Claims>

    constructor (cfg: SignerConfig, limiter: VerifyRateLimiter, decode: string -> Option<Claims>)
      ensures this.cfg == cfg && this.limiter == limiter && this.decode == decode
    {
      this.cfg, this.limiter, this.decode := cfg, limiter, decode;
    }

    /** The limiter is asked first and counts the call whatever the token says; it refuses exactly what it refuses by
        the calls so far. */
    method Verify(token: string, op: TokenOp, req: Request, limiterNow: u64, libNow: u64, now: u64)
      returns (r: Result<string, VerifyError>, ghost victim: string)
      requires limiter.Valid()
      modifies limiter
      ensures limiter.Valid() && limiter.calls == old(limiter.calls) + [Call(limiter.digest(token), limiterNow, victim)]
      ensures var allowed := Allowed(old(limiter.state), Call(limiter.digest(token), limiterNow, victim), limiter.cfg);
              r == Verdict(allowed, decode(token), cfg, op, req, libNow, now, limiter.digest)
      ensures AnswersFromCalls(limiter.ms, limiter.calls, limiter.cfg, r != Err(RateLimited))
      ensures r.Ok? ==> decode(token).Some? && Flawless(cfg, op, decode(token).value, req, libNow, now, limiter.digest)
      ensures r.Err? && r.error != RateLimited && decode(token).Some? ==>
                Violates(r.error, cfg, op, decode(token).value, req, libNow, now, limiter.digest)
    {
      if decode(token).Some? {
        ObstacleIsFlaw(cfg, op, decode(token).value, req, libNow, now, limiter.digest);
        JwtFlaws(cfg, op, decode(token).value, req, libNow, now, limiter.digest);
      }
      hide CommonObstacle, ProofObstacle, Allowed, AnswersFromCalls, Violates, Flawless;
      var ok;
      ok, victim := limiter.Check(token, limiterNow);
      if !ok {
        return Err(RateLimited), victim;
      }
      var decoded := decode(token);
      if decoded.None? {
        return Err(InvalidToken), victim;
      }
      var claims := decoded.value;
      var obstacle := CommonObstacle(cfg, op, claims, req, libNow, now);
      if obstacle.None? && op == SubmitMultisig {
        obstacle := ProofObstacle(claims, req, limiter.digest);
      }
      if obstacle.Some? {
        return Err(obstacle.value), victim;
      }
      return Ok(ReqIdFor(op, claims, req, limiter.digest)), victim;
    }
  }
}
