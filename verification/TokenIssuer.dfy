/** The orchestrator's token issuer: parameters from the operator, claims from several reads of the database. */
module TokenIssuer {
  import opened Wrappers
  import opened MachineInts
  import opened Text
  import opened Keys
  import opened Orchestrator
  import opened Claims
  import XmrCodec

  // ---- parameters ----

  function NormalizeBounded(value: string, max: nat): (r: Option<string>)
    ensures r.Some? ==> IsBounded(r.value, max) && r.value == Trim(value)
    ensures r.Some? <==> IsBounded(Trim(value), max)
    ensures IsBounded(value, max) ==> r == Some(value)
  {
    var v :- NormalizeNonEmpty(value);
    if Utf8Len(v) > max then None else Some(v)
  }

  datatype Algorithm = EdDSA | ES256

  function AlgorithmName(a: Algorithm): string {
    match a
    case EdDSA => "EDDSA"
    case ES256 => "ES256"
  }

  function ParseAlgorithm(raw: string): Option<Algorithm> {
    var value := Upper(Trim(raw));
    if value == "EDDSA" then Some(EdDSA) else if value == "ES256" then Some(ES256) else None
  }

  lemma ParseIffName(raw: string, a: Algorithm)
    ensures ParseAlgorithm(raw) == Some(a) <==> Upper(Trim(raw)) == AlgorithmName(a)
  {
    hide Upper, Trim;
    assert "EDDSA"[1] != "ES256"[1];
  }

  lemma NamesParse(a: Algorithm)
    ensures ParseAlgorithm(AlgorithmName(a)) == Some(a) && Upper(Trim(AlgorithmName(a))) == AlgorithmName(a)
  {
    var name := AlgorithmName(a);
    assert name[0] == 'E' && (name[4] == 'A' || name[4] == '6');
    assert Trim(name) == name && Upper(name) == name;
    assert a == ES256 ==> name[1] == 'S';
  }

  /** Trailing line breaks, blanks and tabs do not matter in a key file. */
  function TrimPem(s: string): (r: string)
    ensures r <= s && (r != [] ==> r[|r| - 1] !in "\r\n \t")
    ensures forall k :: |r| <= k < |s| ==> s[k] in "\r\n \t"
  {
    if s != [] && s[|s| - 1] in "\r\n \t" then TrimPem(s[..|s| - 1]) else s
  }

  datatype Params = Params(
    escrow: string, txset: string, role: Role, op: TokenOp, issuer: string, algorithm: Algorithm, ttl: u64,
    subject: string, wallet: string, sandbox: string, audience: string, nettype: string, epoch: Option<string>)

  /** What the trust bundle's loader demands of its epoch, which it does not trim. */
  predicate EpochFits(epoch: string) {
    1 <= Utf8Len(Trim(epoch)) <= 128
  }

  /** What every parameter record satisfies: its fields are private and `build_issue_params` is its only source. */
  predicate ValidParams(p: Params) {
    && IsLowerHex(p.escrow, 32) && IsLowerHex(p.txset, 64) && IsBounded(p.issuer, 256) && 1 <= p.ttl <= 120
    && IsBounded(p.subject, 256) && IsBounded(p.wallet, 256) && IsBounded(p.sandbox, 256)
    && IsBounded(p.audience, 256) && IsBounded(p.nettype, 32) && (p.epoch.Some? ==> EpochFits(p.epoch.value))
  }

  /** Values the operator may give on the command line or, per role, in the environment. */
  datatype Settings = Settings(
    subject: Option<string>, wallet: Option<string>, sandbox: Option<string>, audience: Option<string>,
    nettype: Option<string>)

  /** The issuer's own key and what the trust bundle, if there is one, says it should be. */
  datatype IssuerKey = IssuerKey(issuer: string, algorithm: string, publicKey: string)

  datatype TrustBundle = TrustBundle(key: IssuerKey, epoch: string)

  predicate BundleFits(key: IssuerKey, algorithm: Algorithm, bundle: TrustBundle) {
    && EpochFits(bundle.epoch) && key.issuer == bundle.key.issuer
    && AlgorithmName(algorithm) == Upper(Trim(bundle.key.algorithm))
    && TrimPem(key.publicKey) == TrimPem(bundle.key.publicKey)
  }

  /** The command line wins over a non-blank environment value, and that over the default. */
  function Setting(cli: Option<string>, env: Option<string>, default: Option<string>, max: nat): (r: Option<string>)
    ensures r.Some? ==> IsBounded(r.value, max)
    ensures cli.Some? ==> r == NormalizeBounded(cli.value, max)
    ensures cli.None? && env.Some? && Trim(env.value) != [] ==> r == NormalizeBounded(env.value, max)
    ensures cli.None? && (env.None? || Trim(env.value) == []) ==>
              r == if default.Some? then NormalizeBounded(default.value, max) else None
  {
    hide Trim, Utf8Len;
    var fromEnv := if env.Some? then NormalizeNonEmpty(env.value) else None;
    var raw :- if cli.Some? then cli else if fromEnv.Some? then fromEnv else default;
    NormalizeBounded(raw, max)
  }

  /** Who issues and how: the key's own issuer and algorithm, which a trust bundle must confirm. */
  function CheckedIssuer(key: IssuerKey, bundle: Option<TrustBundle>): (r: Option<(string, Algorithm)>)
    ensures r.Some? ==> IsBounded(r.value.0, 256) && NormalizeBounded(key.issuer, 256) == Some(r.value.0)
    ensures r.Some? && bundle.Some? ==> BundleFits(key.(issuer := r.value.0), r.value.1, bundle.value)
  {
    var issuer :- NormalizeBounded(key.issuer, 256);
    var algorithm :- ParseAlgorithm(key.algorithm);
    if bundle.Some? && !BundleFits(key.(issuer := issuer), algorithm, bundle.value) then None
    else Some((issuer, algorithm))
  }

  /** The key has a usable issuer and a known algorithm, and the bundle, if there is one, agrees with the key. */
  ghost predicate KeyFits(key: IssuerKey, bundle: Option<TrustBundle>) {
    && IsBounded(Trim(key.issuer), 256) && (Upper(Trim(key.algorithm)) == "EDDSA" || Upper(Trim(key.algorithm)) == "ES256")
    && (bundle.Some? ==>
          && 1 <= Utf8Len(Trim(bundle.value.epoch)) <= 128 && bundle.value.key.issuer == Trim(key.issuer)
          && Upper(Trim(bundle.value.key.algorithm)) == Upper(Trim(key.algorithm))
          && TrimPem(bundle.value.key.publicKey) == TrimPem(key.publicKey))
  }

  lemma CheckedIff(key: IssuerKey, bundle: Option<TrustBundle>)
    ensures CheckedIssuer(key, bundle).Some? <==> KeyFits(key, bundle)
    ensures CheckedIssuer(key, bundle).Some? ==>
              && CheckedIssuer(key, bundle).value.0 == Trim(key.issuer)
              && AlgorithmName(CheckedIssuer(key, bundle).value.1) == Upper(Trim(key.algorithm))
  {
    hide NormalizeBounded, Trim, Upper, Utf8Len, TrimPem, IsBounded, ParseAlgorithm, AlgorithmName;
    ParseIffName(key.algorithm, EdDSA);
    ParseIffName(key.algorithm, ES256);
    assert AlgorithmName(EdDSA) == "EDDSA" && AlgorithmName(ES256) == "ES256" by { NamesAre(); }
    var a := ParseAlgorithm(key.algorithm);
    assert a.Some? ==> a.value == EdDSA || a.value == ES256;
  }

  lemma NamesAre()
    ensures AlgorithmName(EdDSA) == "EDDSA" && AlgorithmName(ES256) == "ES256"
  {
  }

  function BuildIssueParams(
    escrow: string, txset: string, role: Role, op: TokenOp, ttl: Option<u64>, cli: Settings, env: Settings,
    key: IssuerKey, bundle: Option<TrustBundle>): (r: Option<Params>)
    ensures r.Some? ==> ValidParams(r.value) && NormalizeBounded(key.issuer, 256) == Some(r.value.issuer)
    ensures r.Some? && bundle.Some? ==>
              && BundleFits(key.(issuer := r.value.issuer), r.value.algorithm, bundle.value)
              && r.value.epoch == Some(bundle.value.epoch)
  {
    var e :- NormalizeHex(escrow, 32);
    var t :- NormalizeHex(txset, 64);
    var issuer :- CheckedIssuer(key, bundle);
    var secs := if ttl.Some? then ttl.value else 60;
    if secs == 0 || secs > 120 then None
    else
      var subject :- Setting(cli.subject, env.subject, None, 256);
      var wallet :- Setting(cli.wallet, env.wallet, None, 256);
      var sandbox :- Setting(cli.sandbox, env.sandbox, None, 256);
      var audience :- Setting(cli.audience, env.audience, Some("sandbox:" + sandbox), 256);
      var nettype :- Setting(cli.nettype, env.nettype, None, 32);
      Some(Params(e, t, role, op, issuer.0, issuer.1, secs, subject, wallet, sandbox, audience, nettype,
                  if bundle.Some? then Some(bundle.value.epoch) else None))
  }

  /** The audience an operator who gives none gets. */
  function AudienceFor(sandbox: Option<string>): Option<string> {
    if sandbox.Some? then Some("sandbox:" + sandbox.value) else None
  }

  /** When parameters are built, and from what: every setting from the command line, a non-blank environment value or
      its default, the ttl 60 unless given. */
  lemma {:induction false} BuildsIff(
    escrow: string, txset: string, role: Role, op: TokenOp, ttl: Option<u64>, cli: Settings, env: Settings,
    key: IssuerKey, bundle: Option<TrustBundle>)
    ensures var sandbox := Setting(cli.sandbox, env.sandbox, None, 256);
            var r := BuildIssueParams(escrow, txset, role, op, ttl, cli, env, key, bundle);
            && (r.Some? <==>
                && NormalizeHex(escrow, 32).Some? && NormalizeHex(txset, 64).Some? && KeyFits(key, bundle)
                && (ttl.Some? ==> 1 <= ttl.value <= 120) && sandbox.Some?
                && Setting(cli.subject, env.subject, None, 256).Some? && Setting(cli.wallet, env.wallet, None, 256).Some?
                && Setting(cli.audience, env.audience, AudienceFor(sandbox), 256).Some?
                && Setting(cli.nettype, env.nettype, None, 32).Some?)
            && (r.Some? ==>
                && Some(r.value.escrow) == NormalizeHex(escrow, 32) && Some(r.value.txset) == NormalizeHex(txset, 64)
                && r.value.role == role && r.value.op == op && r.value.ttl == (if ttl.Some? then ttl.value else 60)
                && r.value.issuer == Trim(key.issuer) && AlgorithmName(r.value.algorithm) == Upper(Trim(key.algorithm))
                && Some(r.value.subject) == Setting(cli.subject, env.subject, None, 256)
                && Some(r.value.wallet) == Setting(cli.wallet, env.wallet, None, 256) && Some(r.value.sandbox) == sandbox
                && Some(r.value.audience) == Setting(cli.audience, env.audience, AudienceFor(sandbox), 256)
                && Some(r.value.nettype) == Setting(cli.nettype, env.nettype, None, 32)
                && r.value.epoch == if bundle.Some? then Some(bundle.value.epoch) else None)
  {
    hide NormalizeHex, NormalizeBounded, Setting, CheckedIssuer, KeyFits, BundleFits, IsBounded, IsLowerHex, AllHex, Trim, Lower;
    hide Upper, Utf8Len, AlgorithmName, EpochFits;
    CheckedIff(key, bundle);
  }

  /** Valid parameters are exactly what can be built: given explicitly, with a key that the bundle names, they come back
      unchanged, whatever the environment says and whatever text the loaders accepted as the key. */
  lemma ValidParamsAreBuilt(p: Params, env: Settings, pem: string)
    requires ValidParams(p)
    ensures var cli := Settings(Some(p.subject), Some(p.wallet), Some(p.sandbox), Some(p.audience), Some(p.nettype));
            var key := IssuerKey(p.issuer, AlgorithmName(p.algorithm), pem);
            var bundle := if p.epoch.Some? then Some(TrustBundle(key, p.epoch.value)) else None;
            BuildIssueParams(p.escrow, p.txset, p.role, p.op, Some(p.ttl), cli, env, key, bundle) == Some(p)
  {
    hide NormalizeHex, NormalizeBounded, NormalizeNonEmpty, IsBounded, EpochFits, ParseAlgorithm, AlgorithmName, Upper;
    hide Trim, TrimPem;
    NamesParse(p.algorithm);
  }

  /** Without an audience on the command line or in the environment, the token is for the signer of its sandbox. */
  lemma DefaultAudience(
    escrow: string, txset: string, role: Role, op: TokenOp, ttl: Option<u64>, cli: Settings, env: Settings,
    key: IssuerKey, bundle: Option<TrustBundle>)
    requires cli.audience.None? && (env.audience.None? || Trim(env.audience.value) == [])
    requires BuildIssueParams(escrow, txset, role, op, ttl, cli, env, key, bundle).Some?
    ensures var p := BuildIssueParams(escrow, txset, role, op, ttl, cli, env, key, bundle).value;
            p.audience == "sandbox:" + p.sandbox
  {
    hide NormalizeHex, NormalizeBounded, Setting, IsBounded, IsLowerHex, AllHex, Lower, Utf8Len, Trim, CheckedIssuer, BundleFits;
    var p := BuildIssueParams(escrow, txset, role, op, ttl, cli, env, key, bundle).value;
    PlainDefault(env.audience, p.sandbox);
  }

  lemma PlainDefault(env: Option<string>, sandbox: string)
    requires (env.None? || Trim(env.value) == []) && IsBounded(sandbox, 256)
    ensures var audience := "sandbox:" + sandbox;
            var r := Setting(None, env, Some(audience), 256);
            r.Some? ==> r.value == audience
  {
    hide Trim, Utf8Len;
    var audience := "sandbox:" + sandbox;
    assert audience[0] == 's' && audience[|audience| - 1] == sandbox[|sandbox| - 1];
    assert Trim(audience) == audience;
  }

  // ---- claims ----

  function IssuerRound(op: TokenOp, role: Role): string {
    match (op, role)
    case (SignMultisig, Arbiter) => "arbiter_first"
    case (SignMultisig, Seller) => "seller_second"
    case (SignMultisig, Buyer) => "buyer_second"
    case (SubmitMultisig, Arbiter) => "arbiter_submit"
    case (SubmitMultisig, Seller) => "seller_submit"
    case (SubmitMultisig, Buyer) => "buyer_submit"
  }

  /** orch-<seconds>-<role>-<op>-<16 random bytes in hex> */
  function NewJti(now: u64, role: Role, op: TokenOp, random: seq<byte>): string {
    "orch-" + Decimal(now) + "-" + RoleName(role) + "-" + OpName(op) + "-" + XmrCodec.HexEncode(random)
  }

  /** A token id determines when, for whom and for what it was drawn, and its random bytes. */
  lemma JtiDetermines(
    now: u64, role: Role, op: TokenOp, random: seq<byte>, now': u64, role': Role, op': TokenOp, random': seq<byte>)
    requires NewJti(now, role, op, random) == NewJti(now', role', op', random')
    ensures now == now' && role == role' && op == op' && random == random'
  {
    hide Decimal, RoleName, OpName, XmrCodec.HexEncode;
    var d, d', r, r', o, o' := Decimal(now), Decimal(now'), RoleName(role), RoleName(role'), OpName(op), OpName(op');
    var h, h' := XmrCodec.HexEncode(random), XmrCodec.HexEncode(random');
    NoDash(role, op);
    NoDash(role', op');
    SplitLast("orch-" + d + ['-'] + r + ['-'] + o, h, "orch-" + d' + ['-'] + r' + ['-'] + o', h', '-');
    SplitLast("orch-" + d + ['-'] + r, o, "orch-" + d' + ['-'] + r', o', '-');
    SplitLast("orch-" + d, r, "orch-" + d', r', '-');
    assert ("orch-" + d)[5..] == d && ("orch-" + d')[5..] == d';
    DecimalInjective(now, now');
    NamesDiffer(role, role', op, op');
    HexDetermines(random, random');
  }

  lemma NoDash(role: Role, op: TokenOp)
    ensures '-' !in RoleName(role) && '-' !in OpName(op)
  {
  }

  lemma HexDetermines(a: seq<byte>, b: seq<byte>)
    requires XmrCodec.HexEncode(a) == XmrCodec.HexEncode(b)
    ensures a == b
  {
    var s := XmrCodec.HexEncode(a);
    assert Lower(s) == s;
    XmrCodec.HexDecodeIff(s, a);
    XmrCodec.HexDecodeIff(s, b);
  }

  /** The tables as each of the issuer's reads finds them; other transactions may run between any two reads. */
  datatype Reads = Reads(workflow: Db, proposal: Db, admission: Db, bundleWorkflow: Db, arbiter: Db, seller: Db)

  datatype IssueError =
    | NoWorkflow | StateForbids | NoProposal | BadSnapshotHash | AdmissionMismatch | NoAdmission | BadAdmissionHash
    | MissingProof | SameJti | SameReqId | BadProof

  datatype Bundle = Bundle(escrow: string, txset: string, arbiter: Proof, seller: Proof)

  function ArbiterKey(escrow: string, txset: string): ProofKey {
    ProofKey(escrow, "arbiter", "arbiter_first", txset)
  }

  function SellerKey(escrow: string, txset: string): ProofKey {
    ProofKey(escrow, "seller", "seller_second", txset)
  }

  function ReadBundle(escrow: string, txset: string, r: Reads): Result<Bundle, IssueError> {
    var a, s := ArbiterKey(escrow, txset), SellerKey(escrow, txset);
    if escrow !in r.bundleWorkflow.workflows then Err(NoWorkflow)
    else if !AllowsSigning(r.bundleWorkflow.workflows[escrow].state) then Err(StateForbids)
    else if a !in r.arbiter.proofs || s !in r.seller.proofs then Err(MissingProof)
    else if r.arbiter.proofs[a].jti == r.seller.proofs[s].jti then Err(SameJti)
    else if r.arbiter.proofs[a].reqId == r.seller.proofs[s].reqId then Err(SameReqId)
    else Ok(Bundle(escrow, txset, r.arbiter.proofs[a], r.seller.proofs[s]))
  }

  function WithProofs(c: Claims, b: Bundle): (r: Result<Claims, IssueError>)
    ensures r.Ok? ==>
              && r.value.proofArbiterJti == NormalizeBounded(b.arbiter.jti, 256) && r.value.proofArbiterJti.Some?
              && r.value.proofSellerJti == NormalizeBounded(b.seller.jti, 256) && r.value.proofSellerJti.Some?
              && r.value.proofArbiterReqId == NormalizeHex(b.arbiter.reqId, 64) && r.value.proofArbiterReqId.Some?
              && r.value.proofSellerReqId == NormalizeHex(b.seller.reqId, 64) && r.value.proofSellerReqId.Some?
              && WithoutProofs(r.value) == WithoutProofs(c)
  {
    var aj, sj := NormalizeBounded(b.arbiter.jti, 256), NormalizeBounded(b.seller.jti, 256);
    var aq, sq := NormalizeHex(b.arbiter.reqId, 64), NormalizeHex(b.seller.reqId, 64);
    if c.escrow != b.escrow || c.txset != b.txset || aj.None? || sj.None? || aq.None? || sq.None? then Err(BadProof)
    else Ok(c.(proofArbiterJti := aj, proofSellerJti := sj, proofArbiterReqId := aq, proofSellerReqId := sq))
  }

  function WithoutProofs(c: Claims): Claims {
    c.(proofArbiterJti := None, proofSellerJti := None, proofArbiterReqId := None, proofSellerReqId := None)
  }

  function BaseClaims(p: Params, snapshotHash: string, now: u64, jti: string): (c: Claims)
    ensures c.admissionHash == None && c.snapshotHash == snapshotHash && WithoutProofs(c) == c
  {
    Claims(p.issuer, p.audience, p.subject, OpName(p.op), OpName(p.op), RoleName(p.role), IssuerRound(p.op, p.role),
           p.escrow, p.wallet, p.sandbox, p.txset, snapshotHash, p.nettype, p.epoch, None, now, now,
           SatAddU64(now, p.ttl), jti, None, None, None, None)
  }

  /** The admission artifact, if there is one, must fit the claims and the proposal. */
  function AdmissionFor(p: Params, snapshotHash: string, proposal: Proposal, db: Db)
    : (r: Result<Option<string>, IssueError>)
    ensures r.Ok? && p.epoch.Some? ==> r.value.Some?
    ensures r.Ok? && r.value.Some? ==> IsLowerHex(r.value.value, 64)
  {
    if p.escrow !in db.admissions then if p.epoch.Some? then Err(NoAdmission) else Ok(None)
    else
      var adm, key := db.admissions[p.escrow], NormalizeBounded(proposal.action, 32);
      if adm.snapshotHash != snapshotHash || (p.epoch.Some? && adm.trustEpoch != p.epoch.value)
         || key.None? || adm.action != Lower(key.value)
      then Err(AdmissionMismatch)
      else
        var hash := NormalizeHex(adm.artifactHash, 64);
        if hash.None? then Err(BadAdmissionHash) else Ok(hash)
  }

  function Issue(p: Params, r: Reads, now: u64, jti: string): Result<Claims, IssueError> {
    if p.escrow !in r.workflow.workflows then Err(NoWorkflow)
    else
      var wf := r.workflow.workflows[p.escrow];
      if !AllowsSigning(wf.state) then Err(StateForbids)
      else if p.escrow !in r.proposal.proposals || r.proposal.proposals[p.escrow].txset != p.txset then Err(NoProposal)
      else if NormalizeHex(wf.snapshotHash, 64).None? then Err(BadSnapshotHash)
      else
        var snapshotHash := NormalizeHex(wf.snapshotHash, 64).value;
        var hash :- AdmissionFor(p, snapshotHash, r.proposal.proposals[p.escrow], r.admission);
        var claims := BaseClaims(p, snapshotHash, now, jti).(admissionHash := hash);
        if p.op == SignMultisig then Ok(claims)
        else
          var bundle :- ReadBundle(p.escrow, p.txset, r);
          WithProofs(claims, bundle)
  }

  // ---- when a token is issued, and what it says ----

  /** An artifact, where there is one, is for the workflow's snapshot, the expected epoch and the proposed action;
      with a trust epoch there must be one. */
  predicate AdmissionFits(p: Params, snapshotHash: string, action: string, admissions: map<string, Admission>) {
    if p.escrow in admissions then
      var adm := admissions[p.escrow];
      && adm.snapshotHash == snapshotHash && (p.epoch.Some? ==> adm.trustEpoch == p.epoch.value)
      && IsBounded(Trim(action), 32) && adm.action == Lower(Trim(action)) && NormalizeHex(adm.artifactHash, 64).Some?
    else p.epoch.None?
  }

  /** Both quorum proofs are there, differ, and are in a form the claims can carry. */
  predicate ProofsReady(p: Params, r: Reads) {
    var a, s := ArbiterKey(p.escrow, p.txset), SellerKey(p.escrow, p.txset);
    && p.escrow in r.bundleWorkflow.workflows && AllowsSigning(r.bundleWorkflow.workflows[p.escrow].state)
    && a in r.arbiter.proofs && s in r.seller.proofs
    && var arbiter, seller := r.arbiter.proofs[a], r.seller.proofs[s];
       && arbiter.jti != seller.jti && arbiter.reqId != seller.reqId
       && NormalizeBounded(arbiter.jti, 256).Some? && NormalizeBounded(seller.jti, 256).Some?
       && NormalizeHex(arbiter.reqId, 64).Some? && NormalizeHex(seller.reqId, 64).Some?
  }

  /** What must be in the tables, read by read, for a token. */
  predicate MayIssue(p: Params, r: Reads) {
    && p.escrow in r.workflow.workflows && AllowsSigning(r.workflow.workflows[p.escrow].state)
    && p.escrow in r.proposal.proposals && r.proposal.proposals[p.escrow].txset == p.txset
    && var hash := NormalizeHex(r.workflow.workflows[p.escrow].snapshotHash, 64);
       && hash.Some? && AdmissionFits(p, hash.value, r.proposal.proposals[p.escrow].action, r.admission.admissions)
       && (p.op == SubmitMultisig ==> ProofsReady(p, r))
  }

  /** What the claims say apart from snapshot, admission and proofs. */
  ghost predicate HasFields(c: Claims, p: Params, issuedAt: u64, jti: string) {
    && c.iss == p.issuer && c.aud == p.audience && c.sub == p.subject && c.jti == jti
    && c.scope == OpName(p.op) && c.op == OpName(p.op) && c.role == RoleName(p.role) && c.round == IssuerRound(p.op, p.role)
    && c.escrow == p.escrow && c.txset == p.txset && c.wallet == p.wallet && c.sandbox == p.sandbox
    && c.nettype == p.nettype && c.epoch == p.epoch
    && c.iat == issuedAt && c.nbf == issuedAt && c.exp == Min(issuedAt + p.ttl, U64_MAX)
  }

  /** The claims say who, what and when from the parameters, and carry snapshot, artifact and proofs of the tables. */
  ghost predicate SaysWhatWasRead(c: Claims, p: Params, r: Reads, issuedAt: u64, jti: string)
    requires MayIssue(p, r)
  {
    && HasFields(c, p, issuedAt, jti)
    && NormalizeHex(r.workflow.workflows[p.escrow].snapshotHash, 64) == Some(c.snapshotHash)
    && c.admissionHash == (if p.escrow in r.admission.admissions
                           then NormalizeHex(r.admission.admissions[p.escrow].artifactHash, 64) else None)
    && (p.op == SubmitMultisig ==>
          var arbiter := r.arbiter.proofs[ArbiterKey(p.escrow, p.txset)];
          var seller := r.seller.proofs[SellerKey(p.escrow, p.txset)];
          && c.proofArbiterJti == NormalizeBounded(arbiter.jti, 256) && c.proofSellerJti == NormalizeBounded(seller.jti, 256)
          && c.proofArbiterReqId == NormalizeHex(arbiter.reqId, 64) && c.proofSellerReqId == NormalizeHex(seller.reqId, 64))
    && (p.op == SignMultisig ==> WithoutProofs(c) == c)
  }

  lemma AdmissionIff(p: Params, snapshotHash: string, proposal: Proposal, db: Db)
    ensures AdmissionFor(p, snapshotHash, proposal, db).Ok? <==>
            AdmissionFits(p, snapshotHash, proposal.action, db.admissions)
    ensures AdmissionFor(p, snapshotHash, proposal, db).Ok? ==>
              AdmissionFor(p, snapshotHash, proposal, db).value
              == if p.escrow in db.admissions then NormalizeHex(db.admissions[p.escrow].artifactHash, 64) else None
  {
    hide NormalizeHex, Lower, Trim, Utf8Len;
  }

  lemma ProofsIff(p: Params, r: Reads, c: Claims)
    requires c.escrow == p.escrow && c.txset == p.txset
    ensures var b := ReadBundle(p.escrow, p.txset, r);
            && (b.Ok? && WithProofs(c, b.value).Ok? <==> ProofsReady(p, r))
            && (b.Ok? ==> b.value.arbiter == r.arbiter.proofs[ArbiterKey(p.escrow, p.txset)]
                          && b.value.seller == r.seller.proofs[SellerKey(p.escrow, p.txset)])
  {
    hide NormalizeHex, NormalizeBounded, AllowsSigning, IsLowerHex, IsBounded, AllHex, Trim, Lower, Utf8Len;
  }

  /** A token is issued exactly when the tables allow it, and then says what was read. */
  lemma IssuesIff(p: Params, r: Reads, now: u64, jti: string)
    ensures Issue(p, r, now, jti).Ok? <==> MayIssue(p, r)
    ensures Issue(p, r, now, jti).Ok? ==> SaysWhatWasRead(Issue(p, r, now, jti).value, p, r, now, jti)
  {
    hide NormalizeHex, NormalizeBounded, AllowsSigning, AdmissionFor, AdmissionFits, ReadBundle, WithProofs, ProofsReady;
    hide OpName, RoleName, IssuerRound, IsLowerHex, AllHex, Trim, Lower, Utf8Len, IsBounded;
    if p.escrow in r.workflow.workflows && p.escrow in r.proposal.proposals {
      var hash := NormalizeHex(r.workflow.workflows[p.escrow].snapshotHash, 64);
      if hash.Some? {
        AdmissionIff(p, hash.value, r.proposal.proposals[p.escrow], r.admission);
        var admitted := AdmissionFor(p, hash.value, r.proposal.proposals[p.escrow], r.admission);
        if admitted.Ok? {
          ProofsIff(p, r, BaseClaims(p, hash.value, now, jti).(admissionHash := admitted.value));
        }
      }
    }
  }

  // ---- the issuer as it runs ----

  /** Fill the proof fields of the claims from the bundle. */
  method ApplySubmitProofBundle(c: Claims, b: Bundle) returns (r: Result<Claims, IssueError>)
    ensures r == WithProofs(c, b)
  {
    hide NormalizeHex, NormalizeBounded;
    var claims := c;
    if claims.escrow != b.escrow || claims.txset != b.txset {
      return Err(BadProof);
    }
    claims := claims.(proofArbiterJti := NormalizeBounded(b.arbiter.jti, 256));
    if claims.proofArbiterJti.None? {
      return Err(BadProof);
    }
    claims := claims.(proofSellerJti := NormalizeBounded(b.seller.jti, 256));
    if claims.proofSellerJti.None? {
      return Err(BadProof);
    }
    claims := claims.(proofArbiterReqId := NormalizeHex(b.arbiter.reqId, 64));
    if claims.proofArbiterReqId.None? {
      return Err(BadProof);
    }
    claims := claims.(proofSellerReqId := NormalizeHex(b.seller.reqId, 64));
    if claims.proofSellerReqId.None? {
      return Err(BadProof);
    }
    return Ok(claims);
  }

  /** Build a claims record and complete it field by field from later reads. */
  method BuildClaims(p: Params, wf: Instance, proposal: Proposal, views: Reads, now: u64, jti: string)
    returns (r: Result<Claims, IssueError>)
    requires p.escrow in views.workflow.workflows && views.workflow.workflows[p.escrow] == wf && AllowsSigning(wf.state)
    requires p.escrow in views.proposal.proposals && views.proposal.proposals[p.escrow] == proposal
    requires proposal.txset == p.txset
    ensures r == Issue(p, views, now, jti)
  {
    hide NormalizeHex, NormalizeBounded, AllowsSigning, ReadBundle, WithProofs, Lower, BaseClaims;
    var snapshotHash := NormalizeHex(wf.snapshotHash, 64);
    if snapshotHash.None? {
      return Err(BadSnapshotHash);
    }
    var claims := BaseClaims(p, snapshotHash.value, now, jti);
    if p.escrow in views.admission.admissions {
      var adm := views.admission.admissions[p.escrow];
      if adm.snapshotHash != snapshotHash.value || (p.epoch.Some? && adm.trustEpoch != p.epoch.value) {
        return Err(AdmissionMismatch);
      }
      var key := NormalizeBounded(proposal.action, 32);
      if key.None? || adm.action != Lower(key.value) {
        return Err(AdmissionMismatch);
      }
      claims := claims.(admissionHash := NormalizeHex(adm.artifactHash, 64));
      if claims.admissionHash.None? {
        return Err(BadAdmissionHash);
      }
    } else if p.epoch.Some? {
      return Err(NoAdmission);
    }
    if p.op == SubmitMultisig {
      var bundle := ReadBundle(p.escrow, p.txset, views);
      if bundle.Err? {
        return Err(bundle.error);
      }
      r := ApplySubmitProofBundle(claims, bundle.value);
      return;
    }
    return Ok(claims);
  }

  method IssueActionToken(p: Params, views: Reads, now: u64, jti: string) returns (r: Result<Claims, IssueError>)
    ensures r == Issue(p, views, now, jti)
    ensures r.Ok? <==> MayIssue(p, views)
    ensures r.Ok? ==> SaysWhatWasRead(r.value, p, views, now, jti)
  {
    IssuesIff(p, views, now, jti);
    hide MayIssue, SaysWhatWasRead;
    hide NormalizeHex, AllowsSigning, ReadBundle, WithProofs, BaseClaims, AdmissionFor;
    if p.escrow !in views.workflow.workflows {
      return Err(NoWorkflow);
    }
    var wf := views.workflow.workflows[p.escrow];
    if !AllowsSigning(wf.state) {
      return Err(StateForbids);
    }
    if p.escrow !in views.proposal.proposals || views.proposal.proposals[p.escrow].txset != p.txset {
      return Err(NoProposal);
    }
    r := BuildClaims(p, wf, views.proposal.proposals[p.escrow], views, now, jti);
  }
}
