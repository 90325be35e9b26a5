/** The claims of an action token, shared by the orchestrator that issues it and the signer that checks it. */
module Claims {
  import opened Wrappers
  import opened MachineInts

  datatype Role = Arbiter | Seller | Buyer

  datatype TokenOp = SignMultisig | SubmitMultisig

  function RoleName(role: Role): string {
    match role
    case Arbiter => "arbiter"
    case Seller => "seller"
    case Buyer => "buyer"
  }

  function OpName(op: TokenOp): string {
    match op
    case SignMultisig => "sign_multisig"
    case SubmitMultisig => "submit_multisig"
  }

  lemma NamesDiffer(r1: Role, r2: Role, o1: TokenOp, o2: TokenOp)
    ensures RoleName(r1) == RoleName(r2) <==> r1 == r2
    ensures OpName(o1) == OpName(o2) <==> o1 == o2
  {
    assert RoleName(r1)[0] == RoleName(r2)[0] <==> r1 == r2;
    assert |OpName(o1)| == |OpName(o2)| <==> o1 == o2;
  }

  datatype Claims = Claims(
    iss: string, aud: string, sub: string, scope: string, op: string, role: string, round: string, escrow: string,
    wallet: string, sandbox: string, txset: string, snapshotHash: string, nettype: string, epoch: Option<string>,
    admissionHash: Option<string>, iat: u64, nbf: u64, exp: u64, jti: string, proofArbiterJti: Option<string>,
    proofSellerJti: Option<string>, proofArbiterReqId: Option<string>, proofSellerReqId: Option<string>)
}
