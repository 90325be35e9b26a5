/** Issued tokens at the signer's single-use ledger. */
module TokenUse {
  import opened Wrappers
  import opened MachineInts
  import opened Claims
  import opened TokenIssuer
  import opened TokenAgreement
  import opened RequestLedger

  /** A token as it was issued: parameters, tables, clocks, random bytes and the claims that came out. */
  datatype Token = Token(p: Params, r: Reads, issuedAt: u64, jtiAt: u64, random: seq<byte>, claims: Claims)

  ghost predicate IsIssued(t: Token) {
    Issue(t.p, t.r, t.issuedAt, NewJti(t.jtiAt, t.p.role, t.p.op, t.random)) == Ok(t.claims)
  }

  /** Tokens share an id only if they share time, role, operation and random bytes. */
  lemma IdsTellTokensApart(t: Token, u: Token)
    requires IsIssued(t) && IsIssued(u)
    ensures t.claims.jti == u.claims.jti <==>
            t.jtiAt == u.jtiAt && t.p.role == u.p.role && t.p.op == u.p.op && t.random == u.random
  {
    hide Issue, NewJti, OpName, RoleName, IssuerRound;
    IssuedFields(t.p, t.r, t.issuedAt, NewJti(t.jtiAt, t.p.role, t.p.op, t.random), t.claims);
    IssuedFields(u.p, u.r, u.issuedAt, NewJti(u.jtiAt, u.p.role, u.p.op, u.random), u.claims);
    if t.claims.jti == u.claims.jti {
      JtiDetermines(t.jtiAt, t.p.role, t.p.op, t.random, u.jtiAt, u.p.role, u.p.op, u.random);
    }
  }

  /** If no two of the tokens a signer consumes in a run were drawn with the same random bytes, it consumes them all. */
  lemma {:induction false} FreshTokensAreAllConsumed(ls: seq<Ledger>, ops: seq<Op>, tokens: seq<Token>, n: nat)
    requires Run(ls, ops) && |tokens| == |ops| && n < |ops| && ops[n].ConsumeJti?
    requires forall i :: 0 <= i < |ops| && ops[i].ConsumeJti? ==> IsIssued(tokens[i]) && ops[i].jti == tokens[i].claims.jti
    requires forall i, j :: 0 <= i < j < |ops| && ops[i].ConsumeJti? && ops[j].ConsumeJti? ==>
                              tokens[i].random != tokens[j].random
    ensures Refusal(ls[n], ops[n]).None?
  {
    hide IsIssued, Apply;
    if ops[n].jti in ls[n].jtis {
      var i := WasConsumed(ls, ops, n, ops[n].jti);
      IdsTellTokensApart(tokens[i], tokens[n]);
    }
  }
}
