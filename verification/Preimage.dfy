/** Length-prefixed hash preimages of escrow snapshots and spend proposals. */
module Preimage {
  import opened MachineInts
  import opened Radix

  const SNAPSHOT_DOMAIN: string := "privai:nxms:escrow-snapshot:v1"
  const PROPOSAL_DOMAIN: string := "privai:nxms:escrow-proposal:v1"

  type Bytes = seq<byte>

  /** The low `n` bytes of `v`, least significant first: `(v as uN).to_le_bytes()`. */
  function LittleEndian(v: nat, n: nat): (r: Bytes)
    ensures |r| == n
  {
    var ds := Digits(v, 256, n);
    seq(n, i requires 0 <= i < n => ds[n - 1 - i] as byte)
  }

  /** The number is the sum of its bytes, each 256 times the weight of the one before. */
  lemma {:induction false} LittleEndianWeights(v: nat, n: nat)
    ensures n == 0 ==> LittleEndian(v, n) == []
    ensures 0 < n ==> LittleEndian(v, n)[0] == v % 256 && LittleEndian(v, n)[1..] == LittleEndian(v / 256, n - 1)
  {
    if 0 < n {
      var r, t := LittleEndian(v, n), LittleEndian(v / 256, n - 1);
      forall i | 0 <= i < n - 1 ensures r[1..][i] == t[i] {
        assert Digits(v, 256, n)[n - 2 - i] == Digits(v / 256, 256, n - 1)[n - 2 - i];
      }
    }
  }

  function LengthPrefixed(part: Bytes): Bytes {
    LittleEndian(|part|, 4) + part
  }

  /** What `domain_hash` feeds the hasher for the domain followed by the parts. */
  function Material(parts: seq<Bytes>): Bytes {
    if parts == [] then [] else LengthPrefixed(parts[0]) + Material(parts[1..])
  }

  /** An incremental hasher; `fed` is what it has absorbed. */
  class Hasher {
    var fed: Bytes

    constructor ()
      ensures fed == []
    {
      fed := [];
    }

    method Update(bytes: Bytes)
      modifies this
      ensures fed == old(fed) + bytes
    {
      fed := fed + bytes;
    }

    method UpdateLenPrefixed(bytes: Bytes)
      modifies this
      ensures fed == old(fed) + LengthPrefixed(bytes)
    {
      Update(LittleEndian(|bytes|, 4));
      Update(bytes);
    }
  }

  /** `domain_hash`, for any hash function of the absorbed bytes. */
  method DomainHash(domain: Bytes, parts: seq<Bytes>, hash: Bytes -> Bytes) returns (digest: Bytes)
    ensures digest == hash(Material([domain] + parts))
  {
    hide Material, LengthPrefixed;
    var hasher := new Hasher();
    hasher.UpdateLenPrefixed(domain);
    MaterialFrom([domain] + parts, 0);
    assert ([domain] + parts)[1..] == parts && ([domain] + parts)[0..] == [domain] + parts && parts[0..] == parts;
    for k := 0 to |parts|
      invariant hasher.fed + Material(parts[k..]) == Material([domain] + parts)
    {
      ghost var before := hasher.fed;
      hasher.UpdateLenPrefixed(parts[k]);
      MaterialFrom(parts, k);
      assert before + (LengthPrefixed(parts[k]) + Material(parts[k + 1..])) == hasher.fed + Material(parts[k + 1..]);
    }
    MaterialOfNothing();
    assert parts[|parts|..] == [] && hasher.fed + [] == hasher.fed;
    digest := hash(hasher.fed);
  }

  lemma MaterialFrom(parts: seq<Bytes>, k: nat)
    requires k < |parts|
    ensures Material(parts[k..]) == LengthPrefixed(parts[k]) + Material(parts[k + 1..])
  {
    hide LengthPrefixed;
    assert parts[k..][1..] == parts[k + 1..];
  }

  lemma MaterialOfNothing()
    ensures Material([]) == []
  {
  }

  // ---- unique decodability ----

  lemma LittleEndianInjective(a: nat, b: nat, n: nat)
    requires a < Pow(256, n) && b < Pow(256, n) && LittleEndian(a, n) == LittleEndian(b, n)
    ensures a == b
  {
    hide Quotient, Remainder;
    var ds, es := Digits(a, 256, n), Digits(b, 256, n);
    forall i | 0 <= i < n ensures ds[i] == es[i] {
      assert LittleEndian(a, n)[n - 1 - i] == LittleEndian(b, n)[n - 1 - i];
    }
    assert ds == es;
    ValueOfDigits(a, 256, n);
    ValueOfDigits(b, 256, n);
  }

  /** The length fits the 32-bit prefix. */
  ghost predicate Fits(part: Bytes) {
    |part| < Pow(256, 4)
  }

  lemma PrefixedPrefix(a: Bytes, b: Bytes, x: Bytes, y: Bytes)
    requires Fits(a) && Fits(b) && LengthPrefixed(a) + x == LengthPrefixed(b) + y
    ensures a == b && x == y
  {
    var s, t := LengthPrefixed(a) + x, LengthPrefixed(b) + y;
    assert s[..4] == LittleEndian(|a|, 4) && t[..4] == LittleEndian(|b|, 4);
    LittleEndianInjective(|a|, |b|, 4);
    assert s[4..4 + |a|] == a && t[4..4 + |b|] == b;
    assert s[4 + |a|..] == x && t[4 + |b|..] == y;
  }

  /** Lists of parts shorter than 2^32 bytes are determined by their material, whatever their number. */
  lemma {:induction false} MaterialInjective(p: seq<Bytes>, q: seq<Bytes>)
    requires forall i :: 0 <= i < |p| ==> Fits(p[i])
    requires forall i :: 0 <= i < |q| ==> Fits(q[i])
    requires Material(p) == Material(q)
    ensures p == q
  {
    hide Fits;
    if p != [] && q != [] {
      PrefixedPrefix(p[0], q[0], Material(p[1..]), Material(q[1..]));
      MaterialInjective(p[1..], q[1..]);
      assert p == [p[0]] + p[1..] && q == [q[0]] + q[1..];
    }
  }

  function Zeros(n: nat): (z: Bytes)
    ensures |z| == n && forall i :: 0 <= i < n ==> z[i] == 0
  {
    seq(n, i => 0)
  }

  lemma {:induction false} ZeroDigits(v: nat, n: nat)
    requires v == 0 || v == Pow(256, n)
    ensures forall i :: 0 <= i < n ==> Digits(v, 256, n)[i] == 0
    decreases n
  {
    if 0 < n {
      ZeroDigits(v / 256, n - 1);
    }
  }

  function EmptyParts(n: nat): (ps: seq<Bytes>)
    ensures |ps| == n && forall i :: 0 <= i < n ==> ps[i] == []
  {
    seq(n, i => [])
  }

  lemma {:induction false} EmptyPartsMaterial(n: nat)
    ensures Material(EmptyParts(n)) == Zeros(4 * n)
  {
    if 0 < n {
      EmptyPartsMaterial(n - 1);
      assert EmptyParts(n)[1..] == EmptyParts(n - 1);
      ZeroDigits(0, 4);
      assert LengthPrefixed([]) == Zeros(4);
      assert Zeros(4) + Zeros(4 * (n - 1)) == Zeros(4 * n);
    }
  }

  /** The bound is needed for part lists of any shape: under any domain, one part of 2^32 zero bytes and
      2^30 + 1 empty parts have the same material. */
  lemma LongPartCollides(domain: Bytes)
    ensures exists p: seq<Bytes>, q: seq<Bytes> ::
              && p != q && |p| == 1 && !Fits(p[0]) && (forall i :: 0 <= i < |q| ==> Fits(q[i]))
              && Material([domain] + p) == Material([domain] + q)
  {
    PowersOf256();
    var n := Pow(256, 4);
    var long := Zeros(n);
    var p, q: seq<Bytes> := [long], EmptyParts(n / 4 + 1);
    ZeroDigits(n, 4);
    assert LengthPrefixed(long) == Zeros(4) + Zeros(n);
    assert Material(p) == LengthPrefixed(long) by {
      assert p[1..] == [];
    }
    EmptyPartsMaterial(n / 4 + 1);
    assert Zeros(4) + Zeros(n) == Zeros(4 * (n / 4 + 1));
    assert !Fits(p[0]);
    forall i | 0 <= i < |q| ensures Fits(q[i]) {
      assert q[i] == [];
    }
    assert |p| != |q|;
    assert ([domain] + p)[1..] == p && ([domain] + q)[1..] == q;
  }

  // ---- parts of known shape ----

  ghost predicate SameLengths(p: seq<Bytes>, q: seq<Bytes>) {
    |p| == |q| && forall i :: 0 <= i < |p| ==> |p[i]| == |q[i]|
  }

  lemma {:induction false} SameLengthsSameTotal(p: seq<Bytes>, q: seq<Bytes>)
    requires SameLengths(p, q)
    ensures |Material(p)| == |Material(q)|
  {
    if p != [] {
      SameLengthsSameTotal(p[1..], q[1..]);
    }
  }

  lemma FirstPart(a: Bytes, b: Bytes, x: Bytes, y: Bytes)
    requires |a| == |b| && LengthPrefixed(a) + x == LengthPrefixed(b) + y
    ensures a == b && x == y
  {
    var s, t := LengthPrefixed(a) + x, LengthPrefixed(b) + y;
    assert s[4..4 + |a|] == a && t[4..4 + |b|] == b;
    assert s[4 + |a|..] == x && t[4 + |b|..] == y;
  }

  /** Parts of known lengths are positional, whatever the lengths are. */
  lemma {:induction false} SameShapeInjective(p: seq<Bytes>, q: seq<Bytes>)
    requires SameLengths(p, q) && Material(p) == Material(q)
    ensures p == q
  {
    hide LengthPrefixed;
    if p != [] {
      FirstPart(p[0], q[0], Material(p[1..]), Material(q[1..]));
      SameShapeInjective(p[1..], q[1..]);
      assert p == [p[0]] + p[1..] && q == [q[0]] + q[1..];
    }
  }

  /** One part of unknown length is found from the total. */
  lemma {:induction false} LengthOfOnePart(p: seq<Bytes>, q: seq<Bytes>, k: nat)
    requires |p| == |q| && k < |p| && (forall i :: 0 <= i < |p| && i != k ==> |p[i]| == |q[i]|)
    requires |Material(p)| == |Material(q)|
    ensures |p[k]| == |q[k]|
    decreases k
  {
    if k == 0 {
      SameLengthsSameTotal(p[1..], q[1..]);
    } else {
      LengthOfOnePart(p[1..], q[1..], k - 1);
    }
  }

  // ---- snapshots and proposals ----

  type Hash32 = b: Bytes | |b| == 32 witness seq(32, _ => 0)

  datatype Snapshot = Snapshot(
    escrowId: Hash32, buyerPk: Hash32, merchantPk: Hash32, operatorPk: Hash32,
    fundingNoteCommit: Hash32, spendPolicyCommit: Hash32, amount: u64, timeoutBlock: u64)

  datatype Proposal = Proposal(
    escrowId: Hash32, snapshotHash: Hash32, action: byte, inputNoteCommits: seq<Hash32>,
    outputRecipientPk: Hash32, fee: u64)

  function Ascii(s: string): (r: Bytes)
    ensures |r| == |s|
  {
    seq(|s|, i requires 0 <= i < |s| => (s[i] as int % 256) as byte)
  }

  function Flatten(hs: seq<Hash32>): (r: Bytes)
    ensures |r| == 32 * |hs|
  {
    if hs == [] then [] else hs[0] + Flatten(hs[1..])
  }

  function SnapshotParts(s: Snapshot): seq<Bytes> {
    [Ascii(SNAPSHOT_DOMAIN), s.escrowId, s.buyerPk, s.merchantPk, s.operatorPk, s.fundingNoteCommit,
     s.spendPolicyCommit, LittleEndian(s.amount, 8), LittleEndian(s.timeoutBlock, 8)]
  }

  function ProposalParts(p: Proposal): seq<Bytes> {
    [Ascii(PROPOSAL_DOMAIN), p.escrowId, p.snapshotHash, [p.action], Flatten(p.inputNoteCommits),
     p.outputRecipientPk, LittleEndian(p.fee, 8)]
  }

  /** `compute_snapshot_hash` */
  function SnapshotHash(s: Snapshot, hash: Bytes -> Bytes): Bytes {
    hash(Material(SnapshotParts(s)))
  }

  /** `compute_proposal_hash` */
  function ProposalHash(p: Proposal, hash: Bytes -> Bytes): Bytes {
    hash(Material(ProposalParts(p)))
  }

  lemma {:induction false} FlattenInjective(a: seq<Hash32>, b: seq<Hash32>)
    requires Flatten(a) == Flatten(b)
    ensures a == b
  {
    if a != [] && b != [] {
      assert Flatten(a)[..32] == a[0] && Flatten(b)[..32] == b[0];
      assert Flatten(a)[32..] == Flatten(a[1..]) && Flatten(b)[32..] == Flatten(b[1..]);
      FlattenInjective(a[1..], b[1..]);
      assert a == [a[0]] + a[1..] && b == [b[0]] + b[1..];
    }
  }

  /** Where part `k` of a list begins in the material. */
  function StartOf(parts: seq<Bytes>, k: nat): nat
    requires k < |parts|
  {
    if k == 0 then 4 else 4 + |parts[0]| + StartOf(parts[1..], k - 1)
  }

  lemma {:induction false} PartAt(parts: seq<Bytes>, k: nat)
    requires k < |parts|
    ensures StartOf(parts, k) + |parts[k]| <= |Material(parts)|
    ensures Material(parts)[StartOf(parts, k)..StartOf(parts, k) + |parts[k]|] == parts[k]
  {
    var m, first := Material(parts), 4 + |parts[0]|;
    if 0 < k {
      PartAt(parts[1..], k - 1);
      assert m[first..] == Material(parts[1..]);
      var a := StartOf(parts[1..], k - 1);
      assert m[first + a..first + a + |parts[k]|] == m[first..][a..a + |parts[k]|];
    } else {
      assert m[4..first] == parts[0];
    }
  }

  lemma NextStart(parts: seq<Bytes>, k: nat)
    requires k + 1 < |parts|
    ensures StartOf(parts, k + 1) == StartOf(parts, k) + |parts[k]| + 4
  {
    if 0 < k {
      NextStart(parts[1..], k - 1);
    } else {
      assert StartOf(parts[1..], 0) == 4;
    }
  }

  /** The bytes of a snapshot preimage: every field at its own place. */
  lemma {:induction false} SnapshotLayout(s: Snapshot)
    ensures var m := Material(SnapshotParts(s));
            && |m| == 274 && m[4..34] == Ascii(SNAPSHOT_DOMAIN) && m[38..70] == s.escrowId && m[74..106] == s.buyerPk
            && m[110..142] == s.merchantPk && m[146..178] == s.operatorPk && m[182..214] == s.fundingNoteCommit
            && m[218..250] == s.spendPolicyCommit && m[254..262] == LittleEndian(s.amount, 8)
            && m[266..274] == LittleEndian(s.timeoutBlock, 8)
  {
    hide Material, LittleEndian, StartOf;
    var parts := SnapshotParts(s);
    PlacesFrom(parts, 0);
    PlacesFrom(parts, 1);
    PlacesFrom(parts, 2);
    PlacesFrom(parts, 3);
    PlacesFrom(parts, 4);
    PlacesFrom(parts, 5);
    PlacesFrom(parts, 6);
    PlacesFrom(parts, 7);
    PlacesFrom(parts, 8);
  }

  lemma PlacesFrom(parts: seq<Bytes>, k: nat)
    requires k < |parts|
    ensures StartOf(parts, 0) == 4
    ensures StartOf(parts, k) + |parts[k]| <= |Material(parts)|
    ensures Material(parts)[StartOf(parts, k)..StartOf(parts, k) + |parts[k]|] == parts[k]
    ensures if k + 1 < |parts| then StartOf(parts, k + 1) == StartOf(parts, k) + |parts[k]| + 4
            else |Material(parts)| == StartOf(parts, k) + |parts[k]|
  {
    PartAt(parts, k);
    if k + 1 < |parts| {
      NextStart(parts, k);
    } else {
      EndOf(parts);
    }
  }

  lemma {:induction false} EndOf(parts: seq<Bytes>)
    requires parts != []
    ensures |Material(parts)| == StartOf(parts, |parts| - 1) + |parts[|parts| - 1]|
  {
    if 1 < |parts| {
      EndOf(parts[1..]);
    } else {
      assert parts[1..] == [];
    }
  }

  /** The bytes of a proposal preimage: every field at its own place, behind the inputs counted from them. */
  lemma {:induction false} ProposalLayout(p: Proposal)
    ensures var m, n := Material(ProposalParts(p)), 32 * |p.inputNoteCommits|;
            && |m| == 163 + n && m[4..34] == Ascii(PROPOSAL_DOMAIN) && m[38..70] == p.escrowId && m[74..106] == p.snapshotHash
            && m[110] == p.action && m[115..115 + n] == Flatten(p.inputNoteCommits)
            && m[119 + n..151 + n] == p.outputRecipientPk && m[155 + n..163 + n] == LittleEndian(p.fee, 8)
  {
    hide Material, LittleEndian, StartOf, Flatten;
    var parts := ProposalParts(p);
    PlacesFrom(parts, 0);
    PlacesFrom(parts, 1);
    PlacesFrom(parts, 2);
    PlacesFrom(parts, 3);
    PlacesFrom(parts, 4);
    PlacesFrom(parts, 5);
    PlacesFrom(parts, 6);
    assert Material(parts)[110..111][0] == [p.action][0];
  }

  /** A snapshot preimage determines every field of the snapshot. */
  lemma {:induction false} SnapshotDetermined(a: Snapshot, b: Snapshot)
    requires Material(SnapshotParts(a)) == Material(SnapshotParts(b))
    ensures a == b
  {
    hide Material, LittleEndian;
    PowersOf256();
    var p, q := SnapshotParts(a), SnapshotParts(b);
    SameShapeInjective(p, q);
    assert p[1] == q[1] && p[2] == q[2] && p[3] == q[3] && p[4] == q[4] && p[5] == q[5] && p[6] == q[6];
    assert p[7] == q[7] && p[8] == q[8];
    LittleEndianInjective(a.amount, b.amount, 8);
    LittleEndianInjective(a.timeoutBlock, b.timeoutBlock, 8);
  }

  /** A proposal preimage determines every field of the proposal, for any number of inputs. */
  lemma {:induction false} ProposalDetermined(a: Proposal, b: Proposal)
    requires Material(ProposalParts(a)) == Material(ProposalParts(b))
    ensures a == b
  {
    hide Material, LittleEndian, Flatten;
    PowersOf256();
    var p, q := ProposalParts(a), ProposalParts(b);
    LengthOfOnePart(p, q, 4);
    SameShapeInjective(p, q);
    assert p[1] == q[1] && p[2] == q[2] && p[3] == q[3] && p[4] == q[4] && p[5] == q[5] && p[6] == q[6];
    assert [a.action][0] == [b.action][0];
    FlattenInjective(a.inputNoteCommits, b.inputNoteCommits);
    LittleEndianInjective(a.fee, b.fee, 8);
  }

  lemma DomainsDiffer()
    ensures Ascii(SNAPSHOT_DOMAIN) != Ascii(PROPOSAL_DOMAIN) && |SNAPSHOT_DOMAIN| == |PROPOSAL_DOMAIN| == 30
  {
    assert SNAPSHOT_DOMAIN[26] == 't' && PROPOSAL_DOMAIN[26] == 'l';
    assert Ascii(SNAPSHOT_DOMAIN)[26] != Ascii(PROPOSAL_DOMAIN)[26];
  }

  /** The two domains never share a preimage, whatever parts follow them. */
  lemma {:induction false} DomainsSeparate(ps: seq<Bytes>, qs: seq<Bytes>)
    ensures Material([Ascii(SNAPSHOT_DOMAIN)] + ps) != Material([Ascii(PROPOSAL_DOMAIN)] + qs)
  {
    hide Ascii, LengthPrefixed;
    DomainsDiffer();
    var d, e := Ascii(SNAPSHOT_DOMAIN), Ascii(PROPOSAL_DOMAIN);
    assert ([d] + ps)[1..] == ps && ([e] + qs)[1..] == qs;
    if LengthPrefixed(d) + Material(ps) == LengthPrefixed(e) + Material(qs) {
      FirstPart(d, e, Material(ps), Material(qs));
    }
  }

  /** No preimage is both a snapshot's and a proposal's. */
  lemma SnapshotIsNoProposal(s: Snapshot, p: Proposal)
    ensures Material(SnapshotParts(s)) != Material(ProposalParts(p))
  {
    hide Material;
    var ps, qs := SnapshotParts(s)[1..], ProposalParts(p)[1..];
    DomainsSeparate(ps, qs);
    assert SnapshotParts(s) == [Ascii(SNAPSHOT_DOMAIN)] + ps;
    assert ProposalParts(p) == [Ascii(PROPOSAL_DOMAIN)] + qs;
  }

  /** Under an injective hash the digests do what the preimages do: they determine snapshot and proposal, and none is
      both. */
  lemma {:induction false} DigestsDetermine(a: Snapshot, b: Snapshot, p: Proposal, q: Proposal, hash: Bytes -> Bytes)
    requires forall x, y :: hash(x) == hash(y) ==> x == y
    ensures SnapshotHash(a, hash) == SnapshotHash(b, hash) ==> a == b
    ensures ProposalHash(p, hash) == ProposalHash(q, hash) ==> p == q
    ensures SnapshotHash(a, hash) != ProposalHash(p, hash)
  {
    hide Material, SnapshotParts, ProposalParts;
    SnapshotIsNoProposal(a, p);
    if Material(SnapshotParts(a)) == Material(SnapshotParts(b)) {
      SnapshotDetermined(a, b);
    }
    if Material(ProposalParts(p)) == Material(ProposalParts(q)) {
      ProposalDetermined(p, q);
    }
  }
}
