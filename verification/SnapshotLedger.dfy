/** The signer's snapshots and their signatures: activation by quorum. */
module SnapshotLedger {
  import opened Wrappers
  import opened MachineInts

  datatype Status = Pending | Active

  datatype Snapshot = Snapshot(escrow: string, json: string, status: Status)

  /** `snapshots` by hash; `snapshot_sigs` by hash and, within a hash, by signer id. */
  datatype Ledger = Ledger(snapshots: map<string, Snapshot>, sigs: map<string, map<string, string>>)

  datatype Op =
    | PutPending(escrow: string, hash: string, json: string)
    | PutSignature(hash: string, signerId: string, sig: string)
    | Activate(hash: string, quorum: u32)

  datatype Error = QuorumNotMet | SnapshotNotFound

  const Empty: Ledger := Ledger(map[], map[])

  function Signers(l: Ledger, hash: string): set<string> {
    if hash in l.sigs then l.sigs[hash].Keys else {}
  }

  function Refusal(l: Ledger, op: Op): Option<Error> {
    if op.Activate? && |Signers(l, op.hash)| < op.quorum then Some(QuorumNotMet)
    else if op.Activate? && op.hash !in l.snapshots then Some(SnapshotNotFound)
    else None
  }

  /** UPDATE all snapshots of the escrow to pending, then this one to active. */
  function Activated(snapshots: map<string, Snapshot>, hash: string): map<string, Snapshot>
    requires hash in snapshots
  {
    map h | h in snapshots ::
      if h == hash then snapshots[h].(status := Active)
      else if snapshots[h].escrow == snapshots[hash].escrow then snapshots[h].(status := Pending)
      else snapshots[h]
  }

  function Apply(l: Ledger, op: Op): Ledger {
    if Refusal(l, op).Some? then l
    else match op
      case PutPending(escrow, hash, json) =>
        l.(snapshots := l.snapshots[hash := if hash in l.snapshots then l.snapshots[hash].(json := json)
                                            else Snapshot(escrow, json, Pending)])
      case PutSignature(hash, signerId, sig) =>
        l.(sigs := l.sigs[hash := (if hash in l.sigs then l.sigs[hash] else map[])[signerId := sig]])
      case Activate(hash, _) => l.(snapshots := Activated(l.snapshots, hash))
  }

  // ---- runs ----

  ghost predicate Run(ls: seq<Ledger>, ops: seq<Op>) {
    && |ls| == |ops| + 1 && ls[0] == Empty
    && forall i :: 0 <= i < |ops| ==> ls[i + 1] == Apply(ls[i], ops[i])
  }

  lemma RunExtends(ls: seq<Ledger>, ops: seq<Op>, op: Op)
    requires Run(ls, ops)
    ensures Run(ls + [Apply(ls[|ops|], op)], ops + [op])
  {
    hide Apply;
    var ls', ops' := ls + [Apply(ls[|ops|], op)], ops + [op];
    forall i | 0 <= i < |ops'| ensures ls'[i + 1] == Apply(ls'[i], ops'[i]) {
      if i < |ops| {
        assert ls'[i] == ls[i] && ls'[i + 1] == ls[i + 1] && ops'[i] == ops[i];
      }
    }
  }

  ghost predicate IsActive(l: Ledger, hash: string) {
    hash in l.snapshots && l.snapshots[hash].status == Active
  }

  ghost predicate OneActivePerEscrow(l: Ledger) {
    forall g, h :: IsActive(l, g) && IsActive(l, h) && l.snapshots[g].escrow == l.snapshots[h].escrow ==> g == h
  }

  ghost predicate ActiveHasQuorum(l: Ledger, quorum: nat) {
    forall h :: IsActive(l, h) ==> quorum <= |Signers(l, h)|
  }

  lemma SignersGrow(l: Ledger, op: Op, hash: string)
    ensures Signers(l, hash) <= Signers(Apply(l, op), hash)
    ensures |Signers(l, hash)| <= |Signers(Apply(l, op), hash)|
  {
    var a, b := Signers(l, hash), Signers(Apply(l, op), hash);
    assert b == a || exists x :: b == a + {x} by {
      if op.PutSignature? && op.hash == hash {
        assert b == a + {op.signerId};
      }
    }
  }

  /** In every reachable state an escrow has at most one active snapshot. */
  lemma {:induction false} AtMostOneActive(ls: seq<Ledger>, ops: seq<Op>, n: nat)
    requires Run(ls, ops) && n <= |ops|
    ensures OneActivePerEscrow(ls[n])
  {
    if 0 < n {
      AtMostOneActive(ls, ops, n - 1);
      assert ls[n - 1 + 1] == Apply(ls[n - 1], ops[n - 1]);
    }
  }

  /** A snapshot hash, once stored, stays stored under the same escrow. */
  lemma {:induction false} HashKeepsEscrow(ls: seq<Ledger>, ops: seq<Op>, i: nat, j: nat, hash: string)
    requires Run(ls, ops) && i <= j <= |ops| && hash in ls[i].snapshots
    ensures hash in ls[j].snapshots && ls[j].snapshots[hash].escrow == ls[i].snapshots[hash].escrow
    decreases j
  {
    if i < j {
      HashKeepsEscrow(ls, ops, i, j - 1, hash);
      assert ls[j - 1 + 1] == Apply(ls[j - 1], ops[j - 1]);
    }
  }

  /** Under a fixed quorum every active snapshot carries signatures of at least that many distinct signers. */
  lemma {:induction false} ActiveSnapshotsHaveQuorum(ls: seq<Ledger>, ops: seq<Op>, quorum: u32, n: nat)
    requires Run(ls, ops) && n <= |ops|
    requires forall i :: 0 <= i < |ops| && ops[i].Activate? ==> ops[i].quorum == quorum
    ensures ActiveHasQuorum(ls[n], quorum)
  {
    if 0 < n {
      ActiveSnapshotsHaveQuorum(ls, ops, quorum, n - 1);
      var l, op := ls[n - 1], ops[n - 1];
      assert ls[n - 1 + 1] == Apply(l, op);
      forall h | IsActive(ls[n], h) ensures quorum <= |Signers(ls[n], h)| {
        SignersGrow(l, op, h);
        assert IsActive(l, h) || op == Activate(h, quorum);
      }
    }
  }

  /** A granted activation makes exactly that snapshot the active one of its escrow and touches no other escrow. */
  lemma ActivationSwitches(l: Ledger, hash: string, quorum: u32)
    requires Refusal(l, Activate(hash, quorum)).None?
    ensures var l' := Apply(l, Activate(hash, quorum));
            && IsActive(l', hash)
            && (forall g :: g in l.snapshots && l.snapshots[g].escrow == l.snapshots[hash].escrow && g != hash ==> !IsActive(l', g))
            && (forall g :: g in l.snapshots && l.snapshots[g].escrow != l.snapshots[hash].escrow ==>
                              g in l'.snapshots && l'.snapshots[g] == l.snapshots[g])
            && l'.snapshots.Keys == l.snapshots.Keys && l'.sigs == l.sigs
            && (forall g :: g in l.snapshots ==>
                              l'.snapshots[g].escrow == l.snapshots[g].escrow && l'.snapshots[g].json == l.snapshots[g].json)
  {
  }

  // ---- the tables as the signer updates them ----

  /** The tables, and the run that led to them: every method keeps the run up to date, so what holds of all runs
      holds of the object. */
  class SignerSnapshots {
    var snapshots: map<string, Snapshot>
    var sigs: map<string, map<string, string>>
    ghost var ls: seq<Ledger>
    ghost var ops: seq<Op>

    ghost function View(): Ledger
      reads this
    {
      Ledger(snapshots, sigs)
    }

    ghost predicate Valid()
      reads this
    {
      Run(ls, ops) && ls[|ops|] == View()
    }

    constructor ()
      ensures Valid() && ops == []
    {
      snapshots, sigs := map[], map[];
      ls, ops := [Empty], [];
    }

    ghost method Log(call: Op)
      requires Run(ls, ops) && View() == Apply(ls[|ops|], call)
      modifies `ls, `ops
      ensures Valid() && ops == old(ops) + [call] && ls == old(ls) + [View()]
    {
      hide Apply;
      RunExtends(ls, ops, call);
      ls, ops := ls + [View()], ops + [call];
    }

    /** The text is stored; a known hash keeps escrow and status, a new one is pending; nothing else changes, so the
        active snapshots stay the same. */
    method PutSnapshotPending(escrow: string, hash: string, json: string)
      requires Valid()
      modifies this
      ensures Valid() && ops == old(ops) + [PutPending(escrow, hash, json)]
      ensures snapshots.Keys == old(snapshots).Keys + {hash} && snapshots[hash].json == json && sigs == old(sigs)
      ensures hash in old(snapshots) ==> snapshots[hash].(json := []) == old(snapshots)[hash].(json := [])
      ensures hash !in old(snapshots) ==> snapshots[hash].escrow == escrow
      ensures forall h :: h in old(snapshots) && h != hash ==> snapshots[h] == old(snapshots)[h]
      ensures forall h :: IsActive(View(), h) <==> IsActive(old(View()), h)
      ensures OneActivePerEscrow(View())
    {
      if hash in snapshots {
        snapshots := snapshots[hash := snapshots[hash].(json := json)];
      } else {
        snapshots := snapshots[hash := Snapshot(escrow, json, Pending)];
      }
      Log(PutPending(escrow, hash, json));
      AtMostOneActive(ls, ops, |ops|);
    }

    /** The signer is counted once per hash, whatever it signs with; no other hash gains a signer. */
    method PutSnapshotSignature(hash: string, signerId: string, sig: string)
      requires Valid()
      modifies this
      ensures Valid() && ops == old(ops) + [PutSignature(hash, signerId, sig)]
      ensures hash in sigs && signerId in sigs[hash] && sigs[hash][signerId] == sig
      ensures forall h :: Signers(View(), h) == Signers(old(View()), h) + (if h == hash then {signerId} else {})
      ensures forall h, i :: h in old(sigs) && i in old(sigs)[h] && (h != hash || i != signerId) ==>
                               h in sigs && i in sigs[h] && sigs[h][i] == old(sigs)[h][i]
      ensures snapshots == old(snapshots)
    {
      if hash !in sigs {
        sigs := sigs[hash := map[]];
      }
      sigs := sigs[hash := sigs[hash][signerId := sig]];
      Log(PutSignature(hash, signerId, sig));
    }

    /** Granted exactly for a known hash with a quorum of distinct signers; then it is the active snapshot of its
        escrow, the only one, and other escrows keep theirs. */
    method ActivateSnapshot(hash: string, quorum: u32) returns (error: Option<Error>)
      requires Valid()
      modifies this
      ensures Valid() && ops == old(ops) + [Activate(hash, quorum)]
      ensures error.None? <==> hash in old(snapshots) && quorum <= |Signers(old(View()), hash)|
      ensures error.None? ==> IsActive(View(), hash) && OneActivePerEscrow(View())
      ensures error.None? ==> forall h :: h in old(snapshots) && old(snapshots)[h].escrow != old(snapshots)[hash].escrow ==>
                                            h in snapshots && snapshots[h] == old(snapshots)[h]
      ensures (error.Some? ==> snapshots == old(snapshots)) && snapshots.Keys == old(snapshots).Keys && sigs == old(sigs)
      ensures forall h :: h in snapshots ==>
                            snapshots[h].escrow == old(snapshots)[h].escrow && snapshots[h].json == old(snapshots)[h].json
    {
      var sigCount := if hash in sigs then |sigs[hash].Keys| else 0;
      if sigCount < quorum {
        error := Some(QuorumNotMet);
      } else if hash !in snapshots {
        error := Some(SnapshotNotFound);
      } else {
        var escrow := snapshots[hash].escrow;
        snapshots := map h | h in snapshots ::
          if snapshots[h].escrow == escrow then snapshots[h].(status := Pending) else snapshots[h];
        snapshots := snapshots[hash := snapshots[hash].(status := Active)];
        error := None;
      }
      Log(Activate(hash, quorum));
      AtMostOneActive(ls, ops, |ops|);
    }
  }
}
