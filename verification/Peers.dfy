/** Outgoing sequence numbers of the peers, and what they give the mailbox's duplicate check. */
module Peers {
  import opened Wrappers
  import opened MachineInts
  import opened Mailbox
  import opened MailboxRuns

  /** `next_out_seq` over the per-escrow counters. */
  function NextSeqNo(outSeq: map<string, u64>, escrow: string): (n: u64) {
    Max(SatAddU64(if escrow in outSeq then outSeq[escrow] else 0, 1), 1)
  }

  /** A peer's persisted sequence state. */
  class SeqState {
    var outSeq: map<string, u64>

    constructor ()
      ensures outSeq == map[]
    {
      outSeq := map[];
    }

    /** Reads the counter, stores the successor, returns it; other escrows keep their counter. */
    method NextOutSeq(escrow: string) returns (next: u64)
      modifies this
      ensures next == NextSeqNo(old(outSeq), escrow)
      ensures outSeq == old(outSeq)[escrow := next]
      ensures escrow in old(outSeq) && old(outSeq)[escrow] < U64_MAX ==> next == old(outSeq)[escrow] + 1
    {
      var current := 0;
      if escrow in outSeq {
        current := outSeq[escrow];
      }
      next := Max(SatAddU64(current, 1), 1);
      outSeq := outSeq[escrow := next];
    }
  }

  /** A message before it gets its number. */
  datatype Draft = Draft(to: string, escrow: string, msgType: string, json: string)

  /** The counters after numbering all drafts one after the other. */
  function Counters(drafts: seq<Draft>): map<string, u64> {
    if drafts == [] then map[]
    else
      var before := Counters(drafts[..|drafts| - 1]);
      var d := drafts[|drafts| - 1];
      before[d.escrow := NextSeqNo(before, d.escrow)]
  }

  /** The i-th envelope peer `from` sends, numbered by the i-th call of `next_out_seq`. */
  function Sent(from: string, drafts: seq<Draft>, i: nat): Envelope
    requires i < |drafts|
  {
    var d := drafts[i];
    Envelope(d.to, from, d.escrow, d.msgType, NextSeqNo(Counters(drafts[..i]), d.escrow), d.json)
  }

  /** A counter is at least every number it has given out. */
  lemma {:induction false} CounterCoversSent(from: string, drafts: seq<Draft>, i: nat, n: nat)
    requires i < n <= |drafts|
    ensures drafts[i].escrow in Counters(drafts[..n])
    ensures Sent(from, drafts, i).seqNo <= Counters(drafts[..n])[drafts[i].escrow]
    decreases n
  {
    assert drafts[..n][..n - 1] == drafts[..n - 1];
    if i < n - 1 {
      CounterCoversSent(from, drafts, i, n - 1);
    }
  }

  /** Sequential allocation never repeats a number within an escrow before the counter saturates. */
  lemma SeqNosIncrease(from: string, drafts: seq<Draft>, i: nat, j: nat)
    requires i < j < |drafts| && drafts[i].escrow == drafts[j].escrow
    requires Sent(from, drafts, i).seqNo < U64_MAX
    ensures Sent(from, drafts, i).seqNo < Sent(from, drafts, j).seqNo
  {
    CounterCoversSent(from, drafts, i, j);
  }

  /** The two numbers are stored as the same: they are equal, or both are clamped to i64::MAX. */
  predicate SameStoredNumber(a: u64, b: u64) {
    a == b || (I64_MAX <= a && I64_MAX <= b)
  }

  predicate SameStream(a: Envelope, b: Envelope) {
    a.to == b.to && a.from == b.from && a.escrow == b.escrow
  }

  /** Two envelopes share an index key exactly when they are of one stream and their numbers are stored as the same. */
  lemma KeysCollide(a: Envelope, b: Envelope)
    ensures KeyOf(a) == KeyOf(b) <==> SameStream(a, b) && SameStoredNumber(a.seqNo, b.seqNo)
  {
  }

  /** What a push answers, for every table: a duplicate if and only if a live row of the stream has the same number
      or both numbers are clamped. */
  lemma DuplicateIff(t: Table, env: Envelope, ttlSecs: u64, limits: Limits, now: i64)
    ensures Push(t, env, ttlSecs, limits, now).1 == Duplicate
       <==> exists r :: r in t.rows && now < r.expiresAt && SameStream(r.env, env) && SameStoredNumber(r.env.seqNo, env.seqNo)
  {
    hide Delete, KeyOf, SameStream, SameStoredNumber;
    var live := Delete(t.rows, Expired(now));
    forall r
      ensures r in live <==> r in t.rows && now < r.expiresAt
      ensures KeyOf(r.env) == KeyOf(env) <==> SameStream(r.env, env) && SameStoredNumber(r.env.seqNo, env.seqNo)
    {
      DeleteMember(t.rows, Expired(now), r);
      KeysCollide(r.env, env);
    }
  }

  /** At the clamp numbers stop telling messages apart: once one of a stream with a number of at least 2^63 - 1 is
      stored, every other such message of the stream is answered as a duplicate while that row lives. */
  lemma ClampedNumbersClash(t: Table, r: Row, env: Envelope, ttlSecs: u64, limits: Limits, now: i64)
    requires r in t.rows && now < r.expiresAt && SameStream(r.env, env)
    requires I64_MAX <= r.env.seqNo && I64_MAX <= env.seqNo
    ensures Push(t, env, ttlSecs, limits, now).1 == Duplicate
  {
    hide Push, SameStream;
    DuplicateIff(t, env, ttlSecs, limits, now);
  }

  /** Every pushed envelope is one its sender numbered; retries push the same envelope again. */
  ghost predicate NumberedPushes(steps: seq<Step>, drafts: map<string, seq<Draft>>) {
    forall i :: 0 <= i < |steps| && steps[i].PushStep? ==> FromDrafts(steps[i].env, drafts)
  }

  ghost predicate FromDrafts(env: Envelope, drafts: map<string, seq<Draft>>) {
    env.from in drafts && exists k: nat :: k < |drafts[env.from]| && env == Sent(env.from, drafts[env.from], k)
  }

  /** Every stored envelope was pushed earlier in the run. */
  lemma StoredWasPushed(ts: seq<Table>, steps: seq<Step>, n: nat, r: Row) returns (b: nat)
    requires Run(ts, steps) && n <= |steps| && r in ts[n].rows
    ensures b < n && steps[b].PushStep? && steps[b].env == r.env
  {
    hide Next;
    StretchValid(ts, steps, 0, n);
    FindMember(ts[n].rows, r);
    var e;
    b, e := LifetimeUpTo(ts, steps, n, r.id);
    RowKeepsContent(ts, steps, b + 1, n, r.id);
  }

  /** Below 2^63 a push of a numbered envelope is answered as a duplicate if and only if that very envelope is stored
      and live. Only at 2^63 - 1 itself does this need the earlier numbers to be below the clamp too. */
  lemma {:induction false} DuplicateIsRepeat(ts: seq<Table>, steps: seq<Step>, i: nat, drafts: map<string, seq<Draft>>)
    requires Run(ts, steps) && i < |steps| && steps[i].PushStep?
    requires NumberedPushes(steps, drafts) && steps[i].env.seqNo <= I64_MAX
    requires steps[i].env.seqNo == I64_MAX ==>
               forall j :: 0 <= j < i && steps[j].PushStep? ==> steps[j].env.seqNo <= I64_MAX
    ensures Push(ts[i], steps[i].env, steps[i].ttlSecs, steps[i].limits, steps[i].now).1 == Duplicate
       <==> exists r :: r in ts[i].rows && steps[i].now < r.expiresAt && r.env == steps[i].env
  {
    hide Next, Push, Sent, FromDrafts;
    var env := steps[i].env;
    DuplicateIff(ts[i], env, steps[i].ttlSecs, steps[i].limits, steps[i].now);
    forall r | r in ts[i].rows && SameStream(r.env, env) && SameStoredNumber(r.env.seqNo, env.seqNo) ensures r.env == env {
      var b := StoredWasPushed(ts, steps, i, r);
      SameNumberSameEnvelope(r.env, env, drafts);
    }
  }

  /** Below the clamp, envelopes of one stream with the same number are the same envelope. */
  lemma SameNumberSameEnvelope(a: Envelope, b: Envelope, drafts: map<string, seq<Draft>>)
    requires FromDrafts(a, drafts) && FromDrafts(b, drafts)
    requires a.from == b.from && a.escrow == b.escrow && a.seqNo == b.seqNo <= I64_MAX
    ensures a == b
  {
    var ds := drafts[a.from];
    var k: nat :| k < |ds| && a == Sent(a.from, ds, k);
    var l: nat :| l < |ds| && b == Sent(a.from, ds, l);
    if k < l {
      SeqNosIncrease(a.from, ds, k, l);
    } else if l < k {
      SeqNosIncrease(a.from, ds, l, k);
    }
  }
}
