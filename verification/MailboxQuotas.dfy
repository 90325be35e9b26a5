/** What every reachable table respects: the three quotas and the unique index. */
module MailboxQuotas {
  import opened Wrappers
  import opened MachineInts
  import opened Text
  import opened Mailbox
  import opened MailboxRuns
  import opened Peers

  ghost predicate UniqueKeys(rows: seq<Row>) {
    forall r, s :: r in rows && s in rows && KeyOf(r.env) == KeyOf(s.env) ==> r.id == s.id
  }

  ghost predicate WithinInboxQuota(rows: seq<Row>, limits: Limits, to: string) {
    CountTo(rows, to) <= limits.perInbox && Min(SizeTo(rows, to), U64_MAX) <= limits.bytesPerInbox
  }

  ghost predicate WithinQuotas(rows: seq<Row>, limits: Limits) {
    |rows| <= limits.global && forall to :: WithinInboxQuota(rows, limits, to)
  }

  ghost predicate FixedLimits(steps: seq<Step>, limits: Limits) {
    forall i :: 0 <= i < |steps| && steps[i].PushStep? ==> steps[i].limits == limits
  }

  // ---- effect of the statements on counts and sizes ----

  lemma DeleteTotals(rows: seq<Row>, p: Purge, to: string)
    ensures CountTo(Delete(rows, p), to) <= CountTo(rows, to) && SizeTo(Delete(rows, p), to) <= SizeTo(rows, to)
  {
  }

  lemma AppendTotals(rows: seq<Row>, r: Row, to: string)
    ensures CountTo(rows + [r], to) == CountTo(rows, to) + (if r.env.to == to then 1 else 0)
    ensures SizeTo(rows + [r], to) == SizeTo(rows, to) + (if r.env.to == to then |r.env.json| else 0)
  {
    if rows == [] {
      assert rows + [r] == [r];
    } else {
      assert (rows + [r])[1..] == rows[1..] + [r];
      AppendTotals(rows[1..], r, to);
    }
  }

  lemma SameEnvelopesSameTotals(rows: seq<Row>, rows': seq<Row>, to: string)
    requires |rows| == |rows'| && forall i :: 0 <= i < |rows| ==> rows[i].env == rows'[i].env
    ensures CountTo(rows, to) == CountTo(rows', to) && SizeTo(rows, to) == SizeTo(rows', to)
  {
    if rows != [] {
      SameEnvelopesSameTotals(rows[1..], rows'[1..], to);
    }
  }

  // ---- one step ----

  lemma PurgeKeepsQuotas(rows: seq<Row>, p: Purge, limits: Limits)
    requires WithinQuotas(rows, limits) && UniqueKeys(rows)
    ensures WithinQuotas(Delete(rows, p), limits) && UniqueKeys(Delete(rows, p))
  {
    forall to ensures WithinInboxQuota(Delete(rows, p), limits, to) {
      DeleteTotals(rows, p, to);
      assert WithinInboxQuota(rows, limits, to);
    }
    forall r, s | r in Delete(rows, p) && s in Delete(rows, p) && KeyOf(r.env) == KeyOf(s.env) ensures r.id == s.id {
      DeleteMember(rows, p, r);
      DeleteMember(rows, p, s);
    }
  }

  lemma {:induction false} StoreKeepsQuotas(live: seq<Row>, r: Row, limits: Limits)
    requires WithinQuotas(live, limits) && UniqueKeys(live) && !HasKey(live, KeyOf(r.env))
    requires |live| < limits.global && CountTo(live, r.env.to) < limits.perInbox
    requires SatAddU64(SizeTo(live, r.env.to), Utf8Len(r.env.json)) <= limits.bytesPerInbox
    ensures WithinQuotas(live + [r], limits) && UniqueKeys(live + [r])
  {
    forall to ensures WithinInboxQuota(live + [r], limits, to) {
      AppendTotals(live, r, to);
      assert WithinInboxQuota(live, limits, to);
    }
  }

  lemma LeaseKeepsQuotas(t: Table, step: Step, limits: Limits)
    requires Feasible(step) && step.LeaseStep?
    requires WithinQuotas(t.rows, limits) && UniqueKeys(t.rows)
    ensures WithinQuotas(Next(t, step).rows, limits) && UniqueKeys(Next(t, step).rows)
  {
    var rows' := Next(t, step).rows;
    forall i | 0 <= i < |t.rows| ensures rows'[i].env == t.rows[i].env && rows'[i].id == t.rows[i].id {
      LeaseAllSameIds(t.rows, Selected(t.rows, step.to, step.max, step.now), step.receipts,
                      Deadline(step.now, step.leaseSecs), i);
    }
    forall to ensures WithinInboxQuota(rows', limits, to) {
      SameEnvelopesSameTotals(t.rows, rows', to);
      assert WithinInboxQuota(t.rows, limits, to);
    }
    forall r, s | r in rows' && s in rows' && KeyOf(r.env) == KeyOf(s.env) ensures r.id == s.id {
      var i :| 0 <= i < |rows'| && rows'[i] == r;
      var j :| 0 <= j < |rows'| && rows'[j] == s;
      assert t.rows[i] in t.rows && t.rows[j] in t.rows;
    }
  }

  lemma StepKeepsQuotas(t: Table, step: Step, limits: Limits)
    requires Valid(t) && Feasible(step) && (step.PushStep? ==> step.limits == limits)
    requires WithinQuotas(t.rows, limits) && UniqueKeys(t.rows)
    ensures WithinQuotas(Next(t, step).rows, limits) && UniqueKeys(Next(t, step).rows)
  {
    if step.LeaseStep? {
      LeaseKeepsQuotas(t, step, limits);
    } else {
      PurgeKeepsQuotas(t.rows, PurgeOf(step).value, limits);
      if step.PushStep? && Next(t, step).lastId != t.lastId {
        var live := Delete(t.rows, Expired(step.now));
        StoreKeepsQuotas(live, Next(t, step).rows[|live|], limits);
      }
    }
  }

  /** Under fixed limits every reachable table respects the global row quota, each inbox's row and
      size quota, and keeps (to, from, escrow, seq) unique. */
  lemma {:induction false} QuotasHold(ts: seq<Table>, steps: seq<Step>, limits: Limits, n: nat)
    requires Run(ts, steps) && FixedLimits(steps, limits) && n <= |steps|
    ensures WithinQuotas(ts[n].rows, limits) && UniqueKeys(ts[n].rows)
  {
    hide Next;
    if 0 < n {
      QuotasHold(ts, steps, limits, n - 1);
      StretchValid(ts, steps, 0, n - 1);
      assert ts[n - 1 + 1] == Next(ts[n - 1], steps[n - 1]);
      StepKeepsQuotas(ts[n - 1], steps[n - 1], limits);
    }
  }

  // ---- size in bytes ----

  function BytesTo(rows: seq<Row>, to: string): nat {
    if rows == [] then 0 else (if rows[0].env.to == to then Utf8Len(rows[0].env.json) else 0) + BytesTo(rows[1..], to)
  }

  ghost predicate AsciiInbox(rows: seq<Row>, to: string) {
    forall r :: r in rows && r.env.to == to ==> IsAscii(r.env.json)
  }

  /** The size the quota is checked against is the byte size exactly for inboxes of ASCII envelopes;
      otherwise it is smaller. */
  lemma {:induction false} SizeIsBytesIffAscii(rows: seq<Row>, to: string)
    ensures SizeTo(rows, to) <= BytesTo(rows, to)
    ensures SizeTo(rows, to) == BytesTo(rows, to) <==> AsciiInbox(rows, to)
  {
    if rows != [] {
      SizeIsBytesIffAscii(rows[1..], to);
      assert forall r :: r in rows <==> r == rows[0] || r in rows[1..];
      assert AsciiInbox(rows, to) ==> AsciiInbox(rows[1..], to);
    }
  }

  ghost predicate AsciiPushes(steps: seq<Step>, to: string) {
    forall i :: 0 <= i < |steps| && steps[i].PushStep? && steps[i].env.to == to ==> IsAscii(steps[i].env.json)
  }

  /** If every envelope pushed to an inbox is ASCII, the inbox never holds more bytes than the quota allows. */
  lemma {:induction false} AsciiQuotaHolds(ts: seq<Table>, steps: seq<Step>, limits: Limits, to: string, n: nat)
    requires Run(ts, steps) && FixedLimits(steps, limits) && AsciiPushes(steps, to) && n <= |steps|
    ensures Min(BytesTo(ts[n].rows, to), U64_MAX) <= limits.bytesPerInbox
  {
    hide Next, BytesTo, SizeTo, CountTo, IsAscii;
    QuotasHold(ts, steps, limits, n);
    assert WithinInboxQuota(ts[n].rows, limits, to);
    forall r | r in ts[n].rows && r.env.to == to ensures IsAscii(r.env.json) {
      var b := StoredWasPushed(ts, steps, n, r);
    }
    SizeIsBytesIffAscii(ts[n].rows, to);
  }

  /** A second push that fits beside the first, by the size the quota is checked against. */
  lemma TwoPushes(e1: Envelope, e2: Envelope, limits: Limits)
    requires e1.to == e2.to && KeyOf(e1) != KeyOf(e2) && 2 <= limits.global && 2 <= limits.perInbox
    requires Utf8Len(e1.json) <= limits.bytesPerInbox
    requires |e1.json| + Utf8Len(e2.json) <= limits.bytesPerInbox
    ensures var r1, r2 := Row(1, e1, 0, Deadline(0, 60), None), Row(2, e2, 0, Deadline(0, 60), None);
            && Push(Empty, e1, 60, limits, 0).0 == Table([r1], 1)
            && Push(Table([r1], 1), e2, 60, limits, 0).0 == Table([r1, r2], 2)
            && BytesTo([r1, r2], e1.to) == Utf8Len(e1.json) + Utf8Len(e2.json)
  {
    var r1, r2 := Row(1, e1, 0, Deadline(0, 60), None), Row(2, e2, 0, Deadline(0, 60), None);
    assert [r1][1..] == [] && [r2][1..] == [] && [r1, r2][1..] == [r2];
    assert Delete([r1], Expired(0)) == [r1];
    assert SizeTo([r1], e1.to) == |e1.json| && CountTo([r1], e1.to) == 1;
    assert BytesTo([r2], e1.to) == Utf8Len(e2.json);
  }

  /** Otherwise it can: for any envelope that is not ASCII and any second envelope of the inbox, some quota is overrun
      by the two pushes. */
  lemma {:induction false} ByteQuotaOverrun(e1: Envelope, e2: Envelope)
    returns (ts: seq<Table>, steps: seq<Step>, limits: Limits)
    requires !IsAscii(e1.json) && e2.json != [] && e1.to == e2.to && KeyOf(e1) != KeyOf(e2)
    requires Utf8Len(e1.json) <= U64_MAX && |e1.json| + Utf8Len(e2.json) <= U64_MAX
    ensures Run(ts, steps) && FixedLimits(steps, limits)
    ensures limits.bytesPerInbox < BytesTo(ts[|steps|].rows, e1.to)
  {
    hide Utf8Len, Push, KeyOf;
    limits := Limits(2, Max(Utf8Len(e1.json), |e1.json| + Utf8Len(e2.json)), 2);
    steps := [PushStep(e1, 60, limits, 0), PushStep(e2, 60, limits, 0)];
    TwoPushes(e1, e2, limits);
    var t1 := Push(Empty, e1, 60, limits, 0).0;
    ts := [Empty, t1, Push(t1, e2, 60, limits, 0).0];
    assert Run(ts, steps) && FixedLimits(steps, limits);
  }
}
