/** The mailbox database as an object whose methods change the `messages` table in place. */
module MailboxDb {
  import opened Wrappers
  import opened MachineInts
  import opened Text
  import opened Mailbox
  import opened MailboxRuns
  import opened MailboxQuotas
  import opened MailboxDelivery

  /** The message handed out for the k-th selected row carries the k-th receipt. */
  function Deliveries(sel: seq<Row>, receipts: seq<string>): (out: seq<Delivery>)
    requires |sel| <= |receipts|
    ensures |out| == |sel|
  {
    seq(|sel|, k requires 0 <= k < |sel| => Delivery(sel[k].id, receipts[k], sel[k].env))
  }

  ghost predicate HandedOut(out: seq<Delivery>, id: nat) {
    exists k :: 0 <= k < |out| && out[k].id == id
  }

  /** A row a pull at `now` may take: of the inbox, live and under no running lease. */
  ghost predicate Takeable(r: Row, to: string, now: i64) {
    r.env.to == to && now < r.expiresAt && (r.lease.Some? ==> r.lease.value.until < now)
  }

  /** The delivery is of such a row, which is then under a lease with the receipt. */
  ghost predicate Takes(before: Table, after: Table, d: Delivery, receipt: string, to: string, leaseSecs: u64, now: i64) {
    var was := Lookup(before, d.id);
    && was.Some? && Takeable(was.value, to, now) && d.env == was.value.env && d.receipt == receipt
    && Lookup(after, d.id) == Some(was.value.(lease := Some(Lease(receipt, Deadline(now, leaseSecs)))))
  }

  /** Every row that could have been taken and was not had to wait behind `max` others. */
  ghost predicate FirstOnes(before: Table, out: seq<Delivery>, to: string, max: nat, now: i64) {
    && |out| <= max && (forall k, l :: 0 <= k < l < |out| ==> out[k].id < out[l].id)
    && forall r :: r in before.rows && Takeable(r, to, now) && !HandedOut(out, r.id) ==>
                     |out| == max && forall k :: 0 <= k < |out| ==> out[k].id < r.id
  }

  /** What a pull does: it hands out live rows of the inbox that are under no lease, in row order and as many as it may,
      puts each under a lease with the receipt it is handed out with, and changes no other row. */
  ghost predicate Handout(
    before: Table, after: Table, out: seq<Delivery>, to: string, max: nat, leaseSecs: u64, now: i64, receipts: seq<string>)
    requires |out| <= |receipts|
  {
    && (forall k :: 0 <= k < |out| ==> Takes(before, after, out[k], receipts[k], to, leaseSecs, now))
    && FirstOnes(before, out, to, max, now) && after.lastId == before.lastId
    && forall id: nat :: !HandedOut(out, id) ==> Lookup(after, id) == Lookup(before, id)
  }

  lemma KthReceipt(sel: seq<Row>, receipts: seq<string>, k: nat)
    requires |sel| <= |receipts| && Sorted(sel) && k < |sel|
    ensures ReceiptFor(sel, receipts, sel[k].id) == Some(receipts[k])
  {
    if ReceiptFor(sel, receipts, sel[k].id).None? {
      NoReceiptNotSelected(sel, receipts, sel[k]);
    } else {
      var l := ReceiptOfSelected(sel, receipts, sel[k].id);
    }
  }

  lemma KthIsTaken(t: Table, step: Step, k: nat)
    requires Mailbox.Valid(t) && step.LeaseStep? && Feasible(step)
    requires k < |Selected(t.rows, step.to, step.max, step.now)|
    ensures var sel := Selected(t.rows, step.to, step.max, step.now);
            Takes(t, Next(t, step), Delivery(sel[k].id, step.receipts[k], sel[k].env), step.receipts[k],
                  step.to, step.leaseSecs, step.now)
  {
    hide Selected, Next, Deadline, Find;
    var sel := Selected(t.rows, step.to, step.max, step.now);
    SelectedSorted(t.rows, step.to, step.max, step.now);
    KthReceipt(sel, step.receipts, k);
    SelectedMember(t.rows, step.to, step.max, step.now, sel[k]);
    FindMember(t.rows, sel[k]);
    LeaseOnRow(t, step, sel[k].id);
  }

  lemma FirstOnesTaken(t: Table, to: string, max: nat, now: i64, receipts: seq<string>)
    requires Mailbox.Valid(t) && max <= |receipts|
    ensures FirstOnes(t, Deliveries(Selected(t.rows, to, max, now), receipts), to, max, now)
  {
    hide Selected;
    var sel := Selected(t.rows, to, max, now);
    var out := Deliveries(sel, receipts);
    SelectedSorted(t.rows, to, max, now);
    assert forall k :: 0 <= k < |sel| ==> sel[k].id == out[k].id;
    forall r | r in t.rows && Takeable(r, to, now) && !HandedOut(out, r.id)
      ensures |out| == max && forall k :: 0 <= k < |out| ==> out[k].id < r.id
    {
      CrowdedOut(t.rows, to, max, now, r);
    }
  }

  lemma OthersUntouched(t: Table, step: Step, id: nat)
    requires Mailbox.Valid(t) && step.LeaseStep? && Feasible(step)
    requires !HandedOut(Deliveries(Selected(t.rows, step.to, step.max, step.now), step.receipts), id)
    ensures Lookup(Next(t, step), id) == Lookup(t, id)
  {
    hide Selected, Next, Find;
    var sel := Selected(t.rows, step.to, step.max, step.now);
    var out := Deliveries(sel, step.receipts);
    assert forall k :: 0 <= k < |sel| ==> sel[k].id == out[k].id;
    NotSelectedNoReceipt(sel, step.receipts, id);
    LeaseOnRow(t, step, id);
  }

  lemma PullHandsOut(t: Table, to: string, max: nat, leaseSecs: u64, now: i64, receipts: seq<string>)
    requires Mailbox.Valid(t) && max <= |receipts|
    ensures Handout(t, Pull(t, to, max, leaseSecs, now, receipts), Deliveries(Selected(t.rows, to, max, now), receipts),
                    to, max, leaseSecs, now, receipts)
  {
    var step := LeaseStep(to, max, leaseSecs, now, receipts);
    assert Pull(t, to, max, leaseSecs, now, receipts) == Next(t, step);
    hide Selected, Next, Takes, FirstOnes, HandedOut, Lookup;
    var out := Deliveries(Selected(t.rows, to, max, now), receipts);
    forall k | 0 <= k < |out| ensures Takes(t, Next(t, step), out[k], receipts[k], to, leaseSecs, now) {
      KthIsTaken(t, step, k);
    }
    FirstOnesTaken(t, to, max, now, receipts);
    forall id: nat | !HandedOut(out, id) ensures Lookup(Next(t, step), id) == Lookup(t, id) {
      OthersUntouched(t, step, id);
    }
  }

  /** The table, and the run that led to it: every method keeps the run up to date, so what holds of all runs holds
      of the object. */
  class SqliteMailboxDb {
    var rows: seq<Row>
    var lastId: nat
    ghost var ts: seq<Table>
    ghost var steps: seq<Step>

    ghost function View(): Table
      reads this
    {
      Table(rows, lastId)
    }

    ghost predicate Valid()
      reads this
    {
      Run(ts, steps) && ts[|steps|] == View()
    }

    constructor ()
      ensures Valid() && steps == []
    {
      rows, lastId := [], 0;
      ts, steps := [Empty], [];
    }

    ghost method Log(step: Step)
      requires Run(ts, steps) && Feasible(step) && View() == Next(ts[|steps|], step)
      modifies `ts, `steps
      ensures Valid() && steps == old(steps) + [step]
    {
      hide Next;
      RunExtends(ts, steps, step);
      ts, steps := ts + [View()], steps + [step];
    }

    /** Expired rows go. A duplicate is exactly a live row with the envelope's key; a rejection names a quota that is
        used up; otherwise the envelope is stored under the next number. Quotas and unique keys are kept. */
    method PushSync(env: Envelope, ttlSecs: u64, limits: Limits, now: i64) returns (result: PushResult)
      requires Valid()
      modifies this
      ensures Valid() && steps == old(steps) + [PushStep(env, ttlSecs, limits, now)]
      ensures forall r :: r in rows <==> || (r in old(rows) && now < r.expiresAt)
                                         || (result == Stored && r == Row(lastId, env, now, Deadline(now, ttlSecs), None))
      ensures lastId == old(lastId) + (if result == Stored then 1 else 0)
      ensures result == Duplicate <==> exists r :: r in old(rows) && now < r.expiresAt && KeyOf(r.env) == KeyOf(env)
      ensures result == Rejected(GlobalRowsLimit) ==> limits.global <= |rows|
      ensures result == Rejected(InboxMessageLimit) ==> |rows| < limits.global && limits.perInbox <= CountTo(rows, env.to)
      ensures result == Rejected(InboxBytesLimit) ==>
                && |rows| < limits.global && CountTo(rows, env.to) < limits.perInbox
                && limits.bytesPerInbox < SatAddU64(SizeTo(rows, env.to), Utf8Len(env.json))
      ensures result == Stored ==>
                && |rows| <= limits.global && CountTo(rows, env.to) <= limits.perInbox && |env.json| <= SizeTo(rows, env.to)
                && SatAddU64(SizeTo(rows, env.to) - |env.json|, Utf8Len(env.json)) <= limits.bytesPerInbox
      ensures WithinQuotas(old(rows), limits) && UniqueKeys(old(rows)) ==> WithinQuotas(rows, limits) && UniqueKeys(rows)
    {
      hide Delete, CountTo, SizeTo, Utf8Len, KeyOf, Deadline, WithinQuotas, UniqueKeys;
      ghost var before := View();
      StretchValid(ts, steps, 0, |steps|);
      KeptQuotas(before, PushStep(env, ttlSecs, limits, now), limits);
      Survivors(rows, now);
      rows := Delete(rows, Expired(now));
      if HasKey(rows, KeyOf(env)) {
        result := Duplicate;
      } else if |rows| >= limits.global {
        result := Rejected(GlobalRowsLimit);
      } else if CountTo(rows, env.to) >= limits.perInbox {
        result := Rejected(InboxMessageLimit);
      } else if SatAddU64(SizeTo(rows, env.to), Utf8Len(env.json)) > limits.bytesPerInbox {
        result := Rejected(InboxBytesLimit);
      } else {
        lastId := lastId + 1;
        ghost var live := rows;
        rows := rows + [Row(lastId, env, now, Deadline(now, ttlSecs), None)];
        AppendTotals(live, Row(lastId, env, now, Deadline(now, ttlSecs), None), env.to);
        result := Stored;
      }
      Log(PushStep(env, ttlSecs, limits, now));
    }

    /** Exactly the rows expired at `now` go. */
    method CleanupExpiredSync(now: i64)
      requires Valid()
      modifies this
      ensures Valid() && steps == old(steps) + [PruneStep(now)]
      ensures forall r :: r in rows <==> r in old(rows) && now < r.expiresAt
      ensures View() == old(View()).(rows := Delete(old(rows), Expired(now)))
    {
      Survivors(rows, now);
      rows := Delete(rows, Expired(now));
      Log(PruneStep(now));
    }

    /** The cursor of `pull_sync`: collect the first `max` leasable rows in rowid order. */
    method CollectLeasable(to: string, max: nat, now: i64) returns (selected: seq<Row>)
      ensures selected == Selected(rows, to, max, now)
    {
      selected := [];
      var i := 0;
      while i < |rows| && |selected| < max
        invariant 0 <= i <= |rows| && |selected| <= max
        invariant Selected(rows, to, max, now) == selected + Selected(rows[i..], to, max - |selected|, now)
      {
        assert rows[i..][1..] == rows[i + 1..];
        if Leasable(rows[i], to, now) {
          selected := selected + [rows[i]];
        }
        i := i + 1;
      }
    }

    /** The transaction of `pull_sync`: collect the rows, then lease them one by one. */
    method LeaseBatch(to: string, max: nat, leaseSecs: u64, now: i64, receipts: seq<string>)
      returns (out: seq<Delivery>)
      requires Valid() && max <= |receipts|
      modifies this
      ensures Valid() && steps == old(steps) + [LeaseStep(to, max, leaseSecs, now, receipts)]
      ensures View() == Pull(old(View()), to, max, leaseSecs, now, receipts)
      ensures out == Deliveries(Selected(old(rows), to, max, now), receipts)
      ensures Handout(old(View()), View(), out, to, max, leaseSecs, now, receipts)
    {
      hide Handout;
      var until := Deadline(now, leaseSecs);
      var selected := CollectLeasable(to, max, now);
      out := [];
      for k := 0 to |selected|
        invariant LeaseAll(rows, selected[k..], receipts[k..], until) == LeaseAll(old(rows), selected, receipts, until)
        invariant out == Deliveries(selected[..k], receipts)
        invariant lastId == old(lastId) && ts == old(ts) && steps == old(steps)
      {
        assert selected[k..][1..] == selected[k + 1..] && receipts[k..][1..] == receipts[k + 1..];
        rows := SetLease(rows, selected[k].id, Lease(receipts[k], until));
        out := out + [Delivery(selected[k].id, receipts[k], selected[k].env)];
        assert selected[..k + 1] == selected[..k] + [selected[k]];
      }
      assert selected[..|selected|] == selected;
      StretchValid(ts, steps, 0, |steps|);
      PullHandsOut(old(View()), to, max, leaseSecs, now, receipts);
      Log(LeaseStep(to, max, leaseSecs, now, receipts));
    }

    /** `pull_sync`: the best-effort prune, then the leasing transaction. */
    method PullSync(to: string, max: nat, leaseSecs: u64, now: i64, receipts: seq<string>)
      returns (out: seq<Delivery>)
      requires Valid() && max <= |receipts|
      modifies this
      ensures Valid() && steps == old(steps) + [PruneStep(now), LeaseStep(to, max, leaseSecs, now, receipts)]
      ensures var pruned := old(View()).(rows := Delete(old(rows), Expired(now)));
              && View() == Pull(pruned, to, max, leaseSecs, now, receipts)
              && out == Deliveries(Selected(pruned.rows, to, max, now), receipts)
              && Handout(pruned, View(), out, to, max, leaseSecs, now, receipts)
    {
      hide Handout;
      CleanupExpiredSync(now);
      out := LeaseBatch(to, max, leaseSecs, now, receipts);
    }

    method AckSync(receipt: string, to: string) returns (ok: bool)
      requires Valid()
      modifies this
      ensures Valid() && steps == old(steps) + [AckStep(receipt, to)]
      ensures View() == old(View()).(rows := Delete(old(rows), Acked(receipt, to)))
      ensures ok <==> exists r :: r in old(rows) && Hits(Acked(receipt, to), r)
    {
      var before := |rows|;
      DeleteShrinks(rows, Acked(receipt, to));
      rows := Delete(rows, Acked(receipt, to));
      ok := |rows| < before;
      Log(AckStep(receipt, to));
    }
  }

  /** What a prune keeps. */
  lemma Survivors(rows: seq<Row>, now: i64)
    ensures forall r :: r in Delete(rows, Expired(now)) <==> r in rows && now < r.expiresAt
  {
    hide Delete;
    forall r ensures r in Delete(rows, Expired(now)) <==> r in rows && now < r.expiresAt {
      DeleteMember(rows, Expired(now), r);
    }
  }

  lemma KeptQuotas(t: Table, step: Step, limits: Limits)
    requires Mailbox.Valid(t) && step.PushStep? && step.limits == limits
    ensures WithinQuotas(t.rows, limits) && UniqueKeys(t.rows) ==>
              WithinQuotas(Next(t, step).rows, limits) && UniqueKeys(Next(t, step).rows)
  {
    hide Next, WithinQuotas, UniqueKeys;
    if WithinQuotas(t.rows, limits) && UniqueKeys(t.rows) {
      StepKeepsQuotas(t, step, limits);
    }
  }

  /** A DELETE affects a row exactly when some row is hit. */
  lemma {:induction false} DeleteShrinks(rows: seq<Row>, p: Purge)
    ensures |Delete(rows, p)| < |rows| <==> exists r :: r in rows && Hits(p, r)
  {
    if rows != [] {
      DeleteShrinks(rows[1..], p);
      assert forall r :: r in rows <==> r == rows[0] || r in rows[1..];
    }
  }
}
