/** Bounded delivery: how many pulls it takes until a waiting row is handed out. */
module MailboxDelivery {
  import opened Wrappers
  import opened MachineInts
  import opened Mailbox
  import opened MailboxRuns
  import Radix

  /** The row could still be leased at some clock up to `horizon`. */
  predicate Waits(r: Row, horizon: i64) {
    r.lease.None? || r.lease.value.until < horizon
  }

  /** The row is ahead of row `q` in inbox `to`, live at `from`, and could be leased at some clock up to `horizon`. */
  predicate IsAhead(r: Row, to: string, q: nat, from: i64, horizon: i64) {
    r.env.to == to && r.id < q && r.expiresAt > from && Waits(r, horizon)
  }

  /** The number of rows ahead of row `q` that a pull between `from` and `horizon` could select. */
  function Ahead(rows: seq<Row>, to: string, q: nat, from: i64, horizon: i64): nat {
    if rows == [] then 0
    else (if IsAhead(rows[0], to, q, from, horizon) then 1 else 0) + Ahead(rows[1..], to, q, from, horizon)
  }

  /** What the pulls of inbox `to` among the first `n` steps may hand out together. */
  function Capacity(steps: seq<Step>, to: string, n: nat): nat
    requires n <= |steps|
  {
    if n == 0 then 0
    else Capacity(steps, to, n - 1) + (if steps[n - 1].LeaseStep? && steps[n - 1].to == to then steps[n - 1].max else 0)
  }

  // ---- effect of the statements on the rows ahead ----

  lemma DeleteAhead(rows: seq<Row>, p: Purge, to: string, q: nat, from: i64, horizon: i64)
    ensures Ahead(Delete(rows, p), to, q, from, horizon) <= Ahead(rows, to, q, from, horizon)
  {
  }

  lemma AppendAhead(rows: seq<Row>, r: Row, to: string, q: nat, from: i64, horizon: i64)
    requires q <= r.id
    ensures Ahead(rows + [r], to, q, from, horizon) == Ahead(rows, to, q, from, horizon)
  {
    if rows == [] {
      assert rows + [r] == [r];
    } else {
      assert (rows + [r])[1..] == rows[1..] + [r];
      AppendAhead(rows[1..], r, to, q, from, horizon);
    }
  }

  lemma SetLeaseAhead(rows: seq<Row>, id: nat, l: Lease, to: string, q: nat, from: i64, horizon: i64)
    requires Sorted(rows) && Find(rows, id).Some?
    requires Find(rows, id).value.env.to == to ==>
               IsAhead(Find(rows, id).value, to, q, from, horizon) && horizon <= l.until
    ensures Ahead(SetLease(rows, id, l), to, q, from, horizon)
         == Ahead(rows, to, q, from, horizon) - (if Find(rows, id).value.env.to == to then 1 else 0)
  {
    if rows[0].id == id {
      SetLeaseElsewhere(rows[1..], id, l);
    } else {
      SetLeaseAhead(rows[1..], id, l, to, q, from, horizon);
    }
  }

  lemma SetLeaseElsewhere(rows: seq<Row>, id: nat, l: Lease)
    requires forall r :: r in rows ==> r.id != id
    ensures SetLease(rows, id, l) == rows
  {
  }

  /** The selected rows as the leasing loop finds them: present and ahead of `q`. */
  ghost predicate Grantable(rows: seq<Row>, sel: seq<Row>, inbox: string, to: string, q: nat, from: i64, horizon: i64) {
    forall k :: 0 <= k < |sel| ==>
                  && Find(rows, sel[k].id) == Some(sel[k])
                  && sel[k].env.to == inbox
                  && (inbox == to ==> IsAhead(sel[k], to, q, from, horizon))
  }

  lemma {:induction false} LeaseAllAhead(
    rows: seq<Row>, sel: seq<Row>, receipts: seq<string>, until: i64, inbox: string, to: string, q: nat, from: i64, horizon: i64)
    requires |sel| <= |receipts| && Sorted(rows) && Sorted(sel)
    requires Grantable(rows, sel, inbox, to, q, from, horizon)
    requires inbox == to ==> horizon <= until
    ensures Ahead(LeaseAll(rows, sel, receipts, until), to, q, from, horizon)
         == Ahead(rows, to, q, from, horizon) - (if inbox == to then |sel| else 0)
    decreases |sel|
  {
    if sel != [] {
      var l := Lease(receipts[0], until);
      var rows' := SetLease(rows, sel[0].id, l);
      assert Find(rows, sel[0].id) == Some(sel[0]);
      SetLeaseAhead(rows, sel[0].id, l, to, q, from, horizon);
      forall i | 0 <= i < |rows| ensures rows'[i].id == rows[i].id {
        SetLeaseSameIds(rows, sel[0].id, l, i);
      }
      forall k | 0 <= k < |sel[1..]| ensures Find(rows', sel[1..][k].id) == Some(sel[1..][k]) {
        assert sel[1..][k] == sel[k + 1];
        FindSetLease(rows, sel[0].id, l, sel[k + 1].id);
      }
      LeaseAllAhead(rows', sel[1..], receipts[1..], until, inbox, to, q, from, horizon);
    }
  }

  /** A leasable row that a pull passes over was crowded out by `max` rows ahead of it. */
  lemma {:induction false} CrowdedOut(rows: seq<Row>, to: string, max: nat, now: i64, r: Row)
    requires Sorted(rows) && r in rows && Leasable(r, to, now)
    requires r !in Selected(rows, to, max, now)
    ensures |Selected(rows, to, max, now)| == max
    ensures forall s :: s in Selected(rows, to, max, now) ==> s.id < r.id
  {
    if max != 0 {
      if Leasable(rows[0], to, now) {
        CrowdedOut(rows[1..], to, max - 1, now, r);
      } else {
        CrowdedOut(rows[1..], to, max, now, r);
      }
    }
  }

  lemma NoReceiptNotSelected(sel: seq<Row>, receipts: seq<string>, r: Row)
    requires |sel| <= |receipts| && ReceiptFor(sel, receipts, r.id).None?
    ensures r !in sel
  {
  }

  // ---- one step ----

  /** One step in which row `q` is neither delivered nor removed uses up rows ahead of it:
      a pull of its inbox uses up as many as it may hand out. */
  lemma StepUsesUpAhead(t: Table, step: Step, q: nat, from: i64, horizon: i64)
    requires Valid(t) && Feasible(step)
    requires Lookup(t, q).Some?
    requires step.LeaseStep? && step.to == Lookup(t, q).value.env.to ==>
               && Leasable(Lookup(t, q).value, step.to, step.now)
               && from <= step.now <= horizon <= Deadline(step.now, step.leaseSecs)
    requires DeliveredReceipt(t, step, q).None?
    ensures var to := Lookup(t, q).value.env.to;
            Ahead(Next(t, step).rows, to, q, from, horizon) + (if step.LeaseStep? && step.to == to then step.max else 0)
            <= Ahead(t.rows, to, q, from, horizon)
  {
    hide Next, Ahead, Selected, LeaseAll, Delete, Find;
    if step.LeaseStep? {
      PullUsesUpAhead(t, step, q, from, horizon);
    } else {
      OthersAddNoAhead(t, step, Lookup(t, q).value.env.to, q, from, horizon);
    }
  }

  lemma PullUsesUpAhead(t: Table, step: Step, q: nat, from: i64, horizon: i64)
    requires Valid(t) && Feasible(step) && step.LeaseStep? && Lookup(t, q).Some?
    requires step.to == Lookup(t, q).value.env.to ==>
               && Leasable(Lookup(t, q).value, step.to, step.now)
               && from <= step.now <= horizon <= Deadline(step.now, step.leaseSecs)
    requires DeliveredReceipt(t, step, q).None?
    ensures var to := Lookup(t, q).value.env.to;
            Ahead(Next(t, step).rows, to, q, from, horizon) + (if step.to == to then step.max else 0)
            <= Ahead(t.rows, to, q, from, horizon)
  {
    var r := Lookup(t, q).value;
    var to, sel := r.env.to, Selected(t.rows, step.to, step.max, step.now);
    SelectedSorted(t.rows, step.to, step.max, step.now);
    if step.to == to {
      NoReceiptNotSelected(sel, step.receipts, r);
      CrowdedOut(t.rows, to, step.max, step.now, r);
    }
    forall k | 0 <= k < |sel|
      ensures Find(t.rows, sel[k].id) == Some(sel[k]) && sel[k].env.to == step.to
      ensures step.to == to ==> IsAhead(sel[k], to, q, from, horizon)
    {
      SelectedMember(t.rows, step.to, step.max, step.now, sel[k]);
      FindMember(t.rows, sel[k]);
    }
    LeaseAllAhead(t.rows, sel, step.receipts, Deadline(step.now, step.leaseSecs), step.to, to, q, from, horizon);
  }

  lemma OthersAddNoAhead(t: Table, step: Step, to: string, q: nat, from: i64, horizon: i64)
    requires Valid(t) && Feasible(step) && !step.LeaseStep? && q <= t.lastId
    ensures Ahead(Next(t, step).rows, to, q, from, horizon) <= Ahead(t.rows, to, q, from, horizon)
  {
    hide Ahead, Delete;
    DeleteAhead(t.rows, PurgeOf(step).value, to, q, from, horizon);
    if step.PushStep? && Next(t, step).lastId != t.lastId {
      var live := Delete(t.rows, Expired(step.now));
      AppendAhead(live, Next(t, step).rows[|live|], to, q, from, horizon);
    }
  }

  // ---- runs ----

  /** Every pull of inbox `to` runs at a clock in the window and grants leases that outlast it. */
  ghost predicate PullsInWindow(steps: seq<Step>, to: string, from: i64, horizon: i64) {
    forall i :: 0 <= i < |steps| && steps[i].LeaseStep? && steps[i].to == to ==>
                  from <= steps[i].now <= horizon <= Deadline(steps[i].now, steps[i].leaseSecs)
  }

  /** Step `i` delivers row `q`, removes it, or pulls its inbox at or past its expiry. */
  ghost predicate Served(ts: seq<Table>, steps: seq<Step>, i: nat, q: nat)
    requires Stretch(ts, steps) && i < |steps| && Lookup(ts[0], q).Some?
  {
    || DeliveredReceipt(ts[i], steps[i], q).Some?
    || Lookup(ts[i + 1], q).None?
    || (steps[i].LeaseStep? && steps[i].to == Lookup(ts[0], q).value.env.to
        && Lookup(ts[0], q).value.expiresAt <= steps[i].now)
  }

  lemma UnservedStep(t: Table, step: Step, q: nat, r: Row, from: i64, horizon: i64)
    requires Valid(t) && Feasible(step) && Lookup(t, q) == Some(r) && Waits(r, from)
    requires step.LeaseStep? && step.to == r.env.to ==>
               && from <= step.now <= horizon <= Deadline(step.now, step.leaseSecs)
               && step.now < r.expiresAt
    requires DeliveredReceipt(t, step, q).None? && Lookup(Next(t, step), q).Some?
    ensures Lookup(Next(t, step), q) == Some(r)
    ensures Ahead(Next(t, step).rows, r.env.to, q, from, horizon)
            + (if step.LeaseStep? && step.to == r.env.to then step.max else 0)
            <= Ahead(t.rows, r.env.to, q, from, horizon)
  {
    hide Next;
    StepOnRow(t, step, q);
    StepUsesUpAhead(t, step, q, from, horizon);
  }

  lemma {:induction false} UnservedUsesUpAhead(ts: seq<Table>, steps: seq<Step>, n: nat, q: nat, from: i64, horizon: i64)
    requires Stretch(ts, steps) && n <= |steps| && Lookup(ts[0], q).Some?
    requires Waits(Lookup(ts[0], q).value, from)
    requires PullsInWindow(steps, Lookup(ts[0], q).value.env.to, from, horizon)
    requires forall i :: 0 <= i < n ==> !Served(ts, steps, i, q)
    ensures Lookup(ts[n], q) == Lookup(ts[0], q)
    ensures var to := Lookup(ts[0], q).value.env.to;
            Ahead(ts[n].rows, to, q, from, horizon) + Capacity(steps, to, n) <= Ahead(ts[0].rows, to, q, from, horizon)
  {
    hide Next;
    if 0 < n {
      var i := n - 1;
      UnservedUsesUpAhead(ts, steps, i, q, from, horizon);
      StretchValid(ts, steps, 0, i);
      assert ts[i + 1] == Next(ts[i], steps[i]);
      assert !Served(ts, steps, i, q);
      UnservedStep(ts[i], steps[i], q, Lookup(ts[0], q).value, from, horizon);
    }
  }

  /** Bounded delivery: take a row that is leasable from clock `from` on. Whatever else happens, once the
      pulls of its inbox, all inside one lease window, may together hand out more rows than there
      were ahead of it, the row has been delivered, or removed, or a pull came too late for its expiry. */
  lemma {:induction false} BoundedDelivery(ts: seq<Table>, steps: seq<Step>, q: nat, from: i64, horizon: i64)
    requires Stretch(ts, steps) && Lookup(ts[0], q).Some?
    requires Waits(Lookup(ts[0], q).value, from)
    requires PullsInWindow(steps, Lookup(ts[0], q).value.env.to, from, horizon)
    requires var to := Lookup(ts[0], q).value.env.to;
             Ahead(ts[0].rows, to, q, from, horizon) < Capacity(steps, to, |steps|)
    ensures exists i: nat :: i < |steps| && Served(ts, steps, i, q)
  {
    if forall i: nat :: i < |steps| ==> !Served(ts, steps, i, q) {
      UnservedUsesUpAhead(ts, steps, |steps|, q, from, horizon);
    }
  }

  // ---- the bound in pulls ----

  function Pulls(steps: seq<Step>, to: string, n: nat): nat
    requires n <= |steps|
  {
    if n == 0 then 0
    else Pulls(steps, to, n - 1) + (if steps[n - 1].LeaseStep? && steps[n - 1].to == to then 1 else 0)
  }

  lemma {:induction false} CapacityOfPulls(steps: seq<Step>, to: string, max: nat, n: nat)
    requires n <= |steps|
    requires forall i :: 0 <= i < n && steps[i].LeaseStep? && steps[i].to == to ==> steps[i].max == max
    ensures Capacity(steps, to, n) == Pulls(steps, to, n) * max
  {
    if n > 0 {
      CapacityOfPulls(steps, to, max, n - 1);
    }
  }

  /** With one `max` and one lease length, ceil((k + 1) / max) pulls at clocks in [from, from + lease] suffice
      for a row with k rows of its inbox ahead of it. */
  lemma {:induction false} DeliveredWithinPulls(ts: seq<Table>, steps: seq<Step>, q: nat, from: i64, max: nat, leaseSecs: u64)
    requires Stretch(ts, steps) && Lookup(ts[0], q).Some? && 1 <= max
    requires Waits(Lookup(ts[0], q).value, from)
    requires forall i :: 0 <= i < |steps| && steps[i].LeaseStep? && steps[i].to == Lookup(ts[0], q).value.env.to ==>
                           && steps[i].max == max && steps[i].leaseSecs == leaseSecs
                           && from <= steps[i].now <= Deadline(from, leaseSecs)
    requires var to := Lookup(ts[0], q).value.env.to;
             (Ahead(ts[0].rows, to, q, from, Deadline(from, leaseSecs)) + 1 + (max - 1)) / max <= Pulls(steps, to, |steps|)
    ensures exists i: nat :: i < |steps| && Served(ts, steps, i, q)
  {
    hide Next, Ahead, Pulls, Capacity, Lookup, Waits;
    var to := Lookup(ts[0], q).value.env.to;
    var k, n := Ahead(ts[0].rows, to, q, from, Deadline(from, leaseSecs)), Pulls(steps, to, |steps|);
    CapacityOfPulls(steps, to, max, |steps|);
    assert k < n * max by {
      var c := (k + 1 + (max - 1)) / max;
      CeilingCovers(k + 1, max);
      Radix.MultiplesGrow(c, n, max);
    }
    BoundedDelivery(ts, steps, q, from, Deadline(from, leaseSecs));
  }

  lemma CeilingCovers(a: nat, b: nat)
    requires 1 <= b
    ensures a <= (a + (b - 1)) / b * b
  {
    var x := a + (b - 1);
    assert x == x / b * b + x % b;
  }
}
