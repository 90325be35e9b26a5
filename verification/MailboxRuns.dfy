/** Whole runs of the mailbox: any interleaving of pushes, prunes, leases and acks, with any clock. */
module MailboxRuns {
  import opened Wrappers
  import opened MachineInts
  import opened Mailbox

  /** One committed transaction. The prune that `pull_sync` issues before its transaction is a step of its own. */
  datatype Step =
    | PushStep(env: Envelope, ttlSecs: u64, limits: Limits, now: i64)
    | PruneStep(now: i64)
    | LeaseStep(to: string, max: nat, leaseSecs: u64, now: i64, receipts: seq<string>)
    | AckStep(receipt: string, to: string)

  /** The random source yields at least as many receipts as the pull may need. */
  predicate Feasible(step: Step) {
    step.LeaseStep? ==> step.max <= |step.receipts|
  }

  function Next(t: Table, step: Step): Table
    requires Feasible(step)
  {
    match step
    case PushStep(env, ttlSecs, limits, now) => Push(t, env, ttlSecs, limits, now).0
    case PruneStep(now) => t.(rows := Delete(t.rows, Expired(now)))
    case LeaseStep(to, max, leaseSecs, now, receipts) => Pull(t, to, max, leaseSecs, now, receipts)
    case AckStep(receipt, to) => t.(rows := Delete(t.rows, Acked(receipt, to)))
  }

  /** A stretch of a run: consecutive tables, each the result of one step. */
  ghost predicate Stretch(ts: seq<Table>, steps: seq<Step>) {
    && |ts| == |steps| + 1
    && Valid(ts[0])
    && (forall i :: 0 <= i < |steps| ==> Feasible(steps[i]))
    && (forall i :: 0 <= i < |steps| ==> ts[i + 1] == Next(ts[i], steps[i]))
  }

  /** A run from the empty table. */
  ghost predicate Run(ts: seq<Table>, steps: seq<Step>) {
    Stretch(ts, steps) && ts[0] == Empty
  }

  lemma RunExtends(ts: seq<Table>, steps: seq<Step>, step: Step)
    requires Run(ts, steps) && Feasible(step)
    ensures Run(ts + [Next(ts[|steps|], step)], steps + [step])
  {
    hide Next;
    var ts', steps' := ts + [Next(ts[|steps|], step)], steps + [step];
    forall i | 0 <= i < |steps'| ensures Feasible(steps'[i]) && ts'[i + 1] == Next(ts'[i], steps'[i]) {
      if i < |steps| {
        assert ts'[i] == ts[i] && ts'[i + 1] == ts[i + 1] && steps'[i] == steps[i];
      }
    }
  }

  function Lookup(t: Table, id: nat): Option<Row> {
    Find(t.rows, id)
  }

  /** The receipt under which `step`, taken in `t`, delivers row `id`. */
  function DeliveredReceipt(t: Table, step: Step, id: nat): Option<string>
    requires Feasible(step)
  {
    if step.LeaseStep? then ReceiptFor(Selected(t.rows, step.to, step.max, step.now), step.receipts, id) else None
  }

  /** What a single DELETE of the step removes. */
  function PurgeOf(step: Step): Option<Purge> {
    match step
    case PushStep(_, _, _, now) => Some(Expired(now))
    case PruneStep(now) => Some(Expired(now))
    case LeaseStep(_, _, _, _, _) => None
    case AckStep(receipt, to) => Some(Acked(receipt, to))
  }

  // ---- one step ----

  lemma StepKeepsValid(t: Table, step: Step)
    requires Valid(t) && Feasible(step)
    ensures Valid(Next(t, step)) && t.lastId <= Next(t, step).lastId
  {
    hide Next, Valid;
    if step.LeaseStep? {
      LeaseKeepsValid(t, step);
    } else {
      PurgeKeepsValid(t, step);
    }
  }

  lemma LeaseKeepsValid(t: Table, step: Step)
    requires Valid(t) && Feasible(step) && step.LeaseStep?
    ensures Valid(Next(t, step)) && t.lastId <= Next(t, step).lastId
  {
    var t', sel := Next(t, step), Selected(t.rows, step.to, step.max, step.now);
    forall i | 0 <= i < |t.rows| ensures t'.rows[i].id == t.rows[i].id {
      LeaseAllSameIds(t.rows, sel, step.receipts, Deadline(step.now, step.leaseSecs), i);
    }
  }

  lemma PurgeKeepsValid(t: Table, step: Step)
    requires Valid(t) && Feasible(step) && !step.LeaseStep?
    ensures Valid(Next(t, step)) && t.lastId <= Next(t, step).lastId
  {
    hide Delete;
    var p := PurgeOf(step).value;
    DeleteSorted(t.rows, p);
    forall r | r in Delete(t.rows, p) ensures r in t.rows {
      DeleteMember(t.rows, p, r);
    }
  }

  /** A row already numbered changes in a step only by being deleted by that step's purge, or leased by it. */
  lemma StepOnRow(t: Table, step: Step, id: nat)
    requires Valid(t) && Feasible(step) && id <= t.lastId
    ensures Lookup(t, id).None? ==> Lookup(Next(t, step), id).None? && DeliveredReceipt(t, step, id).None?
    ensures Lookup(t, id).Some? ==>
              var r := Lookup(t, id).value;
              var rc := DeliveredReceipt(t, step, id);
              Lookup(Next(t, step), id)
              == if PurgeOf(step).Some? && Hits(PurgeOf(step).value, r) then None
                 else if rc.Some? then Some(r.(lease := Some(Lease(rc.value, Deadline(step.now, step.leaseSecs)))))
                 else Some(r)
    ensures DeliveredReceipt(t, step, id).Some? ==>
              && Lookup(t, id).Some?
              && Leasable(Lookup(t, id).value, step.to, step.now)
  {
    hide Next, Find, Selected, ReceiptFor, Deadline;
    if step.LeaseStep? {
      LeaseOnRow(t, step, id);
    } else {
      PurgeOnRow(t, step, id);
    }
  }

  lemma LeaseOnRow(t: Table, step: Step, id: nat)
    requires Valid(t) && Feasible(step) && step.LeaseStep?
    ensures var rc := DeliveredReceipt(t, step, id);
            && Lookup(Next(t, step), id)
               == (if Lookup(t, id).Some? && rc.Some?
                   then Some(Lookup(t, id).value.(lease := Some(Lease(rc.value, Deadline(step.now, step.leaseSecs)))))
                   else Lookup(t, id))
            && (rc.Some? ==> Lookup(t, id).Some? && Leasable(Lookup(t, id).value, step.to, step.now))
  {
    var sel := Selected(t.rows, step.to, step.max, step.now);
    SelectedSorted(t.rows, step.to, step.max, step.now);
    FindLeaseAll(t.rows, sel, step.receipts, Deadline(step.now, step.leaseSecs), id);
    if ReceiptFor(sel, step.receipts, id).Some? {
      var k := ReceiptOfSelected(sel, step.receipts, id);
      SelectedMember(t.rows, step.to, step.max, step.now, sel[k]);
      FindMember(t.rows, sel[k]);
    }
  }

  lemma PurgeOnRow(t: Table, step: Step, id: nat)
    requires Valid(t) && Feasible(step) && !step.LeaseStep? && id <= t.lastId
    ensures Lookup(Next(t, step), id)
         == if Lookup(t, id).Some? && Hits(PurgeOf(step).value, Lookup(t, id).value) then None else Lookup(t, id)
  {
    hide Delete, Find;
    FindDelete(t.rows, PurgeOf(step).value, id);
    if step.PushStep? && Next(t, step).lastId != t.lastId {
      var live := Delete(t.rows, Expired(step.now));
      FindAppend(live, Next(t, step).rows[|live|], id);
    }
  }

  /** A fresh number appears only by a push that stores its envelope, unleased. */
  lemma StepBirth(t: Table, step: Step)
    requires Valid(t) && Feasible(step)
    ensures Next(t, step).lastId <= t.lastId + 1
    ensures Next(t, step).lastId == t.lastId + 1 ==>
              && step.PushStep?
              && Lookup(Next(t, step), t.lastId + 1)
                 == Some(Row(t.lastId + 1, step.env, step.now, Deadline(step.now, step.ttlSecs), None))
  {
    if Next(t, step).lastId == t.lastId + 1 {
      var live := Delete(t.rows, Expired(step.now));
      FindDelete(t.rows, Expired(step.now), t.lastId + 1);
      FindAppend(live, Next(t, step).rows[|live|], t.lastId + 1);
    }
  }

  // ---- invariants of a stretch ----

  lemma {:induction false} StretchValid(ts: seq<Table>, steps: seq<Step>, i: nat, j: nat)
    requires Stretch(ts, steps) && i <= j <= |steps|
    ensures Valid(ts[j]) && ts[i].lastId <= ts[j].lastId
    decreases j
  {
    hide Next;
    if 0 < j {
      StretchValid(ts, steps, if i < j then i else j - 1, j - 1);
      assert ts[j - 1 + 1] == Next(ts[j - 1], steps[j - 1]);
      StepKeepsValid(ts[j - 1], steps[j - 1]);
    }
  }

  /** Row numbers are never reused: a row that is gone stays gone. */
  lemma {:induction false} NeverReturns(ts: seq<Table>, steps: seq<Step>, i: nat, j: nat, id: nat)
    requires Stretch(ts, steps) && i <= j <= |steps|
    requires id <= ts[i].lastId && Lookup(ts[i], id).None?
    ensures Lookup(ts[j], id).None?
    decreases j
  {
    hide Next;
    if i < j {
      NeverReturns(ts, steps, i, j - 1, id);
      StretchValid(ts, steps, i, j - 1);
      assert ts[j - 1 + 1] == Next(ts[j - 1], steps[j - 1]);
      StepOnRow(ts[j - 1], steps[j - 1], id);
    }
  }

  /** While a row is stored only its lease changes. */
  lemma {:induction false} RowKeepsContent(ts: seq<Table>, steps: seq<Step>, i: nat, j: nat, id: nat)
    requires Stretch(ts, steps) && i <= j <= |steps|
    requires Lookup(ts[i], id).Some? && Lookup(ts[j], id).Some?
    ensures Lookup(ts[j], id).value.(lease := None) == Lookup(ts[i], id).value.(lease := None)
    decreases j
  {
    hide Next;
    if i < j {
      StretchValid(ts, steps, i, i);
      StretchValid(ts, steps, i, j - 1);
      assert ts[j - 1 + 1] == Next(ts[j - 1], steps[j - 1]);
      StepOnRow(ts[j - 1], steps[j - 1], id);
      RowKeepsContent(ts, steps, i, j - 1, id);
    }
  }

  // ---- conservation ----

  ghost predicate BornAt(ts: seq<Table>, steps: seq<Step>, b: nat, id: nat)
    requires Stretch(ts, steps)
  {
    && b < |steps|
    && steps[b].PushStep?
    && ts[b].lastId < id
    && Lookup(ts[b + 1], id)
       == Some(Row(id, steps[b].env, steps[b].now, Deadline(steps[b].now, steps[b].ttlSecs), None))
  }

  ghost predicate StoredDuring(ts: seq<Table>, id: nat, lo: int, hi: int) {
    forall k :: 0 <= k < |ts| && lo <= k <= hi ==> Lookup(ts[k], id).Some?
  }

  ghost predicate AbsentDuring(ts: seq<Table>, id: nat, lo: int, hi: int) {
    forall k :: 0 <= k < |ts| && lo <= k <= hi ==> Lookup(ts[k], id).None?
  }

  /** Step `e` removes row `id` for one of the two admissible reasons: an ack from the row's own
      inbox that names the receipt of its latest delivery, or a clock at or past its expiry. */
  ghost predicate RemovedAt(ts: seq<Table>, steps: seq<Step>, e: nat, id: nat)
    requires Stretch(ts, steps)
  {
    && e < |steps|
    && Lookup(ts[e], id).Some?
    && var r := Lookup(ts[e], id).value;
       || (&& steps[e].AckStep?
           && steps[e].to == r.env.to
           && exists m :: LatestDelivery(ts, steps, m, e, id, steps[e].receipt))
       || (&& (steps[e].PushStep? || steps[e].PruneStep?)
           && r.expiresAt <= steps[e].now)
  }

  /** Step `m` delivered row `id` under `receipt` and no step in between delivered it again. */
  ghost predicate LatestDelivery(ts: seq<Table>, steps: seq<Step>, m: nat, e: nat, id: nat, receipt: string)
    requires Stretch(ts, steps)
  {
    && m < e <= |steps|
    && DeliveredReceipt(ts[m], steps[m], id) == Some(receipt)
    && forall k :: m < k < e ==> DeliveredReceipt(ts[k], steps[k], id).None?
  }

  /** The lease a stored row carries is the one of its latest delivery. */
  lemma {:induction false} LeaseIsLatestDelivery(ts: seq<Table>, steps: seq<Step>, e: nat, id: nat) returns (m: nat)
    requires Run(ts, steps) && e <= |steps|
    requires Lookup(ts[e], id).Some? && Lookup(ts[e], id).value.lease.Some?
    ensures LatestDelivery(ts, steps, m, e, id, Lookup(ts[e], id).value.lease.value.receipt)
    ensures Lookup(ts[e], id).value.lease.value.until == Deadline(steps[m].now, steps[m].leaseSecs)
    decreases e
  {
    hide Next;
    var i := e - 1;
    StretchValid(ts, steps, 0, i);
    assert ts[i + 1] == Next(ts[i], steps[i]);
    StepBirth(ts[i], steps[i]);
    if id <= ts[i].lastId {
      StepOnRow(ts[i], steps[i], id);
      if DeliveredReceipt(ts[i], steps[i], id).Some? {
        m := i;
      } else {
        m := LeaseIsLatestDelivery(ts, steps, i, id);
      }
    } else {
      StretchValid(ts, steps, 0, e);
      assert false;
    }
  }

  /** If a numbered row disappears in a step, the step had an admissible reason. */
  lemma RemovalHasReason(ts: seq<Table>, steps: seq<Step>, e: nat, id: nat)
    requires Run(ts, steps) && e < |steps|
    requires Lookup(ts[e], id).Some? && Lookup(ts[e + 1], id).None?
    ensures RemovedAt(ts, steps, e, id)
  {
    hide Next;
    StretchValid(ts, steps, 0, e);
    assert ts[e + 1] == Next(ts[e], steps[e]);
    StepOnRow(ts[e], steps[e], id);
    if steps[e].AckStep? {
      var m := LeaseIsLatestDelivery(ts, steps, e, id);
    }
  }

  /** The life of row `id`: unborn, then stored, then possibly removed for good. */
  ghost predicate Lifetime(ts: seq<Table>, steps: seq<Step>, b: nat, e: nat, id: nat)
    requires Stretch(ts, steps)
  {
    && b < e <= |steps|
    && BornAt(ts, steps, b, id)
    && AbsentDuring(ts, id, 0, b)
    && StoredDuring(ts, id, b + 1, e)
    && AbsentDuring(ts, id, e + 1, |steps|)
    && (e < |steps| ==> RemovedAt(ts, steps, e, id))
  }

  lemma {:induction false} LifetimeUpTo(ts: seq<Table>, steps: seq<Step>, n: nat, id: nat) returns (b: nat, e: nat)
    requires Run(ts, steps) && n <= |steps|
    requires 1 <= id <= ts[n].lastId
    ensures b < e <= n && BornAt(ts, steps, b, id) && AbsentDuring(ts, id, 0, b) && StoredDuring(ts, id, b + 1, e)
    ensures e < n ==> RemovedAt(ts, steps, e, id) && AbsentDuring(ts, id, e + 1, n)
    decreases n
  {
    hide Next;
    var i := n - 1;
    StretchValid(ts, steps, 0, i);
    assert ts[i + 1] == Next(ts[i], steps[i]);
    StepBirth(ts[i], steps[i]);
    if id <= ts[i].lastId {
      b, e := LifetimeUpTo(ts, steps, i, id);
      StepOnRow(ts[i], steps[i], id);
      if e == i {
        if Lookup(ts[n], id).Some? {
          e := n;
        } else {
          RemovalHasReason(ts, steps, i, id);
        }
      }
    } else {
      b, e := i, n;
      forall k | 0 <= k <= i ensures Lookup(ts[k], id).None? {
        StretchValid(ts, steps, k, i);
        StretchValid(ts, steps, k, k);
      }
    }
  }

  /** Conservation: every row number ever given out was born by exactly one push and is, at the end
      of the run, either still stored or was removed once, for an admissible reason, and stayed away. */
  lemma {:induction false} Conservation(ts: seq<Table>, steps: seq<Step>, id: nat)
    requires Run(ts, steps)
    requires 1 <= id <= ts[|steps|].lastId
    ensures exists b: nat, e: nat :: Lifetime(ts, steps, b, e, id)
  {
    var b, e := LifetimeUpTo(ts, steps, |steps|, id);
    assert Lifetime(ts, steps, b, e, id);
  }

  // ---- how long a row lives ----

  /** The step acks row `id`: it names the receipt of the row's lease, and its inbox. */
  ghost predicate AckedBy(t: Table, step: Step, id: nat) {
    && step.AckStep? && Lookup(t, id).Some? && Lookup(t, id).value.env.to == step.to
    && Lookup(t, id).value.lease.Some? && Lookup(t, id).value.lease.value.receipt == step.receipt
  }

  /** No push and no prune between the two positions runs at or after clock `end`. */
  ghost predicate NonePrunesFrom(steps: seq<Step>, i: nat, j: nat, end: int) {
    forall k :: i <= k < j && k < |steps| && (steps[k].PushStep? || steps[k].PruneStep?) ==> steps[k].now < end
  }

  lemma {:induction false} StaysWhileLive(ts: seq<Table>, steps: seq<Step>, i: nat, j: nat, id: nat)
    requires Stretch(ts, steps) && i <= j <= |steps| && Lookup(ts[i], id).Some?
    requires forall k :: i <= k < j ==> !AckedBy(ts[k], steps[k], id)
    ensures Lookup(ts[j], id).Some? <==> NonePrunesFrom(steps, i, j, Lookup(ts[i], id).value.expiresAt)
    decreases j
  {
    hide Next;
    if i < j {
      StaysWhileLive(ts, steps, i, j - 1, id);
      StretchValid(ts, steps, i, i);
      StretchValid(ts, steps, i, j - 1);
      assert ts[j - 1 + 1] == Next(ts[j - 1], steps[j - 1]);
      StepOnRow(ts[j - 1], steps[j - 1], id);
      if Lookup(ts[j - 1], id).Some? {
        RowKeepsContent(ts, steps, i, j - 1, id);
        assert !AckedBy(ts[j - 1], steps[j - 1], id);
      }
    }
  }

  /** A row pushed at `t` with a ttl of `s` seconds that nobody acks is stored exactly as long as every clock that
      prunes stays below t + 1000 * s, or, if that is past the last clock value, below the last clock value. */
  lemma {:induction false} LivesItsTtl(ts: seq<Table>, steps: seq<Step>, b: nat, j: nat, id: nat)
    requires Stretch(ts, steps) && b < j <= |steps| && BornAt(ts, steps, b, id)
    requires forall k :: b < k < j ==> !AckedBy(ts[k], steps[k], id)
    ensures var t, s := steps[b].now, steps[b].ttlSecs;
            && (1 <= s && 0 <= t && t + 1000 * s <= I64_MAX ==>
                  (Lookup(ts[j], id).Some? <==> NonePrunesFrom(steps, b + 1, j, t + 1000 * s)))
            && (0 <= t && I64_MAX < t + 1000 * s ==>
                  (Lookup(ts[j], id).Some? <==> NonePrunesFrom(steps, b + 1, j, I64_MAX)))
            && (s == 0 && t < I64_MAX ==> (Lookup(ts[j], id).Some? <==> NonePrunesFrom(steps, b + 1, j, t + 1)))
            && (t < 0 && 1 <= s ==>
                  (Lookup(ts[j], id).Some? <==> NonePrunesFrom(steps, b + 1, j, t + Min(1000 * s, I64_MAX))))
  {
    hide Next;
    StaysWhileLive(ts, steps, b + 1, j, id);
  }

  // ---- lease exclusivity ----

  /** While a row stays stored, its lease end never moves back. */
  lemma {:induction false} LeaseEndGrows(ts: seq<Table>, steps: seq<Step>, i: nat, j: nat, id: nat)
    requires Stretch(ts, steps) && i <= j <= |steps|
    requires Lookup(ts[i], id).Some? && Lookup(ts[i], id).value.lease.Some?
    requires Lookup(ts[j], id).Some?
    ensures Lookup(ts[j], id).value.lease.Some?
    ensures Lookup(ts[i], id).value.lease.value.until <= Lookup(ts[j], id).value.lease.value.until
    decreases j
  {
    hide Next;
    if i < j {
      StretchValid(ts, steps, i, i);
      StretchValid(ts, steps, i, j - 1);
      assert ts[j - 1 + 1] == Next(ts[j - 1], steps[j - 1]);
      StepOnRow(ts[j - 1], steps[j - 1], id);
      LeaseEndGrows(ts, steps, i, j - 1, id);
    }
  }

  /** Lease exclusivity, for any clock: the later of two deliveries of a row happens strictly after
      the end of the lease granted by the earlier one, and goes to the same inbox. */
  lemma {:induction false} LeaseExclusivity(ts: seq<Table>, steps: seq<Step>, i: nat, j: nat, id: nat)
    requires Stretch(ts, steps) && i < j < |steps|
    requires DeliveredReceipt(ts[i], steps[i], id).Some? && DeliveredReceipt(ts[j], steps[j], id).Some?
    ensures Deadline(steps[i].now, steps[i].leaseSecs) < steps[j].now
    ensures 0 <= steps[i].now || 1000 * steps[i].leaseSecs <= I64_MAX ==>
              steps[i].now + 1000 * steps[i].leaseSecs < steps[j].now
    ensures steps[i].to == steps[j].to
  {
    hide Next;
    DeliveredRowIsNumbered(ts, steps, i, id);
    StretchValid(ts, steps, i, i);
    StretchValid(ts, steps, i, j);
    assert ts[i + 1] == Next(ts[i], steps[i]);
    StepOnRow(ts[i], steps[i], id);
    StepOnRow(ts[j], steps[j], id);
    LeaseEndGrows(ts, steps, i + 1, j, id);
    RowKeepsContent(ts, steps, i, j, id);
  }

  // ---- receipts ----

  /** No receipt is ever drawn twice. */
  ghost predicate FreshReceipts(steps: seq<Step>) {
    forall i, j, k, l ::
      && 0 <= i < |steps| && 0 <= j < |steps| && steps[i].LeaseStep? && steps[j].LeaseStep?
      && 0 <= k < |steps[i].receipts| && 0 <= l < |steps[j].receipts|
      && steps[i].receipts[k] == steps[j].receipts[l]
      ==> i == j && k == l
  }

  /** With fresh receipts, a receipt names one delivery of one row. */
  lemma ReceiptNamesDelivery(ts: seq<Table>, steps: seq<Step>, i: nat, j: nat, id: nat, id': nat)
    requires Stretch(ts, steps) && FreshReceipts(steps) && i < |steps| && j < |steps|
    requires DeliveredReceipt(ts[i], steps[i], id).Some?
    requires DeliveredReceipt(ts[i], steps[i], id) == DeliveredReceipt(ts[j], steps[j], id')
    ensures i == j && id == id'
  {
    var k := ReceiptOfSelected(Selected(ts[i].rows, steps[i].to, steps[i].max, steps[i].now), steps[i].receipts, id);
    var l := ReceiptOfSelected(Selected(ts[j].rows, steps[j].to, steps[j].max, steps[j].now), steps[j].receipts, id');
    assert steps[i].receipts[k] == steps[j].receipts[l];
  }

  /** An ack with a receipt that was handed out for row `id` at step `i` removes exactly that row, and
      does so if and only if the row is still stored, the ack comes from the row's inbox and the row
      was not delivered again in the meantime. */
  lemma {:induction false} AckRemovesExactly(ts: seq<Table>, steps: seq<Step>, i: nat, j: nat, id: nat, x: nat)
    requires Run(ts, steps) && FreshReceipts(steps) && i < j < |steps|
    requires DeliveredReceipt(ts[i], steps[i], id).Some?
    requires steps[j].AckStep? && Some(steps[j].receipt) == DeliveredReceipt(ts[i], steps[i], id)
    ensures Lookup(ts[j], x).Some? && Lookup(ts[j + 1], x).None?
       <==> && x == id
            && Lookup(ts[j], id).Some?
            && Lookup(ts[j], id).value.env.to == steps[j].to
            && forall k :: i < k < j ==> DeliveredReceipt(ts[k], steps[k], id).None?
  {
    hide Next;
    StretchValid(ts, steps, 0, i);
    StretchValid(ts, steps, 0, j);
    assert ts[j + 1] == Next(ts[j], steps[j]);
    if Lookup(ts[j], x).Some? {
      StepOnRow(ts[j], steps[j], x);
      if Lookup(ts[j + 1], x).None? {
        var m := LeaseIsLatestDelivery(ts, steps, j, x);
        ReceiptNamesDelivery(ts, steps, i, m, id, x);
      }
      if x == id && forall k :: i < k < j ==> DeliveredReceipt(ts[k], steps[k], id).None? {
        UnchangedSinceDelivery(ts, steps, i, j, id);
      }
    }
  }

  lemma {:induction false} UnchangedSinceDelivery(ts: seq<Table>, steps: seq<Step>, i: nat, j: nat, id: nat)
    requires Run(ts, steps) && i < j <= |steps|
    requires DeliveredReceipt(ts[i], steps[i], id).Some? && Lookup(ts[j], id).Some?
    requires forall k :: i < k < j ==> DeliveredReceipt(ts[k], steps[k], id).None?
    ensures Lookup(ts[j], id).value.lease.Some?
    ensures Some(Lookup(ts[j], id).value.lease.value.receipt) == DeliveredReceipt(ts[i], steps[i], id)
    decreases j
  {
    hide Next;
    DeliveredRowIsNumbered(ts, steps, i, id);
    StretchValid(ts, steps, i, j - 1);
    assert ts[j - 1 + 1] == Next(ts[j - 1], steps[j - 1]);
    StepOnRow(ts[j - 1], steps[j - 1], id);
    if i < j - 1 {
      UnchangedSinceDelivery(ts, steps, i, j - 1, id);
    }
  }

  lemma DeliveredRowIsNumbered(ts: seq<Table>, steps: seq<Step>, i: nat, id: nat)
    requires Stretch(ts, steps) && i < |steps| && DeliveredReceipt(ts[i], steps[i], id).Some?
    ensures Lookup(ts[i], id).Some? && id <= ts[i].lastId
  {
    StretchValid(ts, steps, i, i);
    var step := steps[i];
    var sel := Selected(ts[i].rows, step.to, step.max, step.now);
    var k := ReceiptOfSelected(sel, step.receipts, id);
    SelectedMember(ts[i].rows, step.to, step.max, step.now, sel[k]);
    FindMember(ts[i].rows, sel[k]);
  }
}
