/** Mailbox and signer together: what the signer's pull, process and ack loop accepts under any interleaving. */
module EndToEnd {
  import opened Wrappers
  import opened MachineInts
  import opened Mailbox
  import opened MailboxRuns
  import opened MailboxDelivery
  import opened MailboxDb
  import opened ReplayGuard

  /** `batch` holds pulled messages not yet processed; `accepted` lists, in order, the envelopes the guard let
      through to the handler. */
  datatype World = World(table: Table, seen: seq<Seen>, batch: seq<Delivery>, accepted: seq<Envelope>)

  /** How the parts outside the guard turn out for one message: whether the checks before the guard pass
      (addressing, cipher suite, allowlist, decryption), whether the loop decides to ack after a failed check or
      after the handler, and whether the ack reaches the mailbox. */
  datatype Outcome = Outcome(authentic: bool, wantsAck: bool, ackReaches: bool)

  datatype Step =
    | MailboxStep(step: MailboxRuns.Step)
    | PullStep(max: nat, leaseSecs: u64, now: i64, receipts: seq<string>)
    | ProcessStep(outcome: Outcome)
    | Crash

  const Start: World := World(Empty, [], [], [])

  predicate GuardAccepts(w: World, env: Envelope) {
    Accepts(w.seen, env.escrow, env.from, env.seqNo)
  }

  /** The loop acks a refused replay; otherwise the outcome decides. */
  predicate Acks(w: World, env: Envelope, o: Outcome) {
    o.ackReaches && (if o.authentic && !GuardAccepts(w, env) then true else o.wantsAck)
  }

  /** One message of the batch through `process_envelope` and the ack. */
  function Process(w: World, local: string, o: Outcome): World
    requires w.batch != []
  {
    var msg := w.batch[0];
    var accepts := o.authentic && GuardAccepts(w, msg.env);
    World(
      if Acks(w, msg.env, o) then w.table.(rows := Delete(w.table.rows, Acked(msg.receipt, local))) else w.table,
      if accepts then Record(w.seen, msg.env.escrow, msg.env.from, msg.env.seqNo) else w.seen,
      w.batch[1..],
      if accepts then w.accepted + [msg.env] else w.accepted)
  }

  predicate Enabled(w: World, step: Step) {
    match step
    case MailboxStep(s) => Feasible(s)
    case PullStep(max, _, _, receipts) => max <= |receipts|
    case ProcessStep(_) => w.batch != []
    case Crash => true
  }

  /** Other clients' pushes, pulls, prunes and acks are mailbox steps; a crash loses the unprocessed batch. */
  function Advance(w: World, local: string, step: Step): World
    requires Enabled(w, step)
  {
    match step
    case MailboxStep(s) => w.(table := Next(w.table, s))
    case PullStep(max, leaseSecs, now, receipts) =>
      w.(table := Pull(w.table, local, max, leaseSecs, now, receipts),
         batch := Deliveries(Selected(w.table.rows, local, max, now), receipts))
    case ProcessStep(o) => Process(w, local, o)
    case Crash => w.(batch := [])
  }

  ghost predicate Run(ws: seq<World>, steps: seq<Step>, local: string) {
    && |ws| == |steps| + 1 && ws[0] == Start
    && (forall i :: 0 <= i < |steps| ==> Enabled(ws[i], steps[i]))
    && (forall i :: 0 <= i < |steps| ==> ws[i + 1] == Advance(ws[i], local, steps[i]))
  }

  // ---- the loop over one pulled batch ----

  function ProcessAll(w: World, local: string, outcomes: seq<Outcome>): World
    requires |outcomes| == |w.batch|
    decreases |outcomes|
  {
    if outcomes == [] then w else ProcessAll(Process(w, local, outcomes[0]), local, outcomes[1..])
  }

  /** The inner loop of `SignerAgent::run`: guard, then ack or leave for redelivery, message by message. */
  method RunBatch(mailbox: SqliteMailboxDb, guard: SignerSequences, local: string,
                  batch: seq<Delivery>, outcomes: seq<Outcome>) returns (accepted: seq<Envelope>)
    requires mailbox.Valid() && |outcomes| == |batch|
    modifies mailbox, guard
    ensures mailbox.Valid()
    ensures var end := ProcessAll(World(old(mailbox.View()), old(guard.incomingSeen), batch, []), local, outcomes);
            mailbox.View() == end.table && guard.incomingSeen == end.seen && accepted == end.accepted
  {
    accepted := [];
    ghost var begin := World(mailbox.View(), guard.incomingSeen, batch, []);
    assert batch[0..] == batch && outcomes[0..] == outcomes;
    for k := 0 to |batch|
      invariant ProcessAll(World(mailbox.View(), guard.incomingSeen, batch[k..], accepted), local, outcomes[k..])
             == ProcessAll(begin, local, outcomes)
      invariant mailbox.Valid()
    {
      var msg, o := batch[k], outcomes[k];
      assert batch[k..][1..] == batch[k + 1..] && outcomes[k..][1..] == outcomes[k + 1..];
      var ack := o.wantsAck;
      if o.authentic {
        var isNew := guard.RecordIncomingSeq(msg.env.escrow, msg.env.from, msg.env.seqNo);
        if isNew {
          accepted := accepted + [msg.env];
        } else {
          ack := true;
        }
      }
      if ack && o.ackReaches {
        var _ := mailbox.AckSync(msg.receipt, local);
      }
    }
  }

  /** Processing a batch is one step per message, in order, and leaves none: what holds of runs holds of the loop. */
  lemma {:induction false} BatchIsSteps(ws: seq<World>, steps: seq<Step>, local: string, outcomes: seq<Outcome>)
    returns (ws': seq<World>, steps': seq<Step>)
    requires Run(ws, steps, local) && |outcomes| == |ws[|steps|].batch|
    ensures Run(ws', steps', local) && ws <= ws' && |steps'| == |steps| + |outcomes| && steps <= steps'
    ensures forall k :: 0 <= k < |outcomes| ==> steps'[|steps| + k] == ProcessStep(outcomes[k])
    ensures ws'[|steps'|] == ProcessAll(ws[|steps|], local, outcomes) && ws'[|steps'|].batch == []
    decreases |outcomes|
  {
    hide Next, Pull, Deliveries, Acks, GuardAccepts;
    if outcomes == [] {
      ws', steps' := ws, steps;
    } else {
      var w, step := ws[|steps|], ProcessStep(outcomes[0]);
      OneMoreStep(ws, steps, local, step);
      ws', steps' := BatchIsSteps(ws + [Advance(w, local, step)], steps + [step], local, outcomes[1..]);
      assert steps'[|steps|] == (steps + [step])[|steps|];
      forall k | 1 <= k < |outcomes| ensures steps'[|steps| + k] == ProcessStep(outcomes[k]) {
        assert steps'[|steps + [step]| + (k - 1)] == ProcessStep(outcomes[1..][k - 1]);
      }
    }
  }

  lemma OneMoreStep(ws: seq<World>, steps: seq<Step>, local: string, step: Step)
    requires Run(ws, steps, local) && Enabled(ws[|steps|], step)
    ensures Run(ws + [Advance(ws[|steps|], local, step)], steps + [step], local)
  {
    hide Advance, Enabled;
    var ws', steps' := ws + [Advance(ws[|steps|], local, step)], steps + [step];
    forall i | 0 <= i < |steps'| ensures Enabled(ws'[i], steps'[i]) && ws'[i + 1] == Advance(ws'[i], local, steps'[i]) {
      if i < |steps| {
        assert ws'[i] == ws[i] && ws'[i + 1] == ws[i + 1] && steps'[i] == steps[i];
      }
    }
  }

  // ---- no message is accepted twice ----

  /** The guard's table is the record of what was accepted, in order. */
  ghost predicate GuardRecordsAccepted(w: World) {
    && |w.seen| == |w.accepted|
    && (forall i :: 0 <= i < |w.seen| ==>
                      w.seen[i] == Seen(w.accepted[i].escrow, w.accepted[i].from, ClampToI64(w.accepted[i].seqNo)))
    && StreamsIncrease(w.seen)
  }

  lemma {:induction false} GuardAlwaysRecords(ws: seq<World>, steps: seq<Step>, local: string, n: nat)
    requires Run(ws, steps, local) && n <= |steps|
    ensures GuardRecordsAccepted(ws[n])
  {
    hide Next, Pull, Deliveries, Accepts, Acks;
    if 0 < n {
      GuardAlwaysRecords(ws, steps, local, n - 1);
      var w := ws[n - 1];
      assert ws[n - 1 + 1] == Advance(w, local, steps[n - 1]);
      if steps[n - 1].ProcessStep? {
        var env := w.batch[0].env;
        RecordKeepsIncrease(w.seen, env.escrow, env.from, env.seqNo);
      }
    }
  }

  predicate SameSender(a: Envelope, b: Envelope) {
    a.escrow == b.escrow && a.from == b.from
  }

  /** Under any interleaving of pushes and re-pushes, lease expiry, redelivery, crashes and lost acks, the
      numbers accepted per (escrow, sender) strictly increase; in particular no envelope is accepted twice. */
  lemma {:induction false} AcceptedAtMostOnce(ws: seq<World>, steps: seq<Step>, local: string, n: nat, i: nat, j: nat)
    requires Run(ws, steps, local) && n <= |steps| && i < j < |ws[n].accepted|
    requires SameSender(ws[n].accepted[i], ws[n].accepted[j])
    ensures ws[n].accepted[i].seqNo < ws[n].accepted[j].seqNo
    ensures ClampToI64(ws[n].accepted[i].seqNo) < ClampToI64(ws[n].accepted[j].seqNo)
  {
    GuardAlwaysRecords(ws, steps, local, n);
    assert SameStream(ws[n].seen[i], ws[n].seen[j]);
  }

  /** The accepted list only grows. */
  lemma {:induction false} AcceptedGrows(ws: seq<World>, steps: seq<Step>, local: string, i: nat, j: nat)
    requires Run(ws, steps, local) && i <= j <= |steps|
    ensures ws[i].accepted <= ws[j].accepted
    decreases j
  {
    hide Next, Pull, Deliveries, Accepts, Acks, Record;
    if i < j {
      AcceptedGrows(ws, steps, local, i, j - 1);
      assert ws[j - 1 + 1] == Advance(ws[j - 1], local, steps[j - 1]);
    }
  }

  /** Once an envelope of a stream is accepted, every envelope of that stream with the same or a smaller number
      is refused from then on: a message redelivered after a crash is not handled again, and one that was
      overtaken never is. */
  lemma {:induction false} AcceptedBlocksOlder(ws: seq<World>, steps: seq<Step>, local: string, i: nat, j: nat, k: nat, env: Envelope)
    requires Run(ws, steps, local) && i <= j <= |steps| && k < |ws[i].accepted|
    requires SameSender(env, ws[i].accepted[k]) && env.seqNo <= ws[i].accepted[k].seqNo
    ensures !GuardAccepts(ws[j], env)
  {
    AcceptedGrows(ws, steps, local, i, j);
    GuardAlwaysRecords(ws, steps, local, j);
    var r := ws[j].seen[k];
    assert ws[j].accepted[k] == ws[i].accepted[k];
    RecordedIsRefused(ws[j].seen, r, env.seqNo);
  }

  /** And only those: an authentic message is refused exactly when its stream has already accepted a number
      at or above its own, numbers counted up to i64::MAX. */
  lemma {:induction false} RefusedIffOvertaken(ws: seq<World>, steps: seq<Step>, local: string, n: nat, env: Envelope)
    requires Run(ws, steps, local) && n <= |steps|
    ensures !GuardAccepts(ws[n], env)
       <==> exists k :: 0 <= k < |ws[n].accepted| && SameSender(env, ws[n].accepted[k])
                        && ClampToI64(env.seqNo) <= ClampToI64(ws[n].accepted[k].seqNo)
  {
    GuardAlwaysRecords(ws, steps, local, n);
    var w := ws[n];
    if !GuardAccepts(w, env) {
      var m := MaxSeen(w.seen, env.escrow, env.from);
      var k :| 0 <= k < |w.seen| && w.seen[k] == Seen(env.escrow, env.from, m.value);
      assert SameSender(env, w.accepted[k]);
    }
    if k :| 0 <= k < |w.accepted| && SameSender(env, w.accepted[k])
            && ClampToI64(env.seqNo) <= ClampToI64(w.accepted[k].seqNo) {
      RecordedIsRefused(w.seen, w.seen[k], env.seqNo);
    }
  }

  // ---- what the loop acks, and what it leaves for redelivery ----

  /** The stream of the message has already accepted a number at or above its own. */
  ghost predicate Overtaken(w: World, env: Envelope) {
    exists k :: 0 <= k < |w.accepted| && SameSender(env, w.accepted[k])
                && ClampToI64(env.seqNo) <= ClampToI64(w.accepted[k].seqNo)
  }

  /** The row is under the lease with this receipt. */
  ghost predicate HasReceipt(r: Row, receipt: string) {
    r.lease.Some? && r.lease.value.receipt == receipt
  }

  /** The loop, processing the first message of the batch, acks row `r`: the row is in the local inbox under the
      message's receipt, the ack reaches the mailbox, and either the loop wanted to ack or the message is authentic
      and was overtaken. */
  ghost predicate LoopAcks(w: World, local: string, o: Outcome, r: Row) {
    && w.batch != [] && HasReceipt(r, w.batch[0].receipt) && r.env.to == local
    && o.ackReaches && (o.wantsAck || (o.authentic && Overtaken(w, w.batch[0].env)))
  }

  /** Processing a message removes the rows the loop acks, leaves every other row as it is, and adds none. */
  lemma {:induction false} ProcessRemovesIff(ws: seq<World>, steps: seq<Step>, local: string, n: nat, r: Row)
    requires Run(ws, steps, local) && n < |steps| && steps[n].ProcessStep?
    ensures r in ws[n + 1].table.rows <==> r in ws[n].table.rows && !LoopAcks(ws[n], local, steps[n].outcome, r)
  {
    hide GuardAccepts;
    var w := ws[n];
    assert Enabled(w, steps[n]) && ws[n + 1] == Advance(w, local, steps[n]);
    RefusedIffOvertaken(ws, steps, local, n, w.batch[0].env);
    DeleteMember(w.table.rows, Acked(w.batch[0].receipt, local), r);
  }

  /** The mailbox transaction of a step; a step without one counts as a pull that may hand out nothing. */
  function MailboxPart(w: World, local: string, step: Step): MailboxRuns.Step
    requires Enabled(w, step)
  {
    match step
    case MailboxStep(s) => s
    case PullStep(max, leaseSecs, now, receipts) => LeaseStep(local, max, leaseSecs, now, receipts)
    case ProcessStep(o) =>
      if Acks(w, w.batch[0].env, o) then AckStep(w.batch[0].receipt, local) else LeaseStep(local + "'", 0, 0, 0, [])
    case Crash => LeaseStep(local + "'", 0, 0, 0, [])
  }

  lemma AdvanceIsMailboxStep(w: World, local: string, step: Step)
    requires Enabled(w, step)
    ensures Feasible(MailboxPart(w, local, step))
    ensures Advance(w, local, step).table == Next(w.table, MailboxPart(w, local, step))
  {
    hide Acks;
  }

  function Tables(ws: seq<World>): (ts: seq<Table>)
    ensures |ts| == |ws| && forall i :: 0 <= i < |ws| ==> ts[i] == ws[i].table
  {
    seq(|ws|, i requires 0 <= i < |ws| => ws[i].table)
  }

  function MailboxParts(ws: seq<World>, steps: seq<Step>, local: string): (ms: seq<MailboxRuns.Step>)
    requires |ws| == |steps| + 1 && forall i :: 0 <= i < |steps| ==> Enabled(ws[i], steps[i])
    ensures |ms| == |steps| && forall i :: 0 <= i < |steps| ==> ms[i] == MailboxPart(ws[i], local, steps[i])
  {
    seq(|steps|, i requires 0 <= i < |steps| => MailboxPart(ws[i], local, steps[i]))
  }

  /** Seen from the mailbox, a run of the whole is a run of the mailbox, so all that holds of those holds here. */
  lemma {:induction false} MailboxSeesRun(ws: seq<World>, steps: seq<Step>, local: string)
    requires Run(ws, steps, local)
    ensures MailboxRuns.Run(Tables(ws), MailboxParts(ws, steps, local))
  {
    hide Advance, Next, MailboxPart;
    var ts, ms := Tables(ws), MailboxParts(ws, steps, local);
    forall i | 0 <= i < |steps| ensures Feasible(ms[i]) && ts[i + 1] == Next(ts[i], ms[i]) {
      assert ws[i + 1] == Advance(ws[i], local, steps[i]);
      AdvanceIsMailboxStep(ws[i], local, steps[i]);
    }
  }

  /** Step `k` acks row `id`: the loop does, or another client of the inbox that has the receipt. */
  ghost predicate AcksRow(ws: seq<World>, steps: seq<Step>, local: string, k: nat, id: nat)
    requires k < |steps| < |ws|
  {
    && Lookup(ws[k].table, id).Some?
    && var r := Lookup(ws[k].table, id).value;
       || (steps[k].ProcessStep? && LoopAcks(ws[k], local, steps[k].outcome, r))
       || (steps[k].MailboxStep? && steps[k].step.AckStep? && HasReceipt(r, steps[k].step.receipt)
           && r.env.to == steps[k].step.to)
  }

  /** No push and no prune between the two positions runs at or after clock `end`. */
  ghost predicate NonePrunesFrom(steps: seq<Step>, i: nat, j: nat, end: int) {
    forall k :: i <= k < j && k < |steps| && steps[k].MailboxStep? && (steps[k].step.PushStep? || steps[k].step.PruneStep?)
                ==> steps[k].step.now < end
  }

  lemma AcksRowIff(ws: seq<World>, steps: seq<Step>, local: string, k: nat, id: nat)
    requires Run(ws, steps, local) && k < |steps|
    ensures AcksRow(ws, steps, local, k, id) <==> AckedBy(ws[k].table, MailboxPart(ws[k], local, steps[k]), id)
  {
    hide Lookup, GuardAccepts;
    assert Enabled(ws[k], steps[k]);
    if steps[k].ProcessStep? {
      RefusedIffOvertaken(ws, steps, local, k, ws[k].batch[0].env);
    }
  }

  /** A message nobody acks stays stored, with its content, until a push or a prune at or after its expiry. */
  lemma {:induction false} StaysUntilAckedOrExpired(ws: seq<World>, steps: seq<Step>, local: string, i: nat, j: nat, id: nat)
    requires Run(ws, steps, local) && i <= j <= |steps| && Lookup(ws[i].table, id).Some?
    requires forall k :: i <= k < j ==> !AcksRow(ws, steps, local, k, id)
    ensures Lookup(ws[j].table, id).Some? <==> NonePrunesFrom(steps, i, j, Lookup(ws[i].table, id).value.expiresAt)
    ensures Lookup(ws[j].table, id).Some? ==>
              Lookup(ws[j].table, id).value.(lease := None) == Lookup(ws[i].table, id).value.(lease := None)
  {
    MailboxSeesRun(ws, steps, local);
    var ts, ms := Tables(ws), MailboxParts(ws, steps, local);
    hide MailboxRuns.Run, AcksRow, AckedBy, Lookup, Tables, MailboxParts;
    forall k | i <= k < j ensures !AckedBy(ts[k], ms[k], id) {
      AcksRowIff(ws, steps, local, k, id);
    }
    StaysWhileLive(ts, ms, i, j, id);
    if Lookup(ws[j].table, id).Some? {
      RowKeepsContent(ts, ms, i, j, id);
    }
  }

  /** The loop's pull puts row `id` into the batch with envelope `env`, or another client of the inbox pulls it. */
  ghost predicate DeliveredAgain(ws: seq<World>, steps: seq<Step>, local: string, k: nat, id: nat, env: Envelope)
    requires k < |steps| < |ws|
  {
    || (steps[k].PullStep? && exists d :: d in ws[k + 1].batch && d.id == id && d.env == env)
    || (steps[k].MailboxStep? && Feasible(steps[k].step) && DeliveredReceipt(ws[k].table, steps[k].step, id).Some?)
  }

  lemma DeliveredInBatch(ws: seq<World>, steps: seq<Step>, local: string, i: nat, k: nat, id: nat)
    requires Run(ws, steps, local) && i <= k < |steps| && Lookup(ws[i].table, id).Some?
    requires DeliveredReceipt(ws[k].table, MailboxPart(ws[k], local, steps[k]), id).Some?
    ensures DeliveredAgain(ws, steps, local, k, id, Lookup(ws[i].table, id).value.env)
  {
    hide Find, Selected, Acks;
    assert Enabled(ws[k], steps[k]) && ws[k + 1] == Advance(ws[k], local, steps[k]);
    if steps[k].PullStep? {
      MailboxSeesRun(ws, steps, local);
      var sel := Selected(ws[k].table.rows, local, steps[k].max, steps[k].now);
      var x := ReceiptOfSelected(sel, steps[k].receipts, id);
      StretchValid(Tables(ws), MailboxParts(ws, steps, local), 0, k);
      SelectedMember(ws[k].table.rows, local, steps[k].max, steps[k].now, sel[x]);
      FindMember(ws[k].table.rows, sel[x]);
      RowKeepsContent(Tables(ws), MailboxParts(ws, steps, local), i, k, id);
      assert ws[k + 1].batch[x].id == id;
    }
  }

  /** A message of the local inbox that nobody acks before it expires is delivered again: once the pulls of the
      inbox, from clock `from` on and inside one lease window, may hand out more rows than are ahead of it. */
  lemma {:induction false} UnackedIsDeliveredAgain(
    ws: seq<World>, steps: seq<Step>, local: string, i: nat, id: nat, from: i64, horizon: i64)
    requires Run(ws, steps, local) && i <= |steps| && Lookup(ws[i].table, id).Some?
    requires Lookup(ws[i].table, id).value.env.to == local && Waits(Lookup(ws[i].table, id).value, from)
    requires forall k :: i <= k < |steps| ==> !AcksRow(ws, steps, local, k, id)
    requires NonePrunesFrom(steps, i, |steps|, Lookup(ws[i].table, id).value.expiresAt)
    requires horizon < Lookup(ws[i].table, id).value.expiresAt
    requires var ms := MailboxParts(ws, steps, local)[i..];
             && PullsInWindow(ms, local, from, horizon)
             && Ahead(ws[i].table.rows, local, id, from, horizon) < Capacity(ms, local, |ms|)
    ensures exists k :: i <= k < |steps| && DeliveredAgain(ws, steps, local, k, id, Lookup(ws[i].table, id).value.env)
  {
    MailboxSeesRun(ws, steps, local);
    var ts, ms := Tables(ws), MailboxParts(ws, steps, local);
    hide Run, Stretch, Ahead, Capacity, Find, Lookup, PullsInWindow, Waits, AcksRow, DeliveredAgain, NonePrunesFrom, MailboxPart;
    var k := ServedFrom(ts, ms, i, id, from, horizon);
    StaysOverStep(ws, steps, local, i, k, id);
    DeliveredInBatch(ws, steps, local, i, k, id);
  }

  lemma StaysOverStep(ws: seq<World>, steps: seq<Step>, local: string, i: nat, k: nat, id: nat)
    requires Run(ws, steps, local) && i <= k < |steps| && Lookup(ws[i].table, id).Some?
    requires forall k :: i <= k < |steps| ==> !AcksRow(ws, steps, local, k, id)
    requires NonePrunesFrom(steps, i, |steps|, Lookup(ws[i].table, id).value.expiresAt)
    ensures Lookup(ws[k + 1].table, id).Some?
  {
    hide Run, Lookup, AcksRow;
    StaysUntilAckedOrExpired(ws, steps, local, i, k + 1, id);
  }

  /** From position `i` on, some pull delivers the row, or it goes. */
  lemma ServedFrom(ts: seq<Table>, ms: seq<MailboxRuns.Step>, i: nat, id: nat, from: i64, horizon: i64) returns (k: nat)
    requires MailboxRuns.Run(ts, ms) && i <= |ms| && Lookup(ts[i], id).Some? && Waits(Lookup(ts[i], id).value, from)
    requires horizon < Lookup(ts[i], id).value.expiresAt
    requires var to := Lookup(ts[i], id).value.env.to;
             && PullsInWindow(ms[i..], to, from, horizon)
             && Ahead(ts[i].rows, to, id, from, horizon) < Capacity(ms[i..], to, |ms[i..]|)
    ensures i <= k < |ms| && (DeliveredReceipt(ts[k], ms[k], id).Some? || Lookup(ts[k + 1], id).None?)
  {
    hide Next, Ahead, Capacity, Find, Waits, Valid, DeliveredReceipt;
    StretchValid(ts, ms, 0, i);
    SuffixIsStretch(ts, ms, i);
    BoundedDelivery(ts[i..], ms[i..], id, from, horizon);
    var x: nat :| x < |ms[i..]| && Served(ts[i..], ms[i..], x, id);
    k := i + x;
    assert ts[i..][x] == ts[k] && ts[i..][x + 1] == ts[k + 1] && ms[i..][x] == ms[k];
  }

  lemma SuffixIsStretch(ts: seq<Table>, ms: seq<MailboxRuns.Step>, i: nat)
    requires Stretch(ts, ms) && i <= |ms| && Valid(ts[i])
    ensures Stretch(ts[i..], ms[i..])
  {
    hide Next;
    forall k | 0 <= k < |ms[i..]| ensures Feasible(ms[i..][k]) && ts[i..][k + 1] == Next(ts[i..][k], ms[i..][k]) {
      assert ms[i..][k] == ms[i + k] && ts[i..][k] == ts[i + k] && ts[i..][k + 1] == ts[i + k + 1];
      assert ts[i + k + 1] == Next(ts[i + k], ms[i + k]);
    }
  }

  // ---- nothing is accepted that was not pushed ----

  /** The envelopes pushed by the first `n` steps. */
  function Pushed(steps: seq<Step>, n: nat): set<Envelope>
    requires n <= |steps|
  {
    if n == 0 then {}
    else
      Pushed(steps, n - 1)
      + (if steps[n - 1].MailboxStep? && steps[n - 1].step.PushStep? then {steps[n - 1].step.env} else {})
  }

  ghost predicate AllPushed(w: World, pushed: set<Envelope>) {
    && (forall r :: r in w.table.rows ==> r.env in pushed)
    && (forall d :: d in w.batch ==> d.env in pushed)
    && (forall e :: e in w.accepted ==> e in pushed)
  }

  ghost predicate RowsFrom(rows: seq<Row>, pushed: set<Envelope>) {
    forall r :: r in rows ==> r.env in pushed
  }

  lemma DeleteRowsFrom(rows: seq<Row>, p: Purge, pushed: set<Envelope>)
    requires RowsFrom(rows, pushed)
    ensures RowsFrom(Delete(rows, p), pushed)
  {
    forall r | r in Delete(rows, p) ensures r.env in pushed {
      DeleteMember(rows, p, r);
    }
  }

  lemma PullRowsFrom(t: Table, to: string, max: nat, leaseSecs: u64, now: i64, receipts: seq<string>, pushed: set<Envelope>)
    requires max <= |receipts| && RowsFrom(t.rows, pushed)
    ensures RowsFrom(Pull(t, to, max, leaseSecs, now, receipts).rows, pushed)
    ensures forall d :: d in Deliveries(Selected(t.rows, to, max, now), receipts) ==> d.env in pushed
  {
    var sel := Selected(t.rows, to, max, now);
    var rows' := Pull(t, to, max, leaseSecs, now, receipts).rows;
    forall i | 0 <= i < |rows'| ensures rows'[i].env in pushed {
      LeaseAllSameIds(t.rows, sel, receipts, Deadline(now, leaseSecs), i);
      assert t.rows[i] in t.rows;
    }
    forall k | 0 <= k < |sel| ensures sel[k].env in pushed {
      SelectedMember(t.rows, to, max, now, sel[k]);
    }
  }

  lemma MailboxStepRowsFrom(t: Table, step: MailboxRuns.Step, pushed: set<Envelope>)
    requires Feasible(step) && RowsFrom(t.rows, pushed) && (step.PushStep? ==> step.env in pushed)
    ensures RowsFrom(Next(t, step).rows, pushed)
  {
    if step.LeaseStep? {
      PullRowsFrom(t, step.to, step.max, step.leaseSecs, step.now, step.receipts, pushed);
    } else {
      DeleteRowsFrom(t.rows, PurgeOf(step).value, pushed);
    }
  }

  /** Every accepted envelope, every one in flight and every one stored was pushed before. */
  lemma {:induction false} AcceptedWasPushed(ws: seq<World>, steps: seq<Step>, local: string, n: nat)
    requires Run(ws, steps, local) && n <= |steps|
    ensures AllPushed(ws[n], Pushed(steps, n))
  {
    hide Next, Pull, Deliveries, Accepts, Acks, Record;
    if 0 < n {
      AcceptedWasPushed(ws, steps, local, n - 1);
      var w, step, pushed := ws[n - 1], steps[n - 1], Pushed(steps, n);
      assert ws[n - 1 + 1] == Advance(w, local, step);
      assert RowsFrom(w.table.rows, pushed);
      match step
      case MailboxStep(s) => MailboxStepRowsFrom(w.table, s, pushed);
      case PullStep(max, leaseSecs, now, receipts) => PullRowsFrom(w.table, local, max, leaseSecs, now, receipts, pushed);
      case ProcessStep(o) => DeleteRowsFrom(w.table.rows, Acked(w.batch[0].receipt, local), pushed);
      case Crash =>
    }
  }
}
