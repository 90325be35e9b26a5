/** The mailbox's `messages` table: push, prune, lease and ack.
    Each function is one SQLite transaction on the table as a value. */
module Mailbox {
  import opened Wrappers
  import opened MachineInts
  import opened Text

  /** A sealed envelope; `json` is its serialised form. */
  datatype Envelope = Envelope(to: string, from: string, escrow: string, msgType: string, seqNo: u64, json: string)

  /** The columns of the unique index. */
  datatype Key = Key(to: string, from: string, escrow: string, seqNo: i64)

  datatype Lease = Lease(receipt: string, until: i64)

  datatype Row = Row(id: nat, env: Envelope, receivedAt: i64, expiresAt: i64, lease: Option<Lease>)

  /** Rows in rowid order, and the AUTOINCREMENT counter. */
  datatype Table = Table(rows: seq<Row>, lastId: nat)

  datatype Limits = Limits(perInbox: u64, bytesPerInbox: u64, global: u64)

  datatype Rejection = InboxMessageLimit | InboxBytesLimit | GlobalRowsLimit

  datatype PushResult = Stored | Duplicate | Rejected(why: Rejection)

  /** A leased message; `id` is the row it came from. */
  datatype Delivery = Delivery(id: nat, receipt: string, env: Envelope)

  /** The two DELETE statements. */
  datatype Purge = Expired(now: i64) | Acked(receipt: string, to: string)

  const Empty: Table := Table([], 0)

  function KeyOf(env: Envelope): Key {
    Key(env.to, env.from, env.escrow, ClampToI64(env.seqNo))
  }

  /** An expiry or a lease end: so many seconds after `now`, at least a millisecond; a span beyond i64 counts as
      i64::MAX milliseconds, and the end is at most i64::MAX. */
  function Deadline(now: i64, secs: u64): (r: i64)
    ensures now <= r
    ensures 1 <= secs && 1000 * secs <= I64_MAX - Max(now, 0) ==> r == now + 1000 * secs
    ensures secs == 0 && now < I64_MAX ==> r == now + 1
    ensures I64_MAX - Max(now, 0) < 1000 * secs ==> r == Min(now, 0) + I64_MAX
  {
    SatAddI64(now, Max(ClampToI64(Min(secs * 1000, U64_MAX)), 1))
  }

  predicate Hits(p: Purge, r: Row) {
    match p
    case Expired(now) => r.expiresAt <= now
    case Acked(receipt, to) => r.lease.Some? && r.lease.value.receipt == receipt && r.env.to == to
  }

  /** DELETE FROM messages WHERE the row is hit. */
  function Delete(rows: seq<Row>, p: Purge): (kept: seq<Row>)
    ensures |kept| <= |rows|
  {
    if rows == [] then []
    else if Hits(p, rows[0]) then Delete(rows[1..], p)
    else [rows[0]] + Delete(rows[1..], p)
  }

  predicate HasKey(rows: seq<Row>, k: Key) {
    exists r :: r in rows && KeyOf(r.env) == k
  }

  function CountTo(rows: seq<Row>, to: string): nat {
    if rows == [] then 0 else (if rows[0].env.to == to then 1 else 0) + CountTo(rows[1..], to)
  }

  /** SUM(LENGTH(envelope_json)) over one inbox; SQLite counts characters. */
  function SizeTo(rows: seq<Row>, to: string): nat {
    if rows == [] then 0 else (if rows[0].env.to == to then |rows[0].env.json| else 0) + SizeTo(rows[1..], to)
  }

  /** `push_sync` */
  function Push(t: Table, env: Envelope, ttlSecs: u64, limits: Limits, now: i64): (Table, PushResult) {
    var live := Delete(t.rows, Expired(now));
    var kept := t.(rows := live);
    if HasKey(live, KeyOf(env)) then (kept, Duplicate)
    else if |live| >= limits.global then (kept, Rejected(GlobalRowsLimit))
    else if CountTo(live, env.to) >= limits.perInbox then (kept, Rejected(InboxMessageLimit))
    else if SatAddU64(SizeTo(live, env.to), Utf8Len(env.json)) > limits.bytesPerInbox then
      (kept, Rejected(InboxBytesLimit))
    else
      (Table(live + [Row(t.lastId + 1, env, now, Deadline(now, ttlSecs), None)], t.lastId + 1), Stored)
  }

  predicate Leasable(r: Row, to: string, now: i64) {
    r.env.to == to && r.expiresAt > now && (r.lease.None? || r.lease.value.until < now)
  }

  /** SELECT ... ORDER BY id LIMIT max */
  function Selected(rows: seq<Row>, to: string, max: nat, now: i64): (sel: seq<Row>)
    ensures |sel| <= max
  {
    if rows == [] || max == 0 then []
    else if Leasable(rows[0], to, now) then [rows[0]] + Selected(rows[1..], to, max - 1, now)
    else Selected(rows[1..], to, max, now)
  }

  /** UPDATE messages SET lease WHERE id */
  function SetLease(rows: seq<Row>, id: nat, lease: Lease): (r: seq<Row>)
    ensures |r| == |rows|
  {
    if rows == [] then []
    else [if rows[0].id == id then rows[0].(lease := Some(lease)) else rows[0]] + SetLease(rows[1..], id, lease)
  }

  /** The leasing loop: the k-th selected row gets the k-th receipt. */
  function LeaseAll(rows: seq<Row>, sel: seq<Row>, receipts: seq<string>, until: i64): (r: seq<Row>)
    requires |sel| <= |receipts|
    ensures |r| == |rows|
    decreases |sel|
  {
    if sel == [] then rows
    else LeaseAll(SetLease(rows, sel[0].id, Lease(receipts[0], until)), sel[1..], receipts[1..], until)
  }

  /** The transaction of `pull_sync`: the table afterwards. */
  function Pull(t: Table, to: string, max: nat, leaseSecs: u64, now: i64, receipts: seq<string>): Table
    requires max <= |receipts|
  {
    t.(rows := LeaseAll(t.rows, Selected(t.rows, to, max, now), receipts, Deadline(now, leaseSecs)))
  }

  function Find(rows: seq<Row>, id: nat): (r: Option<Row>)
    ensures r.Some? ==> r.value in rows && r.value.id == id
    ensures r.None? ==> forall x :: x in rows ==> x.id != id
  {
    if rows == [] then None else if rows[0].id == id then Some(rows[0]) else Find(rows[1..], id)
  }

  /** The receipt the leasing loop hands out for row `id`, if it was selected. */
  function ReceiptFor(sel: seq<Row>, receipts: seq<string>, id: nat): (r: Option<string>)
    requires |sel| <= |receipts|
  {
    if sel == [] then None
    else if sel[0].id == id then Some(receipts[0])
    else ReceiptFor(sel[1..], receipts[1..], id)
  }

  // ---- well-formed tables ----

  ghost predicate Sorted(rows: seq<Row>) {
    forall i, j :: 0 <= i < j < |rows| ==> rows[i].id < rows[j].id
  }

  ghost predicate Valid(t: Table) {
    Sorted(t.rows) && forall r :: r in t.rows ==> 1 <= r.id <= t.lastId
  }

  // ---- DELETE ----

  lemma DeleteMember(rows: seq<Row>, p: Purge, r: Row)
    ensures r in Delete(rows, p) <==> r in rows && !Hits(p, r)
  {
    if rows != [] {
      DeleteMember(rows[1..], p, r);
      assert r in rows <==> r == rows[0] || r in rows[1..];
    }
  }

  lemma DeleteSorted(rows: seq<Row>, p: Purge)
    requires Sorted(rows)
    ensures Sorted(Delete(rows, p))
  {
    if rows != [] {
      DeleteSorted(rows[1..], p);
      var rest := Delete(rows[1..], p);
      forall j | 0 <= j < |rest| ensures rows[0].id < rest[j].id {
        DeleteMember(rows[1..], p, rest[j]);
      }
    }
  }

  lemma FindDelete(rows: seq<Row>, p: Purge, id: nat)
    requires Sorted(rows)
    ensures Find(Delete(rows, p), id)
         == if Find(rows, id).Some? && !Hits(p, Find(rows, id).value) then Find(rows, id) else None
  {
    if rows != [] {
      FindDelete(rows[1..], p, id);
      if rows[0].id == id {
        assert Find(rows[1..], id).None?;
      }
    }
  }

  // ---- INSERT ----

  lemma FindAppend(rows: seq<Row>, r: Row, id: nat)
    ensures Find(rows + [r], id)
         == if Find(rows, id).Some? then Find(rows, id) else if r.id == id then Some(r) else None
  {
    if rows == [] {
      assert rows + [r] == [r];
    } else {
      assert (rows + [r])[1..] == rows[1..] + [r];
      FindAppend(rows[1..], r, id);
    }
  }

  // ---- lease ----

  lemma FindSetLease(rows: seq<Row>, id: nat, l: Lease, x: nat)
    ensures Find(SetLease(rows, id, l), x)
         == if x == id && Find(rows, x).Some? then Some(Find(rows, x).value.(lease := Some(l))) else Find(rows, x)
  {
  }

  lemma SetLeaseSameIds(rows: seq<Row>, id: nat, l: Lease, i: nat)
    requires i < |rows|
    ensures SetLease(rows, id, l)[i] == if rows[i].id == id then rows[i].(lease := Some(l)) else rows[i]
  {
    if i > 0 {
      SetLeaseSameIds(rows[1..], id, l, i - 1);
    }
  }

  lemma NotSelectedNoReceipt(sel: seq<Row>, receipts: seq<string>, id: nat)
    requires |sel| <= |receipts|
    requires forall k :: 0 <= k < |sel| ==> sel[k].id != id
    ensures ReceiptFor(sel, receipts, id).None?
  {
  }

  lemma {:induction false} FindLeaseAll(rows: seq<Row>, sel: seq<Row>, receipts: seq<string>, until: i64, id: nat)
    requires |sel| <= |receipts| && Sorted(sel)
    ensures Find(LeaseAll(rows, sel, receipts, until), id)
         == if ReceiptFor(sel, receipts, id).Some? && Find(rows, id).Some?
            then Some(Find(rows, id).value.(lease := Some(Lease(ReceiptFor(sel, receipts, id).value, until))))
            else Find(rows, id)
    decreases |sel|
  {
    if sel != [] {
      var l := Lease(receipts[0], until);
      FindSetLease(rows, sel[0].id, l, id);
      FindLeaseAll(SetLease(rows, sel[0].id, l), sel[1..], receipts[1..], until, id);
      if sel[0].id == id {
        NotSelectedNoReceipt(sel[1..], receipts[1..], id);
      }
    }
  }

  lemma SelectedMember(rows: seq<Row>, to: string, max: nat, now: i64, r: Row)
    requires r in Selected(rows, to, max, now)
    ensures r in rows && Leasable(r, to, now)
  {
  }

  lemma {:induction false} SelectedSorted(rows: seq<Row>, to: string, max: nat, now: i64)
    requires Sorted(rows)
    ensures Sorted(Selected(rows, to, max, now))
  {
    if rows != [] && max != 0 {
      var m := if Leasable(rows[0], to, now) then max - 1 else max;
      SelectedSorted(rows[1..], to, m, now);
      var rest := Selected(rows[1..], to, m, now);
      forall j | 0 <= j < |rest| ensures rows[0].id < rest[j].id {
        SelectedMember(rows[1..], to, m, now, rest[j]);
      }
    }
  }

  lemma FindMember(rows: seq<Row>, r: Row)
    requires Sorted(rows) && r in rows
    ensures Find(rows, r.id) == Some(r)
  {
  }

  /** A receipt handed out belongs to a selected row and is one of the first receipts. */
  lemma ReceiptOfSelected(sel: seq<Row>, receipts: seq<string>, id: nat) returns (k: nat)
    requires |sel| <= |receipts| && ReceiptFor(sel, receipts, id).Some?
    ensures k < |sel| && sel[k].id == id && ReceiptFor(sel, receipts, id) == Some(receipts[k])
  {
    if sel[0].id == id {
      k := 0;
    } else {
      var k' := ReceiptOfSelected(sel[1..], receipts[1..], id);
      k := k' + 1;
    }
  }

  lemma LeaseAllSameIds(rows: seq<Row>, sel: seq<Row>, receipts: seq<string>, until: i64, i: nat)
    requires |sel| <= |receipts| && i < |rows|
    ensures var r := LeaseAll(rows, sel, receipts, until)[i];
            r.id == rows[i].id && r.env == rows[i].env && r.expiresAt == rows[i].expiresAt
    decreases |sel|
  {
    if sel != [] {
      var l := Lease(receipts[0], until);
      SetLeaseSameIds(rows, sel[0].id, l, i);
      LeaseAllSameIds(SetLease(rows, sel[0].id, l), sel[1..], receipts[1..], until, i);
    }
  }
}
