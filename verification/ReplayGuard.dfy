/** The signer's replay guard and outgoing counters: tables `incoming_seen` and `out_seq`. */
module ReplayGuard {
  import opened Wrappers
  import opened MachineInts

  /** A row of `incoming_seen`; the table is kept in insertion order. */
  datatype Seen = Seen(escrow: string, from: string, seqNo: i64)

  /** SELECT MAX(seq) of one stream */
  function MaxSeen(rows: seq<Seen>, escrow: string, from: string): (m: Option<i64>)
    ensures m.Some? ==> Seen(escrow, from, m.value) in rows
    ensures forall q: i64 :: Seen(escrow, from, q) in rows ==> m.Some? && q <= m.value
  {
    if rows == [] then None
    else
      var rest := MaxSeen(rows[..|rows| - 1], escrow, from);
      var last := rows[|rows| - 1];
      if last.escrow == escrow && last.from == from && (rest.None? || rest.value < last.seqNo)
      then Some(last.seqNo) else rest
  }

  /** The guard lets a number through when it is above everything seen in its stream. */
  predicate Accepts(rows: seq<Seen>, escrow: string, from: string, seqNo: u64) {
    var m := MaxSeen(rows, escrow, from);
    m.None? || m.value < ClampToI64(seqNo)
  }

  function Record(rows: seq<Seen>, escrow: string, from: string, seqNo: u64): seq<Seen> {
    if Accepts(rows, escrow, from, seqNo) then rows + [Seen(escrow, from, ClampToI64(seqNo))] else rows
  }

  class SignerSequences {
    var incomingSeen: seq<Seen>
    var outSeq: map<(string, string), i64>

    constructor ()
      ensures incomingSeen == [] && outSeq == map[]
    {
      incomingSeen, outSeq := [], map[];
    }

    /** `record_incoming_seq_sync`: scan for the stream's maximum, refuse what is not above it, else insert. */
    method RecordIncomingSeq(escrow: string, from: string, seqNo: u64) returns (accepted: bool)
      modifies this`incomingSeen
      ensures accepted == Accepts(old(incomingSeen), escrow, from, seqNo)
      ensures incomingSeen == Record(old(incomingSeen), escrow, from, seqNo)
    {
      var seqI64 := ClampToI64(seqNo);
      var maxSeen: Option<i64> := None;
      for k := 0 to |incomingSeen|
        invariant maxSeen == MaxSeen(incomingSeen[..k], escrow, from)
      {
        var row := incomingSeen[k];
        assert incomingSeen[..k + 1][..k] == incomingSeen[..k];
        if row.escrow == escrow && row.from == from && (maxSeen.None? || maxSeen.value < row.seqNo) {
          maxSeen := Some(row.seqNo);
        }
      }
      assert incomingSeen[..|incomingSeen|] == incomingSeen;
      if maxSeen.Some? && seqI64 <= maxSeen.value {
        return false;
      }
      incomingSeen := incomingSeen + [Seen(escrow, from, seqI64)];
      return true;
    }

    /** `next_out_seq_sync`: numbers of a stream grow by one until they saturate. */
    method NextOutSeq(escrow: string, from: string) returns (next: u64)
      modifies this`outSeq
      ensures var current := if (escrow, from) in old(outSeq) then old(outSeq)[(escrow, from)] else 0;
              next == Max(SatAddI64(current, 1), 1) && (0 <= current < I64_MAX ==> next == current + 1)
      ensures outSeq == old(outSeq)[(escrow, from) := next]
    {
      var current := 0;
      if (escrow, from) in outSeq {
        current := outSeq[(escrow, from)];
      }
      next := Max(SatAddI64(current, 1), 1);
      outSeq := outSeq[(escrow, from) := next];
    }
  }

  // ---- what the table looks like after any sequence of calls ----

  ghost predicate SameStream(a: Seen, b: Seen) {
    a.escrow == b.escrow && a.from == b.from
  }

  /** Within a stream, accepted numbers appear in strictly increasing order. */
  ghost predicate StreamsIncrease(rows: seq<Seen>) {
    forall i, j :: 0 <= i < j < |rows| && SameStream(rows[i], rows[j]) ==> rows[i].seqNo < rows[j].seqNo
  }

  lemma RecordKeepsIncrease(rows: seq<Seen>, escrow: string, from: string, seqNo: u64)
    requires StreamsIncrease(rows)
    ensures StreamsIncrease(Record(rows, escrow, from, seqNo))
  {
    var m := MaxSeen(rows, escrow, from);
    forall i | 0 <= i < |rows| && rows[i].escrow == escrow && rows[i].from == from
      ensures m.Some? && rows[i].seqNo <= m.value
    {
      assert Seen(escrow, from, rows[i].seqNo) == rows[i];
    }
  }

  /** A number at or below one already recorded in its stream is refused. */
  lemma RecordedIsRefused(rows: seq<Seen>, r: Seen, seqNo: u64)
    requires r in rows && ClampToI64(seqNo) <= r.seqNo
    ensures !Accepts(rows, r.escrow, r.from, seqNo)
  {
  }

  /** The insert never violates the primary key: an accepted row is new. */
  lemma AcceptedIsNew(rows: seq<Seen>, escrow: string, from: string, seqNo: u64)
    requires Accepts(rows, escrow, from, seqNo)
    ensures Seen(escrow, from, ClampToI64(seqNo)) !in rows
  {
  }
}
