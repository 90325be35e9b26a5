/** The strings that are hashed into idempotency keys and request ids, and what they determine. */
module Keys {
  import opened Workflow

  // ---- decimal numbers ----

  function DecimalDigit(d: nat): (c: char)
    requires d < 10
    ensures '0' <= c <= '9' && c as int == '0' as int + d
  {
    ('0' as int + d) as char
  }

  function Decimal(n: nat): (s: string)
    ensures s != [] && (|s| == 1 <==> n < 10)
    ensures forall i :: 0 <= i < |s| ==> '0' <= s[i] <= '9'
  {
    if n < 10 then [DecimalDigit(n)] else Decimal(n / 10) + [DecimalDigit(n % 10)]
  }

  lemma {:induction false} DecimalInjective(a: nat, b: nat)
    requires Decimal(a) == Decimal(b)
    ensures a == b
  {
    var s, t := Decimal(a), Decimal(b);
    assert s[|s| - 1] == t[|t| - 1];
    if 10 <= a {
      assert s[..|s| - 1] == Decimal(a / 10) && t[..|t| - 1] == Decimal(b / 10);
      DecimalInjective(a / 10, b / 10);
    }
  }

  // ---- separators ----

  /** Fields in front of the first separator are determined. */
  lemma {:induction false} SplitFirst(a: string, x: string, b: string, y: string, sep: char)
    requires sep !in a && sep !in b && a + [sep] + x == b + [sep] + y
    ensures a == b && x == y
  {
    var s, t := a + [sep] + x, b + [sep] + y;
    assert s[|a|] == sep && t[|b|] == sep;
    assert s[..|a|] == a && t[..|b|] == b;
    assert s[|a| + 1..] == x && t[|b| + 1..] == y;
  }

  /** Fields behind the last separator are determined. */
  lemma {:induction false} SplitLast(x: string, a: string, y: string, b: string, sep: char)
    requires sep !in a && sep !in b && x + [sep] + a == y + [sep] + b
    ensures x == y && a == b
  {
    var s, t := x + [sep] + a, y + [sep] + b;
    assert s[|x|] == sep && t[|y|] == sep;
    assert s[..|x|] == x && t[..|y|] == y;
    assert s[|x| + 1..] == a && t[|y| + 1..] == b;
  }

  lemma NameHasNo(s: WorkflowState, sep: char)
    requires !IsNameChar(sep)
    ensures sep !in AsStr(s)
  {
    hide AsStr, IsNameChar;
    forall i | 0 <= i < |AsStr(s)| ensures AsStr(s)[i] != sep {
      NamesPlain(s, i);
    }
  }

  // ---- step keys ----

  /** escrow ":" state ":" from ":" seq */
  function StepMaterial(escrow: string, state: WorkflowState, from: string, seqNo: nat): string {
    escrow + [':'] + (AsStr(state) + [':'] + (from + [':'] + Decimal(seqNo)))
  }

  /** A step key's material determines its four fields, even when the sender's name contains colons. */
  lemma StepMaterialInjective(
    e1: string, s1: WorkflowState, f1: string, q1: nat, e2: string, s2: WorkflowState, f2: string, q2: nat)
    requires ':' !in e1 && ':' !in e2
    requires StepMaterial(e1, s1, f1, q1) == StepMaterial(e2, s2, f2, q2)
    ensures e1 == e2 && s1 == s2 && f1 == f2 && q1 == q2
  {
    hide AsStr, Decimal;
    var r1, r2 := f1 + [':'] + Decimal(q1), f2 + [':'] + Decimal(q2);
    SplitFirst(e1, AsStr(s1) + [':'] + r1, e2, AsStr(s2) + [':'] + r2, ':');
    NameHasNo(s1, ':');
    NameHasNo(s2, ':');
    SplitFirst(AsStr(s1), r1, AsStr(s2), r2, ':');
    NamesInjective(s1, s2);
    SplitLast(f1, Decimal(q1), f2, Decimal(q2), ':');
    DecimalInjective(q1, q2);
  }

  // ---- outbox keys ----

  /** escrow ":" state ":" to ":" msg_type ":" payload_hash */
  function OutboxMaterial(escrow: string, state: WorkflowState, to: string, msgType: string, payloadHash: string): string {
    escrow + [':'] + (AsStr(state) + [':'] + (Addressed(to, msgType) + [':'] + payloadHash))
  }

  function Addressed(to: string, msgType: string): string {
    to + [':'] + msgType
  }

  /** Two outbox keys share their material exactly when escrow, state and payload agree and
      "to:msg_type" reads the same. */
  lemma OutboxMaterialCollides(
    e1: string, s1: WorkflowState, t1: string, m1: string, h1: string,
    e2: string, s2: WorkflowState, t2: string, m2: string, h2: string)
    requires ':' !in e1 && ':' !in e2 && ':' !in h1 && ':' !in h2
    ensures OutboxMaterial(e1, s1, t1, m1, h1) == OutboxMaterial(e2, s2, t2, m2, h2)
       <==> e1 == e2 && s1 == s2 && h1 == h2 && Addressed(t1, m1) == Addressed(t2, m2)
  {
    hide AsStr, Addressed;
    if OutboxMaterial(e1, s1, t1, m1, h1) == OutboxMaterial(e2, s2, t2, m2, h2) {
      var r1, r2 := Addressed(t1, m1) + [':'] + h1, Addressed(t2, m2) + [':'] + h2;
      SplitFirst(e1, AsStr(s1) + [':'] + r1, e2, AsStr(s2) + [':'] + r2, ':');
      NameHasNo(s1, ':');
      NameHasNo(s2, ':');
      SplitFirst(AsStr(s1), r1, AsStr(s2), r2, ':');
      NamesInjective(s1, s2);
      SplitLast(Addressed(t1, m1), h1, Addressed(t2, m2), h2, ':');
    }
  }

  /** When neither recipient's name, or neither message type, contains a colon, that is all five fields. */
  lemma AddressedInjective(t1: string, m1: string, t2: string, m2: string)
    requires (':' !in t1 && ':' !in t2) || (':' !in m1 && ':' !in m2)
    requires Addressed(t1, m1) == Addressed(t2, m2)
    ensures t1 == t2 && m1 == m2
  {
    if ':' !in t1 && ':' !in t2 {
      SplitFirst(t1, m1, t2, m2, ':');
    } else {
      SplitLast(t1, m1, t2, m2, ':');
    }
  }

  /** Two readings of one text with the same type have the same recipient. */
  lemma SameTypeSameRecipient(t1: string, t2: string, m: string)
    requires Addressed(t1, m) == Addressed(t2, m)
    ensures t1 == t2
  {
    assert Addressed(t1, m)[..|t1|] == t1 && Addressed(t2, m)[..|t2|] == t2;
  }

  // ---- request ids ----

  /** escrow "|" op "|" round "|" txset_hash */
  function RequestMaterial(escrow: string, op: string, round: string, txset: string): string {
    escrow + ['|'] + (op + ['|'] + (round + ['|'] + txset))
  }

  /** A request id's material determines its four fields. */
  lemma RequestMaterialInjective(
    e1: string, o1: string, r1: string, t1: string, e2: string, o2: string, r2: string, t2: string)
    requires '|' !in e1 && '|' !in e2 && '|' !in o1 && '|' !in o2 && '|' !in r1 && '|' !in r2
    requires RequestMaterial(e1, o1, r1, t1) == RequestMaterial(e2, o2, r2, t2)
    ensures e1 == e2 && o1 == o2 && r1 == r2 && t1 == t2
  {
    SplitFirst(e1, o1 + ['|'] + (r1 + ['|'] + t1), e2, o2 + ['|'] + (r2 + ['|'] + t2), '|');
    SplitFirst(o1, r1 + ['|'] + t1, o2, r2 + ['|'] + t2, '|');
    SplitFirst(r1, t1, r2, t2, '|');
  }
}
