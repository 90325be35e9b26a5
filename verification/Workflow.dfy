/** The escrow workflow's states, their names and the transitions between them. */
module Workflow {
  import opened Wrappers
  import opened Text

  datatype WorkflowState =
    | New | PrepareCollected | MakeCollected | ExchangeR1Collected | ExchangeR2Collected | FinalizedReady
    | Funded | TxSignPending | TxSignedQuorum | Submitted | Confirmed | FailedDeadLetter

  function AsStr(s: WorkflowState): string {
    match s
    case New => "new"
    case PrepareCollected => "prepare_collected"
    case MakeCollected => "make_collected"
    case ExchangeR1Collected => "exchange_r1_collected"
    case ExchangeR2Collected => "exchange_r2_collected"
    case FinalizedReady => "finalized_ready"
    case Funded => "funded"
    case TxSignPending => "tx_sign_pending"
    case TxSignedQuorum => "tx_signed_quorum"
    case Submitted => "submitted"
    case Confirmed => "confirmed"
    case FailedDeadLetter => "failed_dead_letter"
  }

  predicate CanTransition(from: WorkflowState, to: WorkflowState) {
    match (from, to)
    case (New, PrepareCollected) => true
    case (PrepareCollected, MakeCollected) => true
    case (MakeCollected, ExchangeR1Collected) => true
    case (ExchangeR1Collected, ExchangeR2Collected) => true
    case (ExchangeR2Collected, FinalizedReady) => true
    case (FinalizedReady, Funded) => true
    case (Funded, TxSignPending) => true
    case (TxSignPending, TxSignedQuorum) => true
    case (TxSignedQuorum, Submitted) => true
    case (Submitted, Confirmed) => true
    case (Confirmed, FailedDeadLetter) => false
    case (FailedDeadLetter, _) => false
    case (_, FailedDeadLetter) => true
    case _ => false
  }

  function ExpectedMsgType(s: WorkflowState): Option<string> {
    match s
    case PrepareCollected => Some("prepare_info")
    case MakeCollected => Some("make_info")
    case ExchangeR1Collected => Some("exchange_round1")
    case ExchangeR2Collected => Some("exchange_round2")
    case Funded => Some("escrow_funded")
    case TxSignPending => Some("tx_sign_req")
    case TxSignedQuorum => Some("tx_sign_resp")
    case _ => None
  }

  /** Position on the path from New to Confirmed; a failed workflow is past all of it. */
  function Rank(s: WorkflowState): (r: nat)
    ensures r <= 11
  {
    match s
    case New => 0
    case PrepareCollected => 1
    case MakeCollected => 2
    case ExchangeR1Collected => 3
    case ExchangeR2Collected => 4
    case FinalizedReady => 5
    case Funded => 6
    case TxSignPending => 7
    case TxSignedQuorum => 8
    case Submitted => 9
    case Confirmed => 10
    case FailedDeadLetter => 11
  }

  /** A workflow moves one rank up, or fails from any state but Confirmed. */
  lemma TransitionIffNextRank(from: WorkflowState, to: WorkflowState)
    ensures CanTransition(from, to)
       <==> || (to != FailedDeadLetter && Rank(to) == Rank(from) + 1)
            || (to == FailedDeadLetter && Rank(from) < Rank(Confirmed))
  {
  }

  // ---- names ----

  lemma NamesInjective(a: WorkflowState, b: WorkflowState)
    requires AsStr(a) == AsStr(b)
    ensures a == b
  {
    assert |AsStr(a)| == |AsStr(b)|;
    if |AsStr(a)| == 21 {
      assert AsStr(a)[10] == AsStr(b)[10];
    } else {
      assert AsStr(a)[0] == AsStr(b)[0];
    }
  }

  predicate IsNameChar(c: char) {
    'a' <= c <= 'z' || c == '_' || c == '1' || c == '2'
  }

  lemma NamesPlain(s: WorkflowState, i: nat)
    requires i < |AsStr(s)|
    ensures IsNameChar(AsStr(s)[i])
  {
    hide AsStr, IsNameChar;
    if Rank(s) <= 5 {
      EarlyNamesPlain(s, i);
    } else {
      LateNamesPlain(s, i);
    }
  }

  lemma EarlyNamesPlain(s: WorkflowState, i: nat)
    requires i < |AsStr(s)| && Rank(s) <= 5
    ensures IsNameChar(AsStr(s)[i])
  {
    match s
    case New =>
    case PrepareCollected =>
    case MakeCollected =>
    case ExchangeR1Collected =>
    case ExchangeR2Collected =>
    case FinalizedReady =>
  }

  lemma LateNamesPlain(s: WorkflowState, i: nat)
    requires i < |AsStr(s)| && 6 <= Rank(s)
    ensures IsNameChar(AsStr(s)[i])
  {
    match s
    case Funded =>
    case TxSignPending =>
    case TxSignedQuorum =>
    case Submitted =>
    case Confirmed =>
    case FailedDeadLetter =>
  }

  /** `from_str`: trimmed, case-folded, compared with the names in turn. */
  function Parse(text: string): (r: Option<WorkflowState>)
    ensures r.Some? ==> Lower(Trim(text)) == AsStr(r.value)
  {
    var t := Lower(Trim(text));
    if t == AsStr(New) then Some(New)
    else if t == AsStr(PrepareCollected) then Some(PrepareCollected)
    else if t == AsStr(MakeCollected) then Some(MakeCollected)
    else if t == AsStr(ExchangeR1Collected) then Some(ExchangeR1Collected)
    else if t == AsStr(ExchangeR2Collected) then Some(ExchangeR2Collected)
    else if t == AsStr(FinalizedReady) then Some(FinalizedReady)
    else if t == AsStr(Funded) then Some(Funded)
    else if t == AsStr(TxSignPending) then Some(TxSignPending)
    else if t == AsStr(TxSignedQuorum) then Some(TxSignedQuorum)
    else if t == AsStr(Submitted) then Some(Submitted)
    else if t == AsStr(Confirmed) then Some(Confirmed)
    else if t == AsStr(FailedDeadLetter) then Some(FailedDeadLetter)
    else None
  }

  lemma NamesParse(text: string, s: WorkflowState)
    requires Lower(Trim(text)) == AsStr(s)
    ensures Parse(text).Some?
  {
    hide AsStr;
  }

  /** A stored state name reads back as the state, and only names that differ in case or padding read as it. */
  lemma ParseIffName(text: string, s: WorkflowState)
    ensures Parse(text) == Some(s) <==> Lower(Trim(text)) == AsStr(s)
    ensures Parse(AsStr(s)) == Some(s)
  {
    hide Parse, AsStr;
    var name := AsStr(s);
    forall i | 0 <= i < |name| ensures IsNameChar(name[i]) {
      NamesPlain(s, i);
    }
    NameNotEmpty(s);
    assert Trim(name) == name && Lower(name) == name;
    NamesParse(name, s);
    NamesInjective(s, Parse(name).value);
    if Lower(Trim(text)) == name {
      NamesParse(text, s);
      NamesInjective(s, Parse(text).value);
    }
  }

  lemma NameNotEmpty(s: WorkflowState)
    ensures AsStr(s) != []
  {
  }
}
