# NXMS protocol: a verified model

NXMS moves sealed messages between the parties of an escrow and decides who may sign and submit its transaction.
A mailbox stores envelopes and leases them out; an orchestrator walks each escrow through its workflow, keeps an
idempotent step log, an outbox and the quorum proofs, and issues action tokens; signers pull their mail, guard
against replays, keep request ledgers and verify tokens. This project models those state machines, the two rate
limiters in front of them and the codecs underneath, and proves properties of every run and every input.

How the model is built:

- Each SQLite transaction is one step on the tables as a value. A run is a sequence of states and a sequence of
  steps; the theorems quantify over all runs. Clocks, receipts and random bytes are step parameters, so interleavings
  of any number of clients are covered. A non-decreasing clock is assumed only where a statement says `SteadyClock`.
- The prune at the start of a pull runs outside the pull's transaction, so it is a step of its own. The six reads of
  the token issuer are six positions of the orchestrator's run, with any steps in between.
- Code that updates tables, counters or records in place is a class or a method with loops
  (`SqliteMailboxDb`, `FixedWindowLimiter`, `VerifyRateLimiter`, `OrchestratorDb`, `SignerSequences`,
  `SignerRequests`, `SignerSnapshots`, `SeqState`, `Hasher`, `ActionTokenVerifier`, the Base58 loops, the signer's
  batch loop). The table classes carry, as ghost state, the run that led to their tables; every method extends it, so
  the run theorems speak about the objects, and method contracts use them.
- Hash functions are parameters. Where a statement needs it, the hash is assumed injective (`Injective`); other
  statements are about the hashed strings themselves.
- u64, u32 and i64 saturation and clamping are written out.

## Main results

- **Mailbox.** Every row number ever given out is stored or was removed exactly once, by expiry or by an ack from its
  inbox with its latest receipt (`Conservation`). Leases never overlap (`LeaseExclusivity`). An ack removes its row and
  no other, if and only if the receipt is the row's latest and the inbox is right (`AckRemovesExactly`). A leasable row
  with k live, selectable rows ahead is served by ceil((k + 1) / max) pulls in one lease window
  (`DeliveredWithinPulls`). A row nobody acks is stored exactly for its ttl in seconds (`LivesItsTtl`). The quotas and the unique key hold in every reachable table (`QuotasHold`).
- **End to end.** Under re-pushes, lease expiry, redelivery, crashes and lost acks, the numbers a signer accepts per
  escrow and sender strictly increase (`AcceptedAtMostOnce`), and a message is refused if and only if its stream has
  already accepted a number at or above its own (`RefusedIffOvertaken`). The loop removes a message if and only if its ack
  arrives and the loop wanted it or the message was overtaken (`ProcessRemovesIff`); any other stays until it expires and is
  delivered again (`StaysUntilAckedOrExpired`, `UnackedIsDeliveredAgain`).
- **Rate limiters.** Pruning never changes a verdict (`PruningInvisible`, `DroppingInvisible`); at most 2 * limit - 1
  calls pass in any 60 seconds (`SlidingBound`), and every limit has a run that attains it (`SlidingBoundAttained`). A
  token digest's calls are let through if and only if they are among the first of their window (`AllowedIffAmongFirst`).
- **Orchestrator.** The step log is write-once and its answers are a function of history (`StepAnswer`); workflows pass
  their states once and in order, up to failure (`HistoryInOrder`, `FailedAfterPassing`); an outbox
  message that cannot be mistaken for another is a repeat if and only if it is stored already (`RepeatIsExact`); outbox rows end, and each buried row has exactly one record
  filed by its retry (`RetriesBounded`, `OneLetterPerBuriedRow`). Every call is refused if and only if there is a reason
  against it, and names one (`RefusedForAReason`).
- **Tokens.** A submit token rests on stored proofs of both signers for exactly its escrow and transaction set
  (`SubmitClaimsAreBacked`). A signer accepts an issued token if and only if its limiter has room, the signature
  verifies, and issuer and signer agree (`IssuedIsAcceptedIff`). An accepted submit token's proofs are the request ids
  of the arbiter's and the seller's signatures and of no other (`SubmitPinsSignatures`). Whatever the claims, they pass if
  and only if nothing is wrong with them, and a refusal names something that is (`ObstacleIsFlaw`). Tokens drawn with
  different random bytes are all consumed by the single-use ledger (`FreshTokensAreAllConsumed`). Conversely, whatever an
  operator and a signer agree on, some run ends in a token the signer accepts (`TokenCanBeAccepted`), so none of these
  statements is about an empty set of runs.
- **Codecs.** Base58 decoding and encoding are inverse bijections (`DecodeIffEncoding`), accepted addresses are exactly
  the addresses (`AcceptedIffAddress`); preimages determine their parts (`MaterialInjective`) and hold each
  field at its own place (`SnapshotLayout`, `ProposalLayout`); the `xmr:` printer and
  parser are inverse (`DecodeEncode`, `EncodeDecode`).

Where the code falls short of what one might expect, the exact condition is proved:

- The per-inbox byte quota compares a sum of SQLite LENGTH, which counts characters. It bounds bytes in every run whose
  pushes to the inbox are ASCII (`AsciiQuotaHolds`). Any other envelope, with any second one of the inbox, overruns some
  quota (`ByteQuotaOverrun`).
- An outbox key joins recipient and type with a colon. For a message not yet stored, its next repeat is sure to be itself
  if and only if the state fixes the type or no other participant can be read as the recipient (`NextRepeatIsExactIff`);
  `LostMessage` is a run in which a different message is dropped as a repeat.
- Sequence numbers are clamped to 2^63 - 1. A push is answered as a duplicate if and only if a live row of its stream has
  the same number or both numbers are clamped (`DuplicateIff`). So below the clamp a duplicate is that very envelope
  (`DuplicateIsRepeat`), and at or above it one stored message shuts out every other (`ClampedNumbersClash`).
- The issuer admits subjects up to 256 bytes and the signer only up to 128: every longer one gets a token nobody accepts
  (`LongSubjectIsRefused`). A trust epoch with blanks around it is never accepted by a signer with that same epoch, which
  trims the claim (`PaddedEpochIsRefused`).
- The token library accepts a token at its expiry time itself and up to the skew later (`AcceptedAtExpiry`,
  `ExpiryIsInclusive`); section 4.1.4 of RFC 7519 rules out the expiry instant. The model follows the code.

The 32-bit length prefix of `domain_hash` limits part lists of arbitrary shape (`MaterialInjective`, `LongPartCollides`).
Its two callers pass parts of fixed shape, so snapshot and proposal preimages need no bound.

## Model

| member | source | states |
|---|---|---|
| MailboxDb.SqliteMailboxDb.PushSync | crates/nxms-mailbox/src/db.rs:209-322 | live rows stay and expired ones go; a duplicate iff a live row has the key; a rejection names the first used-up quota; else stored under the next number until ttl seconds later; quotas and unique keys are kept |
| MailboxDb.SqliteMailboxDb.CleanupExpiredSync | crates/nxms-mailbox/src/db.rs:401-414 | a row stays iff it is not expired at `now`, and the object stays the end of a run |
| MailboxDb.SqliteMailboxDb.CollectLeasable | crates/nxms-mailbox/src/db.rs:347-371 | the cursor collects the first `max` leasable rows in row order |
| MailboxDb.SqliteMailboxDb.LeaseBatch | crates/nxms-mailbox/src/db.rs:341-388 | hands out live rows of the inbox under no running lease, the first `max` in row order; each is leased, under the receipt it is handed out with, for the given seconds; no other row changes |
| MailboxDb.SqliteMailboxDb.PullSync | crates/nxms-mailbox/src/db.rs:324-388 | the prune, then the hand-out of the first `max` rows that may be taken, each leased for the given seconds under its receipt |
| MailboxDb.PullHandsOut | crates/nxms-mailbox/src/db.rs:341-388 | what a pull hands out and changes, stated row by row; a row passed over waited behind `max` others |
| MailboxDb.SqliteMailboxDb.AckSync | crates/nxms-mailbox/src/db.rs:390-399 | deletes the rows with this receipt and inbox; true iff there was one |
| MailboxDb.DeleteShrinks | crates/nxms-mailbox/src/db.rs:392-398 | the affected-row count is positive iff some row matched |
| MailboxDb.Survivors | crates/nxms-mailbox/src/db.rs:230-234 | a prune keeps exactly the rows whose expiry is after `now` |
| MailboxRuns.StepOnRow | crates/nxms-mailbox/src/db.rs:209-414 | a step changes a stored row only by deleting it for the step's reason or by leasing it |
| MailboxRuns.StepBirth | crates/nxms-mailbox/src/db.rs:287-321 | a new row number appears only by a push, unleased and with the pushed envelope |
| MailboxRuns.StretchValid | crates/nxms-mailbox/src/db.rs:174-193 | row numbers stay sorted, positive and below the counter in every run |
| MailboxRuns.NeverReturns | crates/nxms-mailbox/src/db.rs:177-177 | a row number is never reused |
| MailboxRuns.RowKeepsContent | crates/nxms-mailbox/src/db.rs:376-381 | while a row is stored only its lease changes |
| MailboxRuns.LeaseIsLatestDelivery | crates/nxms-mailbox/src/db.rs:373-383 | the lease on a row is that of its latest delivery |
| MailboxRuns.StaysWhileLive | crates/nxms-mailbox/src/db.rs:230-234 | a row nobody acks is stored iff no push or prune ran at or after its expiry |
| MailboxRuns.LivesItsTtl | crates/nxms-mailbox/src/db.rs:217-219 | a row pushed at t with ttl s that nobody acks is stored iff every pruning clock is below t + 1000 * s, or below the last clock value if that is past it; with a zero ttl it is one millisecond |
| MailboxRuns.RemovalHasReason | crates/nxms-mailbox/src/db.rs:230-234 | a row disappears only by expiry at `now` >= its deadline or by an ack with its receipt from its inbox |
| MailboxRuns.Conservation | crates/nxms-mailbox/src/db.rs:209-414 | each row number was born by exactly one push and is stored or was removed once, for an admissible reason, for good |
| MailboxRuns.LeaseEndGrows | crates/nxms-mailbox/src/db.rs:356-356 | the lease end of a stored row never moves back |
| MailboxRuns.LeaseExclusivity | crates/nxms-mailbox/src/db.rs:332-388 | for any clock, a row is delivered again only strictly after the earlier lease ended, 1000 * lease_secs milliseconds later, and to the same inbox |
| MailboxRuns.ReceiptNamesDelivery | crates/nxms-mailbox/src/db.rs:376-382 | with fresh receipts a receipt names one delivery of one row |
| MailboxRuns.AckRemovesExactly | crates/nxms-mailbox/src/db.rs:390-399 | an ack removes exactly the row its receipt was given for, iff stored, right inbox and not delivered again since |
| MailboxDelivery.StepUsesUpAhead | crates/nxms-mailbox/src/db.rs:351-359 | a pull that passes a leasable row over uses up as many selectable rows ahead of it as it hands out |
| MailboxDelivery.CrowdedOut | crates/nxms-mailbox/src/db.rs:351-359 | a leasable row is passed over only if `max` leasable rows with smaller ids were ahead |
| MailboxDelivery.BoundedDelivery | crates/nxms-mailbox/src/db.rs:324-388 | once the pulls in one lease window can hand out more rows than were live and selectable ahead, the row was delivered, removed or expired |
| MailboxDelivery.DeliveredWithinPulls | crates/nxms-mailbox/src/db.rs:324-388 | ceil((k + 1) / max) pulls in one lease window suffice for a row with k live rows ahead that a pull in the window could select |
| MailboxQuotas.QuotasHold | crates/nxms-mailbox/src/db.rs:229-285 | in every reachable table the global, per-inbox row and per-inbox size quotas and key uniqueness hold |
| MailboxQuotas.AppendTotals | crates/nxms-mailbox/src/db.rs:252-285 | one more row adds one to its inbox's count and its length to the inbox's size, and nothing to other inboxes |
| MailboxQuotas.SizeIsBytesIffAscii | crates/nxms-mailbox/src/db.rs:263-285 | the size the quota sees is the byte size iff the inbox is ASCII |
| MailboxQuotas.AsciiQuotaHolds | crates/nxms-mailbox/src/db.rs:263-285 | if every push to an inbox is ASCII, the inbox never holds more bytes than the quota, in any run |
| MailboxQuotas.TwoPushes | crates/nxms-mailbox/src/db.rs:209-322 | when a second push fits beside the first by the size the quota sees, both are stored |
| MailboxQuotas.ByteQuotaOverrun | crates/nxms-mailbox/src/db.rs:263-285 | for any non-ASCII envelope and any second, non-empty one of the inbox whose sizes fit u64, some quota and run leave more bytes than the quota |
| Utf8.EncodeInjective | crates/nxms-mailbox/src/db.rs:221-222 | the byte form of section 3 of RFC 3629 determines the text |
| Utf8.LengthIsBytes | crates/nxms-mailbox/src/db.rs:221-222 | the length the program compares with its limits is the number of UTF-8 bytes |
| Peers.SeqState.NextOutSeq | crates/nxms-peer/src/lib.rs:431-443 | stores and returns the successor, saturating, at least 1; other escrows keep their counters |
| Peers.CounterCoversSent | crates/nxms-peer/src/lib.rs:431-443 | a counter is at least every number it gave out |
| Peers.SeqNosIncrease | crates/nxms-peer/src/lib.rs:428-443 | numbers of one escrow strictly increase before saturation |
| Peers.KeysCollide | crates/nxms-mailbox/src/db.rs:223-243 | two envelopes share the unique key iff same inbox, sender, escrow and same or both clamped numbers |
| Peers.DuplicateIff | crates/nxms-mailbox/src/db.rs:223-250 | for every table, a push is a duplicate iff a live row has its inbox, sender and escrow and the same number, or both numbers are clamped |
| Peers.StoredWasPushed | crates/nxms-mailbox/src/db.rs:287-304 | every stored envelope was pushed earlier in the run |
| Peers.DuplicateIsRepeat | crates/nxms-mailbox/src/db.rs:236-250 | up to 2^63 - 1 a push of a numbered envelope is a duplicate iff that very envelope is stored and live; at 2^63 - 1 itself the earlier numbers must be unclamped too |
| Peers.SameNumberSameEnvelope | crates/nxms-peer/src/lib.rs:428-443 | below the clamp, one sender's envelopes with the same escrow and number are the same envelope |
| Peers.ClampedNumbersClash | crates/nxms-mailbox/src/db.rs:223-250 | while a row with a number of at least 2^63 - 1 lives, every push of its stream with such a number is a duplicate |
| FixedWindow.FixedWindowLimiter.CheckCall | crates/nxms-mailbox/src/lib.rs:76-101 | the counters and verdict after a call: restart, refuse or count, prune above 50000 entries what is 120 seconds old; no limit or a blank key is admitted and not counted |
| FixedWindow.LimitedIff | crates/nxms-mailbox/src/lib.rs:78-80 | a call is limited iff the limit is positive and the key has a character that is no blank |
| FixedWindow.UnlimitedIsAdmitted | crates/nxms-mailbox/src/lib.rs:78-80 | without a limit, or with a blank key, every call is admitted and the counters stay |
| FixedWindow.PruningInvisible | crates/nxms-mailbox/src/lib.rs:96-98 | with a non-decreasing clock every verdict equals that of a limiter that never prunes |
| FixedWindow.SlidingBound | crates/nxms-mailbox/src/lib.rs:76-101 | at most 2 * limit - 1 calls of a key pass in any half-open 60 seconds |
| FixedWindow.SlidingBoundAttained | crates/nxms-mailbox/src/lib.rs:76-101 | for every key and limit a run in which exactly 2 * limit - 1 calls pass within 60 seconds |
| FixedWindow.WindowStays | crates/nxms-mailbox/src/lib.rs:86-94 | from a window's start on it admits at most the limit, and the counter is in it or past it |
| FixedWindow.WindowBound | crates/nxms-mailbox/src/lib.rs:76-101 | a window admits at most limit calls |
| FixedWindow.RefusalEnds | crates/nxms-mailbox/src/lib.rs:90-93 | a refusal returns r in 1..60; every call of the key before now + r is refused, and the first one at or after it is admitted |
| VerifyLimiter.OldestKey | crates/nxms-signer/src/action_token.rs:109-117 | the scan finds an entry with the smallest last_seen, None iff the map is empty |
| VerifyLimiter.VerifyRateLimiter.constructor | crates/nxms-signer/src/action_token.rs:69-76 | attempts and window are at least 1 and keys at least 64; the map starts empty |
| VerifyLimiter.VerifyRateLimiter.Check | crates/nxms-signer/src/action_token.rs:78-107 | the call is let through iff it is among the first max_attempts of its window, for a steady clock and a key not evicted; at most max_keys entries, none stale; a recent key is dropped only when full, and then the least recent |
| VerifyLimiter.VerifyRateLimiter.Count | crates/nxms-signer/src/action_token.rs:85-105 | one call drops stale entries, evicts an oldest one for a new key when full, then restarts, refuses or counts |
| VerifyLimiter.DropsFew | crates/nxms-signer/src/action_token.rs:85-88 | a recent key is dropped only if a new key finds max_keys recent ones, and then only the least recent |
| VerifyLimiter.NeverMoreThanMaxKeys | crates/nxms-signer/src/action_token.rs:85-93 | no run, for any clock, stores more than max_keys entries |
| VerifyLimiter.DroppingInvisible | crates/nxms-signer/src/action_token.rs:78-107 | with a non-decreasing clock a call whose key was not evicted before gets the verdict of a limiter that never forgets |
| VerifyLimiter.AllowedIffAmongFirst | crates/nxms-signer/src/action_token.rs:89-105 | with a non-decreasing clock a call of a key not evicted is let through iff it is among the first max_attempts of its window, the windows read off the calls alone |
| VerifyLimiter.WindowBound | crates/nxms-signer/src/action_token.rs:78-107 | in a window exactly min(calls, max_attempts) calls get through, and no later call of the run adds to it |
| ReplayGuard.MaxSeen | crates/nxms-signer/src/db.rs:932-939 | the largest recorded number of the stream, recorded and not exceeded; None iff the stream is empty |
| ReplayGuard.SignerSequences.RecordIncomingSeq | crates/nxms-signer/src/db.rs:922-977 | the scan accepts iff the clamped number exceeds the stream's maximum, and then inserts it |
| ReplayGuard.SignerSequences.NextOutSeq | crates/nxms-signer/src/db.rs:979-1008 | outgoing numbers of a stream grow by one, saturating; other streams keep theirs |
| ReplayGuard.RecordKeepsIncrease | crates/nxms-signer/src/db.rs:941-975 | recording keeps the numbers of every stream strictly increasing |
| ReplayGuard.RecordedIsRefused | crates/nxms-signer/src/db.rs:941-951 | a number at or below a recorded one of its stream is refused |
| ReplayGuard.AcceptedIsNew | crates/nxms-signer/src/db.rs:953-973 | the insert never violates the primary key |
| EndToEnd.RunBatch | crates/nxms-signer/src/agent.rs:232-282 | the loop over a pulled batch: guard, then ack or leave for redelivery, message by message |
| EndToEnd.BatchIsSteps | crates/nxms-signer/src/agent.rs:238-282 | the loop over a batch is one step per message, in order, and leaves none |
| EndToEnd.GuardAlwaysRecords | crates/nxms-signer/src/db.rs:922-977 | in every run the guard's table is the record of the accepted messages, increasing per stream |
| EndToEnd.AcceptedAtMostOnce | crates/nxms-signer/src/agent.rs:232-282 | accepted numbers per escrow and sender strictly increase under any interleaving, so none is accepted twice |
| EndToEnd.AcceptedGrows | crates/nxms-signer/src/agent.rs:232-282 | what was accepted stays accepted, in the same order |
| EndToEnd.AcceptedBlocksOlder | crates/nxms-signer/src/db.rs:941-951 | once a number is accepted, the same and smaller numbers of its stream are refused for good |
| EndToEnd.RefusedIffOvertaken | crates/nxms-signer/src/db.rs:922-977 | a message is refused iff its stream has accepted a number at or above its own, up to the clamp |
| EndToEnd.ProcessRemovesIff | crates/nxms-signer/src/agent.rs:238-282 | processing removes a row iff it is in the local inbox under the message's receipt, the ack arrives, and the loop wanted to ack or the authentic message was overtaken; other rows are untouched |
| EndToEnd.MailboxSeesRun | crates/nxms-signer/src/agent.rs:232-282 | seen from the mailbox a run of the whole is a run of the mailbox |
| EndToEnd.StaysUntilAckedOrExpired | crates/nxms-signer/src/agent.rs:246-250 | a message nobody acks is stored, with its content, iff no push or prune ran at or after its expiry |
| EndToEnd.UnackedIsDeliveredAgain | crates/nxms-signer/src/agent.rs:232-282 | a live message nobody acks is delivered again once the pulls of one lease window may hand out more rows than are ahead of it |
| EndToEnd.AcceptedWasPushed | crates/nxms-mailbox/src/db.rs:209-388 | everything stored, in flight or accepted was pushed before |
| RequestLedger.SignerRequests.StartSignRequest | crates/nxms-signer/src/db.rs:1281-1311 | granted iff the request id is unknown, hence never completed before; then it is in progress and nothing else changed |
| RequestLedger.SignerRequests.CompleteSignRequest | crates/nxms-signer/src/db.rs:1338-1355 | granted iff in progress; then no call had completed it before, this one has; it keeps escrow, op, round and txset, and other requests are untouched |
| RequestLedger.SignerRequests.CompleteSignRequestWithResult | crates/nxms-signer/src/db.rs:1357-1393 | granted iff in progress; completion and result are stored together, no earlier result is in the way; it keeps escrow, op, round and txset, other requests are untouched, a refusal changes nothing |
| RequestLedger.SignerRequests.AbortSignRequest | crates/nxms-signer/src/db.rs:1406-1413 | afterwards the request is not in progress; completed requests, other requests and results are untouched |
| RequestLedger.SignerRequests.ConsumeActionJti | crates/nxms-signer/src/db.rs:1415-1446 | granted iff no earlier call consumed the token id |
| RequestLedger.ResultsAlwaysOfCompleted | crates/nxms-signer/src/db.rs:1357-1413 | in every reachable state a stored result belongs to a completed request |
| RequestLedger.ResultInsertNeverCollides | crates/nxms-signer/src/db.rs:1357-1393 | storing a result never collides with an earlier one |
| RequestLedger.CompletedIsFinal | crates/nxms-signer/src/db.rs:1281-1413 | a completed request keeps its row and its result whatever follows |
| RequestLedger.CompletedRefusesMore | crates/nxms-signer/src/db.rs:1281-1393 | starting or completing a completed request is refused |
| RequestLedger.CompletesAtMostOnce | crates/nxms-signer/src/db.rs:1338-1393 | a request id completes at most once in a run |
| RequestLedger.CompletedIffEver | crates/nxms-signer/src/db.rs:1338-1393 | in every run a request is marked completed iff some call completed it |
| RequestLedger.ConsumedStays | crates/nxms-signer/src/db.rs:1415-1446 | a consumed token id keeps its use |
| RequestLedger.ConsumedAtMostOnce | crates/nxms-signer/src/db.rs:1415-1446 | a token id is consumed at most once in a run |
| RequestLedger.ConsumedIffEver | crates/nxms-signer/src/db.rs:1415-1446 | in every run a token id is stored iff some call consumed it |
| SnapshotLedger.SignerSnapshots.PutSnapshotPending | crates/nxms-signer/src/db.rs:1010-1032 | the text is stored; a known hash keeps escrow and status; the active snapshots stay the same, at most one per escrow |
| SnapshotLedger.SignerSnapshots.PutSnapshotSignature | crates/nxms-signer/src/db.rs:1034-1056 | the hash gains exactly this signer, once; other signatures, hashes and snapshots are untouched |
| SnapshotLedger.SignerSnapshots.ActivateSnapshot | crates/nxms-signer/src/db.rs:1058-1094 | granted iff known and signed by a quorum of distinct signers; then active, alone in its escrow; other escrows untouched, and no snapshot changes but in its status |
| SnapshotLedger.AtMostOneActive | crates/nxms-signer/src/db.rs:1010-1119 | every reachable state has at most one active snapshot per escrow |
| SnapshotLedger.HashKeepsEscrow | crates/nxms-signer/src/db.rs:1010-1032 | a stored snapshot hash stays, under the same escrow |
| SnapshotLedger.ActiveSnapshotsHaveQuorum | crates/nxms-signer/src/db.rs:1034-1094 | under a fixed quorum every active snapshot has that many distinct signers |
| SnapshotLedger.ActivationSwitches | crates/nxms-signer/src/db.rs:1058-1094 | a granted activation makes exactly this snapshot active in its escrow, touches no other escrow and changes nothing but statuses |
| Workflow.TransitionIffNextRank | crates/nxms-escrow-orchestrator/src/flow.rs:40-58 | a transition is allowed iff it goes one rank up, or to failed from any state but confirmed and failed |
| Workflow.NamesInjective | crates/nxms-escrow-orchestrator/src/flow.rs:23-38 | different states have different names |
| Workflow.ParseIffName | crates/nxms-escrow-orchestrator/src/flow.rs:64-82 | a name reads back as its state, and only texts that trim and fold to the name do |
| Keys.StepMaterialInjective | crates/nxms-escrow-orchestrator/src/flow.rs:98-103 | the step key's string determines escrow, state, sender and number, colons in the sender included |
| Keys.OutboxMaterialCollides | crates/nxms-escrow-orchestrator/src/flow.rs:105-123 | two outbox strings agree iff escrow, state and payload agree and "to:type" reads the same |
| Keys.AddressedInjective | crates/nxms-escrow-orchestrator/src/flow.rs:105-123 | when no recipient, or no type, has a colon, recipient and type are determined |
| Keys.SameTypeSameRecipient | crates/nxms-escrow-orchestrator/src/flow.rs:105-123 | with the same type, one "to:type" text has one recipient |
| Keys.RequestMaterialInjective | crates/nxms-signer/src/action_token.rs:557-562 | the request-id string determines escrow, operation, round and transaction set |
| Text.NormalizeHex | crates/nxms-escrow-orchestrator/src/db.rs:1643-1649 | succeeds iff the trimmed text is n hex digits; the result is the trimmed text in lower case; normal texts are unchanged |
| Text.NormalizeNonEmpty | crates/nxms-escrow-orchestrator/src/db.rs:1635-1641 | the trimmed text, or nothing if that is empty |
| Orchestrator.NormalizeParticipants | crates/nxms-escrow-orchestrator/src/db.rs:1732-1746 | the result lists the normalised participants in order, pairwise different |
| Orchestrator.ParticipantsRefused | crates/nxms-escrow-orchestrator/src/db.rs:1732-1746 | a list is refused only for a blank name or a name repeated up to blanks |
| Orchestrator.NormalizeAction | crates/nxms-escrow-orchestrator/src/db.rs:1662-1668 | succeeds iff the trimmed, case-folded text is "release" or "refund", and is that text |
| Orchestrator.NormalizeRole | crates/nxms-escrow-orchestrator/src/db.rs:1680-1686 | succeeds iff the trimmed, case-folded text is a role with a round, and is that text |
| Orchestrator.NormalizeEvenHex | crates/nxms-escrow-orchestrator/src/db.rs:1651-1660 | succeeds iff the trimmed text is a positive even number of hex digits, and is that text in lower case |
| Orchestrator.NormalizeRound | crates/nxms-escrow-orchestrator/src/db.rs:1688-1708 | succeeds iff the trimmed, case-folded text is the role's own round, and is that text |
| Orchestrator.NormalizeJti | crates/nxms-escrow-orchestrator/src/db.rs:1710-1716 | succeeds iff the trimmed text is not empty and at most 256 bytes, and is that text |
| Orchestrator.NormalizeProof | crates/nxms-escrow-orchestrator/src/db.rs:1419-1424 | a normalised proof is the given one up to case and blanks, and well formed in every field |
| Orchestrator.ProofIff | crates/nxms-escrow-orchestrator/src/db.rs:1419-1424 | a proof normalises iff it is well formed once case and blanks are folded |
| Orchestrator.StepAsGiven | crates/nxms-escrow-orchestrator/src/db.rs:747-751 | a step is read as given up to case and blanks, unless a part is malformed or blank |
| Orchestrator.OutboxAsGiven | crates/nxms-escrow-orchestrator/src/db.rs:840-871 | a message is read as given up to case and blanks, unless a part is malformed or blank |
| Orchestrator.SigningIffRank | crates/nxms-escrow-orchestrator/src/db.rs:1410-1457 | signatures count exactly from Funded to Submitted |
| Orchestrator.RefusedChangesNothing | crates/nxms-escrow-orchestrator/src/db.rs:688-1457 | a refused call changes no table, except that a payload conflict leaves its dead letter |
| Refusals.RefusedForAReason | crates/nxms-escrow-orchestrator/src/db.rs:688-1457 | every call is refused iff there is a reason against it, in terms of what the operator gave and the tables, and the error names such a reason |
| Upserts.ProposalMeans | crates/nxms-escrow-orchestrator/src/db.rs:1252-1295 | a proposal is stored, as typed up to case and blanks, iff it is a release or refund with even hex data and the state is from Funded to TxSignedQuorum |
| Upserts.AdmissionMeans | crates/nxms-escrow-orchestrator/src/db.rs:1313-1356 | an artifact is stored iff for release or refund and the workflow's own snapshot; only snapshot hash and action are folded |
| Upserts.ProofMeans | crates/nxms-escrow-orchestrator/src/db.rs:1410-1457 | a proof is stored, as typed up to case and blanks, iff then well formed, from Funded to Submitted, and no other proof has its request id |
| Upserts.LetterMeans | crates/nxms-escrow-orchestrator/src/db.rs:1132-1152 | a letter is filed last under the folded escrow, otherwise as given, iff the escrow is 32 hex digits |
| OrchestratorDb.NormalizeParticipantList | crates/nxms-escrow-orchestrator/src/db.rs:1732-1746 | the loop with its set of seen names refuses the empty list, a blank name and a repeated name, else returns the list |
| OrchestratorDb.OrchestratorDb.Create | crates/nxms-escrow-orchestrator/src/db.rs:688-717 | granted iff the input normalises and the escrow never had a workflow; then it is New with its snapshot and participants |
| OrchestratorDb.OrchestratorDb.Transition | crates/nxms-escrow-orchestrator/src/db.rs:719-745 | granted iff the transition is allowed; only this state changes, and the workflow has passed every state up to it once and in order |
| OrchestratorDb.OrchestratorDb.Record | crates/nxms-escrow-orchestrator/src/db.rs:747-838 | new iff the key was never entered in the object's history, repeat iff with this payload, conflict iff with another; what each answer changes |
| OrchestratorDb.OrchestratorDb.Enqueue | crates/nxms-escrow-orchestrator/src/db.rs:840-911 | a message that passes the checks and cannot be mistaken is a repeat iff that very message is stored; a granted one is appended pending |
| OrchestratorDb.OrchestratorDb.MarkOutboxSent | crates/nxms-escrow-orchestrator/src/db.rs:952-974 | granted iff the row is pending or sent; then sent, its attempts the sends plus retries of the history; nothing else changes |
| OrchestratorDb.OrchestratorDb.MarkOutboxAcked | crates/nxms-escrow-orchestrator/src/db.rs:976-997 | granted iff the row is pending or sent; then acked with the same attempts; nothing else changes |
| OrchestratorDb.OrchestratorDb.MarkOutboxRetry | crates/nxms-escrow-orchestrator/src/db.rs:999-1082 | granted iff the row is pending or sent and a reason is given; buried with one record that describes it and gives the reason iff its attempts reach the threshold, else pending |
| OrchestratorDb.OrchestratorDb.UpsertProposalBlob | crates/nxms-escrow-orchestrator/src/db.rs:1252-1295 | granted iff release or refund, with even hex data, from Funded to TxSignedQuorum; the escrow's one proposal is then the input, trimmed and in lower case; nothing else changes |
| OrchestratorDb.OrchestratorDb.UpsertAdmissionArtifact | crates/nxms-escrow-orchestrator/src/db.rs:1313-1356 | granted iff release or refund and the workflow's own snapshot; the escrow's one artifact is then the input, its action and hash trimmed and in lower case; nothing else changes |
| OrchestratorDb.OrchestratorDb.UpsertQuorumSignProof | crates/nxms-escrow-orchestrator/src/db.rs:1410-1457 | granted iff well formed, from Funded to Submitted, and no other proof has the request id; stored as given up to case and blanks; all proofs stay well formed with distinct request ids |
| StepLog.StepIsWriteOnce | crates/nxms-escrow-orchestrator/src/db.rs:747-838 | a logged step is never changed or removed |
| StepLog.StepWasEntered | crates/nxms-escrow-orchestrator/src/db.rs:819-837 | every logged step was entered by an earlier call with these fields |
| StepLog.AnswerFromLog | crates/nxms-escrow-orchestrator/src/db.rs:785-837 | a step that passes the checks is new, a repeat or a conflict according to the log |
| StepLog.EnteredIffLogged | crates/nxms-escrow-orchestrator/src/db.rs:785-837 | a key was entered with a payload iff it is logged with that payload |
| StepLog.StepAnswer | crates/nxms-escrow-orchestrator/src/db.rs:747-838 | a step is accepted iff its key was never entered, a repeat iff entered with this payload, a conflict iff with another |
| StepLog.StepMeans | crates/nxms-escrow-orchestrator/src/db.rs:747-838 | what each answer to a step changes: an entry its row, a conflict one dead letter, anything else nothing |
| StepLog.ConflictLeavesOneLetter | crates/nxms-escrow-orchestrator/src/db.rs:798-815 | a conflict adds exactly one dead letter and changes no step |
| StepLog.WorkflowKeepsTerms | crates/nxms-escrow-orchestrator/src/db.rs:719-745 | a workflow, its snapshot and its participants never change or go away |
| StepLog.StepsOnlyFromParticipants | crates/nxms-escrow-orchestrator/src/db.rs:757-764 | every logged sender is a participant of its workflow |
| StepLog.SenderCountBounded | crates/nxms-escrow-orchestrator/src/db.rs:1227-1244 | the distinct-sender count never falls and never exceeds the number of participants |
| WorkflowHistory.CallMovesState | crates/nxms-escrow-orchestrator/src/db.rs:688-745 | a call keeps a state, creates it as New or moves it along an allowed transition |
| WorkflowHistory.HistoryInOrder | crates/nxms-escrow-orchestrator/src/flow.rs:40-58 | a workflow that has not failed passed every state up to its own exactly once and in order |
| WorkflowHistory.FailedAfterPassing | crates/nxms-escrow-orchestrator/src/flow.rs:40-58 | a failed workflow passed every state up to one before Confirmed exactly once and in order, failed at the next move and stayed failed |
| OutboxLife.CallOnRow | crates/nxms-escrow-orchestrator/src/db.rs:840-1082 | a call changes an outbox row only by a granted mark on an open row; new rows start pending |
| OutboxLife.OutboxGrows | crates/nxms-escrow-orchestrator/src/db.rs:840-1082 | outbox rows are never removed |
| OutboxLife.TerminalIsAbsorbing | crates/nxms-escrow-orchestrator/src/db.rs:952-1082 | acked and dead-lettered rows never change again |
| OutboxLife.AttemptsAreSendsPlusRetries | crates/nxms-escrow-orchestrator/src/db.rs:952-1082 | attempts equal granted sends plus granted retries |
| OutboxLife.RetriesBounded | crates/nxms-escrow-orchestrator/src/db.rs:999-1082 | with one threshold N, at least 1, a row is retried at most N times and is dead-lettered at N |
| OutboxLife.CallFilesLetter | crates/nxms-escrow-orchestrator/src/db.rs:1044-1067 | dead letters are only appended; a retry appends one iff it buries its row, and that record describes the row |
| OutboxLife.CallBuries | crates/nxms-escrow-orchestrator/src/db.rs:1044-1067 | a call buries the row of its retry and no other, and changes no buried row |
| OutboxLife.OneLetterPerBuriedRow | crates/nxms-escrow-orchestrator/src/db.rs:1044-1067 | in every run the records that retries filed and the dead-lettered rows match one for one in order, each describing its row, whatever other calls file |
| OutboxLife.RetryMeans | crates/nxms-escrow-orchestrator/src/db.rs:999-1082 | a granted retry adds an attempt, buries exactly at the threshold and files one record with the row and the reason exactly then |
| OutboxLog.EnqueueAppends | crates/nxms-escrow-orchestrator/src/db.rs:872-910 | a granted enqueue appends exactly the normalised message under its key; any other leaves the outbox alone |
| OutboxLog.RowsAreKeyed | crates/nxms-escrow-orchestrator/src/db.rs:872-899 | in every run each row is stored under the key of its own content |
| OutboxLog.RowsAreChecked | crates/nxms-escrow-orchestrator/src/db.rs:846-871 | in every run each stored row has a participant as recipient and a trimmed type that fits its state |
| OutboxLog.KeyIffSameText | crates/nxms-escrow-orchestrator/src/flow.rs:105-123 | under an injective colon-free hash two messages share a key iff escrow, state and payload agree and "to:type" reads the same |
| OutboxLog.EnqueueAnswer | crates/nxms-escrow-orchestrator/src/db.rs:840-911 | over every run a message is a repeat iff a row with the same key text is stored, else it is appended |
| OutboxReadings.RepeatIsExact | crates/nxms-escrow-orchestrator/src/db.rs:840-911 | if the state fixes the type, or no other participant can be read as recipient, or no type has a colon, a repeat iff that very message is stored |
| OutboxReadings.ParticipantsArePlain | crates/nxms-escrow-orchestrator/src/db.rs:1732-1746 | in every run stored participants are trimmed and non-empty |
| OutboxReadings.RepeatCanBeWrong | crates/nxms-escrow-orchestrator/src/db.rs:872-909 | otherwise one granted enqueue of the other reading makes the message a repeat though it was never stored |
| OutboxReadings.NextRepeatIsExactIff | crates/nxms-escrow-orchestrator/src/db.rs:840-911 | for a message not yet stored, its next repeat is sure to be itself iff the state fixes the type or no other participant can be read as recipient |
| OutboxReadings.LostMessage | crates/nxms-escrow-orchestrator/src/db.rs:872-909 | a run with participants "a:b" and "a" in which a different message is answered as a repeat and not stored, whatever the hash |
| OutboxReadings.EnqueueMeans | crates/nxms-escrow-orchestrator/src/db.rs:840-911 | what each answer to an enqueue changes |
| OutboxReadings.NoColonsNotAmbiguous | crates/nxms-escrow-orchestrator/src/flow.rs:105-123 | participants without colons never let a text be read with another recipient |
| ProofStore.CallOnProofs | crates/nxms-escrow-orchestrator/src/db.rs:1410-1457 | a call stores one proof, in a signing state, or leaves the table alone |
| ProofStore.ProofStays | crates/nxms-escrow-orchestrator/src/db.rs:1435-1454 | a proof's key is never removed |
| ProofStore.ProofsAreSound | crates/nxms-escrow-orchestrator/src/db.rs:658-668 | every stored proof is well formed and no two share a request id |
| ProofStore.ProofWasStored | crates/nxms-escrow-orchestrator/src/db.rs:1410-1457 | a proof in the table was stored by an earlier call while the workflow was in a signing state |
| TokenIssuer.NormalizeBounded | crates/nxms-escrow-orchestrator/src/action_token.rs:583-592 | succeeds iff the trimmed text is not empty and within the limit, and is that text |
| TokenIssuer.Setting | crates/nxms-escrow-orchestrator/src/action_token.rs:545-581 | the command line, else a non-blank environment value, else the default; normalised and within the limit |
| TokenIssuer.ParseIffName | crates/nxms-escrow-orchestrator/src/action_token.rs:528-535 | a text is an algorithm iff it trims and folds to its name |
| TokenIssuer.CheckedIssuer | crates/nxms-escrow-orchestrator/src/action_token.rs:250-280 | the issuer is the key's, normalised to 1..256 bytes; a trust bundle must name the same issuer, algorithm and key |
| TokenIssuer.CheckedIff | crates/nxms-escrow-orchestrator/src/action_token.rs:250-280 | the issuer key passes iff its issuer and algorithm are usable and the bundle, if any, names the same issuer, algorithm and key |
| TokenIssuer.BuildIssueParams | crates/nxms-escrow-orchestrator/src/action_token.rs:242-333 | accepted parameters are normalised and bounded, the ttl is 1..120, the issuer is the key's; issuer, algorithm and key fit the trust bundle, and the epoch is the bundle's, 1..128 bytes when trimmed |
| TokenIssuer.BuildsIff | crates/nxms-escrow-orchestrator/src/action_token.rs:242-333 | parameters are built iff every part is usable, and each field is then the operator's, the environment's or the default |
| TokenIssuer.ValidParamsAreBuilt | crates/nxms-escrow-orchestrator/src/action_token.rs:242-333 | every valid parameter record is built unchanged from the same explicit values, a key of its issuer and algorithm and a bundle naming that key; with BuildIssueParams, validity is exactly what can be built |
| TokenIssuer.DefaultAudience | crates/nxms-escrow-orchestrator/src/action_token.rs:305-310 | without an audience anywhere, the audience is "sandbox:" and the sandbox id |
| TokenIssuer.JtiDetermines | crates/nxms-escrow-orchestrator/src/action_token.rs:606-620 | a token id determines the second, role, operation and random bytes it was drawn with |
| TokenIssuer.AdmissionFor | crates/nxms-escrow-orchestrator/src/action_token.rs:446-468 | with a trust epoch an artifact hash is always present, and a present one is 64 lower-case hex digits |
| TokenIssuer.ApplySubmitProofBundle | crates/nxms-escrow-orchestrator/src/action_token.rs:485-516 | the four proof fields are filled, normalised, from the bundle of the same escrow and transaction set, or it fails |
| TokenIssuer.IssuesIff | crates/nxms-escrow-orchestrator/src/action_token.rs:369-516 | issued iff workflow, proposal, snapshot, admission and, for submit, both proofs allow it; then every field, the token id included, is the named parameter or table entry |
| TokenIssuer.IssueActionToken | crates/nxms-escrow-orchestrator/src/action_token.rs:369-478 | a token is issued iff the tables, read by read, allow it; each of its fields, the token id included, is then the named parameter or table entry |
| TokenUse.IdsTellTokensApart | crates/nxms-escrow-orchestrator/src/action_token.rs:606-620 | two issued tokens share their id iff they share second, role, operation and random bytes |
| TokenUse.FreshTokensAreAllConsumed | crates/nxms-signer/src/db.rs:1415-1446 | in every run, tokens drawn with pairwise different random bytes are all consumed |
| TokenVerifier.ObstacleIsFlaw | crates/nxms-signer/src/action_token.rs:264-483 | any claims pass iff nothing is wrong with them, claim by claim, and a refusal names something that is wrong |
| TokenVerifier.ActionTokenVerifier.Verify | crates/nxms-signer/src/action_token.rs:264-483 | refused by rate iff the call is not among the first of its window; else Ok only for flawless claims, an error names a flaw, and an accepted token yields its request id |
| TokenAgreement.IssuedFields | crates/nxms-escrow-orchestrator/src/action_token.rs:412-516 | every field of issued claims, one by one, is the named parameter or table entry |
| TokenAgreement.IssuedAfterFunding | crates/nxms-escrow-orchestrator/src/action_token.rs:369-387 | when a token is issued its workflow had passed every state from New to Funded once and in order |
| TokenAgreement.IssuedSnapshotStays | crates/nxms-escrow-orchestrator/src/action_token.rs:432-432 | the claims name the workflow's snapshot at issue and at every later time |
| TokenAgreement.SubmitClaimsAreBacked | crates/nxms-escrow-orchestrator/src/action_token.rs:470-516 | submit claims carry the stored arbiter and seller proofs of exactly this escrow and set, never removed later, with different ids |
| TokenAgreement.BundleRead | crates/nxms-escrow-orchestrator/src/db.rs:1494-1547 | a bundle holds the two proofs found under the role keys, with different token and request ids |
| TokenAgreement.BackedAt | crates/nxms-escrow-orchestrator/src/db.rs:1410-1457 | a proof found in a reachable table was stored in a signing state, stays, and is in normal form |
| TokenAgreement.RoundsAgree | crates/nxms-signer/src/action_token.rs:533-547 | the round tables of issuer, signer and proof store agree |
| TokenAgreement.JtiFits | crates/nxms-escrow-orchestrator/src/action_token.rs:606-620 | every issued token id passes the signer's check |
| TokenAgreement.TimeChecks | crates/nxms-signer/src/action_token.rs:370-410 | library and lifetime checks pass iff issuer and audience match and the clocks are in the window |
| TokenAgreement.BindingChecks | crates/nxms-signer/src/action_token.rs:411-440 | subject, role, round, escrow, sandbox, wallet and nettype checks pass iff they match |
| TokenAgreement.EpochChecks | crates/nxms-signer/src/action_token.rs:441-458 | the epoch check passes iff the trimmed epoch is the signer's |
| TokenAgreement.HashChecks | crates/nxms-signer/src/action_token.rs:459-472 | the hash checks pass iff transaction set and snapshot agree |
| TokenAgreement.CommonChecks | crates/nxms-signer/src/action_token.rs:359-483 | the common checks pass iff parties, subject and window agree |
| TokenAgreement.ProofChecks | crates/nxms-signer/src/action_token.rs:298-355 | the proof checks pass iff the stored request ids are the signers' |
| TokenAgreement.ClaimsPassIff | crates/nxms-signer/src/action_token.rs:359-483 | issued claims pass the signer's checks iff issuer and signer agree on parties, request, window, ttl, subject length and proofs |
| TokenAgreement.IssuedIsAcceptedIff | crates/nxms-signer/src/action_token.rs:264-483 | the signer's answer to an issued token is Ok iff the limiter has room, the signature verifies and issuer and signer agree; the request id is then fixed |
| TokenAgreement.ExpiryIsInclusive | crates/nxms-signer/src/action_token.rs:370-379 | with all else agreed the library's clock may read anything from issue less skew to expiry plus skew, expiry included |
| TokenAgreement.AcceptedReqId | crates/nxms-signer/src/action_token.rs:474-481 | the request id of an accepted token depends on escrow, operation, role and transaction set alone |
| TokenAgreement.AcceptedProofs | crates/nxms-signer/src/action_token.rs:339-355 | an accepted submit token's proofs are the two expected request ids |
| TokenAgreement.SubmitPinsSignatures | crates/nxms-signer/src/action_token.rs:282-357 | a submit token's arbiter proof is a sign token's request id iff the arbiter accepted that one for the same escrow and set; likewise the seller's |
| HappyPath.CanReach | crates/nxms-escrow-orchestrator/src/flow.rs:40-58 | for every escrow and snapshot a run takes the workflow to any state up to Funded |
| HappyPath.CanGetReady | crates/nxms-escrow-orchestrator/src/db.rs:1252-1457 | a run stores proposal, admission and both proofs for any escrow and transaction set, and nothing else |
| HappyPath.ReadyIssues | crates/nxms-escrow-orchestrator/src/action_token.rs:369-478 | with those tables every valid parameter record gets its token |
| HappyPath.CanBeIssued | crates/nxms-escrow-orchestrator/src/action_token.rs:369-478 | every valid parameter record gets its token in some run, whatever proofs are stored |
| HappyPath.TokenCanBeAccepted | crates/nxms-signer/src/action_token.rs:264-483 | whatever operator and signer agree on, some run ends in a token for it that the signer accepts |
| HappyPath.LongSubjectIsRefused | crates/nxms-signer/src/action_token.rs:411-413 | every valid record with a subject over 128 bytes gets a token that no signer, request or clock accepts |
| HappyPath.PaddedEpochIsRefused | crates/nxms-signer/src/action_token.rs:441-450 | every valid record with blanks around its epoch gets a token that no signer with that epoch accepts |
| HappyPath.AcceptedAtExpiry | crates/nxms-signer/src/action_token.rs:370-379 | an agreed token is accepted with the library's clock at its expiry time |
| Base58.AccumulateBlock | crates/nxms-monero-core/src/xmr_address.rs:26-37 | the accumulator with its early abort gives the value iff all characters are digits and the final value fits 64 bits |
| Base58.DecodeBlockLoop | crates/nxms-monero-core/src/xmr_address.rs:26-50 | the loop decodes a block iff its value fits the block's bytes, big-endian |
| Base58.DecodeLoop | crates/nxms-monero-core/src/xmr_address.rs:52-77 | full blocks in a loop, then the tail, equal the recursive decoding |
| Base58.DecodeEncodeBlock | crates/nxms-monero-core/src/xmr_address.rs:26-50 | decoding a block's encoding gives the block back |
| Base58.EncodeDecodeBlock | crates/nxms-monero-core/src/xmr_address.rs:26-50 | a block that decodes is the encoding of its result |
| Base58.DecodeIffEncoding | crates/nxms-monero-core/src/xmr_address.rs:52-77 | a string decodes to bytes iff it is their encoding |
| Base58.DecodedLengths | crates/nxms-monero-core/src/xmr_address.rs:89-117 | strings of 95 and 106 characters decode to exactly 69 and 77 bytes, and no others do |
| Base58.AcceptedIffAddress | crates/nxms-monero-core/src/xmr_address.rs:79-117 | accepted strings are, up to padding, exactly the addresses of payloads with a valid prefix and length |
| Preimage.Hasher.UpdateLenPrefixed | crates/nxms-escrow-orchestrator/src/operator_escrow.rs:182-185 | absorbs the low 32 bits of the length, little-endian, then the bytes |
| Preimage.LittleEndianWeights | crates/nxms-escrow-orchestrator/src/operator_escrow.rs:182-185 | the first byte is the number modulo 256, the rest that of the number divided by 256 |
| Preimage.DomainHash | crates/nxms-escrow-orchestrator/src/operator_escrow.rs:173-180 | the loop hashes the material of the domain and the parts |
| Preimage.MaterialInjective | crates/nxms-escrow-orchestrator/src/operator_escrow.rs:173-185 | parts below 2^32 bytes are determined by their material, whatever their number |
| Preimage.LengthOfOnePart | crates/nxms-escrow-orchestrator/src/operator_escrow.rs:173-185 | one part of unknown length among parts of known lengths has its length determined |
| Preimage.SameShapeInjective | crates/nxms-escrow-orchestrator/src/operator_escrow.rs:173-185 | parts of known lengths are determined by their material, without any bound |
| Preimage.LongPartCollides | crates/nxms-escrow-orchestrator/src/operator_escrow.rs:182-185 | for part lists of any shape the bound is needed: under any domain a part of 2^32 bytes collides with a list of empty parts |
| Preimage.SnapshotLayout | crates/nxms-escrow-orchestrator/src/operator_escrow.rs:190-213 | the 274 bytes of a snapshot preimage hold every field at its own place |
| Preimage.ProposalLayout | crates/nxms-escrow-orchestrator/src/operator_escrow.rs:215-241 | the bytes of a proposal preimage hold every field at its own place, behind the inputs counted from them |
| Preimage.SnapshotDetermined | crates/nxms-escrow-orchestrator/src/operator_escrow.rs:190-213 | a snapshot preimage determines every field |
| Preimage.ProposalDetermined | crates/nxms-escrow-orchestrator/src/operator_escrow.rs:215-241 | a proposal preimage determines every field, for any number of inputs |
| Preimage.DomainsSeparate | crates/nxms-escrow-orchestrator/src/operator_escrow.rs:187-188 | the two domains never share a preimage, whatever parts follow |
| Preimage.SnapshotIsNoProposal | crates/nxms-escrow-orchestrator/src/operator_escrow.rs:187-241 | no preimage is both a snapshot's and a proposal's |
| Preimage.DigestsDetermine | crates/nxms-escrow-orchestrator/src/operator_escrow.rs:190-241 | under an injective hash, equal digests mean equal snapshots or equal proposals, and no digest is both a snapshot's and a proposal's |
| XmrCodec.HexDecodeIff | crates/nxms-monero-core/src/types.rs:92-100 | a string decodes to bytes iff folding its case gives their hex |
| XmrCodec.DecodeIff | crates/nxms-monero-core/src/types.rs:48-82 | a string parses to an address iff its header is exact and its case-folded form is the printed address |
| XmrCodec.DecodeEncode | crates/nxms-monero-core/src/types.rs:34-82 | parsing undoes printing, for every address |
| XmrCodec.EncodeDecode | crates/nxms-monero-core/src/types.rs:34-82 | printing undoes parsing up to the case of hex digits |

## Left out

- Timestamps the code stores but never decides on (created_at, updated_at, next_attempt_at, seen_at), the step log's detail column and the transition's unused reason.
- The AUTOINCREMENT limit, and i64 overflow of outbox attempts: row numbers and attempts are unbounded.
- The JSON parse inside a pull, which cannot fail on rows a push serialised, and the unique-violation branch after the explicit duplicate test, which is unreachable inside the transaction.
- SQLite errors, busy timeouts and the schema migration in `init_sync`.
- `step_count_for_state` clamps the count to u64; the model counts the set of senders.
- Inbox offsets, listing queries, statistics, integrity findings, alerts and metrics: reporting and flat branches.
- SHA-2, SHA-3, BLAKE3, Keccak, Falcon, FrodoKEM and JWT signatures: parameters or absent. The verifier's `decode` stands for signature check and parsing; loading the private key is not modelled.
- The loaders' checks of the key files' PEM form, and the trust bundle's schema, signatures and peer list: they restrict no field of the issuer's parameters.
- The library clock comparison uses unbounded integers where the library subtracts the leeway in u64.
- Request handlers, Tor and SOCKS, file permissions, vaults, configuration files and command-line parsing. Environment values of the issuer are parameters.
- Long-poll wake-up: no statement says when a waiting pull returns.
- The handler behind the replay guard: it is an arbitrary outcome, so the theorems hold for every handler. Which errors are acked is also arbitrary, except that a refused replay is acked.
- The Monero bridge, transaction skeletons, fees, retry backoff, approval bundles, the dashboard and other tools: thin or outside the protocol.
- VerifyLimiter.DroppingInvisible: speaks of keys that were not evicted before; eviction forgets the count of its key.
- VerifyLimiter.AllowedIffAmongFirst: likewise; which keys may be evicted is stated by VerifyLimiter.DropsFew.
- TokenIssuer.IssueActionToken: takes the six table states as a parameter, because a method cannot be interrupted by other transactions; the run theorems place them at any six positions.
