# Qingtian: a verified model of its delivery, replay, negotiation and supervision logic

This project models the parts of the Qingtian agent platform that keep state over long runs or
promise a format over all inputs, and proves what they promise with Dafny.
`dafny verify dfyconfig.toml` checks everything.

| file | what it models |
|---|---|
| `CrossOrgDelivery` | reliable messages between organisations: send coroutines, two acks, retries, repeated sends, receiving handlers, as one state machine over a hostile network |
| `CrossOrgSafety`, `CrossOrgOnce` | what every run of it keeps: the invariant, and storage exactly once |
| `CrossOrgRoutes`, `CrossOrgReceiving`, `CrossOrgWaiters` | who asked for what is on the wire; what a receiver takes up, stores and answers; who waits for which acknowledgement |
| `CrossOrgStatus`, `CrossOrgCount` | statuses and number of transmissions over every run |
| `CrossOrgDelivering`, `CrossOrgOverlap` | runs that exist: delivery from any reachable state, repeated sends, late failures, overlapping sweeps |
| `RetrySweep` | the retry sweep's loop over the message table |
| `ReceivedWindow` | the receiver's counter of continuously received sequence numbers |
| `Envelopes` | the signed envelope: its bytes, building, checking |
| `ReplayWindow`, `ReplayBounds`, `ReplayCover`, `ReplayGuard`, `NonceCodec`, `NonceLru` | replay protection: the ring of Bloom slices, its exact limits and exactly what it accepts, the nonce format, the nonce cache |
| `JsonExtract`, `JsonPrinted`, `ContextPrune` | text work around language models: JSON extraction and pruning to a token budget |
| `Negotiation`, `NegotiationService` | negotiation, agreement and purchase order |
| `Supervisor`, `SupervisorProcess` | the process supervisor and the administrator's calls, as steps between awaits |
| `SupervisorCalls` | exactly when a pause or a stop holds |
| `Ain` | agent identity numbers, clear and encrypted |
| `PartNames`, `ChunkUpload`, `ChunkSessions` | chunked upload, alone and among other uploads |
| `TokenBucket`, `PendingQueues` | rate limit and offline queues |
| `Text`, `Options` | splitting and joining, options |

State changes in place are classes (`MessageTable`, `Window`, `BloomSlice`, `Guard`, `Cache`,
`Store`, `AgentProcess`, `Uploads`, `Limiter`, `Bus`) whose methods are proved equal to a
specification function; what the platform promises is then proved about every run of that
function. Where several coroutines interleave (delivery, the received window, the supervisor) the
model is a step relation and the theorems hold for every sequence of steps.

## Where the code differs from its own description

* **Repeated sends.** Two calls of `send_message` under one idempotency key can both miss the row,
  and the one that loses the race to insert it still starts a coroutine for the row that won
  (messaging.py:758-790). With a key chosen by the caller its payload may be another one. So two
  coroutines may work on one message: whatever its status, delivered and dead included, it becomes
  pending again (`RepeatedSendReopens`, `DeliveredIsLeft`). Storage stays exactly once all the same,
  with the payload of one of the sends (`AtMostOnce`, `DeliveredExactlyOnce`, `OffersOf`).
* **Late failures.** When the database commits that a message is delivered and then reports an
  error, the coroutine goes on to write that it failed (messaging.py:501-510), and the message is
  sent once more (`LateFailureLeavesDelivered`); the receiver still stores it once.
* **Retry sweeps that overlap.** `retry_cross_org_deliveries` reads a snapshot and acts on it
  later, so two active sweeps of one organisation can bring a dead message back
  (`OverlapRevivesDead`) and put a message on the wire six times (`SixTransmissions`). Sweeps of
  different organisations do not disturb each other: the status graph and the finality of delivered
  and dead are proved for every run in which no organisation starts a sweep while its last one is
  active, no send is repeated and no failure is late. For all runs `FinalLeftIff` says exactly when
  a final status can be left and `TransmissionLaw` exactly how many transmissions there are.
* **Addressee and identity numbers** are read afresh by every retry (messaging.py:1361-1378), with
  the agent's id in place of a missing number (messaging.py:313-316). A message refused for its
  identity numbers is delivered once they are corrected; what a delivered message did have is one
  attempt with valid ones (`DeliveredHadValidAttempt`). A retry may also reach another organisation:
  there is one row at each, and one in all when all attempts went to one (`OneRowInAll`).
* **Received window.** `_record_received_seq` reads, scans and writes without a lock. The counter
  never passes a gap, but it can go back (`CounterDropsIff`, `CounterCanDrop`).
* **Replay window.** A slot is reused after 300 whole seconds, while a nonce stamped up to five
  seconds ahead stays valid longer. Such a nonce can be accepted twice: as long as no call hangs
  longer than a second, an accepted nonce can come back exactly when its stamp is not before the
  second it was accepted in (`AcceptedAgainExactly`, `OnceOnly`, `OnceOnlyLimitIsExact`). Never three
  times, unless a call hangs longer than 295 seconds (`NeverThrice`); a millisecond more and there
  is a run that does (`BoundsAreReached`).
* **Nonce cache.** The bound on its size holds for capacities of two and more only
  (`CapacityKept`, `SmallCapacityExceeded`).
* **Pruning.** The in-order result needs the system messages to come first
  (`PrunedIsSubsequence`). One that stands in the history comes out twice exactly when it and
  everything newer fit beside the core (`SystemInHistoryIsDoubled`, `MisplacedSystemIsDoubled`), and
  one in last place always does (`LastSystemIsListedTwice`).
* **`record_counter`** updates without naming the status it read: the limit and the final statuses
  hold for atomic calls, and for a late update exactly under the condition of
  `LateCounterIsSafeExactly`.
* **`auto_negotiate`** describes three to five rounds; as coded it records one buyer offer, the
  supplier's turn always fails, and the offer is accepted at 90 % of the target price
  (`Store.AutoNegotiate`). The total is reported only when one round was asked for.
* **Supervisor.** The description promises five minutes from the fourth crash on; with the default
  limit of four the fourth crash in a row is fatal (`FourthCrashIsFatal`). A restart leaves the
  fatal state without `force` too (`UnforcedRestartKeepsCounters`). HTTP probes move the healthy
  time forward on every success, so past restarts are never forgotten (`HttpHealthNeverForgets`).
  The failure count survives a restart (`OneFailureAfterRestart`). A tight crash loop never cools
  down (`CrashLoopNeverCools`). A process that was taken over and exits with zero is started again
  under the policy "on failure" (`TakenOverNeverExitsCleanly`).
* **Pause and stop.** A pause or a stop is one write, and coroutines that await something do not look
  at the status again. A pause holds exactly when no start is under way and the monitor awaits
  nothing, a probe that may fail once more, or the end of a process that its policy does not restart
  (`PauseHoldsExactly`); a stop also when there is no command for the restart that a crash asks for
  (`StopHoldsExactly`). The stop of a process first waits for the process while the monitor goes on:
  it may fail to hold for every running agent that is always restarted and has a command
  (`WaitingStopHoldsExactly`, `RunningAgentMayComeBack`). `ProbeOverridesCall` is an input on which
  a pause and a stop are undone although no crash handler waits.
* **Part names** sort by index only up to 10,000 chunks (`NamesSortByIndexExactly`). An upload waits
  for every chunk exactly when no part name in the directory begins with its identifier
  (`WaitsExactlyWhenClean`): a chunk sent again after completion, or an upload whose identifier
  continues another's, lets a later one complete with a chunk missing.

## Model

| member | source | states |
|---|---|---|
| CrossOrgOnce.AtMostOnce | qingtian/huanyu/messaging.py:581-657 | in every run, overlapping sweeps, repeated sends and duplicated, reordered, replayed envelopes included, an organisation never holds two rows of one message, and the row it holds came from an attempt that another organisation signed and that some call or retry of the run asked for: with this addressee, between these identity numbers and with this payload |
| CrossOrgOnce.DeliveredExactlyOnce | qingtian/huanyu/messaging.py:454-510 | a message its sender marks delivered has exactly one stored row at an organisation it was sent to, with the addressee, the identity numbers and the payload that some call or retry of the run asked for |
| CrossOrgOnce.OneRowInAll | qingtian/huanyu/messaging.py:454-510 | when all attempts went to one organisation, a delivered message has exactly one row at all organisations together |
| CrossOrgOnce.OffersOf | qingtian/huanyu/messaging.py:758-790 | every payload offered for a message is its row's, unless a call that lost the race to insert the row brought another |
| CrossOrgOnce.RowSaysWhatWasSent | qingtian/huanyu/messaging.py:758-790 | the sender's row of a message says what the call that inserted it said, ever after |
| CrossOrgOnce.SameKeyExactly | qingtian/huanyu/messaging.py:640-640 | two envelopes share an idempotency key exactly when they name the same message, or name none and carry the same nonce |
| CrossOrgRoutes.SentAsAsked | qingtian/huanyu/messaging.py:472-487 | in every run, every message on the wire was asked for by a call, a repeated call or a retry of the run, with this addressee, these identity numbers and the payload its body was sealed with, and carries the nonce, body, time and number of the transmission that sent it |
| CrossOrgRoutes.AcknowledgementsAnswer | qingtian/huanyu/messaging.py:647-655 | in every run, every acknowledgement answers a message on the wire, from its addressee back to its sender, between the same identity numbers the other way round and under its nonce, and the addressee holds the row |
| CrossOrgReceiving.ReceivedExactly | qingtian/huanyu/messaging.py:598-629 | in every run, whatever the network presents, an organisation takes up exactly the messages of the right shape that another organisation signed and addressed to it |
| CrossOrgReceiving.AcknowledgementTakenExactly | qingtian/huanyu/messaging.py:588-597 | a wait for an acknowledgement ends exactly with one that was signed and carries the nonce waited for |
| CrossOrgReceiving.FirstArrival | qingtian/huanyu/messaging.py:631-657 | a handler left alone stores a first arrival under its key, from and for the identity numbers of the envelope and with what its body opened to, and answers it to the sender |
| CrossOrgReceiving.RepeatedArrival | qingtian/huanyu/messaging.py:631-657 | it answers a repeated arrival too, and stores nothing |
| CrossOrgReceiving.GoesOnOnlyIfResolved | qingtian/huanyu/messaging.py:492-507 | in every run a send goes on past a wait only when an acknowledgement of that kind under its own nonce came in for its organisation |
| CrossOrgWaiters.WaitersExact | qingtian/huanyu/messaging.py:403-437 | in every run the table of waiters holds exactly the waits of the coroutines that wait, each the wait of one coroutine alone: none is leaked, none removed by another |
| CrossOrgOnce.DeliveredHadValidAttempt | qingtian/huanyu/e2ee.py:119-140 | a delivered message had an attempt whose envelope carried identity numbers of 1 to 128 characters on both sides, and the row it left is that attempt's |
| CrossOrgSafety.RunInv | qingtian/huanyu/messaging.py:403-510 | the inductive invariant over sender rows, ack waiters, network, handlers and stored rows holds after every run |
| CrossOrgSafety.StepKeeps | qingtian/huanyu/messaging.py:454-657 | every single step of sender, repeated send, network, receiver and sweep keeps that invariant |
| CrossOrgSafety.InsertKeepsWorld | qingtian/huanyu/messaging.py:1101-1157 | an insert under an idempotency key keeps rows unique even when another handler has inserted since the look-up |
| CrossOrgSafety.AcknowledgeKeepsWorld | qingtian/huanyu/messaging.py:647-655 | an end_ack for a nonce is signed only when the addressee holds the row of that nonce's message |
| CrossOrgSafety.AcknowledgedLanded | qingtian/huanyu/messaging.py:589-597 | a genuine end_ack for a nonce implies the row of the message attempted under that nonce is stored |
| CrossOrgSafety.TransmitKeepsWorld | qingtian/huanyu/messaging.py:472-487 | an attempt with a fresh nonce and a fresh one-time body, whatever its addressee, identity numbers and payload, keeps nonces tied to one attempt and bodies to one payload |
| CrossOrgStatus.StatusGraph | qingtian/huanyu/messaging.py:454-510 | with one sweep at a time in each organisation, no repeated send and no late failure, every status change is an edge of queued, pending, sent, hub_acked, delivered, with failed the only retryable state, and no message is transmitted more than five times |
| CrossOrgStatus.FinalForever | qingtian/huanyu/messaging.py:1337-1382 | in such runs delivered and dead are never left, however the run goes on |
| CrossOrgStatus.FinalLeftIff | qingtian/huanyu/messaging.py:1337-1382 | in any state at all, a final status can be left exactly when a coroutine still works on the message or a sweep that read it as failed is about to bury it |
| CrossOrgCount.TransmissionLaw | qingtian/huanyu/messaging.py:1337-1382 | in every run at all, transmissions are the retries counted plus one, plus what stale snapshots and repeated sends owe, less attempts that ended before the wire or still wait |
| CrossOrgCount.RunCounts | qingtian/huanyu/messaging.py:1355-1382 | the balance of attempts and counts changes by exactly the debt and the waste of each step |
| CrossOrgCount.OrderlyOwesNothing | qingtian/huanyu/messaging.py:1347-1360 | with one sweep at a time in each organisation, no repeated send and no late failure, a snapshot is never behind its row, so nothing is owed |
| CrossOrgCount.FiveAtMost | qingtian/huanyu/messaging.py:1337-1382 | in such runs a message is transmitted at most five times, and once less for every attempt that ended before the wire or still waits |
| CrossOrgDelivering.StartedCanBeDelivered | qingtian/huanyu/messaging.py:454-510 | from every reachable state a message with a coroutine that has just started can still be delivered, if its attempt makes an envelope of the right shape for another organisation |
| CrossOrgDelivering.FailedCanBeDelivered | qingtian/huanyu/messaging.py:1337-1382 | so can a failed message with a retry left when no sweep of its organisation is active |
| CrossOrgDelivering.RepeatedSendReopens | qingtian/huanyu/messaging.py:758-790 | whatever a message's status, a call that lost the race to insert its row makes it pending again |
| CrossOrgDelivering.DeliveredIsLeft | qingtian/huanyu/messaging.py:758-790 | for every message and route of the right shape, a run that delivers it and goes on to leave delivered |
| CrossOrgDelivering.LateFailureLeavesDelivered | qingtian/huanyu/messaging.py:501-510 | for every message and route of the right shape, a run that delivers it and then marks it failed because the write that was committed reported an error |
| CrossOrgOverlap.OverlapRevivesDead | qingtian/huanyu/messaging.py:1337-1382 | a run of two overlapping sweeps of one organisation in which a dead message becomes pending again |
| CrossOrgOverlap.SixTransmissions | qingtian/huanyu/messaging.py:1337-1382 | a run of two overlapping sweeps, without a repeated send, that transmits a message six times while its row counts four retries |
| CrossOrgStatus.RunInv | qingtian/huanyu/messaging.py:454-510 | the invariant behind the graph, for runs with one sweep at a time in each organisation, no repeated send and no late failure: at most one coroutine works on a message, its phase fits the row's status, and transmissions are bounded by the retry count |
| RetrySweep.MessageTable.Pick | qingtian/huanyu/messaging.py:1347-1354 | the sweep reads exactly the oldest hundred failed rows below the retry limit, in order |
| RetrySweep.ChosenExactly | qingtian/huanyu/messaging.py:1347-1354 | a row is picked exactly when it failed, has fewer than five retries and fewer than a hundred such rows are older |
| RetrySweep.MessageTable.Sweep | qingtian/huanyu/messaging.py:1355-1382 | the loop over the snapshot changes exactly the chosen rows, each as one row's rule says |
| RetrySweep.FailingMessageDies | qingtian/huanyu/messaging.py:1337-1382 | for a table of any size, a retryable message that keeps failing is dead after as many sweeps as there are attempts left in the rows up to its own, whatever other rows' attempts do, whatever happens to those rows between sweeps and whatever is appended |
| RetrySweep.ExactSchedule | qingtian/huanyu/messaging.py:1355-1360 | while one batch holds all retryable rows up to its own, a message failed with r retries stays failed for 4 - r more sweeps and dies in the next |
| RetrySweep.SweepSpends | qingtian/huanyu/messaging.py:1347-1360 | whatever the attempts do, one sweep uses up at least as many remaining attempts as it picks rows, in every prefix of the table |
| RetrySweep.RowFate | qingtian/huanyu/messaging.py:1355-1382 | through any number of sweeps a row whose own attempts fail stays retryable or is dead |
| RetrySweep.SameAsTheMachine | qingtian/huanyu/messaging.py:1355-1378 | the loop's rule for a row and the state machine's sweep step agree, for unresolved, dead and resent rows |
| ReceivedWindow.Window.Record | qingtian/huanyu/messaging.py:529-558 | uninterrupted, one record adds the number and moves the counter to the first gap or by the full cap of 512, never back, and never past a gap |
| ReceivedWindow.Scan | qingtian/huanyu/messaging.py:549-554 | the scan stops just before a number not received or after the whole budget, with everything below received |
| ReceivedWindow.ScanUnique | qingtian/huanyu/messaging.py:549-554 | those conditions determine the scan's result |
| ReceivedWindow.NeverPassesGap | qingtian/huanyu/messaging.py:529-558 | under any interleaving of handlers every number from 1 to the counter has been received |
| ReceivedWindow.CounterDropsIff | qingtian/huanyu/messaging.py:548-556 | a step moves the counter back exactly when it writes a scan that another write has overtaken since its read |
| ReceivedWindow.AloneIsAtomic | qingtian/huanyu/messaging.py:548-556 | a handler that is not interrupted between its read and its write does what the atomic method does |
| ReceivedWindow.CounterCanDrop | qingtian/huanyu/messaging.py:548-556 | a concrete interleaving takes the counter from 2 back to 1 |
| Envelopes.SigTextInjective | qingtian/huanyu/e2ee.py:83-96 | with separator-free fields on the signing side, equal signed text means equality of all eleven fields |
| Envelopes.SignedTextReads | qingtian/huanyu/e2ee.py:83-96 | the signed text, part by part: the label and the eleven fields in their order |
| Envelopes.SchemaReads | qingtian/huanyu/e2ee.py:119-140 | the shape check, field by field: version, kind and the least and greatest length of each further field |
| Envelopes.SeparatorMakesAmbiguous | qingtian/huanyu/e2ee.py:83-96 | with a separator inside a field, two different envelopes share one signed text |
| Envelopes.VerifiesExactlyAsBuilt | qingtian/huanyu/e2ee.py:99-164 | under a correct and binding signature scheme, a built envelope has the fields it was built from and verifies, no other envelope does with its signature, and none does without one |
| Envelopes.VerifiedIsSigned | qingtian/huanyu/e2ee.py:105-116 | the ideal check used by the protocol model accepts exactly the envelopes that were signed |
| ReplayWindow.AcceptancesApart | qingtian/huanyu/replay_guard.py:154-188 | for every run on a clock that never runs back, two acceptances of one nonce are at least 300 whole seconds apart |
| ReplayWindow.NeverThrice | qingtian/huanyu/replay_guard.py:139-188 | no nonce is accepted three times, as long as no call hangs longer than 295 seconds |
| ReplayWindow.OnceOnly | qingtian/huanyu/replay_guard.py:139-188 | a nonce stamped before the second of its first acceptance is accepted once in the whole run, as long as no call hangs longer than a second |
| ReplayCover.AcceptedExactly | qingtian/huanyu/replay_guard.py:139-188 | after any run on a forward clock, for every hash: a call is accepted exactly when its nonce is not empty, is stamped no more than 300 seconds back and five ahead, and in no second from 300 before the scan on the nonces accepted share all seven of its positions between them, unless a nonce was accepted just 300 seconds after that second, when its slot was reused |
| ReplayCover.FreshIsAccepted | qingtian/huanyu/replay_guard.py:139-188 | so a nonce with a valid stamp is accepted when one of its seven positions belongs to no nonce accepted in those seconds |
| ReplayBounds.AcceptedAgainExactly | qingtian/huanyu/replay_guard.py:139-188 | after any run, an accepted nonce has a continuation of calls that hang no longer than a second in which it is accepted again exactly when its stamp is not before the second it was accepted in; for a stamp inside that second, given another nonce, fresh 300 seconds later, whose marks do not cover its own |
| ReplayBounds.OnceOnlyLimitIsExact | qingtian/huanyu/replay_guard.py:154-188 | with a call that hangs 1001 milliseconds a nonce stamped one millisecond before its second is accepted again, under every hash |
| ReplayBounds.BoundsAreReached | qingtian/huanyu/replay_guard.py:117-188 | a run accepts one nonce twice exactly 300 seconds apart, and with a call that hangs one millisecond more than 295 seconds a third time: both bounds are tight |
| ReplayWindow.NothingForgotten | qingtian/huanyu/replay_guard.py:71-137 | a used slot sits at its second modulo 300, and its marks hold every position of every nonce accepted in that second, for at least 300 seconds |
| ReplayWindow.RunInv | qingtian/huanyu/replay_guard.py:117-137 | the ring invariant holds after every run |
| ReplayWindow.AcceptedAgain | qingtian/huanyu/replay_guard.py:154-188 | what a second acceptance implies about the clock readings of its call |
| ReplayWindow.Positions | qingtian/huanyu/replay_guard.py:60-69 | seven positions, each inside the 100,000 bits |
| ReplayGuard.SetBit | qingtian/huanyu/replay_guard.py:71-85 | setting one bit of a byte sets that bit and no other, for all bytes and bits |
| ReplayGuard.OneMore | qingtian/huanyu/replay_guard.py:71-77 | one byte update adds exactly one position to the set a slice represents |
| ReplayGuard.BloomSlice.Add | qingtian/huanyu/replay_guard.py:71-77 | adding a nonce marks its positions and nothing else, every access inside the 12,500 bytes |
| ReplayGuard.BloomSlice.Contains | qingtian/huanyu/replay_guard.py:78-85 | the test answers whether all positions of the nonce are marked |
| ReplayGuard.BloomSlice.Clear | qingtian/huanyu/replay_guard.py:87-89 | clearing leaves the empty set of positions |
| ReplayGuard.Guard.CurrentSlot | qingtian/huanyu/replay_guard.py:117-125 | the slot of a second is reused only after being emptied and restamped |
| ReplayGuard.Guard.CleanupExpired | qingtian/huanyu/replay_guard.py:127-137 | clean-up empties exactly the used slots older than the window |
| ReplayGuard.Guard.IsReplay | qingtian/huanyu/replay_guard.py:154-174 | the answer is the specification's, from byte arrays |
| ReplayGuard.Guard.Record | qingtian/huanyu/replay_guard.py:176-181 | recording adds the nonce's marks to the slot of the second; the empty nonce changes nothing |
| ReplayGuard.Guard.CheckAndRecord | qingtian/huanyu/replay_guard.py:183-188 | one call on 300 byte arrays does to the represented ring exactly what the specification does |
| NonceCodec.PaddingRoundTrip | qingtian/huanyu/replay_guard.py:29-39 | for bytes of every length, the restored padding decodes the stripped base64url text to the same bytes |
| NonceCodec.NonceRoundTrip | qingtian/huanyu/replay_guard.py:16-46 | parsing a generated nonce returns the timestamp, and the random part and the peer hash in hexadecimal, for every 64-bit timestamp |
| NonceCodec.ParsesPrintedBytes | qingtian/huanyu/replay_guard.py:29-46 | what the parser makes of the printed form of any bytes: refused below 20, else the number in the first eight, and the hexadecimal digits of the next eight and four |
| NonceCodec.BothAlphabets | qingtian/huanyu/replay_guard.py:29-39 | the decoder reads the letters of both base64 alphabets |
| NonceCodec.EarlyPaddingIsSkipped | qingtian/huanyu/replay_guard.py:29-39 | padding that comes too early is skipped, and enough of it ends the input |
| NonceCodec.HexInjective | qingtian/huanyu/replay_guard.py:41-43 | the hexadecimal text determines the bytes |
| NonceCodec.HexReads | qingtian/huanyu/replay_guard.py:41-43 | each byte becomes two hexadecimal digits, the higher one first |
| NonceCodec.DistinctNonces | qingtian/huanyu/replay_guard.py:16-26 | nonces of different timestamps, random parts or peer hashes are different texts |
| NonceCodec.UnpackPack | qingtian/huanyu/replay_guard.py:16-46 | big-endian packing and unpacking of a number that fits is the identity |
| NonceLru.Cache.SeenNonce | qingtian/huanyu/e2ee.py:194-210 | the method answers and changes its dictionary as the specification says, insertion order included |
| NonceLru.RefusedOnlyIfRecent | qingtian/huanyu/e2ee.py:194-210 | a non-empty nonce is refused only if a call of the run admitted it less than the time to live ago |
| NonceLru.AnswersLikeReference | qingtian/huanyu/e2ee.py:194-210 | while live entries stay below the capacity the cache answers as an unbounded reference map does |
| NonceLru.CapacityKept | qingtian/huanyu/e2ee.py:181-210 | capacities of two and more are never exceeded in any run |
| NonceLru.OldestHalfIsForgotten | qingtian/huanyu/e2ee.py:202-208 | at capacity with live entries only, exactly the newest half of them, rounded up, stays, in order, and the new nonce comes last |
| NonceLru.RoomIsKept | qingtian/huanyu/e2ee.py:202-210 | below the capacity nothing is forgotten, and a nonce that was known keeps its place |
| NonceLru.SmallCapacityExceeded | qingtian/huanyu/e2ee.py:181-210 | smaller capacities are exceeded after at most two calls |
| JsonExtract.ExtractJsonBlock | qingtian/common/llm.py:488-506 | the recursion into fences terminates and computes the specified result |
| JsonExtract.CountBraces | qingtian/common/llm.py:509-534 | the loop over depth, string and escape state finds the specified block |
| JsonExtract.Find | qingtian/common/llm.py:492-494 | the first occurrence at or after a position, or none |
| JsonExtract.ResultIsBlock | qingtian/common/llm.py:488-534 | whatever the text, a result is a contiguous piece of it that starts with an opening brace, ends with a closing one and first returns to depth zero, outside strings, with its last character |
| JsonPrinted.ExtractsPrintedObject | qingtian/common/llm.py:488-534 | brace-free prefix, any printed JSON object, any suffix, fewer than two fences in all: exactly the printed object comes out |
| JsonPrinted.ExtractsFencedObject | qingtian/common/llm.py:491-506 | a printed object inside the first fence, behind an optional language line, comes out whatever braces surround the fence |
| JsonPrinted.ExtractsBehindFence | qingtian/common/llm.py:488-534 | a fenced piece without an object does not hide a printed object that follows it |
| JsonPrinted.LabelDecidesNothing | qingtian/common/llm.py:491-506 | the language line changes no result: the block is that of the fenced text as it stands or, when that has none, of the braces of the whole text |
| JsonPrinted.EscapeOutsideStrings | qingtian/common/llm.py:514-522 | a backslash hides the character behind it outside strings too |
| JsonPrinted.PrintIsNeutral | qingtian/common/llm.py:514-534 | inside an object every printed value, strings with braces, quotes and escapes included, leaves depth and string state as they were |
| JsonPrinted.ClosesAtItsEnd | qingtian/common/llm.py:509-534 | counting a printed object closes at its last character and nowhere before |
| JsonPrinted.FailsExactlyWhenUnclosed | qingtian/common/llm.py:509-534 | counting finds nothing exactly when from the first brace on the depth never returns to zero |
| JsonPrinted.NothingMeansUnclosed | qingtian/common/llm.py:488-534 | when the extraction as a whole finds nothing, the depth never returns to zero from the first brace of the text on |
| ContextPrune.PruneMessages | qingtian/common/llm.py:859-907 | pruning terminates for every list and budget and computes the specified result |
| ContextPrune.RefillHistory | qingtian/common/llm.py:878-892 | inserting newest first behind the system messages yields the history in order |
| ContextPrune.ShrinkToFit | qingtian/common/llm.py:895-906 | the last loop terminates |
| ContextPrune.ShrinkOnceIsSmaller | qingtian/common/llm.py:895-906 | each round makes messages plus characters strictly fewer |
| ContextPrune.WithinBudget | qingtian/common/llm.py:859-907 | for every list and positive budget the estimate of the result is within the budget |
| ContextPrune.Truncate | qingtian/common/llm.py:849-856 | a truncated text is the text itself or strictly shorter |
| ContextPrune.CutExactlyWhenLong | qingtian/common/llm.py:849-856 | a text is cut exactly when it has 41 characters or more, or 38 or 39 |
| ContextPrune.EndsSurvive | qingtian/common/llm.py:849-856 | a cut text keeps the first six tenths and the last two tenths of the original around the mark |
| ContextPrune.ShortTestIsRedundant | qingtian/common/llm.py:899-906 | the test for texts shorter than 20 decides nothing |
| ContextPrune.EstimateIsHalf | qingtian/common/llm.py:838-843 | the estimate is at least one token for two characters and at most half a token more, and a shorter text never has a higher one |
| ContextPrune.RefillIsNewest | qingtian/common/llm.py:880-892 | the history restored is the longest run of newest messages that fits; in front of it stands the message before, cut to its first four tenths and the mark, exactly when that text costs fewer tokens than the message and fits the room left |
| ContextPrune.CutIsOpening | qingtian/common/llm.py:849-856 | cut without a tail, a text is its first four tenths, at least one character, and the mark, exactly when that is shorter |
| ContextPrune.PrunedReads | qingtian/common/llm.py:859-907 | the whole result when the system messages come first and fit beside the last message: the system messages, the opening of one message where that helps, and the longest run of newest messages that fits |
| ContextPrune.UntouchedExactly | qingtian/common/llm.py:859-874 | the list comes back unchanged exactly when no positive budget is set or the list fits it |
| ContextPrune.RestoredIsPicked | qingtian/common/llm.py:875-892 | with the system messages first, the list before the last loop is system prefix, gap-free newest history, last message, and only its oldest history message may be cut |
| ContextPrune.PrunedIsSubsequence | qingtian/common/llm.py:859-907 | then the result is an in-order subsequence of the input up to cutting of contents |
| ContextPrune.CoreSurvivesExactlyWhenItFits | qingtian/common/llm.py:875-907 | system messages and last message survive whole exactly when they fit the budget by themselves |
| ContextPrune.LastSystemIsListedTwice | qingtian/common/llm.py:875-878 | a system message in last place comes out twice |
| ContextPrune.SystemInHistoryIsDoubled | qingtian/common/llm.py:875-892 | in any list, a system message inside the history is restored beside its place in front exactly when it and everything newer fit beside the core, and then comes out at least twice |
| ContextPrune.BackExactlyWhenItFits | qingtian/common/llm.py:880-892 | a history message comes back whole exactly when it and everything newer fit the room |
| ContextPrune.MisplacedSystemIsDoubled | qingtian/common/llm.py:875-878 | a case of it in which a message that would fit is lost besides |
| ContextPrune.Longest | qingtian/common/llm.py:896-896 | the first of the messages with the largest estimate |
| Negotiation.RunKeeps | qingtian/huanyu/negotiation.py:150-304 | over every run counts stay between 0 and the limit and all three tables stay linked |
| Negotiation.StepRows | qingtian/huanyu/negotiation.py:181-304 | what one call may do to one negotiation: parties, limit and expiry fixed, the count rises only when the offer of this very call is recorded on an active row, which turns counter_proposed, statuses change along the graph and use up moves |
| Negotiation.OrdersTraceToAccepted | qingtian/huanyu/negotiation.py:549-762 | every purchase order of every run leads to an agreement whose negotiation is still accepted |
| Negotiation.FinalForever | qingtian/huanyu/negotiation.py:181-304 | accepted, rejected, cancelled and expired are never left and their rows are frozen |
| Negotiation.AtMostTwiceTheLimit | qingtian/huanyu/negotiation.py:181-304 | in any run at most 2 * limit + 1 steps change a negotiation's status |
| Negotiation.BoundIsReached | qingtian/huanyu/negotiation.py:212-304 | counter and reject until the limit, then accept, makes exactly that many |
| Negotiation.LateCounterIsSafeExactly | qingtian/huanyu/negotiation.py:227-235 | the unguarded update keeps limit and final statuses exactly when the row is not final and below its limit at that moment |
| Negotiation.OverlappingCountersPassTheLimit | qingtian/huanyu/negotiation.py:212-236 | two calls that both read before either writes pass the limit |
| Negotiation.LateCounterStrandsAgreement | qingtian/huanyu/negotiation.py:212-236 | a late update after acceptance leaves an agreement without an accepted negotiation |
| Negotiation.StepAgreements | qingtian/huanyu/negotiation.py:549-704 | agreements appear only for accepted negotiations, open and with the parties and the terms of the call, and move only along their graph |
| Negotiation.StepOrders | qingtian/huanyu/negotiation.py:709-813 | orders appear only for open or signed agreements, issued, with each field as given or, when blank, as agreed, and move only along their graph |
| Negotiation.OnlyPartiesSign | qingtian/huanyu/negotiation.py:647-669 | an open agreement becomes signed exactly by a signing call of one of its parties |
| Negotiation.ExpiresExactlyWhenStale | qingtian/huanyu/negotiation.py:473-482 | a negotiation expires exactly when it is active and past its time at an expiry run |
| Negotiation.PapersOnlyMoveForward | qingtian/huanyu/negotiation.py:647-813 | over any run agreements and orders only move forward, so at most twice, and never change their terms |
| Negotiation.BlankOrderSaysWhatWasAgreed | qingtian/huanyu/negotiation.py:709-745 | an order with blank fields carries the agreed terms, then and after any further calls |
| NegotiationService.Store.RecordCounter | qingtian/huanyu/negotiation.py:212-236 | refuses unknown rows, rows not active and rows at their limit, and otherwise counts, stores the offer and proposes; nothing else changes |
| NegotiationService.Store.TransitionNegotiation | qingtian/huanyu/negotiation.py:181-201 | only active rows can be accepted, rejected or cancelled by hand |
| NegotiationService.Store.AcceptCounter | qingtian/huanyu/negotiation.py:247-267 | only a proposed counter can be accepted |
| NegotiationService.Store.RejectCounter | qingtian/huanyu/negotiation.py:277-297 | only a proposed counter can be rejected, and the row is active again |
| NegotiationService.Store.ExpireStale | qingtian/huanyu/negotiation.py:473-482 | exactly the active rows past their time expire, and they are counted |
| NegotiationService.Store.CreateAgreement | qingtian/huanyu/negotiation.py:549-590 | an agreement needs an accepted negotiation and holds the parties and the terms given; nothing else changes |
| NegotiationService.Store.SignAgreement | qingtian/huanyu/negotiation.py:647-669 | only a party can sign, only an open agreement |
| NegotiationService.Store.TransitionAgreement | qingtian/huanyu/negotiation.py:687-706 | open and signed agreements can be completed, cancelled or disputed |
| NegotiationService.Store.CreateOrder | qingtian/huanyu/negotiation.py:709-745 | an order needs an open or signed agreement; fields left blank are taken over from it, the others kept |
| NegotiationService.Store.TransitionOrder | qingtian/huanyu/negotiation.py:795-813 | orders move from issued to confirmed to fulfilled, or from issued to cancelled |
| NegotiationService.OffersConverge | qingtian/huanyu/negotiation.py:323-349 | over the rounds quotes never rise and bids never fall nor pass the target |
| NegotiationService.PricesOfRounds | qingtian/huanyu/negotiation.py:323-349 | the bid and the quote of every round, in per cent |
| NegotiationService.Store.PlayRounds | qingtian/huanyu/negotiation.py:391-430 | whatever the number of rounds, the loop records one offer, the buyer at 0.90 of the target with that price times the quantity as its total, and stops; it accepts only when one round was asked for |
| NegotiationService.Store.AutoNegotiate | qingtian/huanyu/negotiation.py:352-468 | the outcome is that one offer, on the row and reported, accepted at 0.90 of the target price, with its total only for one round; without rounds the negotiation stays open |
| Supervisor.RunKeeps | qingtian/huanyu/agent_runtime.py:1107-1333 | in every run, calls at any await included, restarts are at least the consecutive ones, and a fatal agent has no process and nothing the monitor waits for |
| Supervisor.OnlyCallsReviveFatal | qingtian/huanyu/agent_runtime.py:1087-1111 | an agent that does not run, for which the monitor awaits nothing and no call is under way, is not changed by any number of steps until a call comes |
| Supervisor.LeavingFatal | qingtian/huanyu/api_xihe.py:183-361 | in every run a step that leaves the fatal state belongs to a call or is the agent's own report |
| Supervisor.DelaysNeverShrink | qingtian/huanyu/agent_runtime.py:1324-1329 | restart delays never shrink, whatever calls come in between, until an explicit reset |
| Supervisor.IndexNeverFalls | qingtian/huanyu/agent_runtime.py:468-468 | no step but a reset makes the backoff level fall |
| Supervisor.MonitorKeepsIndex | qingtian/huanyu/agent_runtime.py:592-596 | under monitor steps the backoff index stays inside the table |
| Supervisor.StartsAreLimited | qingtian/huanyu/agent_runtime.py:1298-1311 | automatic starts use up the starts that are left, over any run that forgets nothing |
| Supervisor.AtMostLimitMinusOneStarts | qingtian/huanyu/agent_runtime.py:1298-1333 | between two resets of the consecutive count there are at most max_retries - 1 automatic starts |
| Supervisor.OneCrash | qingtian/huanyu/agent_runtime.py:1235-1333 | one crash of a restartable agent: started again after the delay of its level, or fatal at the limit |
| Supervisor.FourthCrashIsFatal | qingtian/huanyu/agent_runtime.py:1235-1333 | with the default limit the waits are 3, 15 and 60 seconds and the fourth crash is fatal, against the description's five minutes |
| Supervisor.RestartExactlyByPolicy | qingtian/huanyu/agent_runtime.py:1278-1296 | below the limit a dead process comes back exactly when it has a command and its policy and exit code ask for it |
| Supervisor.CooldownOnlyAtThirdCrash | qingtian/huanyu/agent_runtime.py:598-618 | with the default limit only the third crash in a row can be forced to cool down, within three minutes of its last healthy start |
| Supervisor.CrashLoopNeverCools | qingtian/huanyu/agent_runtime.py:598-618 | a process that dies before its first good check is never put into cooldown |
| Supervisor.ProcessHealthForgets | qingtian/huanyu/agent_runtime.py:1136-1145 | without HTTP probes a good check forgets past restarts exactly when the process has been healthy for more than 300 seconds |
| Supervisor.HttpHealthNeverForgets | qingtian/huanyu/agent_runtime.py:1136-1159 | an agent that answers every HTTP probe, probed at most 300 seconds apart, never has its past restarts forgotten |
| Supervisor.OneFailureAfterRestart | qingtian/huanyu/agent_runtime.py:1148-1164 | after a crash for failed probes, of an adopted process too, one failed probe takes the restarted process down again |
| Supervisor.TakenOverNeverExitsCleanly | qingtian/huanyu/agent_runtime.py:1251-1296 | of a process that was taken over no exit code is known, so under the policy "on failure" a clean exit of it is followed by a start |
| Supervisor.StartedMeanwhile | qingtian/huanyu/agent_runtime.py:1330-1333 | an agent that a call started during the delay is not started once more |
| SupervisorCalls.PauseHoldsExactly | qingtian/huanyu/api_xihe.py:183-198 | for every moment at which it comes, a pause is kept by all that goes on without a further call exactly when no start is under way and the monitor awaits nothing, a probe that may fail once more, or the end of a process that is not to be restarted |
| SupervisorCalls.StopHoldsExactly | qingtian/huanyu/api_xihe.py:251-264 | the same for the writes of a stop, which also hold when a restart is asked for and there is no command |
| SupervisorCalls.WaitingStopHoldsExactly | qingtian/huanyu/agent_runtime.py:534-560 | a stop that waits for the process, with the monitor going on meanwhile, holds exactly when its writes would hold at once and a running agent has no command or no restart to ask for, and no probe that could crash it otherwise |
| SupervisorCalls.KeptExactly | qingtian/huanyu/agent_runtime.py:1107-1333 | a paused or stopped agent settles in no other status exactly when it is quiet in this sense |
| SupervisorCalls.RunningAgentMayComeBack | qingtian/huanyu/agent_runtime.py:534-560 | the stop of a running agent that is always restarted and has a command may fail to hold |
| SupervisorCalls.ProbeOverridesCall | qingtian/huanyu/agent_runtime.py:1148-1164 | an adopted agent with a command, an HTTP probe and one retry: a pause or a stop during the probe ends with the agent running |
| Supervisor.StartCallAlone | qingtian/huanyu/agent_runtime.py:450-532 | a start call in which nothing comes between its awaits is the uninterrupted start |
| Supervisor.UnforcedRestartKeepsCounters | qingtian/huanyu/api_xihe.py:271-293 | an unforced restart leaves the fatal state with its counters, and the next crash is fatal at once; a forced one clears them |
| SupervisorProcess.AgentProcess.CheckAgentHealth | qingtian/huanyu/agent_runtime.py:1107-1150 | one monitor round up to its HTTP probe: a dead process is noted with its exit code, a live one with the start of its healthy time, which forgets past restarts after 300 seconds |
| SupervisorProcess.AgentProcess.ProbeAnswered | qingtian/huanyu/agent_runtime.py:1150-1164 | the round from the answer on, whatever the status has become |
| SupervisorProcess.AgentProcess.HandleAgentCrash | qingtian/huanyu/agent_runtime.py:1251-1275 | crash handling up to the clearing of the process: exit code and status |
| SupervisorProcess.AgentProcess.DecideRestart | qingtian/huanyu/agent_runtime.py:1275-1322 | crash handling from there to its first sleep: restart policy, external process without a command, counters, fatal at the limit, cooldown within 180 seconds |
| SupervisorProcess.AgentProcess.TakeBackoff | qingtian/huanyu/agent_runtime.py:1324-1330 | the delay is 3, 15, 60 or 300 seconds by the level, and the level rises by one |
| SupervisorProcess.AgentProcess.StartAgent | qingtian/huanyu/agent_runtime.py:450-532 | uninterrupted: a running agent is left alone; otherwise the record is cleaned, the index clamped and the agent runs or is crashed |
| SupervisorProcess.AgentProcess.Launch | qingtian/huanyu/agent_runtime.py:462-470 | a start up to its spawn: no handles, starting, the index clamped, the new configuration |
| SupervisorProcess.AgentProcess.Spawned | qingtian/huanyu/agent_runtime.py:513-532 | a start from its spawn on |
| SupervisorProcess.AgentProcess.ResumeFromFatal | qingtian/huanyu/api_xihe.py:331-361 | only a fatal agent is reset, and goes on to be started when it starts automatically |
| SupervisorProcess.AgentProcess.Restart | qingtian/huanyu/api_xihe.py:271-293 | the counters are cleared only when forced and fatal, and a start is to follow |
| SupervisorProcess.AgentProcess.Pause | qingtian/huanyu/api_xihe.py:183-198 | any status becomes paused |
| SupervisorProcess.AgentProcess.Resume | qingtian/huanyu/api_xihe.py:201-236 | a paused agent runs again if its process lives, else it is stopped |
| SupervisorProcess.AgentProcess.Stop | qingtian/huanyu/api_xihe.py:239-268 | the agent is stopped and forgets its process |
| SupervisorProcess.AgentProcess.ReportStarted | qingtian/huanyu/api_xihe.py:366-388 | the agent's own report makes it running, from any status |
| Ain.ParseGenerate | qingtian/huanyu/ain.py:77-149 | for all fields of the grammar, base names with hyphens included, parsing the generated text gives exactly the fields, with or without one final line feed |
| Ain.NumberReads | qingtian/huanyu/ain.py:77-97 | the generated text, part by part, reads back as the record |
| Ain.FieldsOfRecord | qingtian/huanyu/ain.py:20-24 | the fields a record may have: their lengths, first characters and alphabets |
| Ain.ParseClearExactly | qingtian/huanyu/ain.py:20-24 | the clear pattern accepts exactly the written records, each with the fields it was written from |
| Ain.DistinctIdentities | qingtian/huanyu/ain.py:77-103 | distinct identities have distinct numbers |
| Ain.PatternsAreDisjoint | qingtian/huanyu/ain.py:20-30 | no string matches both the clear and the encrypted pattern |
| Ain.ParseSealedExactly | qingtian/huanyu/ain.py:26-30 | the encrypted pattern accepts exactly an organisation and two non-empty base64 layers, behind any version number |
| Ain.DecryptAgrees | qingtian/huanyu/ain.py:163-209 | the encrypted form shows the organisation only, and decrypting it gives the same record as the clear form |
| Ain.SealedReads | qingtian/huanyu/ain.py:97-124 | the encrypted text, part by part: which fields are in which layer under which key; a role without a colon is refused |
| Ain.DecryptedReads | qingtian/huanyu/ain.py:163-209 | whatever was encrypted, the record that comes out is what the two layers say, parted at their last colons |
| Ain.DecryptFailsExactly | qingtian/huanyu/ain.py:163-209 | none comes out exactly when a layer does not decrypt, has no colon, or names no place of three parts |
| Ain.ClearNeedsNoKeys | qingtian/huanyu/ain.py:97-101 | without both keys generation falls back to the clear form, which parses under any keys |
| PartNames.NamesSortByIndexExactly | qingtian/common/file_service.py:140-147 | part names sort by index for an upload of n chunks exactly when n is at most 10,000 |
| PartNames.NameOrder | qingtian/common/file_service.py:140-140 | below 10,000 name order is index order and names are distinct |
| PartNames.NamesRead | qingtian/common/file_service.py:140-140 | part names as they are written, indices below zero and above 9,999 included |
| PartNames.ListingIsUnique | qingtian/common/file_service.py:147-147 | a set of names has one sorted listing |
| PartNames.SortNames | qingtian/common/file_service.py:147-147 | the listing is sorted and complete |
| ChunkUpload.Uploads.UploadChunk | qingtian/common/file_service.py:111-166 | one chunk is stored, and with enough parts all are joined in name order and removed |
| ChunkUpload.WaitsForAll | qingtian/common/file_service.py:146-149 | when no part name begins with the identifier, nothing is joined until every index has arrived, in any order and with any repeats, and the directory holds exactly the arrived parts |
| ChunkUpload.WaitsExactlyWhenClean | qingtian/common/file_service.py:137-149 | an upload of two or more chunks waits for every index in every order exactly when no part name in the directory begins with its identifier |
| ChunkUpload.CompletesAtLastIndex | qingtian/common/file_service.py:146-166 | when the last missing index arrives the file is the chunks in index order and the part directory is as before the upload |
| ChunkUpload.UploadIsIdentity | qingtian/common/file_service.py:326-326 | cutting a file and uploading the slices in any order stores the file |
| ChunkUpload.AllSlices | qingtian/common/file_service.py:326-326 | the client's slices put together are the file |
| ChunkUpload.SlicesAreFull | qingtian/common/file_service.py:326-326 | all slices but the last are full and none is empty, each the bytes at its place |
| ChunkSessions.OthersDoNotMatter | qingtian/common/file_service.py:111-166 | among any arrivals of other uploads, none of whose identifiers is a prefix of the file's part names or the other way round, the file's chunks get the same replies and leave the same parts and stored file as without them |
| ChunkSessions.CompletesAmongOthers | qingtian/common/file_service.py:146-166 | then its last missing chunk completes it with the chunks in index order, and no part of it is left |
| TokenBucket.Limiter.TryAcquire | qingtian/common/ratelimit.py:29-39 | the method refills and takes as the specification says |
| TokenBucket.TokensInRange | qingtian/common/ratelimit.py:29-39 | over any run tokens stay between zero and the capacity |
| TokenBucket.WindowBound | qingtian/common/ratelimit.py:29-39 | in any window at most capacity plus inflow is granted |
| TokenBucket.FlowIsRateTimesLength | qingtian/common/ratelimit.py:33-34 | the inflow of an interval is the rate times its length |
| TokenBucket.GrantedExactlyWithinBound | qingtian/common/ratelimit.py:29-39 | a request is granted exactly when no window that ends with it would exceed its bound |
| TokenBucket.LevelIsLeastRoom | qingtian/common/ratelimit.py:33-36 | the level is the least room any window leaves |
| TokenBucket.PatienceIsServed | qingtian/common/ratelimit.py:29-39 | with capacity at least one, a request 1 / rate after the one before it is granted, and so is the first |
| PendingQueues.Bus.EnqueuePending | qingtian/common/bus.py:655-675 | room is made by dropping the oldest, then the count over all queues decides |
| PendingQueues.Bus.FlushPending | qingtian/common/bus.py:677-680 | a flush hands out the whole queue and removes it |
| PendingQueues.Bus.GlobalPendingCount | qingtian/common/bus.py:651-653 | the count is the sum over all queues |
| PendingQueues.AlwaysBounded | qingtian/common/bus.py:655-680 | over any run each queue has at most 200 events and all together at most 10,000 |
| PendingQueues.QueueIsNewestAccepted | qingtian/common/bus.py:655-680 | each queue is the newest accepted events since its last flush, in arrival order |
| PendingQueues.EveryEventAccountedFor | qingtian/common/bus.py:655-680 | every offered event is queued, delivered or dropped, with multiplicity |
| PendingQueues.FullQueueAccepts | qingtian/common/bus.py:662-675 | an old event is dropped only for a new one that gets in |
| PendingQueues.RefusedExactlyWhenAllFull | qingtian/common/bus.py:669-673 | a new event is refused exactly when its agent has fewer than 200 and all queues hold 10,000 |
| Text.JoinInjective | qingtian/huanyu/e2ee.py:83-96 | joining a fixed number of parts is injective as soon as one side is free of the separator |
| Text.SplitJoin | qingtian/huanyu/ain.py:20-24 | splitting joined separator-free parts gives the parts back |

## Left out

- HTTP, WebSocket, Redis and PostgreSQL: a table is a map or a sequence and a service call one step, unless its awaits are modelled as described above; Redis errors, key expiry and the unavailable-Redis branch are not modelled.
- Cryptographic primitives: a signature verifies only what was signed, a body opens only for the organisations and nonce it was sealed for, and a fresh nonce or body has not occurred before.
- The delivery protocol is a step relation over values, not a class: its state is spread over two databases and coroutines. Its loops over rows and sequence numbers are methods.
- Cross-organisation steps drop what only refuses an envelope: the receiver's nonce cache, the timestamp window and the status of an organisation's key; a replay that the cache would stop is allowed, and the theorems hold all the same.
- The fields of a transmitted envelope are taken to be free of the separator character, without which the signed text is ambiguous.
- The receiver's table holds incoming rows only; the sender's own rows and caller-chosen idempotency keys are separate.
- Unsigned hub_ack: any hub_ack may arrive at any time.
- The cross-base retry cron, peer replication of negotiations, message clean-up and the organisation's sequence generator.
- CrossOrgStatus.StatusGraph: for runs without a repeated send, without a late failure and with one active sweep at a time in each organisation, because each of them breaks it; FinalLeftIff and TransmissionLaw say what holds of all runs.
- CrossOrgStatus.FinalForever: for the same runs, for the same reason.
- CrossOrgStatus.RunInv: for the same runs.
- CrossOrgOnce.DeliveredExactlyOnce: every organisation is honest, that is, runs this code. The code resolves a waiting end_ack whichever active organisation signed it (messaging.py:589-597) and its idempotency key does not name the sender, so a dishonest third organisation is outside the theorem.
- CrossOrgOnce.AtMostOnce: for honest organisations, for the same reason.
- CrossOrgOnce.OneRowInAll: for honest organisations.
- CrossOrgOnce.DeliveredHadValidAttempt: for honest organisations.
- Rows that a repeated send finds under its key but that belong to another delivery channel (local or cross-base).
- ReplayWindow.NeverThrice: assumes no call is suspended longer than 295 seconds between its clock readings; the code does not bound that, and BoundsAreReached shows the limit is exact.
- ReplayWindow.OnceOnly: assumes no call is suspended longer than a second between its clock readings; OnceOnlyLimitIsExact shows the limit is exact.
- The clock of the replay guard and the rate limiter never runs backwards and, for the guard, is past its first second.
- Envelope and JSON texts are sequences of characters; UTF-8 is not modelled.
- JSON scalars are any text without braces, quotes and backslashes, which includes every number and literal; label lines are lowered for ASCII letters only.
- Truncation ratios are exact tenths.
- A message is its role and content; further keys are carried along unchanged by the source and not modelled.
- NegotiationService.Store.AutoNegotiate: prices are exact and not rounded to cents; sleeping and other callers between its steps are not modelled.
- NegotiationService.Store.PlayRounds: the same.
- NegotiationService.OffersConverge: prices are exact and not rounded to cents.
- Blocked or failing database updates inside a service call, audit records and notifications.
- Fresh identifiers of negotiations, agreements and orders are numbers from one counter.
- The supervisor handles one agent: batch throttling, overload protection, log collection, resource sampling, start-up reconciliation and adoption of external processes, which replaces the record, are not modelled; spawning and stopping are outcomes given from outside, and a stop always succeeds. A stop that comes while another call waits is that call's affair: what is proved of a pause or a stop is that the monitor and the starts under way leave it alone.
- Digits in identity numbers are ASCII digits.
- ChunkUpload.CompletesAtLastIndex: assumes that no part name begins with this file's identifier, without which WaitsExactlyWhenClean shows it fails; for one upload alone, with CompletesAmongOthers for several.
- ChunkUpload.WaitsForAll: the same.
- ChunkUpload.UploadIsIdentity: the same, and says nothing about chunks sent again after completion.
- Several server processes at work on one upload at the same time: a chunk is one step, as it is within one process.
- Path and file-name validation, download, listing and deletion of files.
- TokenBucket: floating-point rounding.
- Ratings, supplier ranking, routing tables, permissions and configuration.
