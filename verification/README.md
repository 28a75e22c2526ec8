# Verified model of K5 Vision's stateful cores

This project models the parts of K5 Vision that keep state over time or compute something in a
cleverer way than they are described, and proves what they are for. Each module follows one
component of the repository.

- `DeliveryJournal` and `JournalInvariant`: the integration journal, its operations as functions of
  the whole journal, and what each of them keeps. `JournalTrace` interleaves them with the producer
  of person events (`PersonEvents`) into runs that log what happened. The theorems about runs are in
  `JournalTheorems` (hand-outs), `JournalAnswers`, `JournalForwarding`, `JournalCoverage` (what
  forwarding misses) and `JournalGates` (handshakes); `JournalEffects`, `JournalPulls` and
  `JournalTurns` say what one operation, one pull and one turn of forwarding do, in terms of the rows
  alone; `JournalExample` and `JournalCrowded` hold concrete runs. `IntegrationStore` is the same
  journal as fields and statements, proved against those functions.
- `AuditLog` and `AuditAnswers`: the hash-chained log with its retention anchor, verification, paging
  and walks, and what it refuses. The digest is an arbitrary function, and tamper evidence is stated as "equal or a collision is in hand".
- `Sessions`, `SecondFactor`, `AccountSecurity`, `LoginProtocol`, `LoginBudget`, `LoginEffects` and
  `LoginExample`: the two session maps, durable second factors, challenges with epochs, every
  interleaving of `complete` with other logins and revocations, how many codes it lets through, and what
  each step leaves behind. Code between two suspension points is one step.
- `RateLimit`: the two sliding windows against the full history of what they admitted.
- `ProcessObserver`, `ObserverProgress` and `ObserverExample`: the capture and admission actors over
  their queue, registry and native handles, what becomes of one birth, and how a stopped observer ends.
- `ExportCache`, `ExportPruning`, `ExportJobs`, `ExportSections` and `SpanSweep`: eviction and pins of
  the export cache, what a prune removes, whole runs of jobs, readers and tasks, what each section does
  to its job, and the sweep over recording spans.
- `Boxes` and `VideoOffset`: the ISO box scanner with its printer, and the leading video offset.
- `LineCollector`: the bounded line splitter of the launcher's output.

A class stands where the source has an object with changing fields; each of its methods is proved
equal to a specification function (or to a property stated outright), and the theorems are about
those functions and whole runs of them. `dafny verify dfyconfig.toml` checks everything.

Some things the source's descriptions leave open turned out as follows.

- Resubmitting an accepted response is idempotent only while its row is stored. Retention counts
  the rows of all connections and runs inside `respond` alone, so an answered row may outlive 10,000
  newer ones; its response is then still a duplicate, but that call deletes the row, and the one
  after it is refused as uncorrelated. `JournalAnswers.ResubmitExact` gives the exact conditions and
  `JournalCrowded.DuplicateDeletesItself` a run after which it happens.
- `retry` sets attempts back to zero, so a delivery is answerable exactly from its first hand-out
  after the last retry (`JournalAnswers.AcceptedExactlySinceRetry`); `JournalExample.LateAnswerHappens`
  is a run whose answer comes too late.
- The observer's births, validating and pending do not always add up to the reservations: there are
  two short windows. `ProcessObserver.ObservedPipeline` says exactly which, and `ObserverExample`
  holds a run into each of them.
- A second cancellation of a preparation, or one before it ever ran, ends its task and leaves the
  job running: nothing finishes it, and it keeps its 256 MiB of the reservation
  (`ExportJobs.AbandonedForever`, and `ExportJobs.TaskedExactly` for when that does not happen).
- When `create` is refused for capacity, every evictable export has already been evicted
  (`ExportCache.CapacityExact`).
- `record` can raise after its commit, so a failed call may still have appended
  (`AuditLog.AuditStore.Record`).

## Model

| member | source | states |
|---|---|---|
| JournalTheorems.WholeJournalInvariant | src/k5vision/operator_integrations.py:319-754 | after any run: at most 16 connections, 1000 unanswered deliveries per connection, 10,000 answered deliveries and 10,000 received events; every unanswered delivery's camera is granted, every lease names an unanswered delivery, answered implies attempted implies sent, attempts never exceed 8 |
| JournalTrace.AlwaysSound | src/k5vision/operator_integrations.py:608-754 | after any run of all operations and the producer, every entry of the trace is justified by the entries before it and the tables mirror the trace |
| JournalPulls.PullExact | src/k5vision/operator_integrations.py:655-705 | an admitted pull fetches the first hundred unanswered deliveries of its connection with fewer than eight attempts; of these, those whose lease is over and whose camera is granted and known are ready, and exactly the first `limit` of them are handed out, in order, each with one more attempt, its replay flag and a new lease; nothing else in the journal changes |
| JournalPulls.PullRefused | src/k5vision/operator_integrations.py:655-660 | a limit outside 1 to 20 is refused first, and then whatever is not admitted |
| JournalTheorems.HandOutsSpaced | src/k5vision/operator_integrations.py:667-685 | two hand-outs of one delivery with no retry, update or restart between them go to one connection and are a whole backoff apart |
| JournalTheorems.BackoffSchedule | src/k5vision/operator_integrations.py:680-685 | the backoff is 2, 4, 8, 16, 32 and then 60 seconds |
| JournalTheorems.AtMostEightBetweenRetries | src/k5vision/operator_integrations.py:661-685 | any stretch of a run without a retry of its connection holds at most eight hand-outs of a delivery |
| JournalTheorems.ReplayMeansSentBefore | src/k5vision/operator_integrations.py:680-697 | `replay` is true exactly when the delivery was handed out before, across retries, updates and restarts |
| JournalTheorems.AcceptedNeverChanges | src/k5vision/operator_integrations.py:731-752 | a second acceptance of one delivery carries the same response and is flagged a duplicate |
| JournalTheorems.FirstAcceptanceIsNew | src/k5vision/operator_integrations.py:720-752 | only a delivery handed out before is ever answered, and the first acceptance is not called a duplicate |
| JournalTheorems.AnsweredNeverHandedOut | src/k5vision/operator_integrations.py:661-665 | after a response was accepted its delivery is never handed out again |
| JournalEffects.AnswerExact | src/k5vision/operator_integrations.py:707-754 | what an accepted answer leaves: its row answered, its lease gone, every other row unchanged, and of the answered rows exactly those with fewer than 10,000 newer ones |
| JournalAnswers.FirstAnswerExact | src/k5vision/operator_integrations.py:714-752 | what becomes of any answer to a stored, unanswered delivery, in any journal that satisfies the invariant: refused as uncorrelated before its first hand-out since a retry, then for its camera, then for its echo, and otherwise accepted as new |
| JournalAnswers.AcceptedExactlySinceRetry | src/k5vision/operator_integrations.py:714-752 | over any run, a well-formed answer in scope to a stored, unanswered delivery is accepted exactly when the delivery was handed out since the last retry of its connection, and otherwise refused as uncorrelated |
| JournalExample.LateAnswerHappens | src/k5vision/operator_integrations.py:493-512 | a concrete run that hands a delivery out, retries, shakes hands again, and has the answer refused |
| JournalAnswers.ResubmitExact | src/k5vision/operator_integrations.py:714-752 | an accepted response submitted again at any time, in any journal that satisfies the invariant: while its row is stored, the same response is a duplicate and another a conflict; the duplicate runs retention, so it changes nothing exactly when every answered row is among the newest 10,000, and deletes its own row exactly when that row is not |
| JournalAnswers.AcceptedForOne | src/k5vision/operator_integrations.py:707-754 | over any run, every accepted answer is about exactly one event: its delivery was queued for that event and its own connection, and for nothing else |
| JournalAnswers.ResubmitOverRuns | src/k5vision/operator_integrations.py:707-754 | over any run, from any accepted answer on: the event it was about is a duplicate or a conflict while its row is stored, and refused as uncorrelated once the row is gone, since no second delivery of it ever appears |
| JournalAnswers.SettledAfterAnswer | src/k5vision/operator_integrations.py:734-747 | after any accepted call no answered row is too old, so repeating it at once changes nothing more |
| JournalCrowded.CrowdedIsReached | src/k5vision/operator_integrations.py:608-754 | a run that records, hands out and has answered 10,000 events and queues one more ends in a journal whose oldest answered row has 10,000 newer ones |
| JournalCrowded.DuplicateDeletesItself | src/k5vision/operator_integrations.py:734-747 | at the end of that run the oldest response, accepted earlier in it, is accepted again as a duplicate, deletes its own row, and is refused the third time; a different response is a conflict |
| JournalForwarding.ScannedInOrder | src/k5vision/operator_integrations.py:618-653 | per connection, events are scanned in strictly ascending id order, so at most once, and enqueued in that order |
| JournalForwarding.EligibleIsEnqueued | src/k5vision/operator_integrations.py:608-653 | at any point of any run, each event a capture scans is enqueued exactly when its camera is granted to that connection and known at that moment, as an unsent delivery under a sequence no stored row had |
| JournalForwarding.CursorIsTheFrontier | src/k5vision/operator_integrations.py:618-653 | nothing beyond the cursor was scanned, and every event still stored at or behind it was |
| JournalCoverage.PassedExactly | src/k5vision/operator_integrations.py:618-653 | over any run, for every id at or behind a connection's cursor: one capture moved the cursor past it, the event had been stored by then, and it was scanned exactly if it was still stored at that moment, so only events pruned before the cursor reached them are missed |
| JournalCoverage.OnceStored | src/k5vision/operator_events.py:223-253 | over any run, every event id given out was stored at some moment |
| JournalForwarding.NothingQueuedBeyondCursor | src/k5vision/operator_integrations.py:644-653 | every queued delivery's event lies at or behind its connection's cursor |
| JournalTurns.TurnReaches | src/k5vision/operator_integrations.py:608-653 | one connection's turn: nothing for a disabled or analytic connection; otherwise the first 50 stored events past its cursor are scanned in order, and fewer only before one that is granted and known while a thousand deliveries are unanswered |
| JournalTurns.EveryoneHasATurn | src/k5vision/operator_integrations.py:612-653 | every connection listed has its turn and goes exactly as far as if it were the only one |
| JournalTurns.OnlyEnabledNeural | src/k5vision/operator_integrations.py:612-614 | at any point of any run forwarding scans and enqueues for enabled neural connections alone |
| JournalForwarding.BatchMeaning | src/k5vision/operator_integrations.py:629-653 | one turn scans a prefix of its batch, flags each event by whether its camera was granted and known, rests the cursor on the last one, and stops short only before an eligible event that found the queue full |
| JournalForwarding.BatchQueues | src/k5vision/operator_integrations.py:644-649 | a turn adds exactly the deliveries its log names, each for the event scanned, and touches no other row |
| JournalForwarding.CursorNeverDecreases | src/k5vision/operator_integrations.py:650-653 | no step of any run moves a connection's cursor back |
| JournalForwarding.QueuedOnce | src/k5vision/operator_integrations.py:618-653 | over any run no event is queued twice for one connection, not even after its row is gone |
| JournalForwarding.AlwaysQueued | src/k5vision/operator_integrations.py:608-754 | over any run every stored row is the one its scan queued: its connection and event never change |
| JournalEffects.IngestExact | src/k5vision/operator_integrations.py:522-576 | every way an inbound event can be taken, in the order of the checks: not admitted, the provider's clock ahead, the camera forbidden, a duplicate that changes nothing, a conflict, or stored as new; of all stored events exactly those with fewer than 10,000 newer ones stay |
| JournalGates.HandshakeFirst | src/k5vision/operator_integrations.py:447-520 | over any run, before every hand-out, accepted answer and ingested event of a connection comes a compatible handshake with no update, retry, deletion, restart or other handshake in between, and a hand-out follows it within a minute |
| JournalGates.ClosedUntilHandshake | src/k5vision/operator_integrations.py:514-520 | between an update, a retry, a deletion or a restart and the next compatible handshake nothing is handed out, accepted or ingested for that connection |
| JournalGates.AdministrationCloses | src/k5vision/operator_integrations.py:514-520 | right after an update, a retry, a deletion or a restart no machine operation is admitted, whatever token is presented |
| JournalGates.HandshakeOpens | src/k5vision/operator_integrations.py:447-520 | a handshake opens the machine operations exactly if it is compatible, for one minute, for its own token and kind of connection |
| JournalExample.StoryHappens | src/k5vision/operator_integrations.py:608-754 | a concrete run in which an event is queued, handed out, replayed, answered and the answer repeated, so the statements about such traces have instances |
| JournalEffects.MachineExact | src/k5vision/operator_integrations.py:420-520 | a machine operation is admitted exactly for the connection's own token and kind, while it is enabled and its handshake has not run out |
| JournalEffects.CreateExact | src/k5vision/operator_integrations.py:319-355 | refused for an enabled connection without cameras or the seventeenth; otherwise one row is added, at generation 1 and cursor 0 |
| JournalEffects.UpdateExact | src/k5vision/operator_integrations.py:357-405 | exactly what is named is replaced, the generation grows, exactly the unanswered deliveries of cameras no longer granted are discarded, and handshake and leases of the connection are void |
| JournalEffects.NewTokenReplaces | src/k5vision/operator_integrations.py:357-405 | after an update with a new token nobody who presents any other is admitted or can shake hands |
| JournalEffects.DeleteExact | src/k5vision/operator_integrations.py:407-418 | the connection goes with exactly its deliveries, received events, handshake and leases |
| JournalEffects.RetryExact | src/k5vision/operator_integrations.py:493-512 | exactly the unanswered deliveries of the connection get their attempts back, and its handshake and leases are void |
| JournalEffects.ShakeHandsExact | src/k5vision/operator_integrations.py:447-482 | only the holder of an enabled connection's token is heard; a compatible handshake lasts 60 seconds, any other closes, and no other connection is touched |
| JournalInvariant.CreateKeepsInv | src/k5vision/operator_integrations.py:319-355 | creating a connection keeps the whole-journal invariant |
| JournalInvariant.UpdateKeepsInv | src/k5vision/operator_integrations.py:357-405 | an update, which discards what is no longer granted and voids leases and handshake, keeps the invariant |
| JournalInvariant.DeleteKeepsInv | src/k5vision/operator_integrations.py:407-418 | deleting a connection with everything that refers to it keeps the invariant |
| JournalInvariant.RetryKeepsInv | src/k5vision/operator_integrations.py:493-512 | giving attempts back keeps the invariant |
| JournalInvariant.HandshakeKeepsInv | src/k5vision/operator_integrations.py:447-482 | a handshake, compatible or not, keeps the invariant |
| JournalInvariant.RestartKeepsInv | src/k5vision/operator_integrations.py:131-220 | losing the in-memory leases and handshakes keeps the invariant |
| JournalInvariant.CaptureKeepsInv | src/k5vision/operator_integrations.py:608-653 | forwarding over any order of connections keeps the invariant |
| JournalInvariant.PullKeepsInv | src/k5vision/operator_integrations.py:655-705 | a pull keeps the invariant |
| JournalInvariant.RespondKeepsInv | src/k5vision/operator_integrations.py:707-754 | an answer and its retention delete keep the invariant |
| JournalInvariant.IngestKeepsInv | src/k5vision/operator_integrations.py:522-576 | an inbound event and its retention delete keep the invariant |
| IntegrationStore.OperatorIntegrationStore.Create | src/k5vision/operator_integrations.py:319-355 | the statements of `create` do what the journal's specification says or refuse and change nothing |
| IntegrationStore.OperatorIntegrationStore.Update | src/k5vision/operator_integrations.py:357-405 | the same of `update` |
| IntegrationStore.OperatorIntegrationStore.DiscardUngranted | src/k5vision/operator_integrations.py:394-401 | the row-by-row loop discards exactly the unanswered rows whose camera is no longer granted |
| IntegrationStore.OperatorIntegrationStore.Delete | src/k5vision/operator_integrations.py:407-418 | the same of `delete` |
| IntegrationStore.OperatorIntegrationStore.Retry | src/k5vision/operator_integrations.py:493-512 | the same of `retry` |
| IntegrationStore.OperatorIntegrationStore.ShakeHands | src/k5vision/operator_integrations.py:447-482 | the same of `handshake` |
| IntegrationStore.OperatorIntegrationStore.CapturePersonEvents | src/k5vision/operator_integrations.py:608-653 | the nested loops enqueue exactly what the specification forwards, in its order |
| IntegrationStore.OperatorIntegrationStore.Pull | src/k5vision/operator_integrations.py:655-705 | the same of `pull` |
| IntegrationStore.OperatorIntegrationStore.HandOutReady | src/k5vision/operator_integrations.py:667-704 | the pull loop hands out exactly the ready rows, up to the limit |
| IntegrationStore.OperatorIntegrationStore.Respond | src/k5vision/operator_integrations.py:707-754 | the same of `respond` |
| IntegrationStore.OperatorIntegrationStore.Ingest | src/k5vision/operator_integrations.py:522-576 | the same of `ingest` |
| PersonEvents.RecordKeepsSource | src/k5vision/operator_events.py:223-253 | recording keeps the event table bounded and free of duplicates, drops only the oldest ids, and never reuses an id |
| PersonEvents.RecordIdempotent | src/k5vision/operator_events.py:225-236 | the same frame recorded again changes nothing |
| PersonEvents.RecordedExact | src/k5vision/operator_events.py:223-253 | a frame is remembered exactly for a known camera with analytics on that was not at that frame already, and becomes an event under the next id exactly if besides it is to be emitted and not there yet; only then, in a table of 100,000 events, the oldest one goes and no other |
| PersonEvents.OperatorEventStore.Record | src/k5vision/operator_events.py:223-256 | the transaction does what the specification says and reports whether a row was inserted |
| AuditLog.RunRefinesIdeal | src/k5vision/operator_audit.py:418-546 | a run of `record` calls with any faults, on any earlier history, leaves the bounded image of exactly that history and the committed appends; it verifies, and the latch is set exactly when some call failed |
| AuditLog.ImageHoldsNewest | src/k5vision/operator_audit.py:505-546 | the bounded image of n events holds ids n-MAX+1 to n with their events, the digest fold of the dropped prefix and that of the whole history |
| AuditLog.AppendRefines | src/k5vision/operator_audit.py:486-546 | one append to the bounded image is one append to the unbounded history, before and after retention starts dropping rows |
| AuditLog.ImageChained | src/k5vision/operator_audit.py:396-416 | `_verify_chain` accepts the store's own database |
| AuditLog.AcceptedExactlyViews | src/k5vision/operator_audit.py:396-416 | given the genuine tail and a collision-free digest, a database is accepted exactly when it is the true history seen from its own anchor |
| AuditLog.RowEditsRefused | src/k5vision/operator_audit.py:396-416 | any edit, deletion, insertion or reordering of retained rows under an untouched state row is refused |
| AuditLog.TamperEvidence | src/k5vision/operator_audit.py:165-167 | two accepted databases with one state row are equal, or they exhibit a digest collision |
| AuditLog.NoFalseAlarm | src/k5vision/operator_audit.py:592-630 | the checks inside `events` never raise on the store's own database |
| AuditLog.PageMeaning | src/k5vision/operator_audit.py:592-630 | a page holds genuine rows, newest first, and every selected row between its cursor and the one it hands on |
| AuditLog.WalkDescends | src/k5vision/operator_audit.py:548-630 | following `next_before` while the log grows, ids strictly decrease from page to page, so no row repeats |
| AuditLog.WalkComplete | src/k5vision/operator_audit.py:548-630 | a finished walk returned every row that matched at its first page unless retention had dropped it when its page was read |
| AuditAnswers.PageExact | src/k5vision/operator_audit.py:592-630 | a page of the store's own database in terms of the history: exactly the retained events that match between its cursor and the one it hands on, newest first, never more than the limit and no fewer if there are more, with both digests; its totals are those of the retained history |
| AuditAnswers.PageRefused | src/k5vision/operator_audit.py:592-620 | on any database a page is refused exactly if the state row or the number of rows is wrong or some selected row does not rehash or does not carry on from the row before it |
| AuditAnswers.MatchesExact | src/k5vision/operator_audit.py:571-590 | a row answers a query exactly if every condition named holds of it, the end of the time range excluded |
| AuditAnswers.AppendRefused | src/k5vision/operator_audit.py:486-546 | on any database an append is refused exactly if the state row is wrong, the tail is missing or does not rehash to the recorded digest, the ids are used up, the next is taken, or the new anchor is missing |
| AuditAnswers.AppendWrites | src/k5vision/operator_audit.py:505-546 | what an append writes: one row, and past 100,000 rows a higher anchor without the rows up to it |
| AuditLog.AuditStore.VerifyChain | src/k5vision/operator_audit.py:396-416 | the scanning loop accepts exactly the chained databases |
| AuditLog.AuditStore.Check | src/k5vision/operator_audit.py:436-438 | `check` answers the last id exactly if nothing failed before, nothing fails now and the state row is as it must be; otherwise it latches the store failed |
| AuditLog.AuditStore.Record | src/k5vision/operator_audit.py:418-546 | one call is one step of the runs above; a store that failed appends nothing more, a failure past the commit has appended, and every failure latches |
| AuditLog.AuditStore.RowsIntact | src/k5vision/operator_audit.py:606-620 | the loop over a page's rows finds exactly whether all of them rehash and link |
| AuditLog.AuditStore.Admits | src/k5vision/operator_audit.py:548-591 | the checks on a query refuse exactly bad limits and cursors, unknown action and outcome names and half or empty time ranges |
| AuditLog.AuditStore.Events | src/k5vision/operator_audit.py:548-630 | `events` refuses inadmissible queries without latching, and otherwise returns the page or latches; an earlier failure makes no difference to its answer |
| LoginProtocol.CompleteIsSafe | src/k5vision/operator_identity_security_api.py:165-207 | in every interleaving, a token returned by `complete` is its user's single live session, for the factor generation of the challenge, and no invalidation of the user happened since the challenge, nor since its primary start when one was given |
| LoginProtocol.ChallengeCompletesOnce | src/k5vision/operator_identity_security.py:507-525 | no challenge is answered by two returned tokens |
| LoginProtocol.SessionsStayInverse | src/k5vision/auth_sessions.py:124-220 | in every interleaving the two session maps stay mutually inverse |
| LoginProtocol.InvalidationIsFinal | src/k5vision/operator_identity_security.py:386-394 | once a user was invalidated, no flow of an older challenge returns a token |
| LoginProtocol.AlwaysInv | src/k5vision/operator_identity_security_api.py:165-207 | the protocol invariant: epochs never exceed the revision, every pending challenge and flow is guarded, challenge keys are never shared |
| LoginBudget.CompletionExact | src/k5vision/operator_identity_security.py:443-525 | against the history of charges: a code gets to the store exactly if its challenge is unexpired, the user has fewer than ten charges in 300 seconds and is active or finds one of 1,024 slots, the epoch is current and the registry agrees; the login is returned exactly if the code then proves the factor and the registry still agrees; any other code spends nothing and leaves an unexpired challenge |
| LoginBudget.AtMostTenCodes | src/k5vision/operator_identity_security.py:453-525 | in every interleaving no more than ten codes for one user get to the store in any 300 seconds |
| AccountSecurity.PasswordExact | src/k5vision/operator_identity_security.py:465-505 | which password logins are refused, which need no second factor, and which challenges are pending afterwards, the new one with its account, epoch, enrolment and deadline |
| AccountSecurity.InvalidatedExact | src/k5vision/operator_identity_security.py:386-394 | the revision grows, the user's epoch is the new revision, and exactly the user's challenges are gone |
| AccountSecurity.AccountSecurityService.InvalidateUser | src/k5vision/operator_identity_security.py:386-394 | a new epoch for the user, and none of the user's challenges left |
| LoginProtocol.StaleStartRefused | src/k5vision/operator_identity_security.py:396-427 | what the number `primary_started` answers is for: in any interleaving, a password login that began before an invalidation of its user gets no challenge and changes nothing |
| LoginProtocol.FinishReturnsExactly | src/k5vision/operator_identity_security_api.py:165-207 | the last step of `complete` returns its token exactly if the session just resolved is still the installed one, unexpired and accepted by the registry, and epoch and enrolment are still those of the challenge |
| LoginEffects.CallExact | src/k5vision/operator_identity_security_api.py:165-207 | one whole `complete` call in any run: without a pending login only the code had an effect; with one, the token is returned as its user's only session exactly if the session was unexpired at both sections and both registry reads accept; otherwise the user is left without a session, and if it was still installed at the refusal every login the user began is void too |
| LoginEffects.LogoutExact | src/k5vision/auth_sessions.py:198-210 | in any run a logout ends exactly the session of its token and invalidates its user, and an unknown token changes nothing |
| LoginEffects.RevokeExact | src/k5vision/auth_sessions.py:212-220 | revoking a user ends the user's session and no other, and invalidates the user whether or not there was one |
| LoginEffects.RefusedExact | src/k5vision/operator_identity_security_api.py:196-207 | the token of a call that refused is out: no session of it is left, and its user is invalidated if it was still installed |
| LoginEffects.IssueExact | src/k5vision/auth_sessions.py:124-147 | in any run a fresh token replaces its user's session and no other, with a record no session had |
| LoginEffects.PasswordLogs | src/k5vision/operator_identity_security.py:465-505 | a password login touches neither sessions nor factors, and a new challenge is remembered with its factor and its start |
| LoginEffects.QuietSteps | src/k5vision/auth_sessions.py:149-164 | a start notes the revision; an expired session that is looked up goes from both maps, without an invalidation |
| LoginExample.TokenReturned | src/k5vision/operator_identity_security_api.py:165-207 | a concrete run from password to returned token, so that the guarantees of a returned token have an instance |
| AccountSecurity.AccountSecurityService.Prune | src/k5vision/operator_identity_security.py:443-451 | the loops drop exactly the expired challenges and the stale attempt queues |
| AccountSecurity.AccountSecurityService.ChargeAttempt | src/k5vision/operator_identity_security.py:453-463 | prunes by one clock reading and charges one attempt by the next, or refuses, as the budget specification says |
| AccountSecurity.AccountSecurityService.AuthenticatePassword | src/k5vision/operator_identity_security.py:465-505 | refusal, no factor with the current epoch, or a new challenge pinned to epoch and generation |
| AccountSecurity.AccountSecurityService.Complete | src/k5vision/operator_identity_security.py:507-525 | the order of pruning, charging, checking, spending, popping and re-checking, with every early refusal |
| AccountSecurity.AccountSecurityService.ValidateIssuedFactor | src/k5vision/operator_identity_security.py:527-541 | true exactly while epoch, registry and factor generation are the challenge's |
| SecondFactor.CountersIncrease | src/k5vision/operator_identity_security.py:272-324 | whatever the UTC clock does, the counters accepted for one generation strictly increase from the enrolment counter (RFC 6238, section 5.2) |
| SecondFactor.EnrolledFirst | src/k5vision/operator_identity_security.py:248-270 | a generation is enrolled once, before anything else happens to it |
| SecondFactor.RecoveryCodesLeft | src/k5vision/operator_identity_security.py:272-344 | the codes left are those last issued less those accepted since: ten minus the uses |
| SecondFactor.RecoveryCodeUsedOnce | src/k5vision/operator_identity_security.py:272-344 | between two acceptances of one recovery code its user was issued new codes |
| SecondFactor.ProvedExact | src/k5vision/operator_identity_security.py:272-318 | what a code proves: nothing without the pinned enrolment; a recovery code, that it is one of those left; six digits, the first of the three counters around the present one that is not negative, newer than the last accepted and produces them |
| SecondFactor.SpentExact | src/k5vision/operator_identity_security.py:286-318 | spending moves the counter to the one proved or strikes out the first copy of the code, and nothing else |
| SecondFactor.AccountSecurityStore.Enable | src/k5vision/operator_identity_security.py:248-270 | enrols exactly when no factor is there |
| SecondFactor.AccountSecurityStore.Consume | src/k5vision/operator_identity_security.py:272-324 | the matching loops accept exactly what proves the factor now, and spend it |
| SecondFactor.DisabledAcceptsNothing | src/k5vision/operator_identity_security.py:272-331 | after `disable`, through any further run, no code of any kind is accepted for the user and nothing is logged for the user until the next enrolment |
| SecondFactor.AccountSecurityStore.ReplaceRecovery | src/k5vision/operator_identity_security.py:333-344 | replaces the recovery codes of an enrolled factor and nothing else |
| Sessions.ResolveSpansTheRead | src/k5vision/auth_sessions.py:149-196 | in every interleaving with the registry read, `resolve` returns an account exactly when the registry accepts it, the session is unexpired at the second section, and nothing ended this session in between |
| Sessions.FirstSectionExact | src/k5vision/auth_sessions.py:149-164 | the first section goes on to the registry exactly for an unexpired session, and drops an expired one from both maps |
| Sessions.IssueKeepsInverse | src/k5vision/auth_sessions.py:124-147 | with a fresh token, issuing replaces exactly the user's previous session |
| Sessions.ReusedTokenBreaksInverse | src/k5vision/auth_sessions.py:124-147 | a digest reused for another user would break the inverse: freshness is needed |
| Sessions.UserDropKeepsInverse | src/k5vision/auth_sessions.py:212-220 | revoking a user removes exactly that user's session |
| Sessions.UserSessionManager.Issue | src/k5vision/auth_sessions.py:124-147 | the dictionary updates of `issue` and the inverse they keep |
| Sessions.UserSessionManager.ResolveFirst | src/k5vision/auth_sessions.py:149-164 | the first critical section: missing, expired and dropped, or a record to read for |
| Sessions.UserSessionManager.ResolveSecond | src/k5vision/auth_sessions.py:185-196 | the second critical section compares the record itself, not its value |
| Sessions.UserSessionManager.Revoke | src/k5vision/auth_sessions.py:198-210 | revokes one token and names the user to notify, or does nothing |
| Sessions.UserSessionManager.RevokeUser | src/k5vision/auth_sessions.py:212-220 | revokes the user's session if there is one |
| RateLimit.AdmitsExactlyUnderLimit | src/k5vision/main.py:162-179 | over any run the verdict depends only on the full history: admitted exactly when the window holds fewer admissions than the limit |
| RateLimit.NeverOverLimit | src/k5vision/main.py:162-179 | no window of the configured length, wherever it ends, holds more admissions than the limit |
| RateLimit.RetryAfterSuffices | src/k5vision/main.py:176-177 | waiting the returned Retry-After with no other call is always enough |
| RateLimit.RetryAfterTight | src/k5vision/main.py:176-177 | nor is it a second too long: a caller that comes back a whole second earlier is still refused |
| RateLimit.RetryAfterLeast | src/k5vision/main.py:176-177 | Retry-After is at least one second, and exactly one when the oldest admission leaves the window within it |
| RateLimit.QueuesBounded | src/k5vision/main.py:171-178 | a queue never outgrows its limit |
| RateLimit.DeviceRequestRateLimiter.Consume | src/k5vision/main.py:162-179 | the popping loop and the append do what the specification says |
| RateLimit.ChargeExact | src/k5vision/operator_identity_security.py:443-463 | although `_prune` forgets users, a charge is granted exactly when the user has fewer than ten in the last 300 seconds and is active or finds a free slot |
| RateLimit.NeverOverBudget | src/k5vision/operator_identity_security.py:443-463 | over any run of charges and of the prunes other operations make, no user is granted more than ten charges in any 300 seconds |
| ProcessObserver.ObservedPipeline | scripts/installed_alpha_facade_witness.py:719-824 | births, validating and pending equal the capture order exactly outside two windows: between admitting a birth and clearing `validating`, and once a record was given up; before a stop the second is exactly the admission actor's failure on its way to being published |
| ObserverExample.AdmittedAndShown | scripts/installed_alpha_facade_witness.py:792-824 | a concrete run without a stop in the first window: the birth is counted twice |
| ObserverExample.GivenUpUnpublished | scripts/installed_alpha_facade_witness.py:792-824 | a concrete run without a stop in the second window: the record is counted nowhere |
| ProcessObserver.AdmittedInCaptureOrder | scripts/installed_alpha_facade_witness.py:719-824 | admitted births are at all times a prefix of the capture order, reservations are numbered in order, and at most one record is between queue and births |
| ProcessObserver.ReconciledMeansComplete | scripts/installed_alpha_facade_witness.py:882-889 | `reconciled(n)` implies exactly n distinct births, all admitted, every class within its cap, none given up |
| ProcessObserver.FinishDemandsCompleteness | scripts/installed_alpha_facade_witness.py:855-913 | over any run `finish(n)` stops the actors and leaves no error exactly if there was none before, n is within the process limit, exactly n births were captured and all of them admitted in order, and nothing is queued or being validated; an error stays whatever follows |
| ObserverExample.ReconcilesOne | scripts/installed_alpha_facade_witness.py:882-913 | a concrete run that reconciles one birth and finishes without an error |
| ProcessObserver.HandlesNeverReused | scripts/installed_alpha_facade_witness.py:697-707 | no handle is touched, posted to or closed after it was closed, so no wake reaches a released port and none is closed twice |
| ProcessObserver.ExitClosesEverything | scripts/installed_alpha_facade_witness.py:855-872 | when both actors have left, every handle ever opened has been closed |
| ProcessObserver.SharedHandlesOutliveThreads | scripts/installed_alpha_facade_witness.py:855-872 | registered handles, the port and the job handle stay open until both actors are done |
| ProcessObserver.AlwaysInv | scripts/installed_alpha_facade_witness.py:697-913 | the invariant of every interleaving: pipeline, registry, handles and threads |
| ObserverProgress.BirthReserved | scripts/installed_alpha_facade_witness.py:709-780 | one birth, for all answers of the environment: it is numbered, reserved and queued and its handle registered exactly if it opened, its creation time was read, its key is new, the limit is not reached and its image was read; a repeated birth only closes its handle; anything else is the published failure, with nothing reserved and an opened handle closed |
| ObserverProgress.RecordAdmitted | scripts/installed_alpha_facade_witness.py:782-824 | one queued record: admitted exactly if it hashes to a class whose cap is not reached and no stop comes meanwhile, off the queue and no longer shown in any case, and without a stop a record that is not admitted is a failure |
| ObserverProgress.LoopsExact | scripts/installed_alpha_facade_witness.py:799-853 | one turn of either loop: the capture actor leaves for a stop, a quit packet or a failed read and otherwise reads on; the admission actor leaves for a stop or for an empty queue nobody fills any more, and otherwise waits or takes the oldest record |
| ObserverProgress.LeavesNothingBehind | scripts/installed_alpha_facade_witness.py:799-853 | over any run, an admission actor that is over without a stop leaves the capture actor done, the queue empty and every captured birth admitted |
| ObserverProgress.ErrorsExact | scripts/installed_alpha_facade_witness.py:662-707 | which steps of a run are errors, and that whatever is an error stops both threads while besides only `finish` does |
| ObserverProgress.WakesWhileOpen | scripts/installed_alpha_facade_witness.py:697-707 | a wake posts to the port exactly while it is open, and a thread that wakes always finds it open |
| ObserverProgress.ReleasedOnce | scripts/installed_alpha_facade_witness.py:855-872 | the shared handles are closed in one step, each once, by the first release after both threads are done |
| ObserverProgress.StoppedStandsStill | scripts/installed_alpha_facade_witness.py:764-824 | once stopped, nothing more is reserved, taken off the queue or admitted, whatever was on its way |
| ObserverProgress.StoppedEnds | scripts/installed_alpha_facade_witness.py:662-872 | once stopped, whatever the environment answers and however they interleave, the two threads together take at most seventeen more turns, and a thread that has not left has one to take |
| ObserverProgress.CancelledEnds | scripts/installed_alpha_facade_witness.py:799-893 | from every reachable state a cancellation leads to an end: both threads gone and every handle ever opened closed |
| ExportJobs.ReservedEverAfter | src/k5vision/operator_exports.py:490-541 | from the first successful `create` on, through every later step, 256 MiB per running job plus the bytes of the others stays within 1 GiB, with at most 16 jobs and two tasks |
| ExportJobs.TaskedExactly | src/k5vision/operator_exports.py:538-541 | over any run every running job has a task exactly when no task was cancelled before it ran, or cancelled again while it waited for its thread |
| ExportJobs.AbandonedForever | src/k5vision/operator_exports.py:664-676 | such a job stays running without a task through every later run: nothing finishes or evicts it, and it is charged 256 MiB throughout |
| ExportJobs.AbandonmentHappens | src/k5vision/operator_exports.py:664-676 | a concrete run that leaves a job preparing with no task |
| ExportCache.EvictExact | src/k5vision/operator_exports.py:471-488 | making room succeeds exactly when the jobs nothing may evict leave enough of it; otherwise everything else is already gone |
| ExportCache.CapacityExact | src/k5vision/operator_exports.py:490-541 | with a cooperating file system `create` is refused for capacity exactly when pinned and running jobs alone leave no room, and then every other job has been evicted |
| ExportPruning.ExpiredGo | src/k5vision/operator_exports.py:467-470 | every finished job without readers is gone once it has expired, unless its files cannot go |
| ExportPruning.MissingForRoom | src/k5vision/operator_exports.py:454-488 | a job that had not expired, or whose files cannot go, is missing after a prune only if it was finished, without readers and removable, the jobs still there when it went left no room, and none that might have gone instead expired earlier |
| ExportPruning.RoomKeepsAll | src/k5vision/operator_exports.py:467-480 | if the unexpired jobs and the expired ones that cannot go fit, exactly these stay, in their order |
| ExportPruning.PruneRoomExact | src/k5vision/operator_exports.py:471-488 | a prune succeeds exactly if what it leaves fits, and otherwise the next job to go cannot |
| ExportPruning.PruneUnavailable | src/k5vision/operator_exports.py:454-466 | a prune fails before it touches any job exactly if the cache is unsafe or an orphaned file cannot go |
| ExportPruning.CreateExact | src/k5vision/operator_exports.py:510-541 | every refusal of `create` in its order, and the job it queues behind what the prune left |
| ExportCache.EvictSplits | src/k5vision/operator_exports.py:471-488 | no job is lost or invented, and only evictable ones go |
| ExportCache.VictimsByExpiry | src/k5vision/operator_exports.py:487-488 | victims go in expiry order, and none expires later than an evictable job that stays |
| ExportCache.EveryVictimNeeded | src/k5vision/operator_exports.py:473-480 | no victim is evicted in vain: while it was there, there was no room |
| ExportCache.PinnedJobsStay | src/k5vision/operator_exports.py:437-488 | no prune removes or reorders a running job or one with open readers |
| ExportJobs.StepKeepsInvariants | src/k5vision/operator_exports.py:454-702 | every section of every operation keeps the cache sound and the reservation in force, and all but the abandoning of a task keep a task for every running job |
| ExportJobs.ExportManager.Remove | src/k5vision/operator_exports.py:437-452 | refused for a job with readers or stuck files, and otherwise removes just that job |
| ExportJobs.ExportManager.Prune | src/k5vision/operator_exports.py:454-488 | the three loops leave what the specification says and raise when it says |
| ExportJobs.ExportManager.SweepExpired | src/k5vision/operator_exports.py:467-470 | the expiry pass over a snapshot removes exactly the expired, unpinned jobs whose files can go |
| ExportJobs.ExportManager.MakeRoom | src/k5vision/operator_exports.py:471-488 | the capacity loop terminates and evicts as specified |
| ExportJobs.ExportManager.Create | src/k5vision/operator_exports.py:510-541 | `create` after the provider answered: every refusal, and on success the reservation in force |
| ExportJobs.ExportManager.AuditJob | src/k5vision/operator_exports.py:307-332 | an audit record succeeds exactly if the audit never failed and accepts it, and the first failure latches |
| ExportJobs.ExportManager.StartPreparing | src/k5vision/operator_exports.py:633-637 | the first section of `_prepare` |
| ExportJobs.ExportManager.FinishPreparing | src/k5vision/operator_exports.py:664-702 | the last section of `_prepare`: ready exactly when the thread passed, its size is in range, nobody cancelled and the completion was audited; otherwise failed with no bytes, and the failure audited |
| ExportJobs.ExportManager.EndVerification | src/k5vision/operator_exports.py:588-600 | the last section of `verify_ready`: admitted, or failed and audited once |
| ExportJobs.ExportManager.OpenFile | src/k5vision/operator_exports.py:602-627 | a reader is counted exactly for an admitted, ready, intact file, and refused otherwise |
| ExportJobs.ExportManager.ReleaseFile | src/k5vision/operator_exports.py:629-631 | one reader fewer, never below zero |
| ExportSections.PreparingExact | src/k5vision/operator_exports.py:633-662 | only a queued job with a task becomes preparing, and bytes are reported for a preparing job alone |
| ExportSections.FinishExact | src/k5vision/operator_exports.py:664-702 | a preparation ends ready and admitted exactly if the thread passed with 32 bytes to 256 MiB, nobody cancelled and a working audit took the completion; otherwise failed with no bytes, the failure offered to the audit, and any record refused latched |
| ExportSections.ReadmitExact | src/k5vision/operator_exports.py:588-600 | a verification admits a finished job or fails it, and a ready one's failure that the audit does not take latches |
| ExportSections.OpenExact | src/k5vision/operator_exports.py:602-627 | a file is opened exactly for a ready, admitted job whose file is intact, and counts one reader more |
| ExportSections.ReleaseExact | src/k5vision/operator_exports.py:629-631 | one reader of that job fewer, and never fewer than none |
| ExportSections.EndsExact | src/k5vision/operator_exports.py:538-541 | a task goes exactly when its job is gone or no longer runs |
| SpanSweep.Recorded | src/k5vision/operator_exports.py:515-522 | the sweep accepts a selection exactly when no unrecorded open interval longer than a millisecond lies inside it, for any overlapping, nested or unordered spans of positive length |
| SpanSweep.SortingKeepsCoverage | src/k5vision/operator_exports.py:516-516 | sorting the spans changes neither the spans nor the gaps |
| Boxes.ScanPrinted | src/k5vision/operator_export_validator.py:13-34 | boxes printed with 32-bit, 64-bit or to-end sizes scan back to exactly their payload ranges, unless there are more than 100,000 |
| Boxes.AcceptedIsPrinted | src/k5vision/operator_export_validator.py:13-34 | whatever the scanner accepts is the printing of some boxes with those ranges: none is skipped, cut or overlapped |
| Boxes.ScanExact | src/k5vision/operator_export_validator.py:13-34 | a range scans exactly when it is the printing of at most 100,000 boxes |
| Boxes.ScanTiles | src/k5vision/operator_export_validator.py:13-34 | the yielded boxes tile their parent, header after payload, from end to end |
| Boxes.TilesInside | src/k5vision/operator_export_validator.py:13-34 | every payload lies inside the parent, past its start, and they do not overlap |
| Boxes.ScanBoxes | src/k5vision/operator_export_validator.py:13-34 | the loop yields what the specification says and raises when it says |
| Boxes.Child | src/k5vision/operator_export_validator.py:37-43 | a child is returned exactly if the parent scans and one box alone is of its kind, none exactly if it is optional and no box is, anything else raises, and a child lies inside its parent |
| Boxes.TopLevelKinds | src/k5vision/operator_exports.py:83-104 | the separate top-level loop accepts the same layouts as the scanner and sees the same kinds |
| Boxes.Container | src/k5vision/operator_exports.py:77-106 | a file passes exactly when it has 32 bytes to 256 MiB and is the printing of at most 100,000 boxes, with ftyp, moov and mdat among them |
| VideoOffset.FirstPresented | src/k5vision/operator_export_validator.py:148-165 | the lock-step walk finds the least presentation time at or after the cutoff over the fully expanded samples, none exactly when there is none, and terminates because the totals match |
| VideoOffset.SkippedExact | src/k5vision/operator_export_validator.py:155-157 | the ceiling division skips exactly the samples before the cutoff |
| VideoOffset.NeverStuck | src/k5vision/operator_export_validator.py:146-165 | equal totals keep both tables from running out before the other |
| VideoOffset.ReadEdits | src/k5vision/operator_export_validator.py:120-137 | an edit list is accepted exactly when it is one plain edit, or an empty edit and then a plain one |
| VideoOffset.LeadingOffset | src/k5vision/operator_export_validator.py:83-168 | the offset: nothing without an edit list, otherwise the delay of the empty edit plus the shift of the first retained sample, never negative, and refused exactly when list, tables or samples do not allow it |
| LineCollector.LaunchSummary.Read | scripts/installed_alpha_launcher_witness.py:1107-1131 | for every split of a stream into blocks, it is refused exactly when a read fails, it exceeds 65,536 bytes or a line exceeds 2,048, and otherwise exactly its lines are delivered |
| LineCollector.LaunchSummary.CutLines | scripts/installed_alpha_launcher_witness.py:1117-1122 | the inner loop cuts off every complete line and flags long ones |
| LineCollector.SplitRoundTrip | scripts/installed_alpha_launcher_witness.py:1107-1131 | the newline split loses and invents nothing |
| LineCollector.SplitUnique | scripts/installed_alpha_launcher_witness.py:1107-1131 | there is only one way to cut a stream into newline-free lines and a newline-free tail |
| LineCollector.LinesExact | scripts/installed_alpha_launcher_witness.py:1107-1131 | the lines of a stream hold no newline; joined they are the stream if it ends in one, and otherwise the last of them is what follows the last newline and is not empty |
| LineCollector.ExcessiveMeansLines | scripts/installed_alpha_launcher_witness.py:1111-1127 | being refused for its content is a matter of the stream's size and its longest line alone |

## Left out

- SQLite, files, ACLs, volumes and component anchors: a transaction is atomic and may fail; a failure between two autocommitted statements of `pull` or `capture_person_events` is not modelled.
- SHA-256, HMAC, DPAPI, scrypt, base32 and UUID parsing: digests are arbitrary functions, or the values they are made from; tokens and ids are fresh values.
- Observation and request digests of the integration journal: an observation is identified by its event id, and whether an echoed request matches is a parameter.
- Clock readings inside one journal operation: an operation reads the clock once; over runs the monotonic clock may take any value that is not negative, in any order, since the spacing of hand-outs follows from the readings themselves.
- The `last_*` columns, public summaries, listing of received events and name and origin validation of integration connections: nothing modelled here depends on them.
- Liveness of `pull`: a hundred rows at the head that cannot be delivered can hold back later ones, so only safety is stated.
- Audit event validation and field allow-lists, the availability flag of a page, the syntax of actor and target identifiers in a query, and the hexadecimal form of stored digests.
- Enrolment of second factors before `enable`, `reauthenticate_factor` and `close` of the security service: single-branch wrappers around what is modelled.
- Session managers without a registry callback, and the syntax check of presented tokens: the first has no second critical section, the second is a refusal without state.
- Rate limiting, serialisation of calls and audit records inside the `complete` route: the protocol allows any number of `complete` calls at once.
- Construction and start-up failure of the process observer, bounded joins, and the reasons kept beside its error flag.
- LaunchSummary._line: which lines count as which marker; what is delivered before a refused stream was refused is not stated, since it depends on the blocks.
- Export jobs as shared objects: a job is a value in the cache's list, so a reader holding a job that was removed sees no later update of it.
- Reading the export cache from disk, downloading, digests and the contents of audit records of exports: that every step of a download passed, and that the audit accepts a record, are parameters.
- The table of running re-admissions: their results arrive one at a time, any number of them may be under way, and the limit of two is not stated.
- Byte parsing of `stts`, `ctts`, `elst` and header boxes, and the choice of the video track: the offset starts from parsed tables.
- Float rounding: media times are integers and exact fractions, recording times and clocks are reals.
- Routes other than `complete`, gateway configuration, witness schemas, receipts and build scripts.
