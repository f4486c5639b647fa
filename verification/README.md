# Verified model of Nostr-Q's competing-consumer protocol

Nostr-Q runs a work queue over Nostr relays. Workers share no database: each keeps its own rows and
coordinates with the others only by appending claim, ack, nack and dead-letter events to a relay and
querying them back. This project models that protocol and the code around it in Dafny 4.11 and proves
what it keeps in every interleaving. `dafny verify dfyconfig.toml` checks everything.

## How the model is laid out

| file | what it models |
|---|---|
| `Claims.dfy` | `claim_winner`: who wins among a set of claims |
| `Wire.dfy` | events as kinds and tags, `build_*` and `parse_*`, decimal numbers |
| `Rows.dfy`, `Store.dfy` | the scheduling columns and the UPDATE statements; the store as a class over its tables |
| `Backoff.dfy` | the retry delay with its shift cap and 64-bit saturation |
| `Protocol.dfy` | the step system: one clock, one append-only log, N nodes; `try_claim`, `ack` and `nack` split at every await, plus poll, sweep, abort and dlq retry |
| `Invariants.dfy` | the inductive invariant of one node and of the log, and the facts later files use |
| `Exclusion.dfy`, `ExclusionLimit.dfy` | lease exclusion, and the run that breaks it as soon as a claim may land a full settle window late |
| `Generations.dfy` | bounds, numbering and dead-lettering of retry generations |
| `Traffic.dfy` | how one node's own claims supersede each other and how many it can publish |
| `DeadLetters.dfy` | evidence behind row statuses, dead letters after a retry, the retry budget |
| `LateHandlers.dfy` | runs in which a handler outlives its lease: two nacks that collide, an ack beside a dead letter |
| `Quiescence.dfy`, `Scheduling.dfy` | after an ack; not-before and expiry over whole runs |
| `Recovery.dfy` | how a message comes back after a crash, a nack or a dlq retry, and how an ack or the expiry ends it |
| `Solo.dfy`, `Client.dfy`, `Refinement.dfy` | uninterrupted attempts; `try_claim`, `ack` and `nack` as the code runs them against a store and a relay others write to; a walk is one node's part of a run of the system |
| `Publishing.dfy` | concurrent idempotent publishes and ingest on one node, from the events on the wire to the rows |
| `Dispatch.dfy` | the worker's in-flight set, semaphore and tasks |
| `DevRelay.dfy` | the embedded relay's connection tasks, the EVENT, REQ and CLOSE part of NIP-01 ("Communication between clients and relays") |

A state of the step system is `State(clock, log, nodes, wins)`. An `Action` is either the passing of time
or one `Move` of one node; `Exec` folds a sequence of actions, so a statement about every `acts` or every
`Reachable` state is a statement about every interleaving. `wins` records the claim behind every
`try_claim` that returned true.

## Assumptions

- The relay is one linearizable append-only log and all nodes read one nondecreasing clock
  (milliseconds; the code's `now` is its whole seconds). `created_at` values are arbitrary.
- Nodes have distinct keys, event ids are unique, and signatures hold, so an event naming a message's ids
  is an echo of that message. Event ids are fixed-width hex strings; they are numbers here, which order the same way.
- A worker has one task per message (proved for the dispatch loop in `Dispatch.dfy`). A task may be
  abandoned anywhere before its claim is published, or while its handler runs; once a claim is published
  the attempt runs to its decision, and the publications inside `nack` and `ack` succeed.
- Messages are published at attempt 0 and every node has inserted the row when the run starts.
- A claim lands at most `latency` milliseconds after the claim query its author based it on.
- `dlq_retry` is applied to dead rows only, which is what the command line allows.
- Attempts are unbounded naturals; the 32-bit limit is not reached.

## Where the code and the expectation part

- Exclusion needs every claim to land strictly before the settle window ends. If a claim may land exactly
  a settle window after its survey, `LateClaimWinsToo` gives the run with two current winners.
- The i-th nack carries attempt i only while workers take turns. `ExactGenerations` makes that an
  equivalence; `LateHandlersCollide` is the run where a handler outlives its lease and two nacks carry attempt 1.
  The condition counts from the nack query a win is based on, which phase 2 makes one await before the claim query.
- A dlq event seen together with an ack does not raise the row's counter: the terminal check returns at the
  ack. `CheckHealsExactly` says when observing a dlq event raises the counter, and `AckHidesDlq` is a run in
  which it does not. That such an event never ends the row holds either way.
- A dlq retry is undone by the next check when a dlq event above the row's counter is on the log, which the
  row was never healed to. `RetryStandsExactly` makes that an equivalence.
- A publish without an idempotency key returns an error, although its message is stored, when ingest
  delivers the node's own event before the insert. `InsertOutcome` shows this is exactly when a publish fails,
  and `KeylessPublishCanFail` is the run.
- A topic (pubsub) message is stored as acked by its publisher but as pending by a node that ingests it.
  `OwnEventIsEcho` shows that the two rows agree exactly for work queues.

## Model

| member | source | states |
|---|---|---|
| Claims.WinnerIsLeastLive | crates/nostr-q-core/src/protocol.rs:287-298 | nobody wins exactly when every claim is expired or superseded; otherwise the winner is neither, and no such claim has an earlier created_at, nor the same one and a smaller id |
| Claims.LeastLiveIsWinner | crates/nostr-q-core/src/protocol.rs:293-298 | with distinct ids, being live and least is equivalent to winning |
| Claims.WinnerIgnoresOrderAndDuplicates | crates/nostr-q-core/src/protocol.rs:287-298 | every observer of the same set of claims names the same winner |
| Claims.WinnerIsStable | crates/nostr-q-core/src/protocol.rs:287-298 | as time, generation and claims grow, a winner stays the winner if and only if it is unexpired, not superseded and no live claim with a smaller key was added |
| Wire.DigitsExactly | crates/nostr-q-core/src/protocol.rs:119-121 | a text is a number exactly when it is non-empty and all decimal digits |
| Wire.AttemptsSurvive | crates/nostr-q-core/src/protocol.rs:92-101 | a printed attempt is read back exactly when it fits 32 bits, with or without a plus sign |
| Wire.TimesSurvive | crates/nostr-q-core/src/protocol.rs:92-101 | a printed time is read back exactly when it fits 64 bits |
| Wire.TagValueFirst | crates/nostr-q-core/src/protocol.rs:54-65 | the first tag of the name that has a value decides |
| Wire.TagValueAbsent | crates/nostr-q-core/src/protocol.rs:54-69 | a lookup fails exactly when no tag of the name carries a value |
| Wire.BuildMessageEvent | crates/nostr-q-core/src/protocol.rs:77-110 | the pushed tag vector is the six fixed tags followed by the optional ones present |
| Wire.MalformedExactly | crates/nostr-q-core/src/protocol.rs:112-128 | an event is refused exactly when its content is no envelope or mid, t or trace is missing, and the first of these is the error; unreadable numbers are no error |
| Wire.OptionalTimeRead | crates/nostr-q-core/src/protocol.rs:124-125 | nbf and exp are those of the first valued tag, and absent when that text is no 64-bit number or there is no such tag |
| Wire.MessageIsIndexed | crates/nostr-q-core/src/protocol.rs:77-110 | a message event has its kind, is indexed under its queue, and says its mode |
| Wire.MessageRoundTrip | crates/nostr-q-core/src/protocol.rs:77-128 | parsing a built message event gives back the message, optional fields intact or absent |
| Wire.ClaimRoundTrip | crates/nostr-q-core/src/protocol.rs:139-155 | a claim event read back (lines 272-285) has the claimer, id, time, lease and attempt it was built with |
| Wire.ClaimMalformedExactly | crates/nostr-q-core/src/protocol.rs:272-285 | a claim is unreadable exactly when its lease end is missing or no number; otherwise claimer, id, time, lease and attempt are the event's |
| Wire.LifecycleEventsRefer | crates/nostr-q-core/src/protocol.rs:130-205 | each kind of lifecycle event has its own number, and every one refers to the message's event, queue, mid and trace |
| Wire.ReasonsAreCarried | crates/nostr-q-core/src/protocol.rs:169-205 | nack and dlq events carry their reason |
| Wire.AttemptRead | crates/nostr-q-core/src/protocol.rs:300-305 | the generation is the first valued attempt tag's 32-bit number, and 0 when that text is unreadable or there is no such tag |
| Wire.AttemptsRoundTrip | crates/nostr-q-core/src/protocol.rs:157-205 | nack and dlq events carry their generation and an ack none |
| Backoff.BackoffIsIdeal | crates/nostr-q/src/lib.rs:54-59 | for every 64-bit base and every attempt from 1 the delay is min(base * 2^(attempt-1), 3600) over unbounded integers, despite shift cap and saturation |
| Backoff.BackoffDoubles | crates/nostr-q/src/lib.rs:54-59 | the first delay is the base, every further attempt doubles it, up to 3600 seconds |
| Backoff.BackoffIsMonotone | crates/nostr-q/src/lib.rs:54-59 | the delay grows with attempt and base and never exceeds an hour |
| Rows.ClaimableExactly | crates/nostr-q-store/src/store.rs:285-298 | an unexpired claimed row is selectable exactly from its lease end on, a pending one exactly from visible_at on, any other never |
| Rows.SweepNeverChangesClaimable | crates/nostr-q-store/src/store.rs:285-324 | sweeping at one time never changes what is claimable at any later time, and repeated sweeps amount to the last |
| MessageStore.SweepKeepsSelection | crates/nostr-q-store/src/store.rs:285-324 | the same for the whole table and any queue |
| MessageStore.TakeOldest | crates/nostr-q-store/src/store.rs:294 | taking the oldest remaining row keeps a batch ordered by age with nothing younger left out before it |
| MessageStore.Store.InsertMessage | crates/nostr-q-store/src/store.rs:254-267 | inserts exactly when no row has the mid, the event id, or the same queue and key, and tells which; the unique indexes keep holding |
| MessageStore.Store.GetMessage | crates/nostr-q-store/src/store.rs:269-274 | the row filed under the mid, if any |
| MessageStore.Store.FindByIdem | crates/nostr-q-store/src/store.rs:276-283 | the one row of the key, or none exists |
| MessageStore.Store.Claimable | crates/nostr-q-store/src/store.rs:285-298 | the batch holds distinct rows of the queue, unexpired and either visible and pending or claimed with a lease run out, oldest first, at most `limit`; any such row left out means a full batch of rows no younger |
| MessageStore.Store.ExpireDue | crates/nostr-q-store/src/store.rs:305-324 | expires and returns exactly the pending and claimed rows of the queue whose expiry has come; nothing else changes |
| MessageStore.Store.MarkClaimed | crates/nostr-q-store/src/store.rs:351-364 | status, consumer and lease set and the counter healed to the maximum; other rows untouched; unknown mid is an error |
| MessageStore.Store.MarkAcked | crates/nostr-q-store/src/store.rs:366-372 | acked without lease, other rows untouched |
| MessageStore.Store.MarkPending | crates/nostr-q-store/src/store.rs:374-380 | pending from the given time, other rows untouched |
| MessageStore.Store.IncrAttempts | crates/nostr-q-store/src/store.rs:382-393 | the counter goes up by one and the new value is returned |
| MessageStore.Store.MoveToDlq | crates/nostr-q-store/src/store.rs:395-410 | dead, with a dlq entry carrying the row's counter |
| MessageStore.Store.MoveToDlqAt | crates/nostr-q-store/src/store.rs:430-446 | dead with the counter healed to the observed generation, which the dlq entry carries |
| MessageStore.Store.DlqRetry | crates/nostr-q-store/src/store.rs:486-497 | pending, visible at once, no lease, floor raised to the counter, dlq entry gone; nothing else changes |
| ClaimProtocol.Appended | crates/nostr-q-relay/src/mock.rs:35-40 | what one more event on the log changes about each of the queries nodes make |
| ClaimProtocol.MaxDlqBounds | crates/nostr-q/src/lib.rs:285-289 | the maximum taken over dlq events is attained and bounds every one |
| Invariants.WinnerAfterSettlingIsOwn | crates/nostr-q/src/lib.rs:376-402 | a node that wins after settling wins with the claim it just published, never with a surveyed one, so the lease and attempt it records are the winner's |
| Invariants.WinIsOfGeneration | crates/nostr-q/src/lib.rs:341-406 | every win, recognized or contended, is by an own claim on the log that is unexpired for the attempt and at least of the generation observed |
| Invariants.InvStep | crates/nostr-q/src/lib.rs:228-495 | every step of every node keeps the invariant tying rows, tasks and log together |
| Invariants.InvAlways | crates/nostr-q/src/lib.rs:228-495 | so it holds after every run |
| Exclusion.LeaseExclusion | crates/nostr-q/src/lib.rs:317-406 | if claims land strictly within the settle window, no reachable state has two nodes with winning claims both unexpired and of the current nack generation, whatever the created_at skew |
| Exclusion.ClaimedRowsExclude | crates/nostr-q/src/lib.rs:396-405 | of two local rows with unexpired leases, one holds the lease of a superseded claim |
| ExclusionLimit.LateClaimWinsToo | crates/nostr-q/src/lib.rs:373-396 | a concrete run with two current winners when a claim may land a settle window late |
| ExclusionLimit.ExclusionExactly | crates/nostr-q/src/lib.rs:317-406 | exclusion in all reachable states holds if and only if latency < settle, for any two nodes with leases outlasting two settle windows |
| Exclusion.DeciderWinsExactly | crates/nostr-q/src/lib.rs:376-402 | a settled contender wins, and with its own claim, if and only if its lease has any length, no nack raised the generation, and its claim precedes every live rival it re-read |
| SoloRuns.SoloProgress | crates/nostr-q/src/lib.rs:228-407 | an uninterrupted attempt with nothing terminal, expired or foreign in the way wins, however far its counter lags, by a current claim whose lease it records |
| SoloRuns.UpToDecision | crates/nostr-q/src/lib.rs:317-358 | an undisturbed survey changes nothing but the task's progress, and recognizes an own live claim without publishing |
| Generations.GenerationBounds | crates/nostr-q/src/lib.rs:285-306 | floor <= attempts <= highest nack in every row of every reachable state (one ahead only while the nack is being published), and the same bound for every claim and dlq attempt |
| Generations.CountersNeverDecrease | crates/nostr-q-store/src/store.rs:351-497 | over any run no counter, floor or generation decreases and no event leaves the log |
| Generations.NoGenerationSkipped | crates/nostr-q/src/lib.rs:445-455 | every number up to the highest nack is the attempt of some nack, in any interleaving |
| Generations.ExactGenerations | crates/nostr-q/src/lib.rs:326-333 | the i-th nack carries attempt exactly i for all i if and only if nodes take turns |
| Generations.DeadLettersOnLastAttempt | crates/nostr-q/src/lib.rs:464-495 | with turns kept, no retries and a shared budget M, the k-th nack dead-letters exactly when k >= M, and no dlq event precedes the M-th nack |
| LateHandlers.LateHandlersCollide | crates/nostr-q/src/lib.rs:428-457 | a concrete run in which two nacks carry attempt 1, because a handler outlived its lease |
| Traffic.OnlyNewestOwnClaimIsCurrent | crates/nostr-q/src/lib.rs:341-372 | of a node's own claims at most the newest is unexpired and current |
| Traffic.OwnPastIsReleasedByNack | crates/nostr-q/src/lib.rs:445-455 | once a node nacks at n all its claims are below n and no later survey counts them |
| Traffic.SpacedAreFew | crates/nostr-q/src/lib.rs:360-373 | claims each a full lease or a generation apart are few |
| Traffic.ClaimTrafficBound | crates/nostr-q/src/lib.rs:317-373 | a node publishes at most 1 + elapsed / lease + highest nack claims over any run |
| DeadLetters.RowsAreBacked | crates/nostr-q/src/lib.rs:259-315 | acked rows have an ack event; dead rows are exactly those with a dlq entry and have a dlq event above their floor; claimed rows hold the lease of an own claim |
| DeadLetters.ChecksKillExactly | crates/nostr-q/src/lib.rs:259-315 | a terminal check dead-letters the row exactly when no ack is on the log and some dlq event is above the row's floor |
| DeadLetters.ObservedDlqNeverKillsAgain | crates/nostr-q/src/lib.rs:273-315 | every dlq event a terminal check saw, with or without an ack beside it, never ends that node's row again, over any run and any retries |
| DeadLetters.CheckHealsExactly | crates/nostr-q-store/src/store.rs:412-446 | a check brings the row's counter up to an observed dlq event's attempt if and only if no ack is on the log or the counter was that high |
| DeadLetters.RetriesRiseAboveObserved | crates/nostr-q-store/src/store.rs:486-497 | from then on every retry sets the floor to at least that attempt, over any run |
| LateHandlers.AckHidesDlq | crates/nostr-q/src/lib.rs:264-290 | a concrete run whose last check finds an ack and a dlq event and leaves the counter below the dlq event's attempt |
| DeadLetters.PublishedDlqNeverKills | crates/nostr-q/src/lib.rs:465-479 | the same of the node's own dlq event once it has dead-lettered its row |
| DeadLetters.RetryBudget | crates/nostr-q/src/lib.rs:459-494 | at most max(M, 1) nacks between consecutive retries, and budget is left after all but the last |
| DeadLetters.NacksUseUpAttempts | crates/nostr-q/src/lib.rs:464-494 | attempts left never grow between retries, each nack uses one while any is left, and a nack dead-letters exactly when none is left |
| DeadLetters.AloneTheBudgetIsExact | crates/nostr-q/src/lib.rs:459-494 | without foreign workers the k-th nack since the last retry dead-letters if and only if k >= M |
| Quiescence.PostAckQuiescence | crates/nostr-q/src/lib.rs:206-227 | after an ack each node adds at most one more claim, and only from an attempt already past its terminal check |
| Quiescence.LaterAttemptsOnlyLearnTheAck | crates/nostr-q/src/lib.rs:259-272 | every later attempt publishes and wins nothing and ends at the terminal check with the row acked, even after a late nack reset it |
| Recovery.SecondsAreFloored | crates/nostr-q/src/lib.rs:84-86 | the code's `now` is the clock in whole seconds, rounded down |
| Recovery.FreshIsPolledInWindow | crates/nostr-q-store/src/store.rs:285-298 | a new message can be polled exactly from nbf on and before exp |
| Recovery.CrashedWinIsPolledAfterLease | crates/nostr-q-store/src/store.rs:291 | a node whose winner crashed can poll the message again exactly from the end of its lease on, unless it expired |
| Recovery.NackWaitsTheBackoff | crates/nostr-q/src/lib.rs:481-494 | in every reachable state a nack with budget left makes the row pending until exactly now plus min(base * 2^(n-1), 3600), n the attempts since the floor |
| Recovery.NoPollDuringBackoff | crates/nostr-q/src/lib.rs:481-494 | over any run the node does not poll the message again before that time |
| Recovery.PollAfterBackoff | crates/nostr-q/src/lib.rs:481-494 | left alone, it can poll exactly from that time on, unless the message expired |
| Recovery.RetriedIsPolledAtOnce | crates/nostr-q-store/src/store.rs:486-497 | a retried unexpired message can be polled at once with the whole budget and no dlq entry |
| Recovery.RetriedWins | crates/nostr-q/src/lib.rs:228-407 | with no ack, no foreign live claim and no dlq event above its counter, the retried node's next uninterrupted attempt wins |
| Recovery.RetryStandsExactly | crates/nostr-q/src/lib.rs:273-315 | the check after a retry dead-letters the row again if and only if a dlq event above the row's counter is on the log |
| Recovery.FinishedStays | crates/nostr-q-store/src/store.rs:285-324 | an acked or expired row with no task on it never changes again, over any run |
| Recovery.AckIsFinal | crates/nostr-q/src/lib.rs:418-426 | an ack leaves the row acked without a lease, and over any run it stays so and the node takes no further part |
| Recovery.AttemptsEndAtExpiry | crates/nostr-q/src/lib.rs:236-247 | an attempt begun at or after exp ends there with the row expired if it was pending or claimed; begun earlier it goes on |
| Recovery.SweepsExpireExactly | crates/nostr-q-store/src/store.rs:305-324 | a sweep expires a row exactly when it is pending or claimed and exp has come |
| Scheduling.PollsWithinWindow | crates/nostr-q-store/src/store.rs:285-298 | through retries and dlq retries no poll selects a message before its nbf or from its exp on |
| Scheduling.ClaimsWithinWindow | crates/nostr-q/src/lib.rs:236-249 | the time a claim's lease is counted from is before exp, and nbf has passed when it lands |
| Scheduling.NoWaitBeyondAnHour | crates/nostr-q/src/lib.rs:481-483 | visible_at never lies more than an hour ahead, beyond the message's own nbf |
| Client.NostrQ.CheckRelay | crates/nostr-q/src/lib.rs:259-315 | phase 1 ends the attempt or goes on exactly as the step system does; it ends acked exactly when an ack was seen and otherwise dead with a dlq entry |
| Client.NostrQ.SurveyRelay | crates/nostr-q/src/lib.rs:317-358 | phase 2 recognizes, backs off or goes on exactly as the step system does |
| Client.NostrQ.Conclude | crates/nostr-q/src/lib.rs:384-406 | a win marks the row claimed by this node with the locally computed lease and the counter healed to what was observed; a loss changes nothing |
| Client.NostrQ.PublishAndSettle | crates/nostr-q/src/lib.rs:363-395 | the claim goes out, the settle window passes, and claims are read before nacks |
| Client.NostrQ.Contend | crates/nostr-q/src/lib.rs:360-406 | phase 3 publishes a claim until now plus lease at the larger of the fetched and the observed attempt, and ends with the row and relay of the step system's contention |
| Client.NostrQ.TryClaim | crates/nostr-q/src/lib.rs:228-407 | for every schedule of foreign events and delays, the row, dlq entry, relay and answer are those of the step system's walk; no other row changes except by the queue sweep of an expired message |
| Client.NostrQ.Ack | crates/nostr-q/src/lib.rs:418-426 | publishes one ack and leaves the row acked without a lease, as the walk does; unknown mid changes nothing |
| Client.NostrQ.JudgeNack | crates/nostr-q/src/lib.rs:459-494 | dead-letters exactly when the attempts since the floor reach the budget; otherwise the row is pending until now plus the documented delay |
| Client.NostrQ.CountNack | crates/nostr-q/src/lib.rs:445-457 | the counter goes up by one and the nack event carries it |
| Client.NostrQ.Nack | crates/nostr-q/src/lib.rs:428-495 | the row, dlq table, relay and outcome of a nack column by column: budget, delay, events, and five attempts with a base of five seconds when the queue config is gone |
| Client.NackEndByColumns | crates/nostr-q/src/lib.rs:459-494 | where the step system's walk of a nack ends: dead exactly at the budget, else pending after min(base * 2^(n-1), 3600) |
| Client.WalkOfNack | crates/nostr-q/src/lib.rs:428-495 | what `nack` does is the step system's walk from a handled job |
| Refinement.WalkIsPartOfRun | crates/nostr-q/src/lib.rs:228-495 | a walk whose arrivals come from the other nodes' actions at its awaits is this node's part of one interleaved run of exactly those actions, so what holds in every reachable state holds where `try_claim`, `ack` and `nack` end |
| Refinement.WalkIsRun | crates/nostr-q/src/lib.rs:228-495 | an undisturbed walk is a run of the system in which only this node moves |
| Publishing.PreCheckOutcome | crates/nostr-q/src/lib.rs:125-135 | nothing is sent exactly when a stored row carries the queue and key, and its receipt is the answer |
| Publishing.InsertOutcome | crates/nostr-q/src/lib.rs:170-190 | a publish is refused exactly when it has no key and its own echo was ingested first |
| Publishing.IdempotentPublish | crates/nostr-q/src/lib.rs:125-190 | under any interleaving of publishes, ingest and row updates, one row per key and every receipt for the key names it |
| Publishing.RefusalsAreEchoes | crates/nostr-q/src/lib.rs:171-190 | a keyed publish never fails; an unkeyed one that failed is stored under the ids its receipt would have named |
| Publishing.KeylessPublishCanFail | crates/nostr-q/src/lib.rs:171-190 | the run in which a keyless publish fails because an echo of its event was ingested first, for every message and echo |
| Publishing.OwnEventIsEcho | crates/nostr-q/src/lib.rs:655-682 | ingest reads a published event as an echo of the published record, and as the same row exactly on a work queue |
| Publishing.RedeliveryChangesNothing | crates/nostr-q/src/lib.rs:683-689 | events ingested before change nothing when they are delivered again, in any order and number |
| Publishing.PublishedRowIsFresh | crates/nostr-q/src/lib.rs:147-169 | a work-queue publish inserts the row every protocol run starts from; it is claimable exactly within the request's window, and a topic's row never is |
| Publishing.IngestedRowIsFresh | crates/nostr-q/src/lib.rs:668-682 | ingest inserts that same row, its window taken from the event's own tags |
| Publishing.IngestAll | crates/nostr-q/src/lib.rs:644-692 | every row added holds, column by column, what one of the events says, pending from its nbf on; no readable event is lost except to a row with its mid, event id or key; malformed ones are skipped and old rows stay |
| Publishing.PublishInternal | crates/nostr-q/src/lib.rs:114-198 | unknown queue, pre-check, the event sent, the inserted row column by column, and the surviving receipt on a lost insert, for any events ingested in between |
| Dispatch.DispatchIsSafe | crates/nostr-q-worker/src/lib.rs:151-298 | in every interleaving one running task per message, tasks plus free permits equal the concurrency, and in flight means running or being handed over |
| Dispatch.DrainWaitsForAll | crates/nostr-q-worker/src/lib.rs:295-298 | the drain can complete exactly when no task is left, and nothing is in flight then |
| Dispatch.RunningIsNeverDispatchedAgain | crates/nostr-q-worker/src/lib.rs:154-203 | no poll spawns a second task for a message one is running |
| Dispatch.Dispatcher.OthersRun | crates/nostr-q-worker/src/lib.rs:213-287 | tasks ending in between keep the invariant and only free permits and messages |
| Dispatch.Dispatcher.EnterFlight | crates/nostr-q-worker/src/lib.rs:193-197 | enters the in-flight set unless already there |
| Dispatch.Dispatcher.TakePermit | crates/nostr-q-worker/src/lib.rs:198-205 | takes a permit if one is free, else leaves the in-flight set |
| Dispatch.Dispatcher.SpawnTask | crates/nostr-q-worker/src/lib.rs:206-215 | the message becomes a running task |
| Dispatch.Dispatcher.DispatchRecord | crates/nostr-q-worker/src/lib.rs:192-207 | a record is skipped only if in flight and refused only without a free permit; otherwise it is a running task |
| Dispatch.Dispatcher.DispatchBatch | crates/nostr-q-worker/src/lib.rs:192-288 | one pass over a batch spawns a subsequence of it, in order; the first records, as many as permits are free, are all spawned unless in flight or repeated; tasks may end in between |
| DevRelay.Delivery | crates/nostr-q-relay/src/dev_relay.rs:135-181 | once nothing awaits its broadcast and a lag-free connection is drained, each open subscription was sent every stored matching event |
| DevRelay.OnlyStoredIsSent | crates/nostr-q-relay/src/dev_relay.rs:205-243 | every event frame carries a stored event |
| DevRelay.ReqAnswer | crates/nostr-q-relay/src/dev_relay.rs:218-243 | a REQ is answered by exactly the stored matches of its snapshot, in order, then EOSE |
| DevRelay.MatchingOne | crates/nostr-q-relay/src/dev_relay.rs:225-229 | an event is stored for a subscription exactly when any one of its filters accepts it, and a filter accepts it when every condition it states is met |
| DevRelay.MatchingConcat | crates/nostr-q-relay/src/dev_relay.rs:221-235 | matches are listed in storage order |
| DevRelay.LiveIsSentOnce | crates/nostr-q-relay/src/dev_relay.rs:163-173 | a live event is written once under every open subscription that wants it and under no other |
| DevRelay.LagLosesOldest | crates/nostr-q-relay/src/dev_relay.rs:174-178 | a lagging connection goes on with its newest notes |
| DevRelay.InvStep | crates/nostr-q-relay/src/dev_relay.rs:135-252 | every step of every connection task keeps notes on their way to the subscriptions that want them |
| DevRelay.ClosedStaysSilent | crates/nostr-q-relay/src/dev_relay.rs:244-246 | over any run without a new REQ of its id, a closed subscription is sent no event |
| DevRelay.Server.OthersRun | crates/nostr-q-relay/src/dev_relay.rs:135-181 | whatever other connections do, this one only receives notes, nothing stored is lost and the invariant holds |
| DevRelay.Server.HandleEvent | crates/nostr-q-relay/src/dev_relay.rs:205-217 | a verified event is stored, is in every connection's receiver, and is acknowledged after that, with others acting in between; any other is refused and stored nowhere |
| DevRelay.Server.HandleReq | crates/nostr-q-relay/src/dev_relay.rs:218-243 | whatever others store and broadcast meanwhile, the client is sent exactly the matches stored when the REQ arrived, in order, then EOSE, nothing else in between, and the subscription is open; live notes received meanwhile are kept |
| DevRelay.Server.HandleClose | crates/nostr-q-relay/src/dev_relay.rs:244-246 | that subscription is closed and nothing else changes |
| DevRelay.Server.BroadcastEvent | crates/nostr-q-relay/src/dev_relay.rs:214-216 | every connection's receiver gets the event, then OK true is written |
| DevRelay.Server.DeliverLive | crates/nostr-q-relay/src/dev_relay.rs:163-173 | one live event goes once to each open subscription that matches it, in hash-map order |

## Left out

- Signing, event-id hashing: events are records with unique ids.
- Wire.MessageRoundTrip: says nothing about the JSON text of an envelope, which is read and written by a function the lemma takes as given.
- `NostrTransport`, WebSocket framing, timeouts, health probes, several relays that disagree: the log is one linearizable log.
- `MockTransport::subscribe` and its replay; only its publish and query are used.
- Crashes, transport errors or restarts between a claim's publication and its decision, or inside `nack` after the counter was raised: they break the stated assumptions.
- Stale rows fetched by a poll: in the step system the fetch and the entry into the in-flight set are one step; `Client.NostrQ.TryClaim` takes any fetched row.
- The lifecycle table, queue and relay tables, queue configs changing during a run.
- SQLite itself; each store method is one atomic update of maps.
- 32-bit overflow of the attempt counter and 64-bit overflow of times.
- Disconnects and shutdown of relay connections, and the size of the broadcast buffer: lag may drop any number of oldest events.
- Handlers, heartbeats, RPC replies, pub/sub fanout, the command line.
