# messq, verified

A Dafny model of the message broker messq and proofs of what its delivery path promises.
messq is a single-writer broker: every change is a command that runs alone in one
transaction, so most of the model is a state machine whose steps are those commands, and
the theorems speak about every run of it.

| module | what it models |
|---|---|
| `Delivery` | the pure decisions: the fenced settle planner, the expiry sweeper, backoff |
| `Broker` | one stream with one consumer: publish, fetch (top-up and claim), settle, sweep, retire, update, seek, purge, evict |
| `BrokerInvariant`, `BrokerTheorems` | what every step keeps; fencing, at-least-once, the delivery bound |
| `Laws` | the tables column by column: which commands change what, exactly, and over every run |
| `Visibility`, `Settlement` | what a fetch delivers and when; what settling and sweeping do to a row, and what each answer means |
| `Generations`, `Recreation` | where the generation fence breaks, and exactly when: partial purges, recreated consumers |
| `Scenarios` | building runs of the broker |
| `Latch` | the whole process: a settle that fails its fence latches it read-only |
| `SweepPass` | one bounded pass of the expiry sweeper |
| `FetchCommand`, `SettleBatch`, `Shrink` | the fetch, settle and shrink commands as loops, against those steps |
| `Leases`, `Horizon`, `SilentRun` | extends and naks of one claim; time from first delivery to dead, as a timetable and in the broker's runs |
| `Retention` | the single-pass eviction planner |
| `Reap` | stream deletion, chunked reaping, resume, crash recovery, recreation |
| `Registry`, `RegistryTight`, `WaiterRegistry` | the sharded waiter registry: an interleaving machine, and its operations as written |
| `LongPoll` | subscribe, fetch, park, commit, event pump and wake as one interleaving machine |
| `DeadLetter` | the dead-letter transaction and its copy budget |
| `EditDistance`, `FakeClock`, `TokenCodec`, `Ulid`, `DedupRotation` | the self-contained algorithms |
| `Common` | optional values and facts about finite sets |
| `Ordered` | ascending listings of finite sets, as ORDER BY, LIMIT and OFFSET return them |

`dafny verify dfyconfig.toml` checks the whole project.

Instants and durations are integers (nanoseconds, or unix milliseconds where the tables
store milliseconds). Clocks, jitter, entropy, the choice of rows a LIMIT without ORDER BY
returns, and the outcome of foreign calls are parameters, so the theorems hold for all of
them. Lookups that SQL answers are functions on maps and sets. Names are strings.

## Where the code does less than its comments say

For each of these there is a lemma with a failing case and one with the exact condition.

- A purge bumps the generation but leaves the consumer's surviving rows at the old one
  (`internal/store/purge.go:192-284`, `363-470`). `Generations.PartialPurgeStrands` is a run
  that strands a lease and `Generations.PurgeKeepsCurrentIff` says when it happens;
  `Generations.StrandedForever` says what becomes of such a lease: nothing, ever, until a
  seek or a purge of that seq.
- Settling a delivery of such a row fails the statement's own fence
  (`internal/store/settle_impl.go:173-183`). That error is no business rejection, so the
  writer latches the process read-only (`internal/store/writer.go:646-656`, `758-775`); so
  does a dead sink that refuses within a settle. `Latch.HonestAckLatches` is a process that
  ends so at the hands of an honest worker, `Latch.LatchesIff` the exact condition.
- Stranded leases stay first in the expiry scan, which is bounded
  (`internal/store/sweep.go:167-175`), so as many of them as its limit starve all later
  leases: `SweepPass.StrandedStarve`, `SweepPass.PassProgressesIff`.
- Deleting and recreating a consumer restarts at generation 1
  (`internal/store/consumer.go:401-421`), so an old token may settle a new delivery:
  `Recreation.FirstTokenAcksSecondLease` is such a story for every generation,
  `Recreation.CanActIff` says which tokens can and `Recreation.OldTokenActsIff` when they do.
- `CanCopy` stops looking at bytes once the remainder is exactly zero
  (`internal/queue/dead.go:93`): `DeadLetter.ExhaustedCopiesAnything`,
  `DeadLetter.CanCopyWithinIff`, `DeadLetter.BytesBoundedIff`.
- `Sub.Close` after `ReleaseAll` still decrements the counter
  (`internal/api/waiters.go:91`), and `ReleaseAll` zeroes it without a lock:
  `Registry.ReleaseThenClose`, `Registry.CloseKeepsBalanceIff`, `Registry.CountAfterRelease`.
- A reap chunk does not look at its marker (`internal/store/commands.go:471-475`), so two
  drivers of one reap can delete a recreated stream's message:
  `Reap.TwoDriversLoseAMessage`, `Reap.ChunkSparesLiveIff`, `Reap.ResumeKeepsExclusiveIff`.
- The fan-out queue drops a batch when full, of whatever events
  (`internal/store/writer.go:702-709`), which is the one way to lose a wake-up:
  `LongPoll.OverflowReached`, `LongPoll.HandOverDropsIff`, `LongPoll.NothingDroppedIff`.
- `ensureDLQStream` looks neither at the high-water mark nor at leftover rows
  (`internal/store/dead.go:213-243`). Numbers restart: `Reap.SinkReusesNumbers`,
  `Reap.AutoCreateKeepsHighIff`. The copy's number may be taken, and the counters start
  wrong: `DeadLetter.LeftoverCollides`, `DeadLetter.CollidesIff`,
  `DeadLetter.EnsureKeepsCountedIff`.
- A consumer name is documented to start and end alphanumeric
  (`internal/queue/consumer.go:213-217`); the code checks no such thing
  (`internal/subject/subject.go:339-361`): `TokenCodec.HyphenIsAName`,
  `TokenCodec.EdgesAlphanumericIff`.
- The last id may be all 0xFF, and the millisecond counter may run past 64 bits
  (`internal/id/ulid.go:111-136`): `Ulid.EdgesWrap`, `Ulid.LargerIff`,
  `Ulid.MillisecondKeepsIff`.
- The generator's field commented as the highest reading seen is the previous reading
  (`internal/id/ulid.go:40-43`, `104-106`): `Ulid.SeenFallsBack`, `Ulid.SeenIsHighestIff`.
- `ReapResumeResult.Pending` is documented to cover other markers; it reports only the one
  just worked on (`internal/store/delete.go:103`, `153`): `Reap.PendingMissesOther`,
  `Reap.PendingCoversAllIff`.
- `EvictionPlan.More` ignores age, so re-running while it holds may stop before every aged
  message is gone (`internal/queue/retention.go:127`): `Retention.DrainStopsEarly`,
  `Retention.DrainIsOneSweepIff`.
- A retention sweep looks only at a window of the oldest messages
  (`internal/store/retention.go:244`), so a window of pinned ones stalls it:
  `Retention.StalledStream`, `Retention.WindowSufficesIff`.

## Model

| member | source | states |
|---|---|---|
| BrokerInvariant.StepKeeps | internal/store/settle_impl.go:163-335 | every command keeps the whole invariant: rows below the cursor and on live wanted messages, claims in order, everything passed accounted for, tokens minted once and never ahead of their row, one removal per epoch, leases within max_ack_wait |
| BrokerInvariant.RunKeeps | internal/store/writer.go:621-709 | the invariant holds in every state of every run of commands |
| BrokerInvariant.SettleKeeps | internal/store/settle_impl.go:163-335 | any settle item, forged or replayed, keeps the invariant |
| BrokerInvariant.SweepKeeps | internal/store/sweep.go:160-330 | sweeping any row at any time keeps the invariant |
| BrokerInvariant.RetireKeeps | internal/store/sweep_retire.go:63-170 | retiring a row stranded above a lowered max_deliver keeps the invariant |
| BrokerInvariant.TopUpExact | internal/store/fetch.go:356-437 | top-up adds exactly the wanted, not yet pending messages between the old and the new cursor, at zero attempts in the current generation, and changes no existing row |
| BrokerInvariant.TopUpBounded | internal/store/fetch.go:356-437 | top-up keeps the pending set within max_ack_pending and stops short of the head only at that bound or after a full scan |
| BrokerInvariant.TopUpCatchesUp | internal/store/fetch.go:356-437 | with room for everything ahead of the cursor, top-up reaches the head |
| BrokerInvariant.ChosenIsPrefix | internal/store/fetch.go:441-508 | a claim takes only ready rows of stored messages whose time has come, and of those the lowest: whatever due row it leaves behind comes after all it took |
| BrokerInvariant.ClaimOrder | internal/store/fetch.go:441-508 | after a claim every claimed seq is still below every row never delivered: claims overtake nothing |
| BrokerInvariant.FetchKeeps | internal/store/fetch.go:195-290 | a fetch command keeps the invariant |
| BrokerInvariant.UpdateKeeps | internal/store/consumer.go:526-600 | updating a consumer, shrink included, keeps the invariant |
| BrokerInvariant.SeekKeeps | internal/store/seek.go:66-190 | a seek, which drops every row and starts a new generation, keeps the invariant |
| BrokerInvariant.PurgeRangeKeeps | internal/store/purge.go:192-284 | a range purge keeps the invariant, its cursor clamp included |
| BrokerInvariant.DropMessagesKeeps | internal/store/purge.go:363-470 | a filtered purge keeps the invariant |
| BrokerInvariant.EvictKeeps | internal/store/retention.go:43-49 | the guarded retention delete keeps the invariant and removes exactly the named messages that no delivery row needs |
| BrokerInvariant.PublishKeeps | internal/store/publish.go:315-328 | a publish under the next number keeps the invariant |
| BrokerTheorems.OnlyLatestTokenActs | internal/queue/settle.go:142-183 | a settle changes something only for the one token minted by the row's latest claim, and that token was minted exactly once |
| BrokerTheorems.AckFinishesIff | internal/queue/settle.go:164-227 | an ack or a term removes the row exactly when its token is the live one, otherwise nothing changes; a refusing dead sink leaves the row |
| BrokerTheorems.StaleIsHonest | internal/queue/settle.go:142-162 | for a token minted in this generation, "stale" means terminally removed and "unknown" is never answered |
| BrokerTheorems.StepMints | internal/store/fetch.go:511-545 | no command but a seek mints a token for a finished message or brings it back |
| BrokerTheorems.SettledStaysSettled | internal/store/fetch.go:356-545 | over any run without a seek, a terminally removed message is never pending again and never gets another token |
| BrokerTheorems.NothingIsLost | internal/store/fetch.go:356-437 | in every state of every run each live wanted message is ahead of the cursor, pending, or terminally removed, and no epoch removes one twice |
| BrokerTheorems.UpdateNeverAdvances | internal/store/consumer.go:955-1002 | lowering max_ack_pending never moves the cursor forward and leaves every undelivered row below it |
| BrokerTheorems.StepBounded | internal/queue/settle.go:203-227 | every command keeps READY rows below and INFLIGHT rows within max_deliver attempts |
| BrokerTheorems.RunBounded | internal/queue/sweep.go:92-141 | the same in every state of every run whose max_deliver stays within the bound |
| BrokerTheorems.RunCounts | internal/store/fetch.go:511-545 | in every state of every run a seq's tokens since the last seek carry strictly increasing attempts, none ahead of its row |
| BrokerTheorems.AtMostMaxDeliverClaims | internal/queue/sweep.go:75-91 | between two seeks no run claims a message more than max_deliver times, purges and their generation bumps included |
| BrokerTheorems.LastFailureDies | internal/queue/settle.go:203-216 | at max_deliver attempts both a nak and an expiry take the dead path |
| BrokerTheorems.EarlierFailureRetries | internal/queue/settle.go:203-221 | with attempts left neither does: the row goes back to READY with its attempts kept, for when the wait of that attempt's schedule entry, or the explicit delay, is over |
| Laws.StoredStep | internal/store/retention.go:43-49 | each command stores or deletes exactly the messages it names, and alters none |
| Laws.StoredUntilDeleted | internal/store/retention.go:43-49 | over any run a stored message is stored exactly until an eviction names it while no delivery needs it, or a purge covers it; it never changes and never comes back |
| Laws.StoredWasPublished | internal/store/publish.go:315-328 | over any run what is stored was there from the start or is what a publish brought, under the number that was next |
| Laws.RowEndsIff | internal/store/settle_impl.go:163-335 | the exact cases in which a command takes a pending row away: its live token's ack, term or last nak, its last expiry, retirement, shrink, seek, purge |
| Laws.RowBeginsIff | internal/store/fetch.go:356-437 | only a fetch adds rows, exactly those of the wanted messages its cursor passed |
| Laws.PendingUntilEnded | internal/store/settle_impl.go:163-335 | over any run a delivery that stops being pending was taken by such a command |
| Laws.ShrinkDropsIff | internal/store/consumer.go:955-1002 | a shrink drops an undelivered row exactly when fewer undelivered ones lie above it than there are rows too many |
| Laws.GenerationCounts | internal/store/seek.go:168-173 | over any run the generation counts the seeks and the purges that took a pending row |
| Laws.CursorStep | internal/store/purge.go:235-241 | where each command leaves the cursor: a seek at its target, a shrink at the lowest row it drops, a range purge just past what it deleted but never back |
| Laws.CursorFallsOnlyBy | internal/store/consumer.go:955-1002 | over any run the cursor falls only through a seek or a shrink that drops a row |
| Laws.ConfigStep | internal/store/consumer.go:526-600 | only an update changes the configuration, to what it says; max_ack_wait never changes |
| Visibility.FetchRowExact | internal/store/fetch.go:441-545 | a fetch delivers a pending row only if it is ready, stored and due, and then on the next attempt with a lease of ack_wait from now; every row without a token stays as it is |
| Visibility.HiddenIsLeft | internal/store/fetch.go:476-485 | before its time, or while leased, a row is left alone and gets no token |
| Visibility.TokensMatchRows | internal/store/fetch.go:511-545 | every token names a row the same fetch leased, in seq order, on the attempt and generation it says; at most batch of them |
| Visibility.FetchIsGreedy | internal/store/fetch.go:441-470 | a due row is left only behind everything delivered, and only because the batch is full or the first due row left would burst the byte budget |
| Visibility.DueIsDelivered | internal/store/fetch.go:441-508 | if batch and byte budget cover all that is due, every due row is delivered |
| Visibility.FetchReachesHead | internal/store/fetch.go:195-290 | a fetch stops short of the head only at the flow-control bound or with the scan limit's worth of messages ahead, and never grows the pending set past that bound |
| Visibility.HiddenUntilDue | internal/store/fetch.go:476-485 | over any run a released row is not delivered by any fetch before its time, until a nak by its worker or a seek |
| Visibility.RetryWaits | internal/queue/backoff.go:47-84 | over any run, after a nak or an expiry with attempts left, no fetch delivers the message before the schedule's wait for that attempt is over |
| Settlement.NakWaits | internal/queue/settle.go:203-221 | a nak without a delay waits the a-th entry of the schedule, the last one past its end, nothing if it is empty, jittered; on a released row the earlier of that and its present time |
| Settlement.ExplicitNakWaits | internal/queue/backoff.go:70-79 | an explicit delay of at most a day replaces the schedule, unjittered; any other changes nothing |
| Settlement.SweepWaits | internal/queue/sweep.go:127-141 | a sweep of an expired lease waits the same entry, counted from its own clock |
| Settlement.NakAndSweepAgreeIff | internal/queue/sweep.go:127-141 | on a whole millisecond both release for the same instant if and only if the jittered wait is not negative or whole milliseconds |
| Settlement.NakAndSweepClose | internal/queue/sweep.go:127-141 | within one millisecond, for waits that are not negative, they differ by at most one |
| Settlement.ExtendIs | internal/queue/settle.go:233-254 | an extend is granted exactly to a lease that stays within max_ack_wait of its claim, and adds one ack_wait to the deadline or, once that has passed, to now |
| Settlement.AnswersExactly | internal/queue/settle.go:142-254 | every answer for every token, minted or not, and exactly when it is given |
| Settlement.AnswersMean | internal/queue/settle.go:142-162 | "unknown" means never delivered since the last seek; "stale" finished, no longer stored, unwanted or from before it; no minted token is of a future attempt |
| Settlement.AckReports | internal/queue/settle.go:188-197 | a granted ack is late exactly on a released row, and the time held adds up to now |
| Settlement.SweepReports | internal/queue/sweep.go:92-126 | why a sweep skips or buries a row, each exactly when |
| Settlement.OthersUntouched | internal/store/settle_impl.go:163-335 | settling, sweeping or retiring one row touches no other |
| Generations.OtherStepsKeepCurrent | internal/store/seek.go:66-190 | every command but a purge keeps all rows at the consumer's generation |
| Generations.PurgeKeepsCurrentIff | internal/store/purge.go:363-470 | a purge keeps all rows at the consumer's generation exactly when it takes none of them or all of them |
| Generations.RangePurgeKeepsCurrentIff | internal/store/purge.go:192-284 | a range purge does so exactly when the consumer's rows all lie on one side of its bound |
| Generations.SettleAbortsIff | internal/store/settle_impl.go:163-335 | a granted settle fails, and takes its batch with it, exactly when the dead sink refuses or the row is of an older generation |
| Latch.LatchesIff | internal/store/writer.go:640-656 | one command latches the process exactly in that case |
| Latch.AbortIsNoStep | internal/store/settle_impl.go:173-197 | an aborted settle changes no table |
| Latch.LatchedForever | internal/store/writer.go:621-628 | a latched process never changes again |
| Latch.ProcessIsRun | internal/store/writer.go:621-656 | the tables of a process are always those of a run of the broker, of all its commands before the one that latched it |
| Latch.HonestAckLatches | internal/store/settle_impl.go:173-197 | a whole process: two messages fetched, the second nak'd, the first purged, the second fetched again, and the ack by the token just minted latches it |
| Generations.StrandedStep | internal/store/sweep.go:160-330 | no command but a seek or a purge of that seq touches a lease of an older generation |
| Generations.StrandedForever | internal/queue/sweep.go:108-116 | over any run such a lease stays exactly as it is |
| SweepPass.ScanReachesIff | internal/store/sweep.go:167-175 | a pass reaches an expired lease exactly when fewer than its limit come before it by deadline and seq |
| SweepPass.PassProgressesIff | internal/store/sweep.go:160-330 | a pass changes something exactly when some lease it can release or bury has fewer than limit expired leases, of any generation, before it |
| SweepPass.StrandedStarve | internal/store/sweep.go:167-175 | once limit leases are stranded, no pass in any later state of the run reaches a lease with a later deadline, until a seek or a purge of one of them |
| Generations.SplitPurgeStrands | internal/store/purge.go:192-284 | a range purge between two of a consumer's rows strands every lease above its bound |
| Generations.PartialPurgeStrands | internal/store/purge.go:192-284 | a whole run under a configuration the validator accepts: two messages published and fetched, the first purged, the second one's lease stranded |
| Recreation.OldTokenActsIff | internal/store/consumer.go:401-421 | in any state of any run of a recreated consumer a token acks a delivery exactly when it says the consumer's generation and the row of its seq is of that generation and on that attempt; in generation 1 that seq is at or after the new start |
| Recreation.CanActIff | internal/store/consumer.go:401-421 | a token of an earlier message can come to do so in some run if and only if it says a generation of at least 1, its message is still stored and wanted and, should the generation be 1, lies at or after the new start |
| Recreation.FirstTokenAcksSecondLease | internal/store/consumer.go:401-421 | a whole story for every generation, under configurations the validator accepts: fetched, consumer deleted and recreated, fetched again, and the first worker's token settles the second worker's lease |
| FetchCommand.RunTopUp | internal/store/fetch.go:356-437 | the top-up loop computes the top-up step: rows and cursor |
| FetchCommand.ChooseWithin | internal/store/fetch.go:441-470 | the byte-budget loop takes exactly the fitting prefix |
| FetchCommand.FitIsMaximal | internal/store/fetch.go:441-470 | that prefix is within the budget unless it is a single message, and one more would not fit |
| FetchCommand.RunClaim | internal/store/fetch.go:441-545 | the claim leases exactly the chosen candidates, each ready, due and stored, until ack_wait from now |
| FetchCommand.RunFetch | internal/store/fetch.go:195-290 | the whole command is the fetch step, one token per claimed message in order; no pending row is claimed before its time |
| SettleBatch.SnapshotIsSafe | internal/store/settle.go:200-233 | planning an unused token against the batch's entry snapshot does what planning it against the live table does |
| SettleBatch.AnswersAgreeIff | internal/store/settle.go:238-260 | the snapshot's answer is the live table's except for a token of another attempt on a row an earlier item of the batch removed |
| SettleBatch.ApplyBatch | internal/store/settle.go:163-233 | the batch loop leaves the tables of settling each first occurrence in order against the live table, or rolls everything back, with a dead-sink verdict per item; first occurrences are answered by the entry snapshot, repeats as stale |
| SettleBatch.RepeatsAreIgnored | internal/store/settle.go:163-200 | repeating a token later in a batch changes nothing |
| SettleBatch.BatchSnoc | internal/store/settle.go:163-233 | a batch is its items settled one after another against what the earlier ones left, repeats skipped, up to the first abort |
| SettleBatch.AnswerIs | internal/queue/settle.go:142-183 | what an item is told, each answer exactly when |
| Shrink.QueriesAgree | internal/store/consumer.go:975-1000 | the descending-LIMIT delete and the ascending-OFFSET rewind pick the same rows |
| Shrink.ConsumerTable.ShrinkDeliveries | internal/store/consumer.go:955-1002 | the command leaves the rows, cursor and overshoot of the shrink |
| Shrink.ShrinkExact | internal/store/consumer.go:946-1002 | only undelivered rows go, highest first; the cursor is the lowest of them; undelivered rows stay below it; the overshoot is what remains above the bound, nonzero only when nothing droppable is left |
| Leases.ExtendsBounded | internal/queue/settle.go:233-254 | however a worker extends, the lease stays within max_ack_wait of the claim and at most floor(max_ack_wait / ack_wait) - 1 extends are granted |
| Leases.PromptExtendsGranted | internal/queue/settle.go:233-254 | that many are granted when asked in time |
| Leases.NakReplayNeverDefers | internal/queue/settle.go:203-221 | replaying naks on a READY row any number of times never moves it later |
| Leases.ExplicitNakIsVerbatim | internal/queue/backoff.go:70-84 | an explicit nak delay is honoured unjittered or refused whole |
| Horizon.RetryHorizon | internal/queue/consumer.go:308-325 | the loop sums the waits after failures 1 to max_deliver - 1 of the schedule |
| Horizon.SilentRowDies | internal/queue/sweep.go:117-141 | a silent row dies after exactly its remaining leases, waits and delays, for any jitter |
| Horizon.SilentWorkerDeadline | internal/queue/consumer.go:327-338 | with sweeps late by at most s and claims by at most c, it dies between TimeToDead and TimeToDead + M*s + (M-1)*c |
| Horizon.PromptWorkerDeadline | internal/queue/consumer.go:333-338 | with no delays it dies after exactly TimeToDead |
| SilentRun.SilentStep | internal/queue/sweep.go:117-141 | every broker step that only sweeps or claims a silent row keeps its hour of death, and only a sweep at that hour removes it |
| SilentRun.SilentRunDies | internal/queue/sweep.go:92-141 | in every run a row whose worker stays silent ends at a sweep, at exactly the hour its timetable gave |
| SilentRun.SilentRunDeadline | internal/queue/consumer.go:327-338 | so in every run it dies between TimeToDead and TimeToDead + M*s + (M-1)*c after its first claim |
| SilentRun.UnlimitedNeverDies | internal/queue/consumer.go:308-338 | without a delivery limit the horizon is infinite, and neither sweep nor retirement nor nak takes a row away |
| Retention.PlanEviction | internal/queue/retention.go:68-128 | the loop with running excess and need reports exactly what recomputing the limits before every message gives: seqs, bytes, blocked counts, highest seqs, more |
| Retention.PicksSound | internal/queue/retention.go:87-120 | every pick is an unpinned candidate, aged or taken while a limit was violated and more than one message remained; at most batch of them |
| Retention.PicksAscend | internal/queue/retention.go:66-68 | picks come out in seq order |
| Retention.PicksAndRest | internal/queue/retention.go:87-125 | picks and leftovers split the candidates |
| Retention.BlockedSound | internal/queue/retention.go:95-102 | what is reported as blocked is pinned and wanted by a limit |
| Retention.BlockedComplete | internal/queue/retention.go:95-102 | a sweep short of its batch reports every pinned aged candidate |
| Retention.ShortSweepIsDone | internal/queue/retention.go:40-65 | a sweep short of its batch leaves one message at most, or no aged unpinned one and the limits met unless all that is left is pinned |
| Retention.OnlyAgePicks | internal/queue/retention.go:87-120 | with no count or byte limit violated the picks are the unpinned candidates with now - published_at > max_age, oldest first, up to the batch |
| Retention.PickReasons | internal/queue/retention.go:87-120 | otherwise a pick is overage, or more than one message and still too many messages or bytes were left |
| Retention.ShortSweepMeetsLimits | internal/queue/retention.go:40-65 | a sweep short of its batch leaves one message at most, or none overage and unpinned and count and bytes within their limits unless all that is left is pinned |
| Retention.MoreMeans | internal/queue/retention.go:127-128 | another sweep is asked for exactly after a full batch that leaves too many messages or bytes |
| Retention.HighestIsMax | internal/queue/retention.go:97-117 | the reported highest seqs are maxima |
| Retention.KeepsOne | internal/queue/retention.go:104-109 | without an age limit at least one message survives |
| Retention.OldestFirst | internal/queue/retention.go:87-125 | without an age limit the picks are the oldest unpinned candidates |
| Retention.BatchingIsInvisible | internal/queue/retention.go:68-128 | a batch of b1 + b2 picks what a batch of b1 and then one of b2 on the leftovers pick |
| Retention.DrainIsOneSweep | internal/queue/retention.go:127-128 | without an age limit, sweeping while more holds terminates and evicts exactly what one unbounded sweep would |
| Retention.DrainIsPrefix | internal/queue/retention.go:127-128 | sweeping while more holds evicts an initial part, in order, of what one unbounded sweep would |
| Retention.LastSweepFinishesIff | internal/queue/retention.go:127-128 | a sweep that does not ask for another leaves nothing to take exactly when it was short of its batch or left no unpinned aged candidate |
| Retention.DrainIsOneSweepIff | internal/queue/retention.go:127-128 | sweeping while more holds evicts all of it if and only if a limit other than age is still violated after each full batch of it but the last |
| Retention.DrainStopsEarly | internal/queue/retention.go:127-128 | two aged messages and a batch of one: it stops after the first |
| Retention.PicksAppend | internal/queue/retention.go:87-125 | a walk over two stretches is a walk over the first and, unless it stopped there, over the second with what is left of the batch |
| Retention.WindowSufficesIff | internal/store/retention.go:244-253 | a sweep of the window takes what a sweep of the whole stream would if and only if it fills its batch or nothing past the window is to be taken: all of it pinned if a limit is still violated, none of it aged and unpinned otherwise |
| Retention.PinnedWindowStalls | internal/store/retention.go:244-253 | a window pinned through and through takes nothing |
| Retention.StalledStream | internal/store/retention.go:244-253 | for every batch size a stream over its limit whose window takes nothing though the next message is free |
| Reap.StepKeeps | internal/store/commands.go:384-492 | for each name, every step that is orderly for it, crashes included, keeps: no marker beside a live row, no orphaned message, every message at or below the name's last number |
| Reap.RunKeeps | internal/store/commands.go:384-492 | the same in every state of every run orderly for the name |
| Reap.UserNamesAreOrderly | internal/store/commands.go:195-204 | every run is orderly for a name that is not a dead-letter name, as long as each of its reaps has one driver |
| Reap.ReapIsSafe | internal/store/commands.go:448-492 | over such runs no chunk removes the name's messages while it is live, and its marker clears only when it has none |
| Reap.NeverReused | internal/store/streams.go:137-155 | over any run in which the dead-letter sink restarts none of its numbers, recreations included, a name never hands out a sequence number twice |
| Reap.UserNamesNeverRestart | internal/store/dead.go:213-243 | of a name that is not a dead-letter name that is every run |
| Reap.NumbersHaveNoGaps | internal/store/streams.go:137-155 | in such runs a name's last number is how many messages it was ever given: no gaps, deletions and recreations included |
| Reap.StoredUntilTaken | internal/store/commands.go:471-475 | over any run a message stays until a removal on its live stream or a chunk of its own name takes it |
| Reap.MarkerIff | internal/store/commands.go:384-492 | over any run a marker stands exactly from a deletion to the first short chunk after it, and advertises the count at deletion |
| Reap.DlqNamesAreDerived | internal/queue/dlq.go:25-30 | the names the sink may create are exactly those it derives from a stream's |
| Reap.AutoCreateKeepsHighIff | internal/store/dead.go:225-230 | a creation by the sink restarts numbers exactly when the name is not live and its high-water mark is above zero |
| Reap.AutoCreateKeepsExclusiveIff | internal/store/dead.go:213-230 | and puts a live row beside a marker exactly when the name is marked |
| Reap.SinkReusesNumbers | internal/store/dead.go:225-230 | a whole run, one driver and no crash, in which a dead-letter name hands out number 1 twice |
| Reap.RecreatedAbove | internal/store/delete.go:55-60 | a recreated stream starts above every message the name ever held |
| Reap.ChunkSparesLiveIff | internal/store/commands.go:471-475 | a looping call's chunk spares live streams exactly when its name is not live or has no messages |
| Reap.ResumeKeepsExclusiveIff | internal/store/delete.go:129-155 | the background resume breaks the exclusion exactly when it finishes a reap whose own call still loops |
| Reap.TwoDriversLoseAMessage | internal/store/commands.go:471-492 | from any such state a message published after recreation is deleted by the old call |
| Reap.TwoDriversReachable | internal/store/delete.go:64-98 | such states are reached |
| Reap.Store.CreateStream | internal/store/commands.go:195-249 | refused while a marker stands, untouched if it exists, else created above the high-water mark |
| Reap.Store.DeleteMeta | internal/store/commands.go:384-447 | one transaction: row gone, mark and marker written |
| Reap.Store.ReapChunk | internal/store/commands.go:471-492 | removes min(bound, rows) messages of the name and clears the marker exactly when short |
| Reap.Store.DeleteStream | internal/store/delete.go:64-98 | uninterrupted, the loop terminates with the name, its messages and its marker gone, its mark kept and nothing else moved |
| Reap.Store.ReapResume | internal/store/delete.go:129-155 | one chunk of the least marked name; pending exactly when that marker still stands |
| Reap.LeastName | internal/store/delete.go:133-135 | finds the bytewise least name |
| Reap.PendingCoversAllIff | internal/store/delete.go:153 | pending is right about all markers exactly when it is set or no other name was marked |
| Reap.PendingMissesOther | internal/store/delete.go:153 | a run in which the resume of the least name leaves it unset while another marker stands |
| Reap.Store.FinishInterruptedReaps | internal/store/commands.go:615-669 | recovery terminates with every marker and every message of a marked name gone, and nothing else |
| Registry.ChannelSafety | internal/api/waiters.go:164-216 | in every interleaving, ReleaseAll included, no send hits a closed channel and none is closed twice |
| Registry.PerConsumerCap | internal/api/waiters.go:147-149 | in every interleaving a consumer's parked waiters plus the one being listed never exceed maxPer |
| Registry.TokenIff | internal/api/waiters.go:164-175 | in every interleaving a channel holds a token exactly when its waiter was signalled since it last received |
| Registry.ReceiveHadSignal | internal/api/waiters.go:164-175 | every receive had such a signal |
| Registry.ParkedIff | internal/api/waiters.go:73-93 | a waiter is parked exactly from when Subscribe lists it until Close or a ReleaseAll of its shard |
| Registry.ClosesOnce | internal/api/waiters.go:73-93 | a subscription closes once at most, and only after it was listed |
| Registry.GlobalCap | internal/api/waiters.go:137-160 | before any ReleaseAll the counter never exceeds max + 63 and is exact when nothing is in flight |
| RegistryTight.CapIsTight | internal/api/waiters.go:144-157 | for every pair of caps that admit anyone and every hash that reaches all shards, max + 63 is reached: the bound is exact |
| Registry.CloseKeepsBalanceIff | internal/api/waiters.go:73-93 | closing keeps the count right exactly when the waiter is still listed |
| Registry.CountAfterRelease | internal/api/waiters.go:202-216 | over any run after a ReleaseAll the counter at rest is short by exactly what its final store wiped out too early plus every later close of a released waiter; it is exact if and only if there was neither |
| Registry.ReleaseThenClose | internal/api/waiters.go:202-216 | one fetch parked at shutdown leaves the counter at -1 |
| WaiterRegistry.WaiterTable.constructor | internal/api/waiters.go:113-119 | an empty registry |
| WaiterRegistry.WaiterTable.Subscribe | internal/api/waiters.go:137-160 | refuses exactly when a cap is full, otherwise check, list and count in a row |
| WaiterRegistry.WaiterTable.Close | internal/api/waiters.go:73-93 | once per subscription: unlist and uncount, listed or not |
| WaiterRegistry.WaiterTable.Wake | internal/api/waiters.go:165-175 | one token at most for every waiter of the key, none for others |
| WaiterRegistry.WaiterTable.WakeMatching | internal/api/waiters.go:233-248 | a token for exactly the stream's waiters whose filters match |
| WaiterRegistry.WaiterTable.Waiting | internal/api/waiters.go:179-193 | the distinct keys with parked waiters, or none when the counter is zero |
| WaiterRegistry.WaiterTable.ReleaseAll | internal/api/waiters.go:202-216 | every parked channel closed once, every shard empty, the counter zero |
| LongPoll.StepKeeps | internal/api/fetch.go:104-161 | every step of commits, pump, wakes and handlers keeps: no sleeper misses a matching publish that is neither in transit, dropped nor signalled |
| LongPoll.NoLostWakeUp | internal/api/fetch.go:104-161 | over every interleaving: a matching publish after a sleeper's last fetch is in transit, was dropped, or left its token |
| LongPoll.DrainedPumpWakes | internal/store/writer.go:872-877 | once the pump caught up the sleeper can receive, unless the event was dropped |
| LongPoll.PumpNeverSticks | internal/store/writer.go:872-877 | the pump's next event is always one it can deliver |
| LongPoll.TokenIff | internal/api/fetch.go:104-161 | over every interleaving a handler's channel holds a token exactly when a matching publish reached the registry, or somebody poked it, since it last received or subscribed |
| LongPoll.ReceiveHadSignal | internal/api/fetch.go:140-150 | nobody wakes for nothing: every receive had such a signal |
| LongPoll.PresentIff | internal/api/fetch.go:104-111 | a handler is registered exactly from its subscription, with the filter it gave then, until it leaves |
| LongPoll.SeenIsLastFetch | internal/api/fetch.go:118-139 | what a parked handler has seen is the log as its last fetch found it |
| LongPoll.InCommitOrder | internal/store/writer.go:872-877 | publishes in transit are in commit order, each once: the pump wakes in that order |
| LongPoll.PublishFate | internal/store/writer.go:702-709 | every publish is in transit, was dropped, or has reached the registry |
| LongPoll.LogIsPublished | internal/store/writer.go:702-709 | the log is the committed publishes in order |
| LongPoll.HandOverDropsIff | internal/store/writer.go:702-709 | a hand-over drops publishes exactly when it has some and the queue is full, of whatever events |
| LongPoll.NothingDroppedIff | internal/store/writer.go:702-709 | over any run nothing was dropped if and only if no hand-over with a publish met a full queue |
| LongPoll.NoOverflowNoLoss | internal/api/fetch.go:104-161 | in such runs a matching publish after a sleeper's last fetch is in transit or left its token |
| LongPoll.OverflowLosesWakeUp | internal/store/writer.go:702-709 | from a full queue the next matching publish leaves a sleeper with an unseen publish and nothing on its way |
| LongPoll.OverflowReached | internal/store/writer.go:702-709 | a whole run that ends so with no publish ever queued: the pump 64 batches of other events behind, a handler asleep, the first matching publish dropped |
| DeadLetter.OneEventOneCopy | internal/store/dead.go:84-174 | a call that does not fail emits exactly one msg.dead; a copy of the origin's size, under the next number, which no row held, and dated as early as time order allows, exists exactly when the outcome is "written"; no other stream's rows move |
| DeadLetter.OutcomeIff | internal/store/dead.go:84-116 | dropped exactly when the consumer is not mapped to copying, origin missing exactly when it is and no row has the number, nothing but one event moving in both; otherwise refused by the budget exactly as written, or written at the origin's size, or failed |
| DeadLetter.PassSnoc | internal/store/sweep.go:270-300 | a pass decides each row on the tables and budget the ones before it left, and defers only what the budget refuses then |
| DeadLetter.CollidesIff | internal/store/dead.go:141-150 | a copy within budget fails on the primary key exactly when a row holds its number; never while numbers lie below the counter |
| DeadLetter.LeftoverCollides | internal/store/dead.go:213-230 | a leftover row number 1 under an auto-created name makes the first copy fail |
| DeadLetter.DeadKeepsCounted | internal/store/dead.go:162-168 | counters stay equal to row count and size sum for every stream |
| DeadLetter.DeadKeepsTime | internal/store/dead.go:176-189 | copies stay in published_at order whatever the clock does |
| DeadLetter.DeadKeepsNumbered | internal/store/dead.go:116-123 | numbers stay below the counter, so copies never collide |
| DeadLetter.EnsureKeepsCountedIff | internal/store/dead.go:213-243 | auto-creation keeps the counters right exactly when the name has counters already or no leftover rows |
| DeadLetter.CopiesBounded | internal/queue/dead.go:81-107 | a transaction writes at most its budget of copies, and the budget accounts for every copy and byte |
| DeadLetter.CanCopyWithinIff | internal/queue/dead.go:86-98 | one permitted copy honours the byte limit exactly when something remains or it is empty |
| DeadLetter.BytesBoundedIff | internal/queue/dead.go:86-107 | a transaction's bytes stay within budget exactly when it copies nothing after the remainder hit zero |
| DeadLetter.ExhaustedCopiesAnything | internal/queue/dead.go:93-95 | at remainder zero any size goes through |
| DeadLetter.PassKeepsTables | internal/store/sweep.go:270-300 | counters and time order hold after any number of calls |
| DeadLetter.PassShrinks | internal/store/sweep.go:285-291 | if every message fits a fresh budget and numbers lie below their counters, each transaction retires at least one row |
| DeadLetter.DrainFinishes | internal/store/sweep.go:285-291 | then as many transactions as dead rows drain them all, at one msg.dead each |
| DeadLetter.Sink.DeadLetter | internal/store/dead.go:84-174 | the call as written has the outcome, tables and budget of the dead-letter step, or changes nothing on a refused budget or insert; it drops exactly when the consumer is not mapped to copying |
| DeadLetter.Sink.RetireAll | internal/store/sweep.go:270-300 | the loop defers exactly the rows over budget and goes on; a failed insert rolls everything back |
| EditDistance.Levenshtein | internal/doctor/checks_first.go:225-244 | the two-row table computes the recursive distance |
| EditDistance.NoShorterScript | internal/doctor/checks_first.go:223-225 | no script of inserts, deletes and substitutions is shorter than the distance |
| EditDistance.ShortestScript | internal/doctor/checks_first.go:223-225 | and some script is exactly that short |
| EditDistance.Symmetric | internal/doctor/checks_first.go:225-244 | the distance is symmetric |
| EditDistance.ZeroIffEqual | internal/doctor/checks_first.go:225-244 | it is zero exactly for equal strings |
| EditDistance.Triangle | internal/doctor/checks_first.go:225-244 | it satisfies the triangle inequality |
| FakeClock.NextTickIsLeast | internal/clock/fake.go:122-130 | a ticker's next deadline is the least grid point after now |
| FakeClock.Fake.Arm | internal/clock/fake.go:174-190 | the new waiter joins the list with the next number |
| FakeClock.Fake.Stop | internal/clock/fake.go:192-203 | reports whether it was armed; afterwards it is neither armed nor listed |
| FakeClock.Fake.Reset | internal/clock/fake.go:208-223 | re-arms behind everything armed, listed once |
| FakeClock.Fake.Drop | internal/clock/fake.go:226-228 | removes that waiter and keeps the others in order |
| FakeClock.Fake.Due | internal/clock/fake.go:157-172 | exactly the due waiters, strictly in (deadline, sequence) order |
| FakeClock.Fake.Fire | internal/clock/fake.go:110-134 | one tick if there is room; a timer leaves, a ticker moves to its next grid point |
| FakeClock.Fake.Set | internal/clock/fake.go:105-136 | forwards or backwards: each due waiter fires once in order, no other changes, tickers are renumbered in that order, nothing due is left, and the list is still exactly the armed waiters |
| TokenCodec.ParseRender | internal/queue/token.go:32-49 | every in-range token parses back from its rendering |
| TokenCodec.RenderParse | internal/queue/token.go:51-118 | every accepted string is the rendering of the in-range token it parses to |
| TokenCodec.AcceptedIffRendered | internal/queue/token.go:43-118 | the accepted strings are exactly the renderings of in-range tokens |
| TokenCodec.RenderFits | internal/queue/token.go:36-41 | no rendering exceeds 171 bytes |
| TokenCodec.RenderInjective | internal/queue/token.go:29-34 | one token, one string |
| TokenCodec.FieldRoundTrip | internal/queue/token.go:124-139 | a number in range survives its decimal field |
| TokenCodec.FieldIsCanonical | internal/queue/token.go:124-139 | an accepted field is the canonical decimal of its value |
| TokenCodec.NamesAreWords | internal/subject/subject.go:339-361 | a stream name is words joined by dots, a consumer name one word, 64 bytes at most |
| TokenCodec.EdgesAlphanumericIff | internal/queue/consumer.go:213-220 | a valid name starts and ends alphanumeric exactly when neither end is an underscore or hyphen |
| TokenCodec.HyphenIsAName | internal/queue/consumer.go:213-220 | a lone hyphen is accepted |
| Ulid.SuccAddsOne | internal/id/ulid.go:128-133 | the byte carry adds exactly one to the 128-bit number, wrapping only from all 0xFF |
| Ulid.Increment | internal/id/ulid.go:127-134 | the carry loop is that successor |
| Ulid.CompareIsNumeric | internal/id/ulid.go:114-116 | comparing ids bytewise compares their numbers |
| Ulid.LargerIff | internal/id/ulid.go:111-136 | a call returns a larger id exactly when the last one was not all 0xFF |
| Ulid.StepMintsNext | internal/id/ulid.go:111-136 | a call hands out the first larger id that the library mints and only if none of eight is larger the last id plus one; the millisecond is the later of clock and previous one plus the failed mints, modulo 2^64 |
| Ulid.EdgesWrap | internal/id/ulid.go:111-136 | failing entropy on the last id and the last millisecond gives the smallest id and millisecond 7 |
| Ulid.IdsIncrease | internal/id/ulid.go:93-136 | over any clock history and entropy, ids strictly increase while none was all 0xFF |
| Ulid.MillisecondKeepsIff | internal/id/ulid.go:108-123 | the millisecond stays at or above the last one and the clock exactly when it stays within 64 bits |
| Ulid.MillisecondsNeverFall | internal/id/ulid.go:108-123 | over any run clear of that edge it never falls |
| Ulid.SeenIsHighestIff | internal/id/ulid.go:99-106 | after a call the field holds that reading, so it is the highest so far exactly when the last reading is |
| Ulid.SeenFallsBack | internal/id/ulid.go:99-106 | readings 5 and 3 leave it at 3 |
| Ulid.Gen.New | internal/id/ulid.go:93-136 | the method is the generator step: the first larger id the library mints, or the last plus one if none of eight is; and it reports a regression exactly when the reading is below the previous one |
| DedupRotation.TraceIsConsecutive | internal/janitor/jobs.go:196-229 | over any runs with any expiries and errors, successful sweeps visit consecutive indices modulo n |
| DedupRotation.EveryStreamOnce | internal/janitor/jobs.go:196-229 | any n consecutive successful sweeps cover every stream exactly once |
| DedupRotation.StrandedReenters | internal/janitor/jobs.go:204-227 | a cursor past a shrunken list is back in range after one run; one in range makes progress |
| DedupRotation.UninterruptedIsFull | internal/janitor/jobs.go:196-229 | a run that nothing interrupts sweeps as many streams as its limit allows and the list still has |
| DedupRotation.DedupJob.Run | internal/janitor/jobs.go:196-229 | the run sweeps that window, resumes at a failed stream, and asks for more exactly when its limit was the reason to stop |

## Left out

- HTTP, JSON, CLI, rendering, metrics, events other than msg.dead, and doctor's prose checks: input and output with shallow properties.
- SQLite, fsync, file locks and the group-commit writer's batching: each command is one atomic step over maps and sets.
- The subject filter grammar: a filter is the set of subjects it matches, and a consumer's filters stay fixed during a run.
- Pausing: a paused consumer's fetch is a command that does nothing, so the runs are those without it.
- Authentication, data-directory checks, sd_notify, backup and restore.
- 64-bit overflow of times, byte counts and sequence numbers, except in the token parser and the id generator, where it is modelled.
- The header merge, provenance headers and the copied body of a dead letter: the copy is its number, size and time.
- The dead-letter branch for an origin that vanishes between two statements of one transaction: the single writer excludes it.
- The name rule's case-insensitive collision on create: it only adds refusals.
- SweepPass.PassProgressesIff: counts the leases of one consumer; the source's limit counts those of all consumers together.
- Retention in work-queue mode, whose planner takes any settled message.
- The exact hash that spreads streams over the 64 shards: `Registry` holds for every hash.
- BrokerInvariant.RunKeeps: covers one stream with one consumer; commands touch no other consumer's rows, and a run of many is one run for each.
- Registry.GlobalCap: stated up to the first ReleaseAll, since afterwards the code's counter can drift; `Registry.CloseKeepsBalanceIff` and `Registry.CountAfterRelease` say exactly when.
- BrokerInvariant.UpdateKeeps: does not model a patch of the filters, which changes what later top-ups admit and touches no row.
- Reap.ReapIsSafe: speaks of runs orderly for the name, since the code guards neither a second driver nor the sink's creation of a marked name; `Reap.ResumeKeepsExclusiveIff` and `Reap.AutoCreateKeepsExclusiveIff` say exactly when that matters.
- Reap.NeverReused: excludes restarts by the dead-letter sink, since the code does restart; `Reap.AutoCreateKeepsHighIff` is the exact condition.
- DeadLetter.DrainFinishes: speaks of tables whose numbers lie below their counters, which every call keeps; otherwise a copy may collide, and `DeadLetter.CollidesIff` says exactly when.
- Reap.Store.DeleteStream: states the uninterrupted call; interleavings are the runs of `Reap.ReapIsSafe`.
- Ulid.IdsIncrease: assumes no id is all 0xFF, since the carry wraps there; `Ulid.LargerIff` is the exact condition.
- LongPoll.NoLostWakeUp: allows for dropped batches, since a full queue drops them; `LongPoll.NoOverflowNoLoss` removes that case when no hand-over with a publish meets a full queue.
- BlockUntil, Sleep and the goroutine hand-off of the fake clock: only its state changes are modelled.
