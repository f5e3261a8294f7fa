# Filearr: the central protocols and controllers, proved

This project models, in Dafny, the parts of Filearr where behaviour spans many calls:
the protocols by which the central server keeps up with its fleet of agents, the session
token lifecycle, and a few controllers and algorithms that stand on their own. Run
`dafny verify dfyconfig.toml` to check all of it.

| module | models |
|---|---|
| `Replication` | the sequence guard, the collapse of a batch of file events into a plan, and its application to rows, ledger and watermark |
| `Refinement` | collapsed batches against one event at a time, and runs over a channel that loses, repeats and reorders |
| `Reconcile` | the start / stage / finish sweep that repairs a library from a full manifest |
| `Microseconds` | the float conversions of modification times, by the error bound of section 4.3.1 of IEEE 754-2019 |
| `Commands` | agent commands: leases, redelivery, expiry, and the bounded sweep |
| `Sessions` | token rotation, confirmation and re-issue, serial and interleaved |
| `Backpressure` | the extract limiter, an additive-increase, multiplicative-decrease controller |
| `AgentConfig` | rollout tiers and the layered configuration merge with provenance |
| `DiskGuard` | the two-pass collapse of disk rows to one per device |
| `Frecency` | personal re-ranking and the table behind it |
| `Chunking` | overlapping text windows |
| `RateLimit` | a token bucket per key |
| `Directory` | the closure of a caller's identities under group membership |
| `GrantCache` | the generation and time-limited cache of grants |
| `Common`, `Sorting` | shared datatypes, stable sorting and string order |

An object whose methods update it is a class, and every method's contract gives its whole
new state as a function of the old one; the theorems are lemmas about those functions,
over all inputs and all runs. A flushed or committed block is one atomic step, except that
a session request is two (its read and its guarded update) and a grant load three. Clocks,
random tokens, load averages, queue depths, locked rows and the hash of a manifest are
parameters.

Where the code does not keep what its text suggests, the model follows the code, a lemma
gives an input at which it fails, and another the exact condition:

- A batch is collapsed by relative path alone, so an agent with one path in two libraries
  loses a change (`Refinement.SharedPathLosesAChange`). Collapsing is safe exactly for
  batches where each path stays in one library and no omitted field was supplied earlier
  (`Refinement.CollapseSafeExactly`).
- After a rejection the expected number counts a contiguous prefix that was not applied,
  so a resend from it may be refused again (`Replication.PrefixedResendRefused`). It is
  accepted exactly when that prefix is empty (`Replication.ResendFromExpected`), as it is
  for slices of the outbox.
- A start right after a successful finish may answer "mismatch"
  (`Reconcile.TrashedNeverMatches`), since trashed rows are left out of central's own
  digest. It answers "match" exactly when no staged path is in the trash
  (`Reconcile.NextStartMatchesExactly`).
- A re-issue may replace a token that has been confirmed
  (`Sessions.ReissueMayReplaceConfirmed`). It does so exactly when the confirmation was
  written between its read and its update (`Sessions.ReissueReplacesConfirmedExactly`).
- With `max_attempts` zero or negative a command is still delivered
  (`Commands.FirstDelivery`); deliveries stay within `max_attempts` exactly when it is at
  least 1 (`Commands.DeliveriesWithinAttemptsExactly`).
- Acknowledgements, completions and cancellations load their row without a lock, so a
  completion can overwrite a cancellation (`Commands.CancelledBecomesDone`). A terminal
  status is final exactly when no request that loaded the row earlier is still to write
  another one (`Commands.TerminalForeverExactly`).
- A load that reads before a generation bump and stores after it is kept under the new
  generation and served (`GrantCache.SpanningLoadServesRevoked`). A hit was read in the
  current generation exactly when no bump fell between that read and that store
  (`GrantCache.HitCurrentExactly`).
- A stored null in a group's settings overrides earlier groups although null is described
  as "inherit" (`AgentConfig.NullHidesValue`). A key gets its last value that is not null
  exactly unless the last group holding it holds a null over an earlier value
  (`AgentConfig.NullInheritsExactly`); in the lifted keys of the wire document the policy
  then shows through (`AgentConfig.LiftShowsExactly`).
- The examples in the text of `lift` (4 gives 2, 28 gives 4) disagree with its loop, which
  gives 3 and 5 (`Frecency.LiftExamples`); a lift passes k exactly when the score has
  reached 2^k (`Frecency.LiftExceeds`).
- The first use of an item may be forgotten at once (`Frecency.FirstUseForgotten`), exactly
  when it takes its owner past the rank cap (`Frecency.TouchRemembered`).

## Model

| member | source | states |
|---|---|---|
| `Replication.CheckBatch` | backend/filearr/agentsync.py:350-392 | A batch is accepted if and only if it is the non-empty contiguous continuation of the last sequence number; a rejection names the reason of the first entry that breaks the continuation, and the expected number is last + 1 + the length of the longest contiguous prefix. |
| `Replication.PrefixLength` | backend/filearr/agentsync.py:379-390 | The place where the loop stops is the length of the longest contiguous prefix. |
| `Refinement.ReasonsMean` | backend/filearr/agentsync.py:350-392 | The reasons told by neighbouring numbers: stale at or below the last number, gap above the next, then a repeat, a step back, or a jump at the first entry at fault. |
| `Replication.ResendFromExpected` | backend/filearr/agentsync.py:350-392 | A resend from the expected number is accepted exactly when the refused batch had no contiguous prefix, because a prefix is counted but never applied. |
| `Replication.PrefixedResendRefused` | backend/filearr/agentsync.py:350-392 | An input: batch 1, 3 on a watermark of 0 is refused with 2 expected, and a resend from 2 is refused too. |
| `Replication.SliceAcceptedAfterRejection` | backend/filearr/agentsync.py:350-392 | An agent that sends contiguous slices of its outbox is accepted on the send after any rejection. |
| `Replication.PlanUpserts` | backend/filearr/agentsync.py:417-444 | The plan holds, for every path, what the last event touching it says: its winning upsert or a tombstone, each once, nothing else, both lists in path order. |
| `Replication.LastOpFromBatch` | backend/filearr/agentsync.py:429-438 | What a path ends up with was asked for by some event of the batch. |
| `Replication.DeleteRefs` | backend/filearr/agentsync.py:1064-1069 | Every deleted path is tombstoned in the library of the last event that touches it. |
| `Replication.ReplicationStore.ApplyUpserts` | backend/filearr/agentsync.py:1108-1190 | Each planned upsert leaves its row active with the supplied fields (absent ones kept or defaulted, hashes overwritten); every other row is unchanged. |
| `Replication.ReplicationStore.ApplyDeletes` | backend/filearr/agentsync.py:1193-1206 | Exactly the planned tombstones that meet a row mark it missing; the others are counted as no-ops and change nothing. |
| `Replication.ReplicationStore.RecordLedger` | backend/filearr/agentsync.py:1209-1221 | One ledger entry per sequence number; an entry already there is never replaced. |
| `Replication.ReplicationStore.ApplyBatch` | backend/filearr/agentsync.py:1006-1245 | The two passes, the ledger and the watermark together leave the table in which every row has gone through the last operation on its path; the counters are the numbers of upserted paths, of deleted paths, and of deleted paths without a row. |
| `Replication.ReplicationStore.Receive` | backend/filearr/api/agent_commands.py:1391-1455 | The endpoint applies a batch exactly when it continues the watermark and otherwise changes nothing. |
| `Replication.CollapsedAt` | backend/filearr/agentsync.py:1108-1206 | Row by row, a batch does to a row what the last event on its path says and nothing to rows of other libraries or untouched paths. |
| `Refinement.OperationsMean` | backend/filearr/agentsync.py:1108-1206 | Field by field: an upsert keeps an omitted size and time of an existing row and defaults those of a new one, overwrites the hashes and makes the row active; a tombstone makes a row missing and keeps its facts, and does nothing without one. |
| `Replication.PlanDone` | backend/filearr/agentsync.py:1108-1206 | Upserts first and deletes after, over the sorted plan, produce exactly that table. |
| `Refinement.SingletonBatch` | backend/filearr/agentsync.py:1006-1245 | A batch of one event is that event: a move tombstones the old path and upserts the new one. |
| `Refinement.CollapseSafeExactly` | backend/filearr/agentsync.py:417-444 | Collapsing a batch leaves the same active manifest as applying its events one at a time, on every table, if and only if every path stays in one library and no field omitted by the surviving event was supplied by a collapsed one. |
| `Refinement.SharedPathLosesAChange` | backend/filearr/agentsync.py:429-438 | The condition matters: two libraries of one agent that share a relative path lose the first change. |
| `Refinement.BatchReports` | agent/internal/outbox/outbox.go:148-180 | For events as the agent puts them on the wire (size and mtime on all but deletions), the active manifest after a batch is the report of its events in order. |
| `Refinement.LedgerGrows` | backend/filearr/agentsync.py:1209-1221 | A contiguous batch adds exactly its own numbers to the ledger and keeps every older entry. |
| `Refinement.AcceptedSlice` | backend/filearr/agentsync.py:350-392 | A slice of the outbox that the guard accepts is the next stretch of the outbox. |
| `Refinement.DeliverKeeps` | backend/filearr/agentsync.py:1006-1245 | Delivering any batch ever sent, however late or often, keeps the invariant: active manifest = outbox 1..watermark reported one at a time, ledger = exactly those events. |
| `Refinement.RunReports` | backend/filearr/agentsync.py:350-392 | The same at every point of every run over a channel that loses, repeats and reorders batches and acknowledgements. |
| `Refinement.CutsDoNotMatter` | backend/filearr/agentsync.py:417-444 | Two runs over one outbox with the same watermark have the same active manifest, however the outbox was cut into batches. |
| `Microseconds.RoundTripExactly` | backend/filearr/agentsync.py:467-477 | us/10^6 read back through round(x*10^6), each float step with relative error at most 2^-53, returns us for all errors if and only if abs(us) < 2^51. |
| `Microseconds.StoredExactly` | backend/filearr/agentsync.py:1568 | A staged time below 2^51 microseconds is stored as exactly that timestamp. |
| `Microseconds.StageStoreReadBack` | backend/filearr/agentsync.py:1606 | Dividing, storing as a timestamp, reading back as float seconds and quantizing again returns the staged microseconds. |
| `Reconcile.ListingsAgree` | backend/filearr/agentsync.py:480-500 | Two listings of one table have the same canonical blob whatever order their rows come in. |
| `Reconcile.DigestsExactly` | backend/filearr/agentsync.py:503-519 | A table has one digest and one count, those of any listing of it. |
| `Reconcile.BlobDetermines` | backend/filearr/agentsync.py:480-500 | Equal blobs list equal tables: the serialization loses nothing. |
| `Reconcile.PagingDoesNotMatter` | backend/filearr/agentsync.py:1440-1475 | A manifest with distinct paths, staged in any pages, any order and any number of resends, has the agent's own digest and row count. |
| `Reconcile.VerifiesExactly` | backend/filearr/agentsync.py:1535-1543 | With an injective hash, the staged digest and count verify exactly when the staging area holds the agent's manifest. |
| `Reconcile.Reconciler.ComputeCentralDigest` | backend/filearr/agentsync.py:1290-1324 | The digest and count of the active rows of the library, and of nothing else. |
| `Reconcile.Reconciler.ReconcileStart` | backend/filearr/agentsync.py:1365-1418 | Answers match exactly on equal digest and count, stamping the time and resetting the watermark after a rebuild; otherwise opens an empty session in place of any older one. Rows never change. |
| `Reconcile.Reconciler.LoadLiveSession` | backend/filearr/agentsync.py:1346-1362 | Only this agent's unexpired session loads; an expired one is dropped, another id leaves the session alone. |
| `Reconcile.Reconciler.StageRows` | backend/filearr/agentsync.py:1421-1475 | A page is merged into the staging area, a resent path replaced, and the number of distinct staged paths returned; without a live session nothing is staged. |
| `Reconcile.Reconciler.SweepRow` | backend/filearr/agentsync.py:1567-1632 | One staged row against one item: created, reactivated, updated, left alone, or left in the trash. |
| `Reconcile.Reconciler.SweepStaged` | backend/filearr/agentsync.py:1567-1632 | The loop sweeps every staged path and each counter is the number of paths with that outcome. |
| `Reconcile.Reconciler.TombstoneAbsent` | backend/filearr/agentsync.py:1635-1641 | Exactly the active rows of the library absent from the manifest become missing, and are counted. |
| `Reconcile.Reconciler.ReconcileFinish` | backend/filearr/agentsync.py:1478-1659 | Succeeds exactly for a live session whose staging area verifies; then the library is swept, counted and stamped and the session dropped; a failed verification drops the session and touches no row. |
| `Reconcile.CountsMean` | backend/filearr/agentsync.py:1558-1632 | The counters of a finish, without its decision function: upserted counts the staged paths with no row, reactivated those whose row is missing, trashed_conflicts those whose row is trashed, updated and unchanged those whose active row differs from or equals the staged size, time and hashes; they sum to the staged rows. |
| `Reconcile.SweptRowMeans` | backend/filearr/agentsync.py:1567-1632 | Field by field: a staged row leaves its item active with the staged size and hashes and a time stored from, or read back as, the staged one; a trashed item and every other one stay as they are. |
| `Reconcile.AbsentMeans` | backend/filearr/agentsync.py:1635-1641 | An unlisted active row becomes missing and keeps its facts; any other unlisted row stays as it is. |
| `Reconcile.SweepConverges` | backend/filearr/agentsync.py:1567-1641 | After a sweep the active rows are exactly the staged manifest minus trashed paths; trashed rows and other libraries are untouched, and no row disappears. |
| `Reconcile.NextStartMatchesExactly` | backend/filearr/agentsync.py:1394-1404 | The next start on that manifest answers match if and only if no staged path is in the trash. |
| `Reconcile.TrashedNeverMatches` | backend/filearr/agentsync.py:1598-1602 | An input: a library whose one file is in the trash is swept without effect and never matches. |
| `Reconcile.SecondFinishExactly` | backend/filearr/agentsync.py:1604-1632 | A second finish counts an untrashed path unchanged exactly when the first did or its time survives storing. |
| `Reconcile.SecondFinishCounts` | backend/filearr/agentsync.py:1558-1641 | With no trashed path a second finish counts every staged row unchanged and every other counter, tombstones included, is 0. |
| `Reconcile.SweepFixedPoint` | backend/filearr/agentsync.py:1567-1641 | Sweeping again changes nothing. |
| `Reconcile.FloatClockFaithful` | backend/filearr/agentsync.py:467-477 | Times below 2^51 microseconds survive the float conversions, so the hypothesis of the convergence theorems holds. |
| `Commands.FilterIsDecision` | backend/filearr/agentsync.py:1784-1795 | The row filter of the sweep selects exactly the rows on which the pure decision is not None. |
| `Commands.SweepTransitionLegal` | backend/filearr/agentsync.py:1691-1717 | Every transition the sweep attempts is in the transition table. |
| `Commands.CommandQueue.Sweep` | backend/filearr/agentsync.py:1762-1832 | The sweep never raises, applies the decision to the earliest-expiring unlocked candidates, at most limit of them, and each counter is the number of those rows with that decision. |
| `Commands.CommandQueue.SweepOne` | backend/filearr/agentsync.py:1805-1829 | One selected row is expired, failed, or returned to pending with its lease cleared, as the decision says. |
| `Commands.ChosenSwept` | backend/filearr/agentsync.py:1744-1759 | Field by field, a row the sweep took: past its deadline it expires; else its lease has lapsed, and it goes back to pending with no lease while a delivery is left and fails saying how many there were otherwise. |
| `Commands.LapsedIsRedelivered` | backend/filearr/agentsync.py:1755-1758 | A chosen picked-up row that is not past its deadline and has attempts left is pending again, with no lease and as many attempts. |
| `Commands.LapsedIsChosen` | backend/filearr/agentsync.py:1784-1800 | A sweep with room takes exactly the unlocked rows past their deadline or, picked up, past their lease. |
| `Commands.CommandQueue.Poll` | backend/filearr/api/agent_commands.py:1187-1252 | Delivers the oldest unlocked, unexpired pending commands, each with a fresh lease and one more attempt, changes no other, and returns exactly those, each once, by creation time; nothing as old is left behind unless as many as wanted were taken. |
| `Commands.CommandQueue.AckCommand` | backend/filearr/api/agent_commands.py:1255-1280 | Succeeds exactly on a picked-up command and only refreshes its lease. |
| `Commands.CommandQueue.CompleteCommand` | backend/filearr/api/agent_commands.py:1288-1340 | Succeeds exactly on a done command, whose replay changes nothing, and on a picked-up one whose report is not too large, which becomes terminal with that report. |
| `Commands.CommandQueue.CancelCommand` | backend/filearr/api/agent_commands.py:1152-1173 | Succeeds exactly on a command that is not terminal. |
| `Commands.SelectFirst` | backend/filearr/agentsync.py:1784-1800 | ORDER BY with LIMIT: rows in key order, nothing left out before anything taken, and fewer than the limit only when all are taken. |
| `Commands.StepRows` | backend/filearr/agentsync.py:1691-1717 | Every step enqueues a fresh command or changes existing ones by the table: deadlines are kept, terminal rows untouched, attempts counted exactly on delivery, and nothing returns to pending without an attempt left. |
| `Commands.TerminalForever` | backend/filearr/agentsync.py:1685-1717 | Over every run of requests that do not overlap, a terminal command never changes again. |
| `Commands.TerminalForeverExactly` | backend/filearr/api/agent_commands.py:1160-1173 | With overlapping requests, which load a row unlocked and write its changed columns later, a terminal status is final in every continuation if and only if no open request, having loaded the row while it was live, would take it to another status. |
| `Commands.WriteAloneIsSerial` | backend/filearr/api/agent_commands.py:1255-1280 | A request that overlaps no other change of its row is the serial step. |
| `Commands.CancelledBecomesDone` | backend/filearr/api/agent_commands.py:1306-1340 | An input: a cancellation and a completion that both loaded the command in flight end in done. |
| `Commands.DeliveriesBounded` | backend/filearr/agentsync.py:1725-1759 | Over every run attempts counts the deliveries, which are at most max(1, max_attempts) for any command. |
| `Commands.FirstDelivery` | backend/filearr/api/agent_commands.py:1229-1250 | A run in which a command is delivered once whatever max_attempts is. |
| `Commands.DeliveriesWithinAttemptsExactly` | backend/filearr/agentsync.py:1725-1759 | Every run delivers every command at most max_attempts times if and only if max_attempts is at least 1. |
| `Commands.RunSound` | backend/filearr/agentsync.py:1691-1759 | Over every run from an empty queue a command has a lease exactly while picked up, a result and an end exactly when terminal, and is expired only past its deadline. |
| `Commands.GaveUpAfterAllAttempts` | backend/filearr/agentsync.py:1755-1758 | Over every such run the sweep gives up only on a command delivered max_attempts times or more, and records exactly how often it was delivered. |
| `Commands.ExpiredOnlyLate` | backend/filearr/agentsync.py:1753-1754 | A command is expired only at or after its deadline. |
| `Commands.SweepProgress` | backend/filearr/agentsync.py:1762-1832 | An unblocked sweep either clears all live commands expiring by a passed deadline or reduces them by the whole limit. |
| `Commands.ExpiredBecomesTerminal` | backend/filearr/agentsync.py:1762-1832 | An expired command is terminal after ceil(r/limit) unblocked sweeps, r being the live commands expiring no later, whatever happens in between. |
| `Sessions.SessionStore.constructor` | backend/filearr/authx.py:158-198 | A new session has one token, no previous one, and starts both clocks. |
| `Sessions.SessionStore.Read` | backend/filearr/authx.py:302-336 | Unknown tokens are refused, stale rows refused and deleted on commit, and any other request leaves with the row it saw. |
| `Sessions.SessionStore.Write` | backend/filearr/authx.py:343-405 | The guarded update of the request's decision applies only while its guard still holds of the row, and a token is returned exactly when it was installed. |
| `Sessions.SessionStore.ValidateSession` | backend/filearr/authx.py:258-411 | One request with nobody in between: the read, the optional update, the sliding idle window. |
| `Sessions.DeniedExactly` | backend/filearr/authx.py:302-336 | A request is denied if and only if the session is gone, the token is neither the current one nor an unexpired previous one, the absolute end has come, or the session has idled longer than its window; in the last two cases a request that commits deletes the row. |
| `Sessions.RotatesExactly` | backend/filearr/authx.py:343-405 | A new token is handed out exactly to a current one past the rotation interval, or to a previous one that is still on more than the grace when the grace since the rotation is over. |
| `Sessions.PresentingConfirms` | backend/filearr/authx.py:367-380 | Presenting the new token leaves the previous one the in-flight grace and no more. |
| `Sessions.CapMeans` | backend/filearr/authx.py:201-214 | The cap of a rotated-away token is the configured one, never beyond the idle window, but at least a minute above the grace. |
| `Sessions.SilenceEndsSession` | backend/filearr/authx.py:324-336 | Over serial requests by anybody, after a silence longer than the idle window no token is ever granted again, whether or not the denials commit. |
| `Sessions.AbsoluteEnd` | backend/filearr/authx.py:316-318 | Nor at or after the absolute end, however busy the session was. |
| `Sessions.SessionStore.Revoke` | backend/filearr/authx.py:435-445 | Deletes the row for the current or a still-valid previous token, and reports whether it did. |
| `Sessions.VisitSafe` | backend/filearr/authx.py:302-410 | A browser that holds the current token, or the previous one on its full cap, is served and stays so, whether or not the response arrives. |
| `Sessions.VisitsSafe` | backend/filearr/authx.py:302-410 | Hence it is never refused over any sequence of visits with gaps within cap - 2*grace (with no grace, under the cap). |
| `Sessions.LongGapRefuses` | backend/filearr/authx.py:381-405 | Any longer gap that the idle window admits has a run, with one lost cookie, that ends in a refusal. |
| `Sessions.NoLogoutExactly` | backend/filearr/authx.py:201-214 | For every configuration and gap, a lost cookie logs nobody out if and only if the gap, cut down to the idle window, is within cap - 2*grace (with no grace, under the cap) or zero. |
| `Sessions.WinnerSpaced` | backend/filearr/authx.py:343-405 | A winning update is at least the rotation interval (a re-issue: the grace) after the change before it. |
| `Sessions.LogExtends` | backend/filearr/authx.py:343-405 | A winning update extends a chain of changes that repeats no token. |
| `Sessions.ChainIsLinear` | backend/filearr/authx.py:343-405 | Over every interleaving of reads and guarded updates the replacements form one chain: each replaces the token the one before installed, spaced by the rotation interval, and the tokens returned as rotated are exactly those installed. |
| `Sessions.OneWinner` | backend/filearr/authx.py:346-357 | Each session hash is replaced by at most one winner. |
| `Sessions.RowStep` | backend/filearr/authx.py:343-405 | The hash, the previous hash, its validity and rotated_at change only together: a rotation makes the replaced hash the previous one, a re-issue keeps the previous one, and both give it a full cap; otherwise prev_valid_until only shrinks. |
| `Sessions.TwoTokens` | backend/filearr/authx.py:414-424 | At most two tokens open a session at any moment, and they are the current and an unexpired previous one. |
| `Sessions.SerialReissueUnconfirmed` | backend/filearr/authx.py:381-405 | For serial requests a re-issue only replaces an unconfirmed token, which opens nothing any more, while the presented one gets a full cap again. |
| `Sessions.RunCapOrGrace` | backend/filearr/authx.py:343-405 | Over every run the previous token is on its full cap or within a grace of the present. |
| `Sessions.Confirmations` | backend/filearr/authx.py:367-380 | While one token stays current, the validity of the previous one changes exactly when a confirmation is written, and then shrinks. |
| `Sessions.ReissueReplacesConfirmedExactly` | backend/filearr/authx.py:381-405 | Over every interleaving, a winning re-issue replaces a token that has been presented if and only if a confirmation of that token was written between the read and the update of the re-issuing request. |
| `Sessions.ReissueMayReplaceConfirmed` | backend/filearr/authx.py:387-392 | An input: a re-issue and a confirmation both read, the confirmation is written first, and the re-issue replaces the confirmed token. |
| `Backpressure.ExtractLimiter.TakeSample` | backend/filearr/backpressure.py:284-361 | One sample moves the whole limiter as the control function says: gate, no-pressure reset, clamp, hysteresis, one move, bounded history. |
| `Backpressure.ExtractLimiter.ContractCeiling` | backend/filearr/backpressure.py:363-387 | Contracts to max(floor, int(ceiling*factor)) unless at the floor, within the dwell time, or not lower; otherwise changes nothing. |
| `Backpressure.ExtractLimiter.ExpandCeiling` | backend/filearr/backpressure.py:389-417 | Expands by one unless in the cooldown, within the dwell time, without known backlog, or at the maximum. |
| `Backpressure.ExtractLimiter.TryAcquire` | backend/filearr/backpressure.py:420-430 | Grants or refuses after sampling, counting one or the other. |
| `Backpressure.ExtractLimiter.Release` | backend/filearr/backpressure.py:432-433 | Gives a slot back and never goes below zero. |
| `Backpressure.RunKeeps` | backend/filearr/backpressure.py:215-236 | Over every run with fixed settings floor <= ceiling <= max, the clocks of the moves trail the samples, and the history stays bounded. |
| `Backpressure.GrantsFit` | backend/filearr/backpressure.py:420-430 | Every grant leaves in_flight within the ceiling, and every refusal means a job is running: an idle worker is never refused. |
| `Backpressure.CountsJobs` | backend/filearr/backpressure.py:420-433 | Over every run in_flight is the number of grants not yet released and the throttle count the number of refusals, both counted from the verdicts and releases alone. |
| `Backpressure.NeverOverCeiling` | backend/filearr/backpressure.py:420-430 | An active limiter refuses a job if and only if as many as the ceiling are granted and not yet released, and no grant makes them more. |
| `Backpressure.BoundsMean` | backend/filearr/backpressure.py:215-236 | The floor is the configured minimum but at least 1; the maximum is the configured one, else the worker concurrency, else 4, but at least the floor. |
| `Backpressure.TrippedExactly` | backend/filearr/backpressure.py:313-336 | Hysteresis: the limiter is tripped exactly when some sample reached the high mark and none since came down to the low one or had no pressure to read. |
| `Backpressure.HighSample` | backend/filearr/backpressure.py:344-387 | A sample at or above the high mark contracts to int(ceiling*factor) or the floor, and never by more. |
| `Backpressure.LowSample` | backend/filearr/backpressure.py:351-417 | A sample below the high mark expands by one exactly when it is low, the cooldown is over, work is known to wait and there is room; otherwise the ceiling stays. |
| `Backpressure.ReliefGrows` | backend/filearr/backpressure.py:389-417 | Over every run, k low samples with work waiting and the cooldown over bring the ceiling to min(max, c+k). |
| `Backpressure.HistoryIsLatest` | backend/filearr/backpressure.py:351-361 | The history is the last 32 readings. |
| `Backpressure.DwellGuardsNeverFire` | backend/filearr/backpressure.py:363-417 | The per-move dwell guards never fire: the sample gate already spaces the moves. |
| `Backpressure.LastContractCovers` | backend/filearr/backpressure.py:363-387 | last_contract is no earlier than any contraction of the run. |
| `Backpressure.CooldownRespected` | backend/filearr/backpressure.py:389-394 | No expansion falls inside the cooldown after any contraction. |
| `Backpressure.PressureShrinks` | backend/filearr/backpressure.py:344-387 | Over every run, while each sample taken reads a pressure at or above the high mark, k samples bring the ceiling to max(floor, c*factor^k) or below, whatever is acquired, released or answered in between. |
| `AgentConfig.ValidateTiers` | backend/filearr/agent_config.py:617-667 | Accepts exactly the tier lists that normalise to a valid schedule; every error names a fault that is there. |
| `AgentConfig.ExplainedInvalid` | backend/filearr/agent_config.py:633-667 | A named fault rules out every valid reading of the list. |
| `AgentConfig.RolloutOnlyAdvances` | backend/filearr/agent_config.py:690-705 | For an accepted schedule an agent's version never falls below the published one, never falls as the tier advances, and at the last tier reaches any newer target for every agent. |
| `AgentConfig.BeforeOrders` | backend/filearr/agent_config.py:796-824 | (priority, name, id) is a total order of the groups. |
| `AgentConfig.ResolveEffectiveConfig` | backend/filearr/agent_config.py:845-952 | The result holds the ordered merge of each section, the contributors, the generation, the composed document and its hash; and each key of a section is sourced: it has the value and the provenance of the last group, by priority, name and id, that says it in its snapshot at the version the agent receives, or in its live columns when that snapshot does not exist; the version is the target of a running rollout whose existing tier is wide enough for the bucket and whose target is newer, and the published one otherwise. |
| `AgentConfig.MergeGroups` | backend/filearr/agent_config.py:894-941 | The nested loops compute that merge, provenance, list and generation. |
| `AgentConfig.MergeSourced` | backend/filearr/agent_config.py:866-923 | The sourcing of every merged key, from the group rows, rollouts and snapshots to the value and its provenance. |
| `AgentConfig.GenerationIsGreatest` | backend/filearr/agent_config.py:917 | The generation is the greatest sequence number of a contributing snapshot. |
| `AgentConfig.Overlay` | backend/filearr/agent_config.py:918-923 | The inner loop overlays one group's keys and stamps their provenance, in whatever order the keys come. |
| `AgentConfig.MergeWinner` | backend/filearr/agent_config.py:897-923 | Every merged key has the value of the last group in (priority, name, id) order that contains it, and provenance names that group and version; no other key appears. |
| `AgentConfig.ContributorsInOrder` | backend/filearr/agent_config.py:796-824 | The contributors of any set of rows are in merge order. |
| `AgentConfig.RowOrderIrrelevant` | backend/filearr/agent_config.py:796-824 | The result does not depend on the order the group rows were loaded in. |
| `AgentConfig.WinnerUnique` | backend/filearr/agent_config.py:897-923 | A key has one winning group. |
| `AgentConfig.ComposeDocument` | backend/filearr/agent_config.py:754-783 | A lifted key shows the setting unless that is a stored null; the group key is always the settings; every other policy key passes through. |
| `AgentConfig.DocumentMeans` | backend/filearr/agent_config.py:754-783 | The document key by key: settings under group, lifted settings that are not null in place of the policy, every other policy key as it is. |
| `AgentConfig.NullInheritsExactly` | backend/filearr/agent_config.py:918-923 | A key gets its last value that is not null if and only if it is not the case that the last group holding it holds a null and an earlier one a value. |
| `AgentConfig.NullHidesValue` | backend/filearr/agent_config.py:918-923 | An input: a value in one group and a null in a later one merge to the null. |
| `AgentConfig.LiftShowsExactly` | backend/filearr/agent_config.py:754-783 | A lifted key of the document shows its last value that is not null, unless a null hides it: then the policy key of that name, or nothing. |
| `DiskGuard.GroupByKey` | backend/filearr/diskguard.py:309-319 | Pass 1: the keys in first-seen order, and for each key its statuses in order. |
| `DiskGuard.KeysOrdered` | backend/filearr/diskguard.py:309-319 | The groups come in the order of their first-seen members. |
| `DiskGuard.MergeAliases` | backend/filearr/diskguard.py:340-354 | Pass 2: the rows that own a signature or have none, in order, each holding its group and every later group with its signature. |
| `DiskGuard.RowsPartition` | backend/filearr/diskguard.py:309-354 | Every status lands in exactly one row; two share a row exactly when their keys are equal or their groups' alias signatures are equal and present; nothing is repeated; rows come first-seen first, each led by its first-seen member. |
| `DiskGuard.SameDeviceMeans` | backend/filearr/diskguard.py:309-337 | What sharing a row means, field by field: one device number, or neither known and one path; or, of the first statuses of two devices, one known fsid, or no fsid, known devices, at least 10 GiB and identical geometry. |
| `DiskGuard.Worst` | backend/filearr/diskguard.py:360-367 | The worst member status, and the reason of the first member that has it. |
| `DiskGuard.Summarise` | backend/filearr/diskguard.py:357-382 | A row carries its members, their labels joined, the facts of the first, the worst status with its reason, and is_pg if any member is. |
| `DiskGuard.DedupeByDevice` | backend/filearr/diskguard.py:280-384 | The whole of it: the rows returned are that partition, each summarised. |
| `DiskGuard.OverallStatus` | backend/filearr/diskguard.py:266-271 | The banner is the worst status. |
| `DiskGuard.WorstRankBounds` | backend/filearr/diskguard.py:266-271 | It is at least every status and is one of them. |
| `DiskGuard.OverallExactly` | backend/filearr/diskguard.py:53-58 | Critical exactly when some status is, a warning exactly when some is and none is critical, ok exactly when all are. |
| `DiskGuard.RowStatusMeans` | backend/filearr/diskguard.py:360-367 | The same of the status of a row. |
| `DiskGuard.OverallUnchanged` | backend/filearr/diskguard.py:266-271 | Collapsing rows never changes the banner. |
| `Frecency.Lift` | backend/filearr/frecency.py:150-162 | The loop returns the lift of a score. |
| `Frecency.LiftAtMeans` | backend/filearr/frecency.py:173-175 | A hit without a positive score is not boosted; any other earns the lift of its score. |
| `Frecency.LiftExceeds` | backend/filearr/frecency.py:150-162 | The lift passes k exactly when the score has reached 2^k. |
| `Frecency.LiftExamples` | backend/filearr/frecency.py:150-162 | A score of 4 earns 3 and a score of 28 earns 5. |
| `Frecency.LiftMonotone` | backend/filearr/frecency.py:150-162 | A better score never earns less. |
| `Frecency.OvertakesExactly` | backend/filearr/frecency.py:173-178 | A later hit overtakes an earlier one if and only if its lift spans the distance and, against a boosted hit, beats its lift by more than it; so ties of effective position keep the relevance order. |
| `Frecency.RiseBounded` | backend/filearr/frecency.py:165-178 | No hit rises past its own lift, so an unboosted one never rises. |
| `Frecency.FallBounded` | backend/filearr/frecency.py:165-178 | A hit falls at most as far as the greatest lift behind it. |
| `Frecency.RerankIsBounded` | backend/filearr/frecency.py:165-178 | The output is the page rearranged; each hit rises at most its lift, none moves more than MAX_LIFT places either way, and equally lifted hits keep their order. |
| `Frecency.RerankPermutes` | backend/filearr/frecency.py:165-178 | Nothing is lost, repeated or invented. |
| `Frecency.LoneHitRisesExactly` | backend/filearr/frecency.py:165-170 | "Lifted N positions" is literal: a hit boosted alone rises exactly its lift, or to the top. |
| `Frecency.FrecencyStore.RecordTouch` | backend/filearr/frecency.py:90-130 | A touch upserts, prunes by age, and past the cap halves and prunes the owner's ranks. |
| `Frecency.TouchKeeps` | backend/filearr/frecency.py:90-130 | A touch keeps the table valid: one row per owner and item, no rank below 1, every owner's total within the cap. |
| `Frecency.TableStaysBounded` | backend/filearr/frecency.py:90-130 | So after any touches no owner has more than 10,000 rows. |
| `Frecency.OwnersApart` | backend/filearr/frecency.py:90-130 | A touch never changes another owner's rows. |
| `Frecency.TouchRemembered` | backend/filearr/frecency.py:90-130 | A use is remembered unless it is the item's first and trips the cap; then it is forgotten at once. |
| `Frecency.TouchExactly` | backend/filearr/frecency.py:90-130 | Row by row what a touch leaves: the touched row one use richer and stamped, rows of the owner unused for 90 days gone, past a total of 10,000 the ranks of the owner halved and those under 1 gone, and rows of other owners as they were. |
| `Frecency.FirstUseForgotten` | backend/filearr/frecency.py:111-130 | An input: at the cap, the first use of a new item leaves no row. |
| `Chunking.ChunkText` | backend/filearr/chunking.py:44-71 | The loop returns the passages of the stripped text, or the error. |
| `Chunking.ChunksExactly` | backend/filearr/chunking.py:47-51 | Only a blank text has no passages, whatever the size; only a text with something in it is refused a size that is not positive. |
| `Chunking.StripKeepsText` | backend/filearr/chunking.py:47 | Stripping removes white space only, all of it, at the ends. |
| `Chunking.Clamp` | backend/filearr/chunking.py:52 | The overlap used is never more than half the size or negative, and is the given one when that fits. |
| `Chunking.EndIs` | backend/filearr/chunking.py:57-64 | A window is not empty, at most size wide, and ends at the text's end, at a space in its last 15%, or where there is none. |
| `Chunking.WindowsTile` | backend/filearr/chunking.py:56-70 | The windows start at 0 and end at the text's end without a gap, are at most size wide, each starts at least max(1, 85% of size - overlap) after the one before, and none ends before it. |
| `Chunking.WindowsEndWell` | backend/filearr/chunking.py:59-64 | No window splits a word while a space is near. |
| `Chunking.WindowsExactly` | backend/filearr/chunking.py:52-70 | Every window is fixed: it ends at the end of the text if that is in reach, else at the last space of its last 15%, else at full size; the next one starts with exactly the last overlap characters of it, or one character on where it is no wider. |
| `Chunking.WindowsRejoin` | backend/filearr/chunking.py:56-70 | Laid down at their starts, the windows give the text back. |
| `Chunking.PassagesLinear` | backend/filearr/chunking.py:56-70 | The number of passages is bounded linearly by the length of the text over the stride. |
| `Chunking.PassagesKeepText` | backend/filearr/chunking.py:65-67 | Every passage is a non-empty stripped piece of one window, at most size long, and every character that is not white space stands in a passage. |
| `RateLimit.RateLimiter.Allow` | backend/filearr/llm.py:159-170 | One call refills, caps and draws on its own key's bucket, a new one starting full, and touches no other bucket. |
| `RateLimit.TokensBounded` | backend/filearr/llm.py:165-168 | Over every run tokens stay within 0..limit. |
| `RateLimit.GrantsPaidFor` | backend/filearr/llm.py:165-168 | Grants are paid for by the tokens held and by what time has earned. |
| `RateLimit.FullSince` | backend/filearr/llm.py:159-170 | A bucket was full at some call, and holds exactly limit + what time earned since - what was granted since. |
| `RateLimit.WindowBounded` | backend/filearr/llm.py:146-170 | Calls that span T seconds hold at most limit + T*limit/60 grants for a key, whatever the call times and whatever other keys do. |
| `RateLimit.AllowedExactly` | backend/filearr/llm.py:159-170 | A call is allowed if and only if allowing it keeps every stretch of calls ending with it within limit + T*limit/60 grants: the limiter refuses nothing it need not. |
| `RateLimit.AffordableMeans` | backend/filearr/llm.py:165 | What a stretch can afford, written out. |
| `RateLimit.BurstIsLimit` | backend/filearr/llm.py:153-154 | Of a burst at one instant on a new key exactly the first limit calls are allowed. |
| `RateLimit.WaitingHelps` | backend/filearr/llm.py:165-168 | A key that has waited one token's worth of time is allowed. |
| `RateLimit.KeysIndependent` | backend/filearr/llm.py:156-164 | A key's bucket is what it would be had no other key ever called. |
| `Directory.ExpandPrincipals` | backend/filearr/ldap_directory.py:397-432 | The frontier loop returns everything within max_depth memberships; when it stops early, exactly the full transitive closure. |
| `Directory.WithinExactly` | backend/filearr/ldap_directory.py:415-432 | An identity is within a depth exactly when a chain of at most that many memberships leads to it, in cyclic graphs too. |
| `Directory.CompleteExactly` | backend/filearr/ldap_directory.py:418-419 | The closure has no identity missing, at any depth, if and only if it holds its own members' groups, which is what an early stop has established. |
| `Directory.ClosedStays` | backend/filearr/ldap_directory.py:418-419 | Once a level adds nothing, no deeper one does. |
| `Directory.ClosedIsAll` | backend/filearr/ldap_directory.py:415-432 | A closed level is exactly what any number of memberships reaches. |
| `Directory.EnoughDepth` | backend/filearr/ldap_directory.py:397-432 | A depth of the number of directory objects always reaches everything. |
| `GrantCache.GrantCache.BumpGeneration` | backend/filearr/grant_cache.py:49-54 | A bump makes every entry of an earlier generation miss, whatever the time. |
| `GrantCache.GrantCache.Begin` | backend/filearr/grant_cache.py:66-83 | The request memo answers first, then a fresh entry of the current generation; an answer is memoised; otherwise the database must be asked. |
| `GrantCache.GrantCache.Finish` | backend/filearr/grant_cache.py:84-89 | What was read is stored under the generation of the moment of storing, expiring TTL after the load began, and memoised. |
| `GrantCache.LoadsBacked` | backend/filearr/grant_cache.py:77-85 | Over every interleaving, what a load under way holds was read from the database by one step of the run. |
| `GrantCache.EntriesBacked` | backend/filearr/grant_cache.py:77-85 | Over every interleaving, a cache entry was read by one step and stored by a later one, the last to store its principal. |
| `GrantCache.OneOrigin` | backend/filearr/grant_cache.py:77-85 | That read and that store are unique. |
| `GrantCache.HitCurrentExactly` | backend/filearr/grant_cache.py:77-85 | A hit is what the database held when the load behind it read, less than TTL seconds ago, and that was in the current generation if and only if no bump fell between that read and its store. |
| `GrantCache.HitExactly` | backend/filearr/grant_cache.py:79-85 | An entry is served exactly until a bump, or 30 seconds after its load began. |
| `GrantCache.NothingWithoutOrigin` | backend/filearr/grant_cache.py:77-85 | Nothing is served that no load of the run stored. |
| `GrantCache.HitIsRecent` | backend/filearr/grant_cache.py:77-81 | A hit returns grants the database held less than TTL seconds earlier. |
| `GrantCache.HitIsCurrent` | backend/filearr/grant_cache.py:49-54 | If no bump fell between the read and the store of the load behind it, a hit returns nothing read before the latest bump. |
| `GrantCache.QuietBumps` | backend/filearr/grant_cache.py:49-54 | That holds in particular when no load is under way at any bump. |
| `GrantCache.RevocationImmediate` | backend/filearr/grant_cache.py:17-25 | Then, if the database has held one thing since the latest bump, a hit is that. |
| `GrantCache.SpanningLoadServesRevoked` | backend/filearr/grant_cache.py:83-85 | An input: a load that reads before a bump and stores after it serves the revoked grants. |

## Left out

- SQL, transactions and row locks: a committed block is one step; locked rows are a parameter of the command sweep and poll.
- Hashing, JSON text, certificates, password hashing and random tokens: the digest takes its hash as a parameter, injective only where that is needed, and minted tokens are new values.
- Replication.ReplicationStore.ApplyBatch: the optional share hint, the extracted metadata, the taxonomy, the path scope, `last_seen` and the list of touched ids are not modelled; a collapsed batch keeps only the last event's, so they are not part of the manifest that is compared.
- Replication.ReplicationStore.Receive: authentication, the maintenance refusal and the entry cap before the guard are not modelled; each refuses a batch without changing a row, like a lost batch.
- Library provisioning and naming: a library is its reference, and an unknown one has no rows.
- Refinement.RunReports: no sweep, user edit or watermark reset happens during a run, and each path of a sent batch names one library, the condition that `Refinement.CollapseSafeExactly` shows is needed.
- Reconcile.SweepConverges: takes as a hypothesis that staged times survive storing, which `Reconcile.FloatClockFaithful` discharges for times below 2^51 microseconds (the year 2041).
- Reconcile.Reconciler.LoadLiveSession: sessions of other agents are not modelled; the opportunistic deletion of expired sessions at start concerns only theirs, since start replaces this agent's.
- Commands.CommandQueue.CompleteCommand: the permission ingest and the item verification of a completion are not modelled; a report is a text.
- Commands.TerminalForever: of requests that do not overlap, as are the bounds on deliveries and on expiry; `Commands.TerminalForeverExactly` is about overlapping ones.
- Sessions.ReissueReplacesConfirmedExactly: for one configuration, and requests whose clocks agree with the order of their reads.
- Sessions: per-user timeouts are fixed over a run of serial requests; in the interleaved model each request has its own settings.
- Backpressure.RunKeeps: assumes a sample interval that is not negative and settings fixed over the run.
- Backpressure.ExtractLimiter.TakeSample: logging, the reported load ratio and the start of the queue-depth probe are left out; the probe's answer arrives as a step of its own, so a synchronous answer shows in the next history entry.
- AgentConfig.RolloutOnlyAdvances: the agent's digest bytes are a parameter, and a stored tier always has an integer percent.
- AgentConfig.ResolveEffectiveConfig: the membership and snapshot queries are inputs, and the hash of a document is a parameter; provenance is kept per section instead of under prefixed keys.
- DiskGuard.Summarise: a status always has its fields, and the list of member labels and paths is given as the members' places.
- Disk thresholds (`evaluate`) and probes: single expressions over one reading.
- Frecency.Lift: scores are real numbers, and the recency weight that makes them is a table left out.
- Frecency.FrecencyStore.RecordTouch: ranks are real numbers; rows are kept in insertion order, which no statement depends on.
- Chunking.ChunkText: 85% of the size is taken exactly, which agrees with the float product for any realistic size; the windows of a non-empty text are cut by `Chunking.CutUp`, and the end of a window is a function.
- RateLimit.RateLimiter.Allow: tokens are real numbers, and a new bucket's clock is that of the call that makes it.
- RateLimit.WindowBounded: for a key whose limit does not change and a clock that does not run backwards.
- Directory.ExpandPrincipals: a missing membership list is an empty one.
- GrantCache.GrantCache.Begin: runs do not model the request memo, only the process cache.
- Search indexing, extraction, backups, exports, LDAP network code, enrolment, alerting, settings, and the web interface: input and output, static data or thin wrappers.
