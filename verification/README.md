# ShoreGuard core: a Dafny model

This project models the stateful core of ShoreGuard, the control plane in front
of OpenShell gateways, and proves what its documentation and tests promise
about it. Database tables are sequences or maps held in fields, clocks and
gateway replies are parameters, and code that runs concurrently is a state
machine whose steps are what happens between two suspension points. Methods
follow the source's loops and updates and are proved against functions on
values; the lemmas prove what those functions mean over whole runs.

`dafny verify dfyconfig.toml` checks everything.

## Files

| File | Models |
|---|---|
| `Json.dfy` | compact ASCII JSON arrays of strings, written and read (section 7 of RFC 8259) |
| `AuditHash.dfy` | the text hashed for one audit row |
| `AuditChain.dfy` | the audit table as a hash chain, and what an intact chain proves |
| `AuditLog.dfy` | `log`, `cleanup`, gateway deletion and the batched `verify_chain` |
| `AuditRuns.dfy` | runs of them, and exactly which deletions are noticed |
| `AuditHistory.dfy` | the rows a run has logged, why the hashes of a reachable table are distinct under any clock, and a clock that steps back |
| `PolicyModel.dfy`, `PolicyConverters.dfy` | policy messages and dicts, and both conversions |
| `PolicyMeaning.dfy`, `PolicyRoundTrip.dfy` | what a dict says and a message shows, key by key, and what survives the round trip |
| `EventPump.dfy` | the WebSocket producer and consumer around a bounded queue |
| `Quorum.dfy`, `QuorumRuns.dfy` | approval votes as calls that may overlap and fail, and where the votes go over a run |
| `RateLimit.dfy`, `RateLimitGuard.dfy` | the sliding-window limiter and the check-then-record guard around it |
| `Metering.dfy`, `Budgets.dfy` | the usage cursor and counters, budget windows, and what detaching achieves |
| `Retry.dfy` | bounded retry with backoff, jitter and a deadline |
| `DenialCache.dfy` | the per-sandbox recency cache of denial summaries |
| `BootHooks.dfy`, `BootHookRuns.dfy` | the hook table and its order, reordering and running |
| `Restore.dfy` | backup, every state of the disk during a restore, and what readers find after it |
| `Drift.dfy` | the policy drift detector |
| `Seqs.dfy`, `Text.dfy`, `Wrappers.dfy` | filtering sequences, stripping white space, option and result types |

## Where the code and its promises differ

Each of these is a lemma; the condition under which the promise does hold is
proved for all inputs.

- SHA-256 is any function to 64-character strings. Such a function cannot be
  injective, so tamper evidence reads "the rows agree, or these two tables hold
  a collision" (`AuditChain.TamperEvident`).
- Retention deletes by timestamp while the chain is ordered by key. For every
  reachable intact table, whatever the clock did, every cleanup is safe exactly
  if no chained row is stamped earlier than chained rows on both sides of it, or
  two logged rows collide (`AuditHistory.ReachableCleanupExact`). A clock that
  never goes backwards guarantees this (`AuditRuns.EveryRunVerifies`); three
  entries logged while it steps back once break it
  (`AuditHistory.ClockBackBreaksCleanup`).
- The chain lock is per process. Two writers that read the same newest hash
  leave a table that `verify_chain` rejects (`AuditRuns.ForkReported`).
- Removing rows from the new end of the table is never noticed
  (`AuditChain.NewRowsMayGo`); an inner row that is removed is missed only with
  a collision or a digest that is part of its own input
  (`AuditChain.InnerDeletionDetected`).
- The policy printer has no keys for `graphql_persisted_queries`, the two
  credential-rewrite flags, `advisor_proposed` and the binary flag `harness`,
  so a message that sets one of them loses it
  (`PolicyRoundTrip.RoundTripExact`).
- Changing a quorum does not fire by itself (`Quorum.ChangeWaitsForNextVote`).
- `record_decision` awaits between its checks, the insert, the tally and the
  clearing, so calls on a chunk can overlap. Without overlap every firing is
  backed by its own votes (`QuorumRuns.EveryFiringIsBacked`) and no vote is lost
  (`QuorumRuns.NothingLost`). With it:
  - a second call fires on votes already counted exactly if its tally comes
    before the chunk is emptied and the stored approvals reach its quorum with
    no reject among them (`QuorumRuns.DoubleFiringExactly`);
  - an actor votes twice under `distinct_actors` exactly if another of its calls
    inserts between the check and the insert (`QuorumRuns.SecondVoteExactly`);
  - clearing a decided chunk loses the stored approvals that no tally has
    counted, and exactly those (`QuorumRuns.LostExactly`).

  All three happen in runs from the empty store
  (`QuorumRuns.TwoFiringsReachable`, `QuorumRuns.OneActorQuorumReachable`,
  `QuorumRuns.LostVoteReachable`).
- The insert and the clearing of a vote are separate commits. A chunk at rest
  holds a reject exactly if the call that inserted it failed before it was done
  and nothing has emptied the chunk since (`QuorumRuns.LeftRejectExactly`); the
  next vote, even an approval, then only clears the chunk
  (`Quorum.RejectSpoilsNextVote`, `QuorumRuns.LeftRejectReachable`).
- The limiter counts correctly exactly for at least one allowed attempt and a
  lockout that is not negative, and waiting the returned time helps exactly if
  the lockout is at least the window (`RateLimit.RefinementExact`,
  `RateLimitGuard.WaitingExact`).
- A weekly or monthly budget acts once a day, not once per window, because its
  key moves every day (`Budgets.ActsAgainExactly`).
- Remembering only the last key fails exactly when a key returns: a budget acts
  again under a key exactly if it has acted under another one in between
  (`Budgets.ActsAgainUnderKey`), which days that never go backwards exclude
  (`Budgets.ActsOncePerKey`).
- A kill-switch entry is created even if every detach was refused
  (`Budgets.EntryWithoutEffect`), and from then on nothing is ever retried
  (`Budgets.NeverRetried`). A detach budget whose sandbox has no entry yet takes
  all named providers off exactly if the gateway answers on some reading it acts
  on and refuses none of them on the first such reading
  (`Budgets.EnforcedExactly`); a total budget gets one try
  (`Budgets.TotalBudgetTriesOnce`).
- With a deadline `max_backoff` is no cap. Some call sleeps longer exactly if
  there is a deadline, a code to retry on, and a retry at which both the backoff
  with the largest jitter and the time left after the shortest possible waits
  exceed it (`Retry.CapExact`). The default policy keeps its cap whatever the
  deadline (`Retry.DefaultPolicyKeepsCap`).
- Denial summaries are stored under the sandbox name as given and looked up
  under the stripped name (`DenialCache.FoundUnderSameName`). A number that does
  not read as one raises in the middle of a batch and leaves the entries before
  it stored; a negative limit makes the first stored summary raise
  (`DenialCache.DenialContextService.IngestSummaries`).
- `reorder` replies with one entry per requested id, which is the new listing
  exactly if no id was given twice (`BootHookRuns.ReorderReply`). Truncated
  hook output fits the limit exactly below a hundred million characters
  (`BootHookRuns.TruncateFits`).
- Only the last restore can be undone (`Restore.SecondRestoreOverwrites`), and
  a database stored under a name used for a key file may not survive its own
  restore (`Restore.DatabaseRestoredExactly`).
- A restore leaves SQLite's `-wal` file beside the database, and opening the
  database replays it. The archived content comes back, however the database
  engine reads its files, exactly if no such file lies there when the restore
  starts (`Restore.RestoredContentExactly`); `Restore.StaleLogReplayed` is the
  failing case.

## Model

| member | source | states |
|---|---|---|
| Json.EscapeCharInverts | shoreguard/services/audit.py:82-96 | reading an escaped character gives it back and leaves the rest, for every character including surrogate pairs |
| Json.EscapeShape | shoreguard/services/audit.py:82-96 | which of the forms a character takes: itself if printable ASCII, one of seven short escapes, or lower-case `\u` escapes |
| Json.DecodeEncode | shoreguard/services/audit.py:82-96 | reading the compact array gives back the list of strings |
| Json.EncodeInjective | shoreguard/services/audit.py:82-96 | different lists of strings have different texts |
| Json.EncodeIsAscii | shoreguard/services/audit.py:82-97 | the text is ASCII, so encoding it to bytes is the identity |
| AuditHash.InstantOrders | shoreguard/services/audit.py:530-532 | stamps compare as year, month, day, hour, minute, second and microsecond do in that order, and are equal only if all are |
| AuditHash.IsoFormatReads | shoreguard/services/audit.py:80-85 | the ISO text is the seven calendar numbers at their fixed places, the fraction left out exactly if it is zero |
| AuditHash.IsoFormatInjective | shoreguard/services/audit.py:80-85 | the ISO text determines the moment although a zero fraction is left out |
| AuditHash.PayloadDeterminesView | shoreguard/services/audit.py:80-97 | two rows have the same hashed text exactly if their ten normalised fields agree (absent and empty text alike, time zone dropped) |
| AuditHash.PayloadReadsBack | shoreguard/services/audit.py:82-96 | the hashed text read as JSON is the ten fields in order |
| AuditChain.ChainStartUnique | shoreguard/services/audit.py:305-313 | where legacy rows end and the chain begins is determined by the table |
| AuditChain.ChainAppend | shoreguard/services/audit.py:305-332 | one more row keeps a table intact exactly if it is legacy with nothing hashed before it, or hashes itself and names its predecessor's hash |
| AuditChain.TamperEvident | shoreguard/services/audit.py:58-62 | two intact tables ending in the same hash agree on every hashed field, back over the shorter hashed part, or they hold a SHA-256 collision |
| AuditChain.EditDetected | shoreguard/services/audit.py:58-62 | a table of the same shape and last hash is intact only if it carries the same hashed fields everywhere, or a collision is shown |
| AuditChain.InnerDeletionDetected | shoreguard/services/audit.py:326-330 | deleting an inner hashed row is rejected, unless a collision is shown or its predecessor's digest is part of its own input |
| AuditLog.OkMeansWellChained | shoreguard/services/audit.py:271-283 | a right report is ok exactly if the table is legacy rows followed by a linked chain |
| AuditLog.ReportUnique | shoreguard/services/audit.py:333-338 | only one report is right for a table |
| AuditLog.PageContinues | shoreguard/services/audit.py:290-304 | each page starts right after the rows already seen, whatever the batch size |
| AuditLog.CheckRow | shoreguard/services/audit.py:305-332 | one row advances the counters, or is the first at which the table stops being intact |
| AuditLog.CheckPage | shoreguard/services/audit.py:305-332 | one batch advances the counters over all its rows, or up to the first bad one |
| AuditLog.Scan | shoreguard/services/audit.py:284-338 | for any batch size the batched scan gives the report of the one-pass meaning: first bad row, exact counts before it |
| AuditLog.AuditService.VerifyChain | shoreguard/services/audit.py:271-338 | the report of the whole table |
| AuditLog.AuditService.BeginLog | shoreguard/services/audit.py:217-231 | under the lock, reads the newest hash or the empty string |
| AuditLog.AuditService.CommitLog | shoreguard/services/audit.py:233-259 | appends the row that hashes its fields with the hash read before |
| AuditLog.RowWritten | shoreguard/services/audit.py:233-259 | the inserted row carries the entry, its back-link unless the chain starts there, and the hash of the documented ten-element array |
| AuditLog.GatewayForgotten | shoreguard/services/audit.py:60-62 | deleting a gateway clears its key where it stands and changes nothing else |
| AuditLog.CleanupKeepsExactly | shoreguard/services/audit.py:523-536 | what is left is exactly the rows whose calendar stamp is not earlier than the cutoff's |
| AuditLog.AuditService.CleanupOlder | shoreguard/services/audit.py:523-546 | row-by-row deletion keeps exactly the rows not earlier than the cutoff, in order, and returns how many went |
| AuditRuns.InsertKeepsGood | shoreguard/services/audit.py:226-259 | inserting after the read keeps the chain, even if rows were deleted in between |
| AuditRuns.CleanupKeepsGood | shoreguard/services/audit.py:523-539 | any cleanup keeps the chain and a pending insert valid while stamps rise |
| AuditRuns.ForgettingKeepsGood | shoreguard/services/audit.py:60-62 | nulling `gateway_id` changes nothing the chain sees |
| AuditRuns.StepKeepsGood | shoreguard/services/audit.py:217-259 | every step of `log`, `cleanup` and gateway deletion keeps the run invariant |
| AuditRuns.EveryRunVerifies | shoreguard/services/audit.py:271-338 | after every run from an all-legacy table under a non-decreasing clock, `verify_chain` reports ok |
| AuditRuns.DeletionExact | shoreguard/services/audit.py:326-330 | in a table with distinct hashes, deleting any set of rows is noticed exactly if it leaves a gap between kept hashed rows |
| AuditRuns.CleanupSafeExactly | shoreguard/services/audit.py:523-539 | in a table with distinct hashes, every cleanup keeps the chain intact exactly if no hashed row's stamp dips below rows on both sides |
| AuditRuns.ForkReported | shoreguard/services/audit.py:218-230 | two rows that name the same predecessor hash are reported |
| AuditHistory.ReachableHashesDistinct | shoreguard/services/audit.py:217-259 | after every run from an all-legacy table, under any clock and after any cleanups, the chained rows have distinct hashes, or two rows logged in the run, deleted ones included, collide |
| AuditHistory.ReachableDeletionExact | shoreguard/services/audit.py:326-330 | from every reachable intact table, deleting any set of rows is noticed exactly if it leaves a gap, or two logged rows collide |
| AuditHistory.ReachableCleanupExact | shoreguard/services/audit.py:523-539 | for every reachable intact table, under any clock, every cleanup is safe exactly if no stamp dips, or two logged rows collide |
| AuditHistory.ClockBackBreaksCleanup | shoreguard/services/audit.py:523-539 | any three entries logged into an empty table with the smallest stamp in the middle give an intact table that some cleanup breaks, or two of them collide |
| PolicyConverters.TldWildcardMeaning | shoreguard/client/_converters.py:26-51 | a host is rejected exactly if it is `*.` followed by a suffix without a dot |
| PolicyConverters.ResolveSettles | shoreguard/client/_converters.py:54-88 | a path is replaced exactly if it is a symlink, by its target, and resolving twice is resolving once |
| PolicyMeaning.AcceptedExactly | shoreguard/client/_converters.py:26-51 | a dict is accepted exactly if no endpoint of any rule has `*.` and a dotless suffix as its host |
| PolicyConverters.FirstBadHostExactly | shoreguard/client/_converters.py:26-51 | a rejected dict has exactly one first bad host |
| PolicyMeaning.ParsedExactly | shoreguard/client/_converters.py:91-250 | the parsed policy is the only one in which every field holds what its key says, or zero without one; `filesystem_policy` counts where `filesystem` is absent or empty |
| PolicyMeaning.PrintedShows | shoreguard/client/policies.py:133-251 | which keys a printed policy has: some always, every other exactly if its value is truthy |
| PolicyConverters.DictToL7Query | shoreguard/client/_converters.py:133-149 | the loop builds exactly the matcher of every key |
| PolicyConverters.DictToNetworkRule | shoreguard/client/_converters.py:207-250 | accepted exactly if no host is a TLD wildcard; an error names the first bad host |
| PolicyConverters.DictToPolicy | shoreguard/client/_converters.py:91-130 | accepted exactly if every rule is, and then the parsed policy, whose meaning is `PolicyMeaning.ParsedExactly` |
| PolicyConverters.PolicyToDict | shoreguard/client/policies.py:133-164 | the printed policy, with `network_policies` only if there are any |
| PolicyRoundTrip.EndpointRoundTrip | shoreguard/client/policies.py:179-248 | an endpoint parsed from its printed form is the endpoint with unprintable fields at their defaults and `allow` present |
| PolicyRoundTrip.PolicyRoundTrip | shoreguard/client/policies.py:133-251 | message to dict to message is the normal form, for every policy |
| PolicyRoundTrip.RoundTripExact | shoreguard/client/policies.py:133-251 | the same message comes back exactly if no host is rejected, every rule carries `allow`, no binary is a symlink and no unprintable field is set |
| PolicyRoundTrip.NormalFormIdempotent | shoreguard/client/_converters.py:91-250 | dict to message to dict is an idempotent normal form of every accepted dict and stays accepted |
| PolicyRoundTrip.NormalFormFaithful | shoreguard/client/_converters.py:91-250 | two accepted dicts print alike exactly if they denote the same policy |
| EventPump.SandboxEvents.OnEvent | shoreguard/api/websocket.py:118-136 | queues the event or counts a drop, and ends the producer at the limit |
| EventPump.SandboxEvents.OnStreamError | shoreguard/api/websocket.py:137-148 | queues the error if there is room, then offers the sentinel |
| EventPump.SandboxEvents.OfferSentinel | shoreguard/api/websocket.py:144-148 | the sentinel is queued only if there is room, and the producer is done either way |
| EventPump.SandboxEvents.OnItem | shoreguard/api/websocket.py:155-168 | takes the head of the queue, which is a frame to send or the sentinel |
| EventPump.SandboxEvents.OnTimeout | shoreguard/api/websocket.py:157-165 | leaves exactly if the producer is done and the queue empty; otherwise only a failing heartbeat ends the loop |
| EventPump.SandboxEvents.OnSendResult | shoreguard/api/websocket.py:168-169 | a delivered frame joins the sent ones, a raising send loses it and ends the loop |
| EventPump.StepKeepsInv | shoreguard/api/websocket.py:91-184 | every step keeps the invariant: conservation, sentinel last, bounded queue, bounded runs of drops |
| EventPump.HistoryIsUpstream | shoreguard/api/websocket.py:96-136 | accepted and dropped events together are the upstream events in order |
| EventPump.RoomDecides | shoreguard/api/websocket.py:118-148 | an event is dropped, and an error or the sentinel left out, exactly if the queue has no room for it |
| EventPump.ProducerDoneExactly | shoreguard/api/websocket.py:118-148 | over every run the producer is done exactly if the stream ended, failed or was cancelled, or the limit of drops in a row was reached |
| EventPump.ConsumerEndsExactly | shoreguard/api/websocket.py:153-184 | over every run the consumer has ended exactly if it met the sentinel, a send failed, or a timeout found nothing left to wait for |
| EventPump.DeliveryInOrder | shoreguard/api/websocket.py:91-184 | over every interleaving, what was sent is a prefix of the accepted events plus at most one error; events seen are accepted plus drop count; no run of drops exceeds the limit; the sentinel is only ever last |
| EventPump.NormalExitIsComplete | shoreguard/api/websocket.py:153-184 | a consumer that leaves normally has sent every accepted event |
| EventPump.ConsumerLeaves | shoreguard/api/websocket.py:154-167 | once the producer is done the consumer ends within queue length + 1 loop iterations, timeouts included, sentinel or not; one more if a timeout races an item that has arrived; until then it can always take a step |
| Quorum.RefusedExactly | shoreguard/services/approval_workflow.py:199-213 | which votes are refused, with which error: unknown decision, no workflow, a role that is not listed, an actor who has voted |
| Quorum.AdmittedExactly | shoreguard/services/approval_workflow.py:211-213 | the actor check sees the votes stored now and the workflow as it was read |
| Quorum.ApprovalWorkflowService.OpenVote | shoreguard/services/approval_workflow.py:199-209 | refusals in the source's order; otherwise the call goes on with the workflow it has read |
| Quorum.ApprovalWorkflowService.AdmitVote | shoreguard/services/approval_workflow.py:211-213 | refused exactly if the workflow as read asks for different actors and this one has a vote stored now |
| Quorum.ApprovalWorkflowService.WriteVote | shoreguard/services/approval_workflow.py:215-228 | appends the row under a fresh key; fails exactly if the workflow is gone |
| Quorum.ApprovalWorkflowService.CountVotes | shoreguard/services/approval_workflow.py:230-246 | the result from the rows stored now and the workflow as read |
| Quorum.ApprovalWorkflowService.FinishVote | shoreguard/services/approval_workflow.py:248-260 | a terminal result empties the chunk, whatever has been inserted since the tally |
| Quorum.ApprovalWorkflowService.RecordDecision | shoreguard/services/approval_workflow.py:199-260 | a call that nothing disturbs is the atomic vote: refusal, or insert, tally and clear when terminal |
| Quorum.UpsertSets | shoreguard/services/approval_workflow.py:119-147 | the workflow has the new settings and, if there was one, its key; no other workflow and no vote changes |
| Quorum.ApprovalWorkflowService.UpsertWorkflow | shoreguard/services/approval_workflow.py:119-147 | a quorum below one is refused; an existing workflow keeps its id and votes |
| Quorum.ApprovalWorkflowService.DeleteWorkflow | shoreguard/services/approval_workflow.py:149-167 | removes the workflow and the votes made under it |
| Quorum.VoteOutcome | shoreguard/services/approval_workflow.py:228-260 | an undisturbed approval fires exactly when it completes the quorum, as `check_quorum` says; a reject ends the chunk; both leave it empty |
| Quorum.VoteFrame | shoreguard/services/approval_workflow.py:250-258 | a vote leaves every other chunk's votes alone |
| Quorum.DeleteCascades | shoreguard/services/approval_workflow.py:149-167 | deleting a workflow removes it and exactly its sandbox's votes |
| Quorum.RejectSpoilsNextVote | shoreguard/services/approval_workflow.py:230-258 | with a reject stored, the next undisturbed vote reports a reject and empties the chunk, even if it is an approval |
| Quorum.ChangeWaitsForNextVote | shoreguard/services/approval_workflow.py:119-147 | changing the workflow keeps every vote and fires nothing; the next approval is judged by the new quorum, old votes included |
| QuorumRuns.NextKeepsSound | shoreguard/services/approval_workflow.py:199-260 | every step of overlapping and failing calls keeps rows with their workflow, keys fresh, and each call's own row and counted rows among the keys used |
| QuorumRuns.ReachableIsSound | shoreguard/services/approval_workflow.py:199-260 | so does every run from the empty store |
| QuorumRuns.LeftRejectExactly | shoreguard/services/approval_workflow.py:226-258 | a chunk no call is working on holds a reject exactly if a call inserted one and failed before it was done, and nothing has emptied the chunk since the insert |
| QuorumRuns.LeftRejectReachable | shoreguard/services/approval_workflow.py:226-258 | a run from the empty store that ends so, after which an approval only clears the chunk |
| QuorumRuns.NoRejectIsLeft | shoreguard/services/approval_workflow.py:199-260 | in every run from the empty store in which no call on the chunk fails after its insert, a chunk at rest holds approvals only |
| QuorumRuns.UndisturbedCallIsVote | shoreguard/services/approval_workflow.py:199-260 | the steps of a call, run without others, are the atomic vote |
| QuorumRuns.RowsOfRun | shoreguard/services/approval_workflow.py:215-258 | over every interleaving a chunk's rows only grow, until it is emptied and starts over with new ones |
| QuorumRuns.VotesConserved | shoreguard/services/approval_workflow.py:199-260 | over every interleaving, failures and configuration changes included, recorded approvals were consumed by a met quorum, discarded by a reject, lost uncounted, dropped with their workflow, or are still stored |
| QuorumRuns.CountedExactly | shoreguard/services/approval_workflow.py:230-235 | the votes booked as counted are exactly the stored ones that some tally has seen |
| QuorumRuns.LostExactly | shoreguard/services/approval_workflow.py:248-258 | clearing a decided chunk loses exactly the stored approvals that no tally of the run has counted |
| QuorumRuns.NothingLost | shoreguard/services/approval_workflow.py:215-258 | calls on the chunk that do not overlap lose no vote, even if some fail or the workflow changes |
| QuorumRuns.LostVoteReachable | shoreguard/services/approval_workflow.py:215-258 | a run from the empty store in which a late approval is deleted uncounted and its own call finds a quorum of one not met |
| QuorumRuns.QuorumConservation | shoreguard/services/approval_workflow.py:199-260 | under a fixed workflow and with calls on the chunk that neither overlap nor fail half way, recorded approvals = quorum x firings + stored + discarded by rejects, with fewer than a quorum stored |
| QuorumRuns.EveryFiringIsBacked | shoreguard/services/approval_workflow.py:207-235 | with calls that do not overlap, failing or not, a firing is backed by at least the quorum of approvals of this chunk, from listed roles and, if asked for, different actors; by exactly the quorum if none failed half way |
| QuorumRuns.DoubleFiringExactly | shoreguard/services/approval_workflow.py:230-258 | a second call fires on votes counted by a first one exactly if its tally comes before the chunk is emptied, its quorum is reached and no reject is stored |
| QuorumRuns.DoubleFiringSameQuorum | shoreguard/services/approval_workflow.py:230-258 | with a quorum no larger than the first one's, exactly if the chunk is not emptied before the tally and no reject is stored |
| QuorumRuns.TwoFiringsReachable | shoreguard/services/approval_workflow.py:199-235 | two actors, a quorum of two, and two calls that both report it met |
| QuorumRuns.SecondVoteExactly | shoreguard/services/approval_workflow.py:211-228 | an actor that had no vote when it was checked has one at its insert exactly if another of its calls has inserted since and the chunk was not emptied after that |
| QuorumRuns.OneActorQuorumReachable | shoreguard/services/approval_workflow.py:211-235 | one actor alone meets a quorum of two different actors |
| RateLimit.SlidingWindowRateLimiter.IsLimited | shoreguard/api/ratelimit.py:32-59 | the verdict and the bucket after purging and popping |
| RateLimit.SlidingWindowRateLimiter.Record | shoreguard/api/ratelimit.py:61-70 | appends the time, creating the bucket if needed |
| RateLimit.SlidingWindowRateLimiter.Reset | shoreguard/api/ratelimit.py:72-78 | forgets exactly that key |
| RateLimit.SlidingWindowRateLimiter.Cleanup | shoreguard/api/ratelimit.py:80-86 | deletes exactly the stale keys |
| RateLimit.PurgeExactly | shoreguard/api/ratelimit.py:40-42 | a hundredth call deletes exactly the other keys whose latest attempt lies more than window and lockout back |
| RateLimit.CleanupExactly | shoreguard/api/ratelimit.py:80-86 | so does `_cleanup`, for every key |
| RateLimit.RetryAfterExactly | shoreguard/api/ratelimit.py:55-57 | the returned wait is the least whole number of seconds, one at least, that reaches past the oldest attempt plus the lockout |
| RateLimit.IndexErrorExactly | shoreguard/api/ratelimit.py:53-57 | with no attempt allowed a key that is kept is blocked, or raises if its attempts have all left the window; otherwise nothing raises |
| RateLimit.RunTracks | shoreguard/api/ratelimit.py:32-86 | after any run a bucket is the history since the last reset without some attempts that left the window for good |
| RateLimit.VerdictMatchesHistory | shoreguard/api/ratelimit.py:46-59 | verdict and waiting time are those of counting the whole history in the window |
| RateLimit.RefinementExact | shoreguard/api/ratelimit.py:32-86 | this holds for every run exactly for at least one allowed attempt and a lockout that cannot purge early |
| RateLimit.NegativeLockoutDisagrees | shoreguard/api/ratelimit.py:83-86 | a negative lockout purges attempts that still count |
| RateLimitGuard.AdmittedIfRoom | shoreguard/api/middleware.py:36-46 | the guard admits exactly if the window has room |
| RateLimitGuard.AdmissionBound | shoreguard/api/middleware.py:36-46 | every closed interval as long as the window holds at most `max_attempts` admitted requests of a key |
| RateLimitGuard.PacedWaitUnblocks | shoreguard/api/ratelimit.py:46-59 | with a lockout of at least the window, waiting the returned time unblocks |
| RateLimitGuard.ShortLockoutMisleads | shoreguard/api/ratelimit.py:55-57 | with a shorter lockout a burst is still blocked after the returned wait |
| RateLimitGuard.WaitingExact | shoreguard/api/ratelimit.py:46-59 | waiting works in every run exactly if the lockout is at least the window |
| Metering.SandboxMeter.PollSandbox | shoreguard/services/budgets.py:339-415 | first sight only sets the cursor; otherwise counts, advances the cursor and books the day |
| Metering.SandboxMeter.CountLines | shoreguard/services/budgets.py:376-377 | the number of inference lines and the largest timestamp of a reply |
| Metering.SandboxMeter.BookUsage | shoreguard/services/budgets.py:393-413 | adds to the day's row or appends one |
| Metering.InferenceExactly | shoreguard/services/budgets.py:285-299 | a line counts exactly if a configured source occurs in its source or "inference" in its target |
| Metering.CursorExactly | shoreguard/services/budgets.py:353-392 | a poll leaves the cursor at the clock, where it was, or right after the newest line |
| Metering.CursorPasses | shoreguard/services/budgets.py:391-392 | the cursor never moves back and passes every line of a non-empty reply |
| Metering.CountingStartsAtFirstSight | shoreguard/services/budgets.py:363-368 | nothing older than first sight is ever counted |
| Metering.CountedAtMostOnce | shoreguard/services/budgets.py:369-392 | no line is counted twice in any run |
| Metering.UsageMatchesCounted | shoreguard/services/budgets.py:419-439 | for every window the usage rows sum to exactly the lines counted in it |
| Metering.UsageCountsLines | shoreguard/services/budgets.py:419-439 | the requests of the rows from any day on are as many as the lines booked since then |
| Metering.CountedExactly | shoreguard/services/budgets.py:339-415 | with complete replies and no line arriving behind the cursor, exactly the inference lines since the start are counted, told by what occurs in them |
| Budgets.RequestedExactly | shoreguard/services/budgets.py:144-151 | which budgets are refused, with which error, and what is saved otherwise |
| Budgets.BudgetService.SetBudget | shoreguard/services/budgets.py:117-175 | refusals in order; otherwise the saved row, which has acted in no window |
| Budgets.SavedFrame | shoreguard/services/budgets.py:153-174 | the saved budget is the one found for its sandbox and no other budget changes |
| Budgets.TripsExactly | shoreguard/services/budgets.py:447-459 | a budget trips exactly if the requests of the last 1, 7 or 30 days, or all, reach its ceiling; a dollar ceiling wins |
| Budgets.TripsOnCountedLines | shoreguard/services/budgets.py:419-459 | the same in terms of the log lines that metering has counted |
| Budgets.KeyExactly | shoreguard/services/budgets.py:460-464 | a window's key is its first day; a total budget has one key |
| Budgets.BudgetService.EvaluateBudget | shoreguard/services/budgets.py:447-489 | one budget acts exactly if its ceiling is reached under a key it has not just acted in |
| Budgets.BudgetService.EvaluateBudgets | shoreguard/services/budgets.py:441-489 | a pass over all budgets: their keys, the entries created, and what fired |
| Budgets.FiredExactly | shoreguard/services/budgets.py:441-489 | a pass fires for exactly the sandboxes with a budget that acts |
| Budgets.BudgetService.DetachSandbox | shoreguard/services/budgets.py:491-550 | nothing if the sandbox has an entry or the gateway is unavailable, otherwise one entry with what came off |
| Budgets.BudgetService.DetachAll | shoreguard/services/budgets.py:524-539 | the names of exactly the providers whose detach succeeded, in order |
| Budgets.DetachedExactly | shoreguard/services/budgets.py:524-539 | a name comes off exactly if it is not refused and some provider goes by it: its `name`, or its `provider_name` where that is falsy |
| Budgets.ActsExactly | shoreguard/services/budgets.py:460-464 | under any clock, a budget acts exactly on a reading at or above its ceiling whose latest predecessor at or above it, if any, had another key |
| Budgets.ActsAgainUnderKey | shoreguard/services/budgets.py:460-464 | it acts exactly on the first such reading under a key and on one whose key returns after it acted under another, and never both |
| Budgets.ActsOncePerKey | shoreguard/services/budgets.py:460-464 | with non-decreasing days a budget acts exactly on the first reading at or above its ceiling under each key |
| Budgets.ActsAgainExactly | shoreguard/services/budgets.py:60-73 | a total budget acts once, every other one again on each later day it is over its ceiling |
| Budgets.ClockBackActsTwice | shoreguard/services/budgets.py:461-463 | a run in which the clock steps back and a daily budget acts twice on one day |
| Budgets.PassCuts | shoreguard/services/budgets.py:491-550 | a pass only adds entries, at most one per sandbox, each listing exactly the providers that came off |
| Budgets.EntryExactly | shoreguard/services/budgets.py:487-550 | a sandbox has an entry after a pass exactly if it had one or a detach budget of it acts while its gateway answers |
| Budgets.EnforcedExactly | shoreguard/services/budgets.py:460-550 | over a run in which others attach and remove providers, all named providers come off exactly if there was no entry, the gateway answers on some reading acted on, and on the first such reading none is refused |
| Budgets.EnforcedInOrder | shoreguard/services/budgets.py:460-550 | with non-decreasing days the reading that decides is the first under its key at which the gateway answers |
| Budgets.TotalBudgetTriesOnce | shoreguard/services/budgets.py:460-550 | a total budget is enforced exactly if the gateway answers when it first trips and refuses no named provider |
| Budgets.EntryWithoutEffect | shoreguard/services/budgets.py:524-550 | if every detach is refused an entry is created all the same, listing nothing, and everything stays attached |
| Budgets.NeverRetried | shoreguard/services/budgets.py:505-513 | once a sandbox has an entry no later reading, under any key, detaches anything |
| Budgets.RefusedStays | shoreguard/services/budgets.py:505-550 | a provider still attached when its sandbox has an entry stays until somebody else removes it |
| Retry.InvalidExactly | shoreguard/client/_resilience.py:74-80 | which policies are refused |
| Retry.BackoffDoubles | shoreguard/client/_resilience.py:128-128 | the backoff starts at the initial one and doubles until it meets the cap |
| Retry.SleepExactly | shoreguard/client/_resilience.py:128-131 | a sleep is the backoff shifted by its draw, or the remaining time if that is shorter |
| Retry.SleepBounds | shoreguard/client/_resilience.py:110-131 | a sleep is bounded by the jittered backoff, the jittered cap and the remaining time |
| Retry.CallWithRetry | shoreguard/client/_resilience.py:134-217 | at most `max_attempts` attempts, each retry justified, sleeps bounded one by one and in sum, retries starting by the deadline plus wake-up delay, one final callback |
| Retry.RetriesExactly | shoreguard/client/_resilience.py:182-199 | an attempt is followed by another exactly if it failed with a retryable code before the deadline and more attempts are allowed |
| Retry.TimesExactly | shoreguard/client/_resilience.py:175-211 | when every attempt starts and how long every wait is, from the replies' durations, the draws and the deadline |
| Retry.OutcomeExactly | shoreguard/client/_resilience.py:178-216 | a call returns, raises or lets an exception through by the reply of its last attempt |
| Retry.CallbackShape | shoreguard/client/_resilience.py:189-216 | n - 1 retry callbacks in order with the codes of their attempts, then exactly one ok or giveup unless another exception escaped |
| Retry.CompletedUnique | shoreguard/client/_resilience.py:134-217 | attempts, sleeps, callbacks and outcome are determined by the replies, the draws and the delays |
| Retry.CapExact | shoreguard/client/_resilience.py:110-207 | the policies and deadlines under which some call sleeps longer than `max_backoff`, as a condition on the policy and the deadline alone |
| Retry.DefaultPolicyKeepsCap | shoreguard/client/_resilience.py:68-83 | the default policy is not among them |
| Retry.DefaultPolicyTotal | shoreguard/client/_resilience.py:68-83 | with the default policy all sleeps together stay within 1.925 seconds |
| Retry.DefaultPolicyTotalReached | shoreguard/client/_resilience.py:68-83 | a call that fails four times with the largest jitter sleeps 0.275, 0.55 and 1.1 seconds |
| Retry.DefaultCodes | shoreguard/client/_resilience.py:35-42 | the default policy retries on exactly four codes |
| Text.StripExactly | shoreguard/services/denial_context.py:91-96 | stripping takes off white space at both ends and leaves none there |
| DenialCache.HostExactly | shoreguard/services/denial_context.py:91-96 | the host of a key is the stripped, lower-cased one without its trailing dots |
| DenialCache.BatchExactly | shoreguard/services/denial_context.py:132-173 | a batch gives the entries, field by field, of its summaries with a host, up to the first that cannot be read |
| DenialCache.ParsedInOrder | shoreguard/services/denial_context.py:132-173 | in the order of the summaries, one each at most |
| DenialCache.DenialContextService.IngestSummaries | shoreguard/services/denial_context.py:115-190 | stores each summary that has a host, most recent last, oldest evicted, up to the first number that does not read; the returned count or error, for negative limits too |
| DenialCache.DenialContextService.Store | shoreguard/services/denial_context.py:175-178 | moving to the end and assigning is storing as the youngest |
| DenialCache.DenialContextService.Trim | shoreguard/services/denial_context.py:181-182 | popping the oldest while over the limit leaves the youngest entries |
| DenialCache.DenialContextService.Lookup | shoreguard/services/denial_context.py:192-217 | the record under the normalised key in the stripped sandbox's cache |
| DenialCache.DenialContextService.MatchChunk | shoreguard/services/denial_context.py:244-274 | what the chunk's endpoints match, tried in order |
| DenialCache.MatchedIsFirst | shoreguard/services/denial_context.py:264-274 | the record of the first endpoint that has one, none only if no endpoint has |
| DenialCache.DenialContextService.Clear | shoreguard/services/denial_context.py:276-283 | removes exactly the stripped sandbox's cache |
| DenialCache.CacheIsRecent | shoreguard/services/denial_context.py:115-190 | after any run a cache is the latest records of the last `max_entries` distinct keys, in order of latest ingest |
| DenialCache.LookupExactly | shoreguard/services/denial_context.py:192-217 | a lookup returns the latest record exactly if fewer than `max_entries` other keys were ingested since |
| DenialCache.LookupMisses | shoreguard/services/denial_context.py:192-217 | a key not ingested since the last clear is not found |
| DenialCache.FoundUnderSameName | shoreguard/services/denial_context.py:133-214 | after any run and any batch, looking up an entry of the batch under the name it was ingested with gives that entry (if the limit has not evicted it) when the name has no surrounding white space, and what it gave before otherwise |
| BootHooks.ListingIsSorted | shoreguard/services/boot_hooks.py:131-144 | a listing holds exactly the phase's hooks, ordered by order and id |
| BootHooks.ListingOrder | shoreguard/services/boot_hooks.py:131-144 | listings go by order, and by id where the orders are equal |
| BootHooks.CreateAppends | shoreguard/services/boot_hooks.py:755-765 | without an order a new hook goes to the end and no other listing changes |
| BootHooks.CreatePlaces | shoreguard/services/boot_hooks.py:159-219 | with an order it goes after every hook of that order or a smaller one |
| BootHooks.NextOrderExactly | shoreguard/services/boot_hooks.py:738-765 | the next order is 0 in an empty listing and otherwise one above the largest |
| BootHooks.CreateRefusedExactly | shoreguard/services/boot_hooks.py:803-829 | which hooks are refused, with which error first |
| BootHooks.ReorderedListing | shoreguard/services/boot_hooks.py:313-354 | after `reorder` the listing is the requested ids with only the last occurrence of each |
| BootHooks.ReorderFrame | shoreguard/services/boot_hooks.py:336-353 | other listings stay as they were |
| BootHookRuns.BootHookService.Create | shoreguard/services/boot_hooks.py:159-219 | refusals in order, otherwise one new row, at the end of its listing if no order is given |
| BootHookRuns.BootHookService.Reorder | shoreguard/services/boot_hooks.py:313-354 | refused exactly for a bad phase or id set; otherwise the reordered rows and the requested hooks as reply |
| BootHookRuns.ReorderReply | shoreguard/services/boot_hooks.py:354-354 | the reply is the new listing exactly if nothing was dropped |
| BootHookRuns.KeepLastAll | shoreguard/services/boot_hooks.py:347-354 | nothing is dropped exactly if no id occurs twice |
| BootHookRuns.RunOrderAfterReorder | shoreguard/services/boot_hooks.py:487-504 | after `reorder` a run goes through the requested ids in order, enabled hooks only |
| BootHookRuns.BootHookService.RunPreCreate | shoreguard/services/boot_hooks.py:358-393 | executes the shortest prefix of the enabled listing ending in any failure, whatever `continue_on_failure` says, and raises for it |
| BootHookRuns.BootHookService.RunPostCreate | shoreguard/services/boot_hooks.py:395-440 | executes the shortest prefix ending in a failure without `continue_on_failure`, or nothing without a sandbox service |
| BootHookRuns.EnabledExactly | shoreguard/services/boot_hooks.py:487-504 | a run goes through the enabled hooks of its sandbox and phase, by order and id |
| BootHookRuns.ExecutesExactly | shoreguard/services/boot_hooks.py:381-440 | it goes on after a success, and after a post-create failure with `continue_on_failure`, and stops at any other failure |
| BootHookRuns.RunExactly | shoreguard/services/boot_hooks.py:381-440 | a finished run reports on the executed hooks in order, each with its own result, and stops exactly there |
| BootHookRuns.ResultExactly | shoreguard/services/boot_hooks.py:671-736 | what is reported for an executed hook and when its status reaches the table |
| BootHookRuns.StatusAfterRun | shoreguard/services/boot_hooks.py:671-685 | a run records the status of exactly the executed hooks; a hook that could not be executed in the sandbox leaves none |
| BootHookRuns.PreCreateSucceedsExactly | shoreguard/services/boot_hooks.py:381-393 | a pre-create run goes through exactly if every enabled hook succeeds |
| BootHookRuns.TruncateFits | shoreguard/services/boot_hooks.py:78-89 | truncated output fits the limit, and truncating again changes nothing, exactly below a hundred million characters |
| BootHookRuns.TruncateExactly | shoreguard/services/boot_hooks.py:78-89 | output up to 4096 characters is kept; of longer output 4064 and a marker with its length in decimal |
| Restore.Disk.StageThenReplace | shoreguard/services/backup.py:208-219 | the file replaced and the old one set aside; every state on the way is one of three kinds |
| Restore.Disk.RestoreBackup | shoreguard/services/backup.py:185-239 | refused exactly without a manifest or database; otherwise the restored disk, having been safe in every state |
| Restore.RestoreStep | shoreguard/services/backup.py:208-219 | one file further, every state keeps each other file under its own or its set-aside name |
| Restore.ItemsExactly | shoreguard/services/backup.py:225-236 | what is restored, in order: the database, then each archived key file under its own name |
| Restore.RestoredAt | shoreguard/services/backup.py:208-219 | what a finished restore leaves under each of the three names of a file |
| Restore.RoundTrip | shoreguard/services/backup.py:98-131 | restoring an archive of `create_backup` puts back the database snapshot and each archived key file and leaves other key files alone |
| Restore.StaleLogReplayed | shoreguard/db/__init__.py:161 | with a log file beside the restored database there is an engine whose readers do not find the archived content |
| Restore.RestoredContentExactly | shoreguard/db/__init__.py:161 | the archived content comes back under every engine exactly if no log file lies beside the database |
| Restore.SecondRestoreOverwrites | shoreguard/services/backup.py:188-189 | after a second restore the set-aside file holds what the first one restored |
| Restore.DatabaseRestoredExactly | shoreguard/services/backup.py:225-236 | wherever the database is stored, when exactly the key files do not overwrite it |
| Drift.DriftDetectionService.RunOnce | shoreguard/services/drift_detection.py:70-103 | a pass handles exactly the readable, non-empty hashes in order |
| Drift.DriftDetectionService.ScanSandbox | shoreguard/services/drift_detection.py:105-154 | an event exactly for a changed hash; the snapshot is updated for every non-empty one |
| Drift.SightingsExactly | shoreguard/services/drift_detection.py:78-118 | a hash is seen exactly for a named sandbox of a named gateway that could be listed and read, if it is not empty |
| Drift.SightingsInOrder | shoreguard/services/drift_detection.py:78-103 | gateways are scanned in order |
| Drift.SandboxesInOrder | shoreguard/services/drift_detection.py:97-103 | so are the sandboxes of a gateway |
| Drift.DriftExactly | shoreguard/services/drift_detection.py:70-154 | over any passes a sandbox's events are the adjacent unequal pairs of its hashes, and the snapshot is the last |
| Drift.DriftTelescopes | shoreguard/services/drift_detection.py:119-132 | each event continues the preceding one, leading from the first hash seen to the snapshot |

## Left out

- AuditHash.PayloadDeterminesView: an aware timestamp is held by its UTC calendar fields; the offset conversion is the library's, and days per month are not checked.
- AuditLog.AuditService.VerifyChain: the table does not change during the scan.
- AuditLog.AuditService.CommitLog: the audit exporter and the database error that `log` swallows; an aborted insert is a step of the run.
- PolicyConverters.DictToPolicy: values of the wrong type or out of range, which protobuf refuses, and unknown dict keys, which are ignored.
- PolicyConverters.ResolveSettles: the host's links are a function; that a real path is no symlink is an assumption about it.
- EventPump.SandboxEvents.OnTimeout: heartbeat timing; a timeout sends a heartbeat or not, and it may fail.
- EventPump.DeliveryInOrder: OCSF parsing, bypass detection, the pending-approval webhook and an exception other than a gRPC error in the stream.
- AuditRuns.DeletionExact: assumes distinct hashes; `AuditHistory` derives them for every reachable table.
- AuditRuns.CleanupSafeExactly: likewise; `AuditHistory.ReachableCleanupExact` is without the assumption.
- Quorum.ApprovalWorkflowService.WriteVote: the key of a deleted workflow is never given out again, as in PostgreSQL; SQLite may reuse the largest one, and a pending insert could then land under the workflow that got it.
- Quorum.ApprovalWorkflowService.CountVotes: rows are in insertion order, not by `created_at`; comments and escalation timeouts are not part of this model.
- RateLimit.SlidingWindowRateLimiter.IsLimited: clock readings are exact reals, not floats.
- Metering.SandboxMeter.PollSandbox: one sandbox; no other process polls it, and its cursor row is not deleted during a poll.
- Budgets.BudgetService.EvaluateBudgets: prices are any function of the request count; the kill switch does not engage between the check for an entry and its insert.
- Budgets.BudgetService.DetachAll: whether the gateway refuses a detach depends on the provider's name only.
- Budgets.EnforcedExactly: one budget of one sandbox; nobody else creates or removes its entry during the run.
- Retry.CallWithRetry: times are exact reals; jitter draws and wake-up delays are arbitrary within their bounds.
- DenialCache.DenialContextService.IngestSummaries: lower-casing is any function; a field that `int` refuses is an absent value.
- DenialCache.CacheIsRecent: stated for limits of zero or more; for negative ones the new state is in `IngestSummaries`.
- BootHookRuns.BootHookService.RunPreCreate: what a command does is given; a hook deleted or changed during a run, timeouts and the environment are not part of this model.
- BootHookRuns.BootHookService.Create: the working directory, environment, actor and timestamps of a hook; updating and deleting hooks.
- Restore.Disk.RestoreBackup: file modes, links, extraction to the temporary directory; the disk is a map from paths to contents.
- Restore.RoundTrip: requires the database to exist, since SQLite creates a missing one empty.
- Restore.RestoredContentExactly: SQLite is any pair of a read and a snapshot that agree; its shared-memory file holds no content.
- Restore.Disk.StageThenReplace: a rename is atomic, and a copy may stop with any part written.
- Updates in place inside a deque, an ordered dictionary or a table row are assignments to a field that holds a sequence or a map; no aliasing arises.
- `_dict_to_merge_operation` and `_chunk_to_dict`: one-branch printing without a full inverse.
- `rotate_backups`, `has_pending`, `summary`, audit listing and export, `enrich_chunks`: queries and loops that would only add easy members.
- gRPC channels, HTTP routing, sessions, tokens, settings, webhooks, metrics and logging.
- Curfews and long-running operations: their behaviour rests on services that are not part of this model.
