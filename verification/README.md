# OpenPalm: a verified model of the message path and of the state around it

OpenPalm puts a guardian between chat channels and an assistant server, keeps memories about its
users, and manages the files of its own deployment. This project models the parts of it that hold
state under concurrency or transform text, and proves what they promise.

- **Session lock and forwarding** (`SessionTargets`, `SessionLock`, `Forward`, `ForwardOutcomes`, `SessionCaches`). Requests
  of many conversations interleave at every await; the code between two awaits is one step. A call to the
  assistant is issued, handled by the server at some later time, and resumed later still, so replies may be
  out of date when they are acted on. `SessionLock` and `Forward` are step relations on values; the classes
  `SessionLocks` and `SessionMaps` hold the maps as the source does and change them in place, and each of
  their methods is proved to make the corresponding step. `ForwardOutcomes` says what becomes of the
  requests: what a clear deletes, when a question is answered, when a session is created or used again.
- **Guardian admission** (`Eviction`, `Replay`, `RateLimit`, `Inbound`). Two bounded maps that are pruned
  lazily, against their unbounded specifications, and the decision pipeline that uses both. From the
  secret lookup to the decision there is no await, so a request is one step. A pruning pass breaks ties
  between equal timestamps arbitrarily; every statement holds for all outcomes.
- **`ConversationQueue`**. The Discord and Slack packages hold the same class, line for line; it is proved
  once.
- **`SplitMessage`** (with the string operations in `Text`). Cutting a long message into chunks while code
  blocks are closed and reopened.
- **Memory** (`MemoryStore`, `MemoryService`). The record store, the history log that is meant to describe
  it, and the queue that protects read-modify-write feedback.
- **Control plane** (`OrchestratorLock`, `EnvQuoting`, `EnvFile`, `EnvMerge`, `EnvMergeProperties`,
  `EnvIdempotence`, `EnvReader`, `Rollback`). The lock file as a protocol between processes, the env-file merger, snapshot and restore.
- **Assistant tools** (`Hygiene`, `HygieneProperties`, `ContextBudget`). Picking memories to delete, and
  filling a token budget.

`Prelude` holds an option type and a few facts about sequences.

## Where the code does less than its design says

Each of these is a theorem here, with the input that shows it and the exact condition under which the
promise holds.

- *The splitter need not end.* Reopening a code block puts the language word back into the remainder. The
  loop ends on every text whose words after fences have at most `n` characters if and only if the limit is 1
  or 2 or at least `2 * (n + 4)` (`SplitMessage.TerminatesIffWordsFit`; `Endless` is a text of each failing
  kind). `SplitMessage.SplitMessage` is specified for every text on which the source's loop ends.
- *Chunks can exceed the limit*, by up to the four characters of the closing fence. A chunk respects the
  limit if and only if it got no closing fence or, without leading white space, was cut four characters short
  (`SplitMessage.ChunkFitsIff`; for the whole result `ChunksFitIff`). Splitting `OneLongLine` starts with a
  chunk that attains the bound (`BoundIsAttained`).
- *The orchestrator lock.* Having at most one process at a time between observing a stale lock and its
  retry does not make the lock exclusive. A lock file that vanishes between the failed create and the read
  looks like a corrupt one (`OneRecovererVanishedFile`), and a holder that was alive when read may exit before
  it is checked (`OneRecovererLateCheck`); in both runs the single recoverer deletes a live lock. Over every
  run, the lock stays exclusive if and only if nobody unlinks while another live process holds it
  (`ExclusiveIffSparing`); it suffices that nobody unlinks on an outdated reading, that is, after another
  process has acquired the lock since the file was read (`PromptRunsAreSparing`).
- *The memory history.* An inferred update of a memory that is absent (for instance deleted earlier in the
  same batch) changes no row and does not fail, because the SQL update matches nothing, but it is logged.
  These are exactly the operations that make log and store disagree (`MemoryStore.OpKeepsDescriptionIff`): in
  every run the log describes the store if and only if no such update was logged since the last wipe
  (`HistoryDescribesIff`).
- *Merging env files.* Merging a list of updates is idempotent on every file if and only if every key is read
  back from the line written for it, and every value has no newline or holds a single quote
  (`EnvIdempotence.IdempotentIff`; a key such as `A=B` is appended again each time). A later line with the
  same key hides an update (`EnvReader.UpdateIsSeenIff`, `SecondLineWins`).
- *Restoring a snapshot* brings the tracked files back exactly if and only if no tracked file was added since
  and no earlier snapshot had saved a file that was gone by the last one (`Rollback.RestoreIsExactIff`).
- *Token budgets.* The greedy fit is maximal except that a budget of exactly zero also leaves out empty texts
  (`ContextBudget.FitIsMaximalIff`).
- *Rate limits.* A limit of 0 still lets the first call of a window through (`RateLimit.ZeroLimitAdmitsOne`).

## Hypotheses

The clock does not go backwards and is read once per step. Session ids, memory ids and the pids of live
processes are unique; a dead process's pid may be used again. Signature verification is an arbitrary
predicate. A deleted session no longer answers. What the nonce cache, the rate limiter and the guardian
keep out over whole runs is stated for runs in which no pruning pass finds more unexpired entries than it
may keep (`NeverOverfull`); `Replay.ReplayableIffOverCap` shows for one pass that this is exactly what is
needed. What they let in (`BoundedAndFreshAccepted`, `RefusalIsEarned`, `RefusalHasCause`,
`FreshRequestGetsThrough`), sizes and authenticity are stated for every run. Creating the lock file and
writing it is one step.

## Model

| member | source | states |
|---|---|---|
| SessionTargets.KeysMatchTitles | core/guardian/src/forward.ts:72-76 | for an admitted channel the cache key determines the title and the title the cache key |
| SessionTargets.OneLockPerTitle | core/guardian/src/forward.ts:63-77 | two targets of admitted channels share a lock iff they share a title iff they are the same |
| SessionTargets.ResolvedSessionKey | core/guardian/src/forward.ts:63-70 | the session key is the user id or a key of 1 to 256 trimmed characters; such a key is taken as it stands, and a missing or blank one falls back to the user id |
| SessionTargets.SharedSessionIff | core/guardian/src/forward.ts:63-77 | requests with session keys share a session iff channel and key agree, requests without iff channel and user agree |
| SessionTargets.SeparatorsInChannelsWouldCollide | core/guardian/src/forward.ts:73-75 | with `:` or `/` in a channel name one lock could serve two titles, and one title two locks |
| SessionLock.StepKeepsInv | core/guardian/src/forward.ts:167-187 | every step keeps the map pointing at the newest unfinished call of each key, each call linked to the call just before it on its key, and every entered call behind finished ones only |
| SessionLock.MutualExclusion | core/guardian/src/forward.ts:167-187 | in every run no two calls on one key are between entering and leaving |
| SessionLock.FirstComeFirstServed | core/guardian/src/forward.ts:177-181 | when a call has entered, every earlier call on its key is over, whether it returned or threw |
| SessionLock.LockedIffUnfinished | core/guardian/src/forward.ts:175-186 | a key is in the lock map iff it has an unfinished call |
| SessionLock.EventuallyFinished | core/guardian/src/forward.ts:177-187 | in every endless fair run in which each `fn` settles, every call that arrives finishes |
| SessionLock.SessionLocks.Arrive | core/guardian/src/forward.ts:168-175 | the in-place code makes the arrival step and hands back the promise of the call just before |
| SessionLock.SessionLocks.Leave | core/guardian/src/forward.ts:181-186 | the `finally` block makes the leaving step: it releases, and removes the map entry iff nobody queued up behind |
| Forward.StepKeepsShape | core/guardian/src/forward.ts:83-146 | every step of the world makes a legal step of the session lock, and frames agree with lock phases |
| Forward.StepKeepsTitled | core/guardian/src/forward.ts:83-213 | every step keeps every cached, listed or awaited session id under the title it belongs to |
| Forward.AnswersComeFromOwnTitle | core/guardian/src/forward.ts:83-125 | in every run, whatever fails or is cleared, an answer comes from a session with the request's title |
| Forward.StepKeepsOnlyOne | core/guardian/src/forward.ts:83-213 | a step that disturbs no request of a title keeps at most one session under it, and what its requests know about it right |
| Forward.OneSessionPerTitle | core/guardian/src/forward.ts:83-125 | a title that had at most one session at the start, with its calls undisturbed and everything else interleaving freely, has at most one session ever, and every finished request is answered from it |
| Forward.StepKeepsClearInv | core/guardian/src/forward.ts:127-146 | every step keeps deleted sessions gone and answers of later requests apart from what a clear deleted |
| Forward.NextAnswerAfterClear | core/guardian/src/forward.ts:105-146 | after a clear, no later request of the target is answered from a session it deleted, even if a stale list of another conversation refills the title cache; which sessions it deletes is ClearDeletesEverything |
| ForwardOutcomes.ClearDeletesEverything | core/guardian/src/forward.ts:134-144 | a clear that has returned has deleted every session that its list had under the title, but for those whose deletion failed, and no other; a failed deletion does not stop the rest |
| ForwardOutcomes.AnswerAfterClearIsFresh | core/guardian/src/forward.ts:127-146 | no later answer to the target comes from a session that had its title when the clear asked the server, but for those whose deletion failed |
| ForwardOutcomes.AskIsAnswered | core/guardian/src/forward.ts:92-124 | a question that has returned was answered, from a session of its title, whatever became of the cached and the listed session, unless its own listing, creation or send to the created session failed |
| ForwardOutcomes.CreatesForWantOfOne | core/guardian/src/forward.ts:105-119 | a session is created only after a list without the title, or after the listed session has failed |
| ForwardOutcomes.IndexIsLast | core/guardian/src/forward.ts:202-207 | a title is in the index iff the list has a session with it, and it gets the last such session; untitled ones are left out |
| ForwardOutcomes.IndexIsUsedForAMinute | core/guardian/src/forward.ts:189-201 | without a cached session used in the last fifteen minutes, an entry of an index younger than a minute is used, and otherwise the sessions are listed |
| ForwardOutcomes.AnswerIsReused | core/guardian/src/forward.ts:89-118 | the next question of the target within fifteen minutes of an answer goes to the session that answered, whatever other conversations do in between |
| ForwardOutcomes.ClearForgets | core/guardian/src/forward.ts:127-132 | from the moment a clear enters, whether or not its deletions succeed, the next question of the target does not go to a cached session |
| SessionCaches.SessionMaps.Drop | core/guardian/src/forward.ts:98-102 | the in-place deletions carry the represented caches to the value without the target |
| SessionCaches.SessionMaps.Store | core/guardian/src/forward.ts:109-110 | storing a new entry object carries the caches to the value that remembers the session |
| SessionCaches.SessionMaps.Refresh | core/guardian/src/forward.ts:95-96 | touching the held entry object updates it in place even if it has left the map |
| SessionCaches.SessionMaps.Reload | core/guardian/src/forward.ts:202-209 | the rebuilding loop yields the title index of the list, later sessions winning, untitled ones left out |
| SessionCaches.SessionMaps.PruneSessions | core/guardian/src/forward.ts:32-44 | the timer keeps an admissible outcome of one pruning pass with a cap of 10000 |
| Eviction.Prune | core/guardian/src/forward.ts:33-43 | one pass keeps all unexpired entries if they fit under the cap, and otherwise exactly as many of the newest |
| Eviction.PrunedKeepsLive | core/guardian/src/replay.ts:13-25 | a pass leaves at most the cap, and keeps exactly the unexpired entries iff they fit under it |
| Replay.NonceCache.PruneNonceCache | core/guardian/src/replay.ts:13-25 | the map afterwards is the old one restricted to the outcome of one pass |
| Replay.NonceCache.CheckNonce | core/guardian/src/replay.ts:32-43 | accepts iff the nonce is not empty, the timestamp within five minutes and the nonce not held; a refusal changes nothing, an acceptance adds the pair, and the map is what acceptance and the pass leave |
| Replay.BoundedAndFreshAccepted | core/guardian/src/replay.ts:32-43 | in every run the map holds at most max(10000, cap) nonces, and a never accepted non-empty nonce is accepted iff its timestamp is within five minutes |
| Replay.StepKeepsRemembered | core/guardian/src/replay.ts:13-43 | an accepted pair stays in the map until the clock has moved past it for good |
| Replay.NoReplay | core/guardian/src/replay.ts:32-43 | over a whole run without live evictions no (nonce, timestamp) pair is accepted twice |
| Replay.ReplayableIffOverCap | core/guardian/src/replay.ts:19-24 | after a pass some unexpired nonce could be replayed iff more of them were held than the cap |
| RateLimit.RateLimiter.PruneRateLimitBuckets | core/guardian/src/rate-limit.ts:25-38 | the buckets afterwards are the old ones restricted to the outcome of one pass |
| RateLimit.RateLimiter.Allow | core/guardian/src/rate-limit.ts:45-61 | prunes iff over the cap, admits iff the window is not open or has room, and counts exactly the admitted call |
| RateLimit.SizeBound | core/guardian/src/rate-limit.ts:48-56 | in every run the map holds at most 10001 buckets |
| RateLimit.SameAnswer | core/guardian/src/rate-limit.ts:45-61 | a step of the pruning limiter refines the step of one that never prunes, with the same answer |
| RateLimit.PruningIsInvisible | core/guardian/src/rate-limit.ts:25-61 | over whole runs pruning never changes an answer |
| RateLimit.StepKeepsWindow | core/guardian/src/rate-limit.ts:53-60 | every step keeps any two admissions of a key that are `2 * limit` apart more than a window apart |
| RateLimit.TwiceTheLimit | core/guardian/src/rate-limit.ts:8-12 | any closed interval of a window's length admits at most `2 * limit` calls per key, even among calls with other limits on the same key |
| RateLimit.RefusalIsEarned | core/guardian/src/rate-limit.ts:45-61 | in every run, whatever was pruned, a call is refused only if at least `limit` calls, and at least one, were admitted on its key in the window's length before it |
| RateLimit.AdmittedIff | core/guardian/src/rate-limit.ts:45-61 | a call is admitted iff its key's latest window, told from the admission times alone, is over or holds fewer admissions than the limit |
| RateLimit.WindowIsSuffix | core/guardian/src/rate-limit.ts:53-60 | the latest window ends the admission times and spans at most the window's length |
| RateLimit.ZeroLimitAdmitsOne | core/guardian/src/rate-limit.ts:53-58 | a limit of 0 admits the first call of a window and refuses the next |
| Inbound.AdmittedChannel | core/guardian/src/signature.ts:14-23 | a channel name that passes the secret lookup holds neither `:` nor `/` |
| Inbound.SecretIsFound | core/guardian/src/server.ts:149-153 | a channel's secret is the value of the variable named after it, whatever the case of the channel name and with `-` for `_`; an empty value is none |
| Inbound.SecretHasName | core/guardian/src/signature.ts:14-26 | only a channel name that such a variable can spell has a secret |
| Inbound.RefusalsAreCheap | core/guardian/src/server.ts:158-212 | a rate-limited request leaves the nonce cache as it was, an unauthentic one leaves everything, and what gets through is cleared iff it asks for that and forwarded otherwise |
| Inbound.Guardian.CheckLimits | core/guardian/src/server.ts:171-171 | both limits in short-circuit order: a user refusal leaves the channel's bucket alone |
| Inbound.Guardian.Inbound | core/guardian/src/server.ts:148-231 | the in-place pipeline returns the specified decision and leaves both caches in the specified state |
| Inbound.ThroughIsAuthentic | core/guardian/src/server.ts:148-231 | in every run, whatever gets through verified its signature under an admitted channel |
| Inbound.ThroughIsOnce | core/guardian/src/server.ts:148-231 | over whole runs without live evictions no (nonce, timestamp) pair gets through twice |
| Inbound.ThroughIsBounded | core/guardian/src/rate-limit.ts:14-17 | in any minute at most 240 requests of a user and at most 400 of a channel get through |
| Inbound.RefusalHasCause | core/guardian/src/server.ts:115-183 | in every run, the limits refuse an authentic request only if its user had 120 or its channel 200 admissions in the last minute, and the replay check only an empty nonce, a timestamp more than five minutes off or a nonce that got through before; the other refusals are given exactly for their own cause |
| Inbound.FreshRequestGetsThrough | core/guardian/src/server.ts:115-231 | an authentic request with an unused nonce and a timestamp within five minutes gets through if its user and channel had fewer than 120 and 200 admissions in the last minute |
| Inbound.OutsideSkewIsRefused | core/guardian/src/server.ts:178-183 | a request without a nonce or with a timestamp more than five minutes off never gets through |
| ConversationQueue.StepKeepsInv | packages/channel-discord/src/session.ts:33-111 | every submission, settlement and clear keeps order, conservation and one running task per conversation |
| ConversationQueue.OneTaskAtATime | packages/channel-discord/src/session.ts:58-110 | after any interleaving a conversation is in the map iff one of its tasks runs, and at most one does |
| ConversationQueue.StartsInAcceptanceOrder | packages/channel-slack/src/session.ts:63-115 | what was accepted and not dropped is what has started followed by what is queued, in acceptance order |
| ConversationQueue.EveryTaskHasOneFate | packages/channel-discord/src/session.ts:44-110 | every accepted task has exactly one of the fates started, dropped, queued |
| ConversationQueue.SubmissionStartsOrQueues | packages/channel-discord/src/session.ts:58-72 | after any run, a submission is accepted: it starts at once if its conversation is idle and is queued last if not; other conversations stay as they are |
| ConversationQueue.SettlementStartsHead | packages/channel-discord/src/session.ts:75-97 | after any run, when the running task settles the head of the queue starts, if there is one, and else the conversation is forgotten |
| ConversationQueue.ClearDropsQueue | packages/channel-discord/src/session.ts:44-56 | after any run, a clear drops exactly what is queued, and neither stops nor starts a task |
| ConversationQueue.QueuedTasksStart | packages/channel-discord/src/session.ts:87-110 | while no clear arrives, the `i`-th queued task has started once `i + 1` tasks of its conversation have settled |
| ConversationQueue.ConversationQueue.IsProcessing | packages/channel-discord/src/session.ts:36-38 | true iff a task of the conversation runs |
| ConversationQueue.ConversationQueue.QueuedCount | packages/channel-discord/src/session.ts:40-42 | the number of accepted tasks waiting behind the running one |
| ConversationQueue.ConversationQueue.Clear | packages/channel-discord/src/session.ts:44-56 | empties the queue, returns how many tasks that dropped, forgets an idle conversation, and leaves the objects of the others alone |
| ConversationQueue.ConversationQueue.RunOrQueue | packages/channel-discord/src/session.ts:58-72 | up to its await: starts the task iff the conversation has no entry, and otherwise puts it last in the queue of its object; makes the submission step and leaves the objects of other conversations alone |
| ConversationQueue.ConversationQueue.Drain | packages/channel-discord/src/session.ts:87-97 | starts the head of the queue of an idle conversation, forgets one with an empty queue, and leaves the others alone |
| ConversationQueue.ConversationQueue.Settle | packages/channel-discord/src/session.ts:75-82 | the `finally` block starts the head of the queue, if any, or forgets the conversation; makes the settlement step and leaves the others alone |
| SplitMessage.CutPlace | packages/channels-sdk/src/utils.ts:47-60 | a cut lies in the second half: before the last newline there inside a code block, after the last blank line or else the last newline outside |
| SplitMessage.FencesAppend | packages/channels-sdk/src/utils.ts:49-49 | the number of fence matches adds up across a boundary that is not inside a run of backticks |
| SplitMessage.LangIsFirstWord | packages/channels-sdk/src/utils.ts:69-70 | the language hint is all the word characters right after the first fence |
| SplitMessage.LanguageCarriesOver | packages/channels-sdk/src/utils.ts:65-72 | a reopened code block keeps its language hint through the next cut as well |
| SplitMessage.RestShrinks | packages/channels-sdk/src/utils.ts:62-72 | with short words after fences an iteration leaves a shorter remainder whose words are still short |
| SplitMessage.TerminatesIffWordsFit | packages/channels-sdk/src/utils.ts:41-75 | the loop ends on all texts with words of at most `n` after fences iff the limit is 1 or 2 or at least `2 * (n + 4)` |
| SplitMessage.StuckIsStuck | packages/channels-sdk/src/utils.ts:67-72 | a concrete text on which an iteration gives its own remainder back |
| SplitMessage.NothingLost | packages/channels-sdk/src/utils.ts:62-72 | the pieces cut off and what is left concatenate to the text |
| SplitMessage.ChunkIsBalanced | packages/channels-sdk/src/utils.ts:62-74 | a chunk is at most as long as the limit plus the closing fence it got, and its fences pair up |
| SplitMessage.ChunkFitsIff | packages/channels-sdk/src/utils.ts:62-74 | a chunk respects the limit iff it got no closing fence or was cut short enough for it |
| SplitMessage.ChunksFitIff | packages/channels-sdk/src/utils.ts:41-77 | every chunk of the result respects the limit iff every closing fence fits |
| SplitMessage.BoundIsAttained | packages/channels-sdk/src/utils.ts:66-74 | for every limit of at least 6, splitting an open code block of one long line starts with a chunk four characters longer than the limit |
| SplitMessage.HeadersStayWhole | packages/channels-sdk/src/utils.ts:62-72 | if the words after fences fit the limit no cut falls inside a reopened header, so each chunk is a piece of the text with at most a whole header before it |
| SplitMessage.ParityKept | packages/channels-sdk/src/utils.ts:65-72 | if no cut falls inside a backtick run, what is left has the fence parity of the text |
| SplitMessage.CutChunk | packages/channels-sdk/src/utils.ts:47-74 | the loop body yields the trimmed chunk and the specified remainder |
| SplitMessage.NonEmptyInOrder | packages/channels-sdk/src/utils.ts:77-77 | the filter keeps exactly the chunks that are not empty, in their order |
| SplitMessage.SplitMessage | packages/channels-sdk/src/utils.ts:34-78 | on every text on which the loop ends: the chunks are, in order and each once, the trimmed pieces with their headers and closers that are not blank and then the untrimmed rest if there is one; nothing is lost, chunks are at most four over the limit, all within it iff every closing fence fits, all but the last balanced, the last too when the text is and no run was cut |
| MemoryStore.DecimalIsCanonical | packages/memory/src/memory.ts:182-182 | positions are written in decimal digits without a leading zero, and read back as the number they denote |
| MemoryStore.PositionResolves | packages/memory/src/memory.ts:180-182 | position `i` in decimal resolves to the `i`-th listed memory |
| MemoryStore.OtherIdsResolve | packages/memory/src/memory.ts:452-460 | any other id resolves to itself |
| MemoryStore.PositionIsHit | packages/memory/src/memory.ts:186-233 | wherever in a batch it comes, an inferred delete or update of position `i` removes or overwrites the `i`-th listed memory and logs the text it had, and changes nothing else |
| MemoryStore.OpKeepsDescriptionIff | packages/memory/src/memory.ts:186-233 | an inferred operation keeps the log describing the store iff it is not an effective update of an absent memory |
| MemoryStore.DeleteThenUpdateMisleads | packages/memory/src/memory.ts:199-225 | a batch that deletes a memory and then updates it leaves a log that brings it back |
| MemoryStore.HistoryDescribesIff | packages/memory/src/memory.ts:112-419 | in every reachable state, replaying the log gives the store's texts and each entry names the text it replaced, iff no update of an absent memory was logged since the last wipe |
| MemoryStore.StrictHistoryDescribes | packages/memory/src/memory.ts:112-419 | with a store whose update fails on absent ids, the log describes the store in every reachable state |
| MemoryStore.List | packages/memory/src/vector-stores/sqlite-vec.ts:275-329 | up to `limit` distinct records of the user, all of them when fewer are returned |
| MemoryStore.Memory.AddDirect | packages/memory/src/memory.ts:126-136 | inserts one record and logs it |
| MemoryStore.Memory.Perform | packages/memory/src/memory.ts:187-232 | one inferred operation: an addition inserts and logs, an update overwrites the named record with the call's scope and metadata and logs both texts, a deletion removes and logs; a failing or blank one has no effect |
| MemoryStore.Memory.Infer | packages/memory/src/memory.ts:180-233 | the operations loop applies the operations in order, with the listed positions resolved to ids; a lone delete or update of position `i` hits exactly the `i`-th listed memory |
| MemoryStore.Memory.Update | packages/memory/src/memory.ts:333-354 | fails iff the memory is absent or the store throws, changing nothing; otherwise replaces the text, keeps the scope, takes new metadata if given, and logs both texts |
| MemoryStore.Memory.Delete | packages/memory/src/memory.ts:357-363 | removes the record and logs its text |
| MemoryStore.Memory.DeleteBatch | packages/memory/src/memory.ts:377-380 | removes and logs the listed records in order |
| MemoryStore.Memory.DeleteAll | packages/memory/src/memory.ts:366-386 | terminates, removes exactly the user's records and no others, and keeps the log describing the store; without a user it wipes both |
| MemoryService.OneAtATime | core/memory/src/server.ts:24-28 | operations run one at a time in arrival order, whether or not earlier ones failed |
| MemoryService.StepKeepsInv | core/memory/src/server.ts:255-289 | every step keeps the record equal to the sequential effect of the completed operations, and what an operation at work has read current |
| MemoryService.NoUpdateIsLost | core/memory/src/server.ts:255-289 | after any interleaving the counters are the initial ones plus the completed votes, the score is their difference, the reason is the last one given with a completed vote, and the content is that of the last completed PUT |
| MemoryService.VoteLostWithoutQueue | core/memory/src/server.ts:268-289 | without the queue two completed approvals can count once |
| MemoryService.HandleFeedback | core/memory/src/server.ts:268-289 | the handler's read-modify-write has the vote's effect on the record, or none, and keeps the log describing the store |
| MemoryService.HandlePut | core/memory/src/server.ts:256-265 | replaces the content iff it is not blank, the memory exists and nothing throws; otherwise changes nothing |
| OrchestratorLock.StepKeepsFile | packages/lib/src/control-plane/lock.ts:79-176 | a step that unlinks no lock of another live process keeps the file naming its holder |
| OrchestratorLock.AtMostOneHolder | packages/lib/src/control-plane/lock.ts:79-176 | in every run in which nobody unlinks while another live process holds the lock, at most one live process holds it, the file names it, and a release removes only its own lock |
| OrchestratorLock.UnlinkBreaksIffHeld | packages/lib/src/control-plane/lock.ts:103-119 | at every state of such a run, an unlink and its retry leave two holders iff another live process holds the lock |
| OrchestratorLock.ExclusiveIffSparing | packages/lib/src/control-plane/lock.ts:79-176 | over every run, the lock stays exclusive, also if each unlink were retried at once, iff nobody unlinks while another live process holds it |
| OrchestratorLock.StepKeepsInv | packages/lib/src/control-plane/lock.ts:79-176 | a step that does not unlink on an outdated reading keeps the file naming its holder and up-to-date readers right |
| OrchestratorLock.PromptRunsAreSparing | packages/lib/src/control-plane/lock.ts:79-176 | if nobody unlinks on an outdated reading, nobody unlinks while another process holds the lock, and the lock is exclusive |
| OrchestratorLock.TwoRecoverersBothHold | packages/lib/src/control-plane/lock.ts:103-119 | a run in which two contenders recover the same stale lock and both hold it |
| OrchestratorLock.OneReaderRecovers | packages/lib/src/control-plane/lock.ts:101-160 | if one process alone reads the file, at most one process at a time recovers |
| OrchestratorLock.OneRecovererVanishedFile | packages/lib/src/control-plane/lock.ts:140-160 | a run with one recoverer at a time in which a vanished file is taken for a corrupt one and two processes hold the lock |
| OrchestratorLock.OneRecovererLateCheck | packages/lib/src/control-plane/lock.ts:101-119 | the same outcome when a holder exits between being read and being checked |
| OrchestratorLock.AloneAcquires | packages/lib/src/control-plane/lock.ts:79-160 | from any state of any run, a process acting alone gets the lock unless the file names a live process, and then changes nothing |
| OrchestratorLock.AloneReleases | packages/lib/src/control-plane/lock.ts:165-176 | from any state of any run, a holder acting alone removes the file iff it names the holder |
| OrchestratorLock.LockFile.CreateExclusively | packages/lib/src/control-plane/lock.ts:91-97 | creates and fills the file iff there is none |
| OrchestratorLock.LockFile.AcquireLock | packages/lib/src/control-plane/lock.ts:79-164 | undisturbed, takes the lock unless a live process holds it, who is then named |
| OrchestratorLock.LockFile.ReleaseLock | packages/lib/src/control-plane/lock.ts:166-176 | undisturbed, removes the file iff it names the caller |
| EnvQuoting.ChainIsSinglePass | packages/lib/src/control-plane/env.ts:24-24 | the five chained replacements equal escaping each character once |
| EnvQuoting.QuoteIsLossless | packages/lib/src/control-plane/env.ts:17-26 | one decoder inverts all three output forms |
| EnvQuoting.QuoteIsInjective | packages/lib/src/control-plane/env.ts:17-26 | different values are written differently |
| EnvQuoting.QuoteIsOneLineIff | packages/lib/src/control-plane/env.ts:17-26 | the written form is one line iff the value is, or holds a single quote |
| EnvQuoting.QuoteFormIs | packages/lib/src/control-plane/env.ts:17-26 | a value is written as it is iff it has no special character and no white space at an end, in single quotes iff it needs quoting and holds none, and else in double quotes |
| EnvFile.JoinSplit | packages/lib/src/control-plane/env.ts:33-33 | joining the split lines gives the content back |
| EnvFile.SplitJoin | packages/lib/src/control-plane/env.ts:69-69 | splitting joined newline-free lines gives the lines back |
| EnvFile.AssignmentParses | packages/lib/src/control-plane/env.ts:37-53 | a line written for an addressable key is parsed back to its key, value and export prefix |
| EnvFile.KeyShape | packages/lib/src/control-plane/env.ts:37-48 | the key of any line is non-empty, trimmed and without `=` |
| EnvFile.CommentedParses | packages/lib/src/control-plane/env.ts:37-45 | a commented-out assignment is found when commented lines count, and not under its key otherwise |
| EnvMerge.Rewrite | packages/lib/src/control-plane/env.ts:37-55 | the loop body rewrites a line iff it is the first to set an updated key, and takes that key from the remaining ones |
| EnvMerge.RewriteLines | packages/lib/src/control-plane/env.ts:36-56 | the loop overwrites exactly the first line of each updated key; the updates without a line remain, in order |
| EnvMerge.MergeEnvContent | packages/lib/src/control-plane/env.ts:28-70 | the merged text is the rewritten lines followed, if updates remain, by a blank line unless there is one, the header and the remaining assignments |
| EnvMergeProperties.UnrelatedLinesStay | packages/lib/src/control-plane/env.ts:36-56 | every line that sets no updated key, and every later duplicate, stays in its place |
| EnvMergeProperties.MergeIsIdempotent | packages/lib/src/control-plane/env.ts:28-70 | for addressable keys, one-line forms and an inert header, merging again changes nothing, on any content |
| EnvMergeProperties.MergedSplits | packages/lib/src/control-plane/env.ts:33-69 | the result splits into exactly the lines it was built from when nothing written brings a newline |
| EnvMergeProperties.MergeIs | packages/lib/src/control-plane/env.ts:28-70 | on every content: the first line of each updated key becomes the new assignment with its export prefix kept, every other line stays, and the updates without a line follow in their order after a blank line, unless there is one, and the header |
| EnvIdempotence.SameLines | packages/lib/src/control-plane/env.ts:69-69 | at least as many lines that join to the same text as newline-free lines are those lines |
| EnvIdempotence.ReadBackIsAddressable | packages/lib/src/control-plane/env.ts:37-48 | only an addressable key is read back, unexported, from the line written for it |
| EnvIdempotence.ReadBackShortens | packages/lib/src/control-plane/env.ts:37-48 | a line written for any newline-free key is read back under a shorter key, or under that key, which is then addressable |
| EnvIdempotence.IdempotentIff | packages/lib/src/control-plane/env.ts:28-70 | merging distinct updates is idempotent on every content iff every key is addressable and every value has no newline or holds a single quote |
| EnvIdempotence.KeyWithEqualsIsAppendedAgain | packages/lib/src/control-plane/env.ts:58-67 | the key `A=B` is appended again by a second merge |
| EnvReader.OthersReadAsBefore | packages/lib/src/control-plane/env.ts:36-67 | a last-wins line reader sees every key that is not updated as before |
| EnvReader.UpdatedReadsAs | packages/lib/src/control-plane/env.ts:47-54 | it sees an updated key as a line after the key's first line still gives it, if one does, and else as the update |
| EnvReader.UpdateIsSeenIff | packages/lib/src/control-plane/env.ts:28-70 | it sees an update iff no line after the key's first line gives the key another value |
| EnvReader.ReaderSeesUpdates | packages/lib/src/control-plane/env.ts:28-70 | when each updated key is on at most one line it sees exactly the updates, and everything else as before |
| EnvReader.SecondLineWins | packages/lib/src/control-plane/env.ts:49-54 | with a key on two lines it sees the second, not the update |
| Rollback.Tree.SafeCopy | packages/lib/src/control-plane/rollback.ts:25-29 | copies one path if it exists and changes no other |
| Rollback.Tree.CopyTracked | packages/lib/src/control-plane/rollback.ts:40-65 | the loops copy exactly the tracked files that exist |
| Rollback.ControlPlane.SnapshotCurrentState | packages/lib/src/control-plane/rollback.ts:36-72 | copies every tracked file that exists into the snapshot, leaves other paths of it and the live files alone, and makes the snapshot step |
| Rollback.ControlPlane.RestoreSnapshot | packages/lib/src/control-plane/rollback.ts:78-111 | with a snapshot copies every tracked file in it back and leaves other paths alone; without one an error that changes nothing |
| Rollback.BackupIsLatest | packages/lib/src/control-plane/rollback.ts:36-72 | the backup holds exactly the paths that some snapshot saw, each as the last such snapshot saw it |
| Rollback.RestoreSetsLatest | packages/lib/src/control-plane/rollback.ts:78-111 | after any run, restoring sets each path ever saved to its content at the last snapshot at which it existed, and changes no other |
| Rollback.RestoreNeedsSnapshot | packages/lib/src/control-plane/rollback.ts:80-82 | without a snapshot in the run restoring changes nothing |
| Rollback.RestoreAfterSnapshotKeeps | packages/lib/src/control-plane/rollback.ts:78-111 | right after a snapshot restoring leaves every present file as it is |
| Rollback.RestoreIsExactIff | packages/lib/src/control-plane/rollback.ts:36-111 | whatever happened since, restoring reproduces the tracked files of the last snapshot iff none was added since and none saved earlier was gone by it |
| Rollback.RemovedFileReturns | packages/lib/src/control-plane/rollback.ts:25-29 | a file removed before the last snapshot comes back with it |
| Hygiene.SameKeyIff | packages/assistant-tools/opencode/plugins/memory-hygiene.ts:107-112 | two items share a group iff they share category and normalised text |
| HygieneProperties.CollapsedShape | packages/assistant-tools/opencode/plugins/memory-lib.ts:236-236 | each run of white space becomes one blank and no other character changes |
| HygieneProperties.NormalizedShape | packages/assistant-tools/opencode/plugins/memory-lib.ts:233-240 | normalising ignores the case of letters and leaves lower-case letters, digits, white space and `_`, `.`, `-` only |
| Hygiene.PrioritySorts | packages/assistant-tools/opencode/plugins/memory-hygiene.ts:122-122 | sorting by quality and creation time permutes the group and puts nothing before something of higher priority |
| Hygiene.GroupItems | packages/assistant-tools/opencode/plugins/memory-hygiene.ts:105-116 | the map holds each group in list order, under the keys in order of first appearance |
| Hygiene.CollectDuplicateCandidates | packages/assistant-tools/opencode/plugins/memory-hygiene.ts:104-134 | the loops yield the duplicates and add surplus and skipped members to the report |
| Hygiene.CollectStaleCandidates | packages/assistant-tools/opencode/plugins/memory-hygiene.ts:136-169 | the loop yields the stale, unprotected items not taken already, and counts them and the protected ones |
| Hygiene.RunAutomatedHygiene | packages/assistant-tools/opencode/plugins/memory-hygiene.ts:25-75 | the two batches and every field of the report, for either outcome of each delete request |
| HygieneProperties.DuplicateIff | packages/assistant-tools/opencode/plugins/memory-hygiene.ts:119-133 | exactly the unprotected members of a group other than the one it keeps are taken as duplicates |
| HygieneProperties.GroupKeepsItsBest | packages/assistant-tools/opencode/plugins/memory-hygiene.ts:122-125 | each (category, text) group keeps a member of the highest quality, and of the latest creation among those, and does not take it |
| HygieneProperties.KeeperIsFirst | packages/assistant-tools/opencode/plugins/memory-hygiene.ts:122-123 | among equals the earliest in the list is kept |
| HygieneProperties.ProtectedIsKept | packages/assistant-tools/opencode/plugins/memory-hygiene.ts:172-190 | where confidence and feedback stay below 5 in size a protected member is kept before any other, and without one a member of the highest score |
| HygieneProperties.DuplicatesAddUp | packages/assistant-tools/opencode/plugins/memory-hygiene.ts:121-131 | `duplicatesFound` is the duplicates taken plus the protected ones skipped |
| HygieneProperties.SurplusIs | packages/assistant-tools/opencode/plugins/memory-hygiene.ts:121-121 | `duplicatesFound` is how many memories belong to a group beyond one for each group |
| HygieneProperties.StaleSkippedIs | packages/assistant-tools/opencode/plugins/memory-hygiene.ts:145-149 | the stale pass counts each protected memory that is not taken already once |
| HygieneProperties.BatchesAreBounded | packages/assistant-tools/opencode/plugins/memory-hygiene.ts:52-64 | for any list the two batches are disjoint, at most 60 each, and the first of the duplicates and of the stale memories, leaving none out below 60 |
| HygieneProperties.StaleBatchIs | packages/assistant-tools/opencode/plugins/memory-hygiene.ts:62-64 | the filter before the stale batch finds nothing to drop |
| HygieneProperties.ProtectedIsSafe | packages/assistant-tools/opencode/plugins/memory-hygiene.ts:104-169 | no protected memory is in either batch, and what is deleted as stale is stale and no duplicate |
| HygieneProperties.StaleIff | packages/assistant-tools/opencode/plugins/memory-hygiene.ts:136-169 | below the cap the stale batch is exactly the stale, unprotected memories that are no duplicates, and `staleFound` counts it |
| HygieneProperties.StaleByAge | packages/assistant-tools/opencode/plugins/memory-hygiene.ts:151-161 | stale from 120 days after the last use, never before 45 days, and in between iff the confidence is at most 0.25 and no feedback is positive; without a date never |
| ContextBudget.EstimateRoundsUp | packages/assistant-tools/opencode/context/tokens.ts:7-10 | `n` tokens cover a text iff it has at most `4 * n` characters |
| ContextBudget.FitItemsInBudget | packages/assistant-tools/opencode/context/tokens.ts:16-32 | the loop yields the greedy selection, within the budget |
| ContextBudget.FitIsMaximalIff | packages/assistant-tools/opencode/context/tokens.ts:16-32 | an in-order selection within the budget; nothing left out would fit, iff not (the budget is zero and some text is empty) |
| ContextBudget.AllocationsAddUp | packages/assistant-tools/opencode/context/budget.ts:21-53 | each allocation is the largest number of tokens within its percentage; together they never exceed the total and lose fewer than five tokens of it |
| ContextBudget.AssembleContext | packages/assistant-tools/opencode/context/assemble.ts:32-110 | for every search outcome, including a response that is malformed half-way, the items are the fitted parts in order, with at most the total budget of tokens |
| ContextBudget.WithinBudget | packages/assistant-tools/opencode/context/assemble.ts:32-110 | the assembled context stays within the total budget, and empty for a negative one |
| ContextBudget.EachSourceIsFitted | packages/assistant-tools/opencode/context/assemble.ts:60-100 | each source's part holds uri, abstract (empty if missing) and score of entries of the response, or content and score of memories found, in order, within its own allocation and leaving out nothing that would still fit; a source that fails, or follows a malformed one, gives nothing |

## Left out

- Forward.OneSessionPerTitle: says nothing of titles under which several sessions already exist, of which the list order picks one, nor of runs in which a call of the title fails or is cleared; those are covered by AnswersComeFromOwnTitle, AskIsAnswered, CreatesForWantOfOne and AnswerAfterClearIsFresh.
- ForwardOutcomes.AnswerIsReused: says nothing of a cached session whose entry a pruning pass drops while it answers, since the source then loses the entry.
- Replay.NoReplay: excludes runs that evict unexpired nonces at the hard cap; ReplayableIffOverCap says when that matters.
- RateLimit.TwiceTheLimit: excludes runs that evict open buckets at the hard cap.
- SessionLock, Forward and OrchestratorLock are step relations on values across awaits and processes, since one method cannot interleave with another; the code between two awaits is in classes that are updated in place.
- Session keys, channel names and group keys that collide with members of `Object.prototype` when used as property names.
- The time-to-live settings read from the environment: the default constants are used.
- Letters outside ASCII in `toLowerCase`, UTF-16 surrogates and locale: strings are sequences of characters.
- The dotenv parser, which reads env files in production and does not undo every escape that `quoteEnvValue` writes: EnvReader is the last-wins line reader instead.
- Replay.NonceCache.CheckNonce: the clock is read once in a call, where the source reads it again in the pruning pass.
- ConversationQueue's `onQueued` notification, whose failure is ignored, and the session-key builders.
- MemoryStore.Memory.Infer: does not model fact extraction, search or embedding, whose results are arbitrary inputs here, nor the list of operations that `add` returns.
- MemoryStore.Memory.Perform: a failing operation is modelled as having no effect, since the store and the history are only written after everything that can fail; history writes are taken not to fail, and timestamps and hashes of records are not modelled.
- OrchestratorLock.AtMostOneHolder: does not model a `kill` probe that is refused for lack of permission, which the source takes for a dead process, nor a crash between creating the file and writing it.
- Rollback: directories are modelled only under stack/addons; symbolic links and the time in the snapshot marker are not.
- EnvIdempotence.IdempotentIff: is exact without a section header; with one, MergeIsIdempotent gives a sufficient condition.
- HygieneProperties.DuplicateIff and its companions assume distinct ids, which the memory service provides.
- Hygiene: scores are exact reals, and an age in days is compared in milliseconds.
- ContextBudget.AllocationsAddUp: percentages are exact, where the source floors floating-point products, which may differ from them by one token; `parseBudgetString` and the markdown formatting are left out.
- ContextBudget.AssembleContext: abstracts and contents that are not strings are not modelled.
- The HTTP servers and clients, payload validation, audit log, request counters, HMAC computation, Docker, scheduling, the setup wizard and the user interfaces: input and output without an invariant to keep.
