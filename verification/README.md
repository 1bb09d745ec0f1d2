# Verified model of the chat gateway core

The gateway accepts OpenAI-style requests, forwards them to M365 ChatHub and streams the answers
back. This project models the parts of it whose correctness spans many calls, in Dafny, and proves
what they promise. `dafny verify dfyconfig.toml` checks everything.

Conversations (`Messages`, `ToolState`, `ContextBudget`, `SlidingWindow`, `ConversationSafety`,
`WindowSafety`, `WindowContents`, `Reatomise`, `SessionContext`, `SessionResolver`, `AgentLedger`). A conversation is cut into atoms
that must not be torn: a system run, a tool call with its results, a single message. One local
relation, `ContextBudget.Glued`, says when two neighbours belong to one atom, and every use of
atoms rests on it: the token window, the resumption of a cached conversation, the cut of stored
history. The central results are that the window keeps the tool-call protocol for every budget,
exactly when results stand directly behind their calls, and that it is the best choice there is.
`ToolState.AcceptsIsProtocol` ties the running checker to the protocol stated without a state.

Protocols (`AccountConcurrency`, `Persist`, `SingleFlight`, `Responses`). Each region under a lock
is one atomic step of a transition system with one program counter for each thread. The invariants hold
in every interleaving. Where a class holds the fields, its methods are the bodies of the lock
regions, and their contracts name the functions that the transition system steps with.

Scheduling (`AuthCache`, `Failover`, `Circuit`, `AccountHealth`). Round robin, the circuit breaker
and the cooldown maps, over every history of events with a clock that does not go back.

Streams (`ChatStream`, `PublicIdentity`, `IdentityCuts`, `EveryFragmentation`). Deltas and snapshots
become one text. The identity filter gives the same text for every fragmentation, if and only if no
sentence that its buffer limit can cut is an identity statement, nor what is left of it.

Where the code does not keep a tempting promise, the code is modelled as it is, and a lemma says
exactly when the promise holds or shows an input that breaks it:

- tool results parted from their call by another message are separate atoms, and the window may
  then keep a result without its call: `WindowSafety.WindowSafeIff`, shown by
  `WindowSafety.WindowBreaksParted`;
- the explicit and the suffix match report a history length that no atom boundary was checked
  for: `SessionContext.ForwardedByLengthAccepted`, shown by `SessionResolver.SuffixMatchOrphans` and
  `SessionResolver.ExplicitMatchOrphans`;
- the window overruns the budget in one case: `SlidingWindow.WindowFits`,
  `SlidingWindow.FallbackIff`, shown by `WindowSafety.LongAnswerOverruns`;
- a turn of 512 messages or more is not stored whole: `SessionContext.StoreTurn`;
- a snapshot that overlaps the stream only partly is appended without retracting anything, and a
  final text may diverge: `ChatStream.SnapshotReachedIff`, `ChatStream.DeliveredIsReturnedIff`,
  shown by `ChatStream.RewritesShow`;
- a retry hint above 292 years wraps, and is then honoured only if the wrapped product is at least
  30 min; it may give a cooldown in the past or one below a second: `AccountHealth.HintCooldown`;
- a later failure may shorten a cooldown: `AccountHealth.FailureShortensIff`,
  `AccountHealth.LaterFailureShortensIff`, shown by `AccountHealth.LaterFailureShortens`;
- sixteen probes are not enough for more than sixteen accounts: `Failover.SeventeenthIsMissed`;
- an upsert found by email may give two accounts one id: `AuthCache.UpsertKeepsIdsUniqueIff`,
  shown by `AuthCache.UpsertDuplicates`;
- an unfinished sentence of more than 1024 bytes leaves the identity filter unsanitised:
  `EveryFragmentation.EveryFragmentationIff` for all fragmentations of a text,
  `IdentityCuts.CutShowsIff` for one stream, shown by `IdentityCuts.RawTextShows`.

Functions the code takes from libraries or from data (the token counter, lower-casing of roles,
rendering of content, the identity patterns, notice recognition) are parameters, so every theorem
holds for all of them. `Messages.Sound` asks of role normalisation only that it leaves the five
protocol roles alone. Times and durations are integers in nanoseconds.

A conversation is called tidy (`ConversationSafety.Tidy`) when its roles are the five known ones
in exact form and each tool result stands in the run directly behind its calling message.

## Model

| member | source | states |
|---|---|---|
| Messages.EstimateMessageTokens | internal/web/context_budget.go:32-48 | the estimate is 4 plus the counts of role, name, call id, content and every call, and the floor of one never applies |
| Messages.MessagesEqual | internal/web/session_resolver.go:395-432 | session-key equality: same role, same rendered content, both or neither with a call list, same calls in order by name and arguments |
| Messages.SameMessageIff | internal/web/session_resolver.go:393-432 | that equality is equality of what the key sees: role, text, and the names and arguments of the calls, if there is a call list |
| Messages.ClassifyIs | internal/web/context_budget.go:66-117 | the class by the normalised role and the presence of calls; an unknown role counts as a user |
| Messages.SameMessageSameClass | internal/web/session_resolver.go:393-432 | messages equal for the session key fall into the same atomiser class although ids and encodings are ignored |
| ToolState.ValidateToolConversation | internal/web/tool_state.go:8-50 | returns nil exactly on the accepted conversations and otherwise the first fault, with its index or id |
| ToolState.RunMeaning | internal/web/tool_state.go:12-44 | the running maps exist exactly while the protocol holds, and are the announced ids without the answered ones and the answered ids |
| ToolState.AcceptsIsProtocol | internal/web/tool_state.go:8-50 | acceptance is: a proper first role, ids non-empty and never reused, every result after its call and at most once, no assistant turn while a call is open, every call answered |
| ContextBudget.NextAtom | internal/web/context_budget.go:66-117 | one turn of the atomiser takes exactly the maximal glued run that starts at its index |
| ContextBudget.BuildAtoms | internal/web/context_budget.go:62-134 | the loops compute the maximal glued runs with their tokens, and mark the first user atom as the anchor |
| ContextBudget.AtomsPartition | internal/web/context_budget.go:62-134 | atoms are contiguous, non-empty, cover the input in order, and their tokens add up to those of the messages |
| ContextBudget.BoundaryIsAtomEnd | internal/web/context_budget.go:62-134 | an index ends an atom exactly when its two neighbours are not glued |
| ConversationSafety.JoinedIff | internal/web/context_budget.go:66-117 | no boundary only inside a system run, between a call and its results, and between results, told by role |
| ContextBudget.AtomsSplit | internal/web/session_resolver.go:377-389 | cutting at an atom boundary cuts the atom list in two and changes no atom |
| ContextBudget.AtomAlone | internal/web/context_budget.go:62-134 | an atom atomised on its own is itself |
| SlidingWindow.PinAtoms | internal/web/context_budget.go:170-201 | the pinned set is the system atoms, the trailing tool atoms and the anchor, with their weight and the overhead |
| SlidingWindow.FillBudget | internal/web/context_budget.go:202-215 | the backward loop computes the greedy choice of the free atoms |
| SlidingWindow.SlideWindow | internal/web/context_budget.go:154-238 | the whole function: empty input, untouched input, pinned overflow, greedy window and last-atom fallback |
| SlidingWindow.KeptIsOptimal | internal/web/context_budget.go:170-215 | the kept atoms fit, contain the pinned ones and, compared from the newest atom backwards, beat every other such choice |
| SlidingWindow.KeptIsMaximal | internal/web/context_budget.go:202-215 | no dropped atom would still fit |
| SlidingWindow.WindowErrs | internal/web/context_budget.go:154-201 | an error exactly when the pinned atoms with the overhead exceed the effective budget |
| WindowContents.WindowErrsIff | internal/web/context_budget.go:154-201 | the same from the messages: an error exactly when every system message, the first user message and the trailing run of calls and results, with 7 tokens, exceed the budget, 1024 where none is given |
| WindowContents.WindowKeepsMust | internal/web/context_budget.go:170-238 | without an error the output is a selection of the messages in order that contains all of those |
| WindowContents.WindowKeepsTask | internal/web/context_budget.go:180-238 | so no system message and not the first user message is lost, and the output ends with the whole running task |
| WindowContents.PinnedIff | internal/web/context_budget.go:170-201 | an atom is pinned exactly if each of its messages must be kept |
| SlidingWindow.WindowFits | internal/web/context_budget.go:154-238 | without an error the output fits the budget exactly unless there is room for the overhead, nothing is pinned and no atom fits by itself |
| SlidingWindow.FallbackIff | internal/web/context_budget.go:217-238 | the selection is empty and the last atom is sent exactly when there is room for the overhead, nothing is pinned and no atom fits by itself |
| SlidingWindow.FallbackAlone | internal/web/context_budget.go:225-236 | the fallback atom is one plain assistant message, and windowing it again returns it |
| SlidingWindow.WindowStable | internal/web/context_budget.go:154-238 | windowing the output again succeeds and returns the same messages |
| ConversationSafety.SuffixAccepted | internal/web/context_budget.go:87-113 | the rest of an accepted tidy conversation is accepted by itself exactly when it does not open with a tool result |
| ConversationSafety.ChoiceAccepted | internal/web/context_budget.go:217-224 | any choice of atoms of an accepted tidy conversation is accepted and tidy again |
| ConversationSafety.DroppingAtomsIsSafeIff | internal/web/context_budget.go:87-113 | among accepted conversations with exact roles every choice of atoms is accepted if and only if results stand in the run behind their call |
| ConversationSafety.WindowKeepsProtocol | internal/web/context_budget.go:154-238 | whatever the window returns for an accepted tidy conversation is accepted: no orphan result, no open call, no bad first role |
| WindowSafety.WindowSafeIff | internal/web/context_budget.go:154-238 | among accepted conversations with exact roles every budget gives an accepted window if and only if every result stands in the run behind its call |
| WindowSafety.WindowBreaksParted | internal/web/context_budget.go:87-113 | an accepted conversation with a parted result that a budget of 1024 tokens, one for each character, turns into a rejected one |
| WindowSafety.NothingPinnedIff | internal/web/context_budget.go:170-201 | nothing is pinned exactly in a conversation of assistant and tool messages that closes with a plain assistant message |
| WindowSafety.LongAnswerOverruns | internal/web/context_budget.go:225-236 | one assistant message of 2020 tokens is sent on a budget of 1024 |
| Reatomise.ReatomiseChoice | internal/web/context_budget.go:62-134 | atomising a choice of atoms finds those atoms again, with adjacent system runs merged |
| SessionContext.ContextPrefixLen | internal/web/session_resolver.go:367-391 | returns the history length exactly when the history is non-empty, matches and ends on an atom boundary, else 0 |
| SessionContext.ResumeIsSafe | internal/web/session_resolver.go:364-391 | at a resumption point the atoms of the whole are those of the parts, and the rest of an accepted tidy conversation is accepted by itself |
| SessionContext.SameBoundaries | internal/web/session_resolver.go:367-391 | the stored history has the same atom boundaries as the prefix it stands for |
| SessionContext.CutIndex | internal/web/session_resolver.go:602-616 | the backward loop finds the start of the longest suffix of whole atoms with at most 512 messages, or of the last atom |
| SessionContext.CloneMessages | internal/web/session_resolver.go:590-620 | short histories are copied, longer ones cut to that suffix |
| SessionContext.LongestSuffixUnique | internal/web/session_resolver.go:602-616 | that suffix is unique |
| SessionContext.StoredHistoryAccepted | internal/web/session_resolver.go:590-620 | the stored suffix of an accepted tidy conversation is accepted and tidy |
| SessionContext.StoreTurn | internal/web/server.go:2796-2806 | cloning, adding the answer and cloning again stores a turn whole exactly when it has fewer than 512 messages, and what is stored ends with the answer |
| SessionContext.TurnIs | internal/web/server.go:2800-2805 | a turn is what was asked followed by one assistant message with the text of the answer |
| SessionContext.NextTurnResumes | internal/web/session_resolver.go:367-391 | a client that replays the last turn and its answer resumes exactly there, whatever follows |
| SessionContext.ForwardedByPrefixAccepted | internal/web/server.go:1678-1771 | validate, window, resume by prefix: what is forwarded is an accepted conversation for every body, budget and history |
| SessionContext.ForwardedByLengthAccepted | internal/web/session_resolver.go:231-278 | with a history length that was not checked, what is forwarded is accepted exactly when it does not open with a tool result |
| SessionResolver.ExplicitKeyInjective | internal/web/session_resolver.go:622 | tenant and id can be read back from the index key |
| SessionResolver.ExplicitFindsIt | internal/web/session_resolver.go:514-527 | in consistent tables a live binding is what its explicit id leads to, and no two bindings of a tenant share an id |
| SessionResolver.DropKeepsConsistent | internal/web/session_resolver.go:163-177 | deleting the index entry without looking where it leads takes it from no other binding |
| SessionResolver.ReindexKeepsConsistentIff | internal/web/session_resolver.go:125-139 | writing a binding keeps the tables consistent if and only if no other live binding holds its explicit id |
| SessionResolver.Resolver.Evict | internal/web/session_resolver.go:141-161 | nothing expired stays, at most 1000 bindings stay, and what else goes was used no later than anything that stays |
| SessionResolver.Resolver.MatchContext | internal/web/session_resolver.go:336-362 | for every order of the map, a binding maximal in matched length and then last use among those of the same tenant and client within the time limit |
| SessionResolver.SuffixMatchLen | internal/web/session_resolver.go:317-331 | the length of the longest common suffix |
| SessionResolver.Resolver.MatchSuffix | internal/web/session_resolver.go:284-315 | the same maximality for common suffixes of at least two messages |
| SessionResolver.Resolver.Resolve | internal/web/session_resolver.go:216-282 | explicit id before longest prefix before longest suffix; the reused binding belongs to the tenant and is marked as used, and nothing else changes after eviction |
| SessionResolver.Resolver.Bind | internal/web/session_resolver.go:434-504 | the whole new state: which binding is updated or made, what it holds, all others unchanged, tables consistent, at most 1001 bindings |
| SessionResolver.Resolver.Lookup | internal/web/session_resolver.go:512-527 | finds exactly the bindings of the asking tenant by session id or explicit id, and nothing without a tenant |
| SessionResolver.Resolver.DeleteSession | internal/web/session_resolver.go:554-564 | drops exactly the binding that the tenant's lookup finds, with its index entry |
| SessionResolver.Resolver.UnbindByConversation | internal/web/session_resolver.go:569-588 | removes exactly the bindings of the conversation and returns how many |
| SessionResolver.ExplicitWins | internal/web/session_resolver.go:226-248 | an explicit id that a live binding of the tenant has decides alone |
| SessionResolver.ResumableIsReused | internal/web/session_resolver.go:253-272 | unless the explicit id leads somewhere, a history that the request replays is never passed over for a shorter one or for an equal one used earlier, among those of the same tenant and client within the time limit |
| SessionResolver.SuffixIsReused | internal/web/session_resolver.go:265-315 | where no history is replayed whole, the longest common suffix of at least two messages is reused, the most recently used among equals |
| SessionResolver.OtherClientStartsAnew | internal/web/session_resolver.go:302-305 | a request from another client of the same tenant reuses nothing, whatever it says |
| SessionResolver.ReuseIsSafe | internal/web/session_resolver.go:253-278 | a content match stays within tenant, client and time limit; after a prefix match the rest is accepted by itself; a suffix match happens only without a prefix match |
| SessionResolver.SuffixMatchOrphans | internal/web/session_resolver.go:265-278 | tables and a tidy accepted request for which the suffix match is chosen and what is forwarded opens with an orphan result |
| SessionResolver.ExplicitMatchOrphans | internal/web/session_resolver.go:231-248 | the same for the explicit match, which reports the length of whatever is stored |
| SessionResolver.LoadRestores | internal/web/session_resolver.go:95-123 | written in any order and read back, consistent tables give consistent tables with exactly the unexpired bindings |
| AgentLedger.BuildAgentLedger | internal/web/agent_ledger.go:69-126 | pending, completed and rounds of the calls in order; the repetition flags are facts about how often a call or failure occurs, and the signature is that of the newest repetition |
| AgentLedger.FlagsMean | internal/web/agent_ledger.go:95-123 | a repeated call is two entries with the same name and arguments, a repeated failure two failed ones that also agree in the normalised text, and stuck is three of either |
| AgentLedger.EntriesFit | internal/web/agent_ledger.go:69-93 | under the protocol the entries are the announced calls in order, each with its own name and arguments and the result and failure of the message that answers it |
| AgentLedger.VerdictIs | internal/web/agent_ledger.go:189-206 | what stops a turn, in order: the round limit, a loop, a repeated failure, missing results |
| AgentLedger.LedgerNamesRepetition | internal/web/agent_ledger.go:95-123 | the signature is set exactly when a repetition is reported, and names a call or failure that occurs at least twice |
| AgentLedger.SignatureIs | internal/web/agent_ledger.go:99-120 | the signature is the name and arguments of the newest call that was made before, with its normalised failure if that occurred before as well |
| AgentLedger.ActiveMessages | internal/web/agent_ledger.go:219-230 | the suffix from the last user message, or everything |
| AgentLedger.ScanFits | internal/web/agent_ledger.go:69-101 | under the protocol the notes hold the announced ids in order, each with the name and arguments of its call and the result and failure of the message that answers it |
| AgentLedger.LedgerOfAccepted | internal/web/agent_ledger.go:69-126 | for an accepted conversation there is one round for each call, and nothing is pending exactly when every result says something |
| AgentLedger.ActiveTurnMayContinue | internal/web/agent_ledger.go:189-206 | the active turn of an accepted tidy conversation may continue if and only if it is below the round limit, no call occurs three times, no failure twice and every result says something |
| AgentLedger.TurnMayContinueIff | internal/web/agent_ledger.go:189-206 | the same by the fields of the calls and their answers |
| AccountConcurrency.Semaphore.TryAcquire | internal/web/account_concurrency.go:48-56 | the lock region of Acquire: a slot below the limit, else the channel generation to wait for |
| AccountConcurrency.Semaphore.Release | internal/web/account_concurrency.go:57-67 | the lock region of the release: one slot back, no zero entry, a new generation |
| AccountConcurrency.Semaphore.Available | internal/web/account_concurrency.go:32-39 | true exactly below the limit, or without an account |
| AccountConcurrency.StepKeepsCounts | internal/web/account_concurrency.go:41-73 | every step keeps the in-flight count equal to the outstanding acquires, within the limit and never stored as zero |
| AccountConcurrency.Reachable | internal/web/account_concurrency.go:41-73 | in every interleaving: counts are exact and bounded, and a caller blocked on the current generation waits for an account at its limit |
| AccountConcurrency.CallerCanAcquire | internal/web/account_concurrency.go:41-73 | from every reachable state a waiting caller gets a slot within three steps |
| AccountConcurrency.ReleaseWakesAll | internal/web/account_concurrency.go:57-67 | a release enables the wake-up of every blocked caller |
| Persist.PersistStore.TakePending | internal/web/persist.go:28-34 | the first region of a pending flush, which the step of the same name takes |
| Persist.PersistStore.MarkDirty | internal/web/persist.go:20-25 | the flag is set and the store is known to the loop |
| Persist.PersistStore.FlushPending | internal/web/persist.go:27-43 | an undisturbed call writes only when dirty, and sets the flag again when the write fails |
| Persist.FlushPendingIsRun | internal/web/persist.go:27-43 | the undisturbed call is a run of its thread with the effect the method states |
| Persist.PersistStore.FlushNowBlocking | internal/web/persist.go:45-58 | an undisturbed call writes in any case, and the flag is set exactly when the write failed |
| Persist.FlushNowIsRun | internal/web/persist.go:45-58 | the undisturbed call is a run of its thread with the effect the method states |
| Persist.StepKeepsLock | internal/web/persist.go:27-58 | writes exclude each other, a snapshot is never older than the disk, and the disk never goes back |
| Persist.StepKeepsOwing | internal/web/persist.go:20-58 | after every step, memory newer than disk means the flag is set or a thread still owes the write or the flag |
| Persist.Reachable | internal/web/persist.go:20-58 | in every interleaving with failing writes no update is lost and disk versions never go backwards |
| Persist.QuiescentCanSave | internal/web/persist.go:27-43 | at rest unsaved memory is flagged in a registered store, and one undisturbed flush saves it |
| SingleFlight.StepKeepsInv | internal/auth/cache.go:487-539 | the inductive invariant of callers, flights and map entries |
| SingleFlight.OneLeader | internal/auth/cache.go:487-539 | in every reachable state at most one caller refreshes an account |
| SingleFlight.ClosedOnceAfterResult | internal/auth/cache.go:503-536 | the channel a leader closes is open and its result is set |
| SingleFlight.SameOutcome | internal/auth/cache.go:487-539 | every caller of a flight returns what its leader stored |
| SingleFlight.QuiescentIsEmpty | internal/auth/cache.go:487-539 | when all callers have returned the in-flight map is empty |
| SingleFlight.FollowerCanReturn | internal/auth/cache.go:487-539 | from every reachable state the leader alone can finish, and then the follower returns its result |
| AuthCache.Store.Upsert | internal/auth/cache.go:337-385 | the list is merged at the first account with the id or email, else extended, and that entry is returned |
| AuthCache.Store.Next | internal/auth/cache.go:433-443 | round robin over the list, also after the list has shrunk |
| AuthCache.Store.CheckValid | internal/auth/cache.go:445-485 | the first account the id answers to is used as it is exactly with more life left than the threshold, else refreshed exactly with a refresh token, else marked as expired in the list and in the answer |
| AuthCache.FoundIsMarked | internal/auth/cache.go:470-480 | with unique ids the account that was found is the one marked as expired |
| AuthCache.UpsertKeepsIdsUniqueIff | internal/auth/cache.go:337-385 | ids stay unique exactly when no other account than the one updated has the new id |
| AuthCache.UpsertDuplicates | internal/auth/cache.go:337-385 | two accounts, and a token of the second with the email of the first, after which both have one id |
| AuthCache.UpsertKeepsSettings | internal/auth/cache.go:337-385 | an upsert loses neither operator settings nor a refresh token that the answer left out |
| AuthCache.UpsertStoresToken | internal/auth/cache.go:337-385 | the first account with the id or the non-empty email, else a new one, gets the new token, expiry and identity; all others stay |
| AuthCache.ThresholdIs | internal/auth/cache.go:460-471 | a token is used up to 120 s, or a tenth of its life if that is less, before it ends |
| Failover.ProbesCover | internal/auth/cache.go:433-443 | as many consecutive probes as accounts meet every account, from any index |
| Failover.Server.NextHealthyAccount | internal/web/server.go:1128-1143 | the first eligible account in round-robin order; for at most 16 accounts none is reported exactly when none but the avoided one is available |
| Failover.Server.ResolveAccount | internal/web/server.go:1076-1123 | the preferred account first, else the first eligible one of 17 probes; for at most 17 accounts, when the preferred one is not usable, it refuses exactly when none is available; the reason is that of the last probe |
| Failover.SeventeenthIsMissed | internal/web/server.go:1128-1143 | with more than 16 accounts the one behind the sixteen probes may be the only eligible one |
| Responses.ResponseStore.Consume | internal/web/protocol_handlers.go:346-409 | either the parent is continuable and is marked, or nothing changes and the rejection names the reason |
| Responses.ResponseStore.Store | internal/web/protocol_handlers.go:475-497 | expired nodes go, a full bucket loses one oldest node, the new node enters, all else stays |
| Responses.StepKeepsInv | internal/web/protocol_handlers.go:346-497 | the inductive invariant of buckets, requests and history |
| Responses.ContinuedAtMostOnce | internal/web/protocol_handlers.go:346-409 | two requests that continued the same response are one request |
| Responses.OneChild | internal/web/protocol_handlers.go:475-497 | no two nodes ever stored share a non-empty parent |
| Responses.AncestorPrefix | internal/web/protocol_handlers.go:346-497 | along a chain a descendant's history extends its ancestor's, within one tenant and session |
| Responses.BucketsInBounds | internal/web/protocol_handlers.go:475-497 | at most 256 nodes in a bucket, each with the history it was stored with and consumed exactly when continued |
| Responses.NamespaceSeparates | internal/web/protocol_handlers.go:21-25 | two requests share a bucket only within one session of one tenant, whatever the session is called |
| Responses.ContinuationIsScoped | internal/web/protocol_handlers.go:346-409 | a continuation reads the history of its own tenant and session even if bucket keys collide, gives outputs exactly if some are pending, and its tool outputs are distinct and answer calls of the parent's last message |
| Responses.AnswerStores | internal/web/protocol_handlers.go:452-497 | a stored node holds the history with the answer, the ids of the calls of the answer as pending, and is not consumed |
| Responses.AnswerMayBeContinued | internal/web/protocol_handlers.go:346-409 | the next request of the tenant and session may continue it with outputs for pending calls, or without if none is pending |
| Responses.StoreKeepsYoung | internal/web/protocol_handlers.go:480-496 | nodes older than an hour go, younger ones stay but for one oldest of 256 or more |
| Circuit.GlobalCircuit.Record | internal/web/account_health.go:337-389 | the new counters, window and deadline as a function of the old ones |
| Circuit.GlobalCircuit.IsOpen | internal/web/account_health.go:311-322 | open exactly before the deadline |
| Circuit.GlobalCircuit.Reset | internal/web/account_health.go:395-402 | back to the state of a new circuit |
| Circuit.HistoryKeepsInv | internal/web/account_health.go:337-389 | over every history with a forward clock the counters are those of the last outcomes inside the window |
| Circuit.OpenOnlyWhenJustified | internal/web/account_health.go:301-389 | failures never exceed the total nor the total 1000; open only within 30 s after an outcome that completed ten or more within 30 s, half of them failures; uncounted errors cannot keep it open |
| Circuit.FreshWindowCounts | internal/web/account_health.go:337-389 | inside one window the counters count every outcome |
| Circuit.FreshWindowOpensIff | internal/web/account_health.go:337-389 | inside one window the circuit has opened if and only if at some point ten outcomes were in and half had failed |
| Circuit.FreshWindowDeadline | internal/web/account_health.go:337-389 | and stays open until 30 s after the last such point |
| AccountHealth.BackoffIsMonotone | internal/web/account_health.go:241-262 | without a hint the quota cooldown doubles from 30 s, is monotone in attempts and saturates at 30 min |
| AccountHealth.BackoffAdvances | internal/web/account_health.go:699-715 | over histories the n-th quota failure in a row without a hint cools down for 30 s times 2 to the n-1, at most 30 min; a success, an ended cooldown and a metering throttle start the row again |
| AccountHealth.RowAdvances | internal/web/account_health.go:699-715 | the same for a row of failures after any history |
| AccountHealth.ThreeInARow | internal/web/account_health.go:699-715 | failures at 0 s, 10 s and 20 s cool down until 30 s, 70 s and 140 s |
| AccountHealth.CountedFaults | internal/web/account_health.go:355-368 | exactly six transport categories count for the breaker |
| AccountHealth.HintCooldown | internal/web/account_health.go:241-262 | a hint is honoured, up to 30 min, exactly when its 64-bit product fits or wraps to at least 30 min; two hints that are not |
| AccountHealth.AccountPool.MarkFailure | internal/web/account_health.go:642-761 | breaker and account change as the category demands, other accounts do not |
| AccountHealth.FailureMarks | internal/web/account_health.go:642-761 | which categories blame the account, limit it, leave its marks or take them away, and the reason kept |
| AccountHealth.ImageLimitLasts | internal/web/account_health.go:495-504 | an image limit keeps the account out for a day, if nothing else happens |
| AccountHealth.ImageLimitedIff | internal/web/account_health.go:506-521 | an account counts as image-limited until the limit or the cooldown has passed |
| AccountHealth.SuccessMarks | internal/web/account_health.go:763-794 | a success takes every mark away but a running image limit |
| AccountHealth.EndedMarks | internal/web/account_health.go:442-463 | a look takes every mark away if the cooldown has ended, and none before |
| AccountHealth.AccountPool.MarkSuccess | internal/web/account_health.go:763-794 | breaker and account recover, other accounts do not change |
| AccountHealth.AccountPool.MarkImageLimited | internal/web/account_health.go:495-504 | the image limit and its cooldown for this account only |
| AccountHealth.AccountPool.ImageLimited | internal/web/account_health.go:506-521 | the answer, after an expired limit was removed |
| AccountHealth.AccountPool.Cleanup | internal/web/account_health.go:442-463 | an ended cooldown takes all its marks with it |
| AccountHealth.AccountPool.Available | internal/web/account_health.go:796-810 | the answer, for the closed circuit and the cleaned-up account |
| AccountHealth.HistoryRecoverable | internal/web/account_health.go:642-810 | over every history each mark that keeps an account out has a cooldown, which ends within 365 days of its marking |
| AccountHealth.AvailableIff | internal/web/account_health.go:796-810 | in every history an account is available exactly when the circuit is closed and no cooldown is running |
| AccountHealth.EveryAccountRecovers | internal/web/account_health.go:442-463 | at the latest a year after its last event an account is available once the circuit is closed |
| AccountHealth.SuccessRestores | internal/web/account_health.go:763-794 | after any history a success makes the account available at every later time but during an image limit that was running, so a day later at the latest |
| AccountHealth.FailureShortensIff | internal/web/account_health.go:642-761 | a failure shortens a running cooldown exactly when its category sets one and the span of that category ends earlier |
| AccountHealth.LaterFailureShortensIff | internal/web/account_health.go:642-761 | after any history a failure lets an account back in earlier exactly then |
| AccountHealth.LaterFailureShortens | internal/web/account_health.go:651-656 | a banned account that meets a 422 is back after five seconds |
| ChatStream.CommonPrefixLen | internal/chathub/client.go:173-184 | the length of the longest common prefix |
| ChatStream.Receiver.EmitDelta | internal/chathub/client.go:556-579 | nothing is streamed for a cancelled request, and otherwise a delta is streamed and delivered even when the consumer fails on it, so the deliveries are always the streamed text |
| ChatStream.Receiver.EmitSnapshot | internal/chathub/client.go:622-657 | the part of the snapshot that is not streamed yet is added, a notice is only recognised before any text |
| ChatStream.Receiver.Receive | internal/chathub/client.go:867-884 | one frame adds what is not streamed yet, deliveries stay equal to the stream, and errors come exactly from notices, a cancelled request and a failing consumer |
| ChatStream.Receiver.Complete | internal/chathub/client.go:1086-1122 | the answer and the last delivery, exactly what ends it otherwise, and that the delivered text differs from the returned one exactly on a diverging longer final text |
| ChatStream.OutcomeMeans | internal/chathub/client.go:1086-1122 | an answer is never empty, a notice or blocked, and is refused as offensive exactly when its text could be delivered and is flagged or blocked |
| ChatStream.StreamIsText | internal/chathub/client.go:622-657 | on appends, earlier states and extensions of one growing text the stream is that text after every frame |
| ChatStream.CompleteIsText | internal/chathub/client.go:1171-1186 | and the delivered text is the returned one, the longer of stream and final text |
| ChatStream.DeliveredIsReturnedIff | internal/chathub/client.go:1171-1186 | for any stream they differ exactly when the final text is longer and does not extend what was streamed |
| ChatStream.SnapshotReachedIff | internal/chathub/client.go:643-657 | a snapshot ends up as a prefix of the stream exactly when one extended the other |
| ChatStream.RewritesShow | internal/chathub/client.go:643-657 | a final text that is not delivered, and a snapshot that garbles the stream |
| PublicIdentity.RuneStep | internal/web/public_identity.go:252-262 | the rune loop sees a stop exactly where the last three bytes end one, also in ill-formed UTF-8, and passes over none |
| PublicIdentity.EndsIff | internal/web/public_identity.go:252-262 | the seven stops, byte by byte |
| PublicIdentity.Sanitize | internal/web/public_identity.go:244-271 | citation markers are stripped, then the sentences are sanitised in turn with the carried state |
| PublicIdentity.SanitizeSentences | internal/web/public_identity.go:249-267 | the rune loop is the fold over the sentences |
| PublicIdentity.SentenceBecomes | internal/web/public_identity.go:273-305 | a sentence that any of the four patterns matches becomes the answer in its language between its indentation and its line break, or nothing after the first time; any other stays |
| PublicIdentity.IdentifiedIff | internal/web/public_identity.go:244-276 | the sanitiser reports an identity statement exactly if some sentence matches one of the four patterns |
| PublicIdentity.FoldSplit | internal/web/public_identity.go:244-271 | a text may be sanitised in two parts at any sentence end |
| PublicIdentity.UntouchedUnlessIdentified | internal/web/public_identity.go:273-276 | a text without an identity statement is returned as it is |
| PublicIdentity.AnsweredOnce | internal/web/public_identity.go:284-286 | once written, the identity sentence is not written again |
| PublicIdentity.LastBoundary | internal/web/public_identity.go:506-514 | the last sentence end |
| PublicIdentity.StreamFilter.Push | internal/web/public_identity.go:403-412 | one step of the stream filter, and the identity when the policy is off |
| PublicIdentity.StreamFilter.Consume | internal/web/public_identity.go:433-454 | sanitised up to the last sentence end, or waits, or cuts an overlong buffer at a rune start |
| PublicIdentity.PushOfUnfinished | internal/web/public_identity.go:443-453 | an unfinished sentence waits up to 1024 bytes or while it identifies itself; a longer one is put out up to the last rune start that leaves 256 bytes |
| PublicIdentity.StreamFilter.Flush | internal/web/public_identity.go:414-426 | the rest is sanitised and nothing stays pending |
| PublicIdentity.FragmentationDoesNotMatter | internal/web/public_identity.go:403-454 | for every fragmentation in which no unfinished sentence is cut, output and carried state are those of the whole-text sanitiser |
| PublicIdentity.CalmIsUnhurried | internal/web/public_identity.go:443-446 | if no stretch of the text without a stop is overlong then no fragmentation cuts a sentence |
| PublicIdentity.NeutralPasses | internal/web/public_identity.go:403-454 | a text with no identity statement passes unchanged in every fragmentation, overlong sentences included |
| EveryFragmentation.EveryFragmentationIff | internal/web/public_identity.go:403-454 | every way of splitting a text gives the whole-text output and state if and only if no sentence that the buffer limit can cut, nor what is left of it behind the cut, is an identity statement |
| EveryFragmentation.HarmlessAgrees | internal/web/public_identity.go:403-454 | the sufficient half, without any assumption on the answers: every stream, however many sentences it cuts |
| EveryFragmentation.CutDecides | internal/web/public_identity.go:433-454 | for every cut that the limit allows, a fragmentation that makes it and agrees exactly if it is harmless |
| IdentityCuts.CutShowsIff | internal/web/public_identity.go:433-454 | a stream that cuts one sentence, once or more often, and goes on, agrees with the whole-text sanitiser exactly when neither that sentence nor what is left of it behind the cut is an identity statement |
| IdentityCuts.FirstCutShowsIff | internal/web/public_identity.go:433-454 | the same for a stream that ends with the first push that cuts |
| IdentityCuts.RawTextIff | internal/web/public_identity.go:443-453 | the same for one push of an unfinished text |
| IdentityCuts.RawTextShows | internal/web/public_identity.go:443-453 | a policy and the text of 1025 bytes of which 769 are put out raw |

## Left out

- HTTP handlers, server-sent events, WebSocket dialling, OAuth, image generation and the web console: input and output.
- Regular expressions, phrase lists, tokeniser tables, hashing, encryption and JSON: parameters or opaque values.
- Configuration, passwords, usage statistics, model catalogue and the MCP queue: only easy members.
- Rendering of the forwarded messages into one prompt (`flattenPromptMessages`, internal/web/context_budget.go:136-151), and the rule that an empty incremental prompt is not used.
- The indices by user field, client fingerprint and context fingerprint (internal/web/session_resolver.go:130-138, 168-176): written and deleted, never read.
- Two bindings of one tenant may hold the same conversation id; nothing is claimed about that.
- Bind: one time stands for the two clock readings of a call, and a random id is a parameter that is only known to be non-empty.
- Evict: the library sort is a selection of the least recently used binding; the order of ties is open, as in the source.
- LoadRestores: about the list of bindings; the file and its encoding are not part of the model, nor is a file edited by hand.
- SingleFlight as a class: the transition system is on values, with the shared map and the flights as its state; the refresh itself is one arbitrary outcome.
- CheckValid: the decision of `EnsureValid` and the mark it writes; the refresh it starts is the subject of `SingleFlight`.
- Upsert: saving to disk and the error it may return.
- ResolveAccount: availability and token validity are stable during one selection, and a requested account is passed on without selection.
- The error text, the earliest recovery time and the retry hint of a refusal.
- MarkFailure: the error category is its input; the matching of error strings is not modelled.
- Throttling and metering snapshots of an account (internal/web/account_health.go:558-631): stored and returned only.
- BuildAgentLedger: the digest of a result, its failure test and the printed arguments are parameters; the text shown to the router is left out.
- Complete: the patterns of the content filter are a parameter, and errors that the completion frame itself reports are left out.
- EveryFragmentationIff: as for CutDecides and CutShowsIff, the direction from agreement to harmlessness holds for replacements shorter than what was put out raw before them and shorter than what they replace (`Terse`).
- Receive: the parsing of frames; a frame is either a cursor fragment or a text.
- Streamed `/v1/responses` requests never store a node, so only the buffered path is modelled.
- Sanitize: the choice of the identity sentence is by language only; its wording for the configured model is a parameter.
- The reasoning filter (internal/web/public_identity.go:456-504): a simpler filter of the same shape without carried state.
- FragmentationDoesNotMatter: texts with citation markers, which may be split by fragments, are excluded.
