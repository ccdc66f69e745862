# Verified model of the swarm's coordination, editing and memory core

Alpha-swarm is a daemon that lets language models work on code repositories: several daemons share a queue of goals
through leases in a NATS key-value bucket, models answer with edit blocks that are applied to a workspace and checked,
what was learned is kept in a memory table with a search index beside it, and requests are spread over inference hosts.
This project models the parts of it where a mistake is subtle and proves what they guarantee, for every input and every
run. Where the code does not keep a promise, the exact condition under which it does is proved, with the failing case.

`dafny verify dfyconfig.toml` checks everything. Modules, by component:

- **Leases and slots** (`LeaseProtocol`, `LeaseRecovery`, `Scheduler`, `PollSteps`, `Decimal`). The protocol is a step system: every
  request to the bucket is one atomic step of one actor (a poller, then a run with its heartbeat, then a finished run
  whose heartbeat is not aborted yet), and pollers, heartbeats, completions, crashes, panics, boots, lost replies and the
  clock interleave freely. The slot cap may differ at every poll. The scheduler's methods, the poll loop, the heartbeat,
  the completion and the boot purge are imperative code over the bucket, and each is proved to be a run of the step
  system. `PollSteps` takes the poll loop one request at a time, with anybody else's steps in between.
  `LeaseRecovery` is about the keys nobody gives back.
- **Code-graph search** (`Neighbors`, `LayeredSearch`). The queue algorithm is proved equal to a layer-by-layer
  definition, and that definition to shortest undirected walks, for any depth; the exported operation caps it at 4.
- **Edit pipeline** (`Text`, `Splitting`, `EditParser`, `AgentBlocks`, `EditRoundTrip`, `ParserPanics`, `AutoWrap`, `FuzzyEdit`, `AgentMatcher`,
  `Replay`, `GraphExecutor`). Block scanner and parsers, the printer they undo, the responses that stop them, the wrapper
  for bare answers, the three-tier matcher, the agent's older matcher, and the bounded check/fix loop over a workspace
  of files.
- **Memory and search index** (`MemoryIndex`, `MemorySearch`, `MemoryStore`). The table is authoritative; a dense and a
  sparse index mirror it under one string id per row. Histories of stores, touches and decays, with refused insertions
  and interrupted decays.
- **Inference router** (`Router`, `RoundRobin`, `Loads`, `RouterRuns`, `Arithmetic`). Ordering by load, the round-robin
  cursor with its machine width, and overlapping requests as a step system.
- **Codecs and arithmetic** (`Frontmatter`, `KnowledgeSync`, `Base64`, `ContextSize`).

What the proofs found about the code:

- The protocol is safe in every interleaving exactly when (tolerated lost renewals in a row + 1) times the renewal
  interval is below the TTL. With 120 s and 600 s that is three lost renewals; with four, one task can run twice.
- After the boot purge every run that follows is safe exactly when nobody held anything. A daemon that boots beside
  another daemon's live run lets that run's task and slot be taken again; beside a poller or a run that is being
  released, the leftover purge takes a later owner's lease. The purge also counts purges that failed.
- A key is certain to be free within the TTL of its last put exactly when every actor that names it is idle: a released
  heartbeat that cannot put it any later, or a poller none of whose remaining slots is free, held by a live run, or
  expires while the poller and its lease last. A run whose task panics never reaches the releases or the heartbeat's
  abort, so its slot and its lease can both stay taken with nothing running, and its task unclaimed, for as long as the
  daemon lives.
- A create whose reply is lost leaves its key behind. The poller then passes over the task, or takes a second slot, and
  the key stays until its TTL.
- `parse_edit_block` stops with a slice out of range exactly when "--- NEW" comes before "--- OLD"; a response stops the
  parser exactly when such a block is reached. An edit with its halves swapped is one, for any path.
- Among prose that opens no block itself, a '<' right before a block loses that block and all after it. A wrapped answer
  is cut at its first ">>>" and loses trailing whitespace. The last branch of `parse_actions` that tries an unknown block
  as an edit can never yield one. A string field of an AGENT block is cut at its first quote, escaped or not.
- With a blank OLD block the agent's matcher puts NEW in front of the file, while `fuzzy_replace` refuses.
- The line tiers drop a final newline, so a file that ends in a blank line loses it, and a carriage return before a
  line's end.
- Index ids keep rows apart exactly when no scope's "namespace:project:" is a prefix of another's; colon-free names are
  enough. A row with an empty namespace is never evicted and never rebuilt. A refused insertion leaves its row out of
  the dense index; a decay whose second deletion fails returns before any eviction, so what its first deletion removed
  stays in the index. Apart from such leftovers a search only shows rows of the table with their present content.
- A store writes its times as text into a table without a schema, and decay compares them with datetimes. So a stored
  row that is not used lives forever, or goes with the first decay if it is little used or has a lifetime, depending only
  on whether the database orders text before datetimes.
- The over-fetched pool can hide the only match behind eight rows of other projects; up to eight times `k` rows it never
  does.
- Round-robin shares are fair forever exactly when the number of hosts divides 2^64; otherwise they are fair until the
  cursor wraps.
- Exported files are named by key alone, so rows whose slugs agree overwrite each other, in particular one key in two
  projects. A row that is gone is imported again exactly when no later row was written to its file.
- The token estimate is truncated to 32 bits before it is compared with the ceiling. A ceiling covers prompts of any
  length exactly when it is at most 4096.

Inputs the code takes from outside are parameters: which requests fail (`down`, `ok`, replies), what the models answer
and whether checks pass (functions of the attempt), what the vector database accepts, the embedder's answer, similarity,
clock readings, whether the database orders text before datetimes, the order in which a directory or a table is read, and Unicode's alphanumeric test. Text is a sequence
of characters. Slices at byte positions and at character positions agree because every position is an occurrence of an
ASCII marker.

## Model

| member | source | states |
|---|---|---|
| `LeaseProtocol.StepKeeps` | crates/events/src/scheduler.rs:104-166 | every atomic step, heartbeats that fire after the release included, keeps: nobody shares a key with another owner, every owner's keys are present, and none is older than its lost renewals explain |
| `LeaseProtocol.RunKeeps` | crates/agent-daemon/src/main.rs:395-438 | the same over every interleaving of any length |
| `LeaseProtocol.InvIsSafe` | crates/agent-daemon/src/resources.rs:145-162 | then live runs have pairwise different slots and leases, hold both their keys, and number at most max(1, max_concurrent_runs), however the cap varied |
| `LeaseProtocol.SafetyIff` | crates/events/src/scheduler.rs:77-81 | all interleavings are safe if and only if period * (tolerated + 1) < TTL; when not, some interleaving runs one task twice in one slot |
| `LeaseProtocol.SourceToleratesThree` | crates/agent-daemon/src/main.rs:600-612 | for any period from the 120 s of sleep up to 150 s, the two requests included, the condition is: at most three lost renewals in a row |
| `LeaseProtocol.SharingReachable` | crates/agent-daemon/src/main.rs:600-612 | the run that shares a task and a slot, built step by step, for every configuration that renews too slowly |
| `LeaseRecovery.BootIff` | crates/agent-daemon/src/main.rs:215-225 | after a boot that purges every key, all runs that follow are safe if and only if nobody owned a key: no live run, no poller, no run being released |
| `LeaseRecovery.BootBesideLiveRunShares` | crates/agent-daemon/src/main.rs:215-225 | after a boot beside a live run, a second daemon can take that run's very task and slot |
| `LeaseRecovery.BootFreesEverything` | crates/agent-daemon/src/main.rs:215-225 | after a boot with nothing held, any task can be claimed in any slot without waiting |
| `LeaseRecovery.OrphanIsFreed` | crates/events/src/scheduler.rs:77-81 | from every reachable state, a key no poller, run or heartbeat can name any more is free at some point within 600 s of its last put, along every run |
| `LeaseRecovery.KeyFreedIff` | crates/events/src/scheduler.rs:77-81 | in any state, every run that lasts until the TTL of a key's last put finds the key free if and only if every actor that names it is idle |
| `LeaseRecovery.LeaseFreedIff` | crates/events/src/scheduler.rs:104-166 | for a task's lease: if and only if every run, half-finished release and heartbeat with it is a released heartbeat that cannot put it later, and no poller with it can come to hold a slot: none of its remaining slots is free, held by a live run, or expires while the poller's time and its lease last |
| `LeaseRecovery.SlotFreedIff` | crates/events/src/scheduler.rs:290-322 | for a slot: if and only if all that have it are released heartbeats that cannot put it later |
| `LeaseRecovery.SlotFreedIffOrphan` | crates/agent-daemon/src/main.rs:600-630 | once time has passed since a slot's last put: if and only if nobody names it |
| `LeaseRecovery.SpentIsNoOrphan` | crates/agent-daemon/src/main.rs:626-630 | at the very time of the last put the two differ: a heartbeat whose abort is due names the slot, which is freed all the same |
| `LeaseRecovery.PollerKeeps` | crates/agent-daemon/src/main.rs:407-438 | a poller that can come to hold a slot can keep its lease for any time |
| `LeaseRecovery.HeartbeatKeeps` | crates/agent-daemon/src/main.rs:600-612 | any heartbeat that is not yet released can keep both its keys for any time while every other actor retires, whatever they were doing |
| `LeaseRecovery.PanickedKeysStayTaken` | crates/agent-daemon/src/main.rs:596-630 | from any state, after the panic of any live run there are runs of any duration in which its slot and its lease are both taken at every step and in the end nothing is live |
| `LeaseRecovery.KeptIsUnclaimed` | crates/events/src/scheduler.rs:104-124 | while a lease stays in the bucket no poller gets its task |
| `LeaseRecovery.PanicReachable` | crates/agent-daemon/src/main.rs:596-630 | any task in any slot can come to panic |
| `LeaseProtocol.SlotKeysDiffer` | crates/events/src/scheduler.rs:290-303 | different slots have different keys, by injectivity of decimal printing |
| `Scheduler.NatsScheduler.TryClaim` | crates/events/src/scheduler.rs:104-124 | claims exactly when the create goes through and its reply arrives; a lost reply leaves the key without a claim; nothing else is written |
| `Scheduler.NatsScheduler.ReleaseLease` | crates/events/src/scheduler.rs:127-132 | removes exactly that key unless the purge fails |
| `Scheduler.NatsScheduler.RenewLease` | crates/events/src/scheduler.rs:155-166 | a renewal re-creates the key even after it was purged |
| `Scheduler.NatsScheduler.TryAcquireExecutionSlot` | crates/events/src/scheduler.rs:290-303 | takes the lowest slot that can be taken, none only if none can, with at least one slot tried; below it only creates with lost replies leave keys |
| `Scheduler.SlotsCreatedKeep` | crates/events/src/scheduler.rs:290-303 | the scan leaves every key that was there as it was, and adds keys of slots only |
| `Scheduler.NatsScheduler.ReleaseExecutionSlot` | crates/events/src/scheduler.rs:306-311 | removes exactly that slot's key unless the purge fails |
| `Scheduler.NatsScheduler.RenewExecutionSlot` | crates/events/src/scheduler.rs:314-322 | a blind put of the slot's key |
| `Scheduler.NatsScheduler.ReleaseAllLeases` | crates/events/src/scheduler.rs:134-152 | leaves exactly the keys whose purge or listing failed; without the key list it fails and leaves all; the count includes failed purges |
| `Scheduler.PollRound` | crates/agent-daemon/src/main.rs:407-438 | the poll loop computes the round function: claim, take a slot or give the claim back and stop |
| `Scheduler.PollIsProtocolRun` | crates/agent-daemon/src/main.rs:407-438 | a whole round that is not disturbed, with one set of failing requests, refines the step system and adds exactly the spawned tasks as live runs |
| `Scheduler.PollRespectsCap` | crates/agent-daemon/src/main.rs:400-424 | live runs plus newly spawned ones fit the cap, and no slot or task is given out twice or taken from a live run |
| `Scheduler.PollTouchesOnlySpawned` | crates/agent-daemon/src/main.rs:407-438 | whatever requests fail, every key that was there stays as it was, what is spawned has its keys, and any other new key is due to a lost reply or a failed purge |
| `PollSteps.InterleavedIsProtocolRun` | crates/agent-daemon/src/main.rs:407-438 | a round request by request, each failing or losing its reply on its own, with any steps of others and of the clock in between, is a run of the step system |
| `PollSteps.InterleavedIsSafe` | crates/agent-daemon/src/main.rs:407-438 | so every state on the way is safe |
| `PollSteps.SpawnedIsAlone` | crates/agent-daemon/src/main.rs:419-438 | what such a round spawns is at that moment a live run whose slot and lease no other live run has |
| `PollSteps.AloneIsPoll` | crates/agent-daemon/src/main.rs:407-438 | without others the requests add up to the poll loop: same spawned tasks, same bucket |
| `Scheduler.Heartbeat` | crates/agent-daemon/src/main.rs:604-611 | one round of the heartbeat puts both keys, the second whatever became of the first |
| `Scheduler.HeartbeatIsProtocolRun` | crates/agent-daemon/src/main.rs:604-611 | with any failing requests it is two steps of the protocol if and only if an owner loses no renewal beyond the tolerated number; for a large enough tolerance always |
| `Scheduler.Complete` | crates/agent-daemon/src/main.rs:620-627 | the end of a run purges the slot, then the lease, whatever became of the first |
| `Scheduler.CompletionIsProtocolRun` | crates/agent-daemon/src/main.rs:620-630 | with the abort it is three steps of the protocol and leaves the other actors alone |
| `Scheduler.BootIsProtocolRun` | crates/agent-daemon/src/main.rs:215-225 | when nobody owns a key the boot purge, with any failing requests, is the protocol's boot step |
| `Neighbors.Neighbors` | crates/knowledge-base/src/graph.rs:93-128 | the queue algorithm returns the reference answer at the capped depth |
| `Neighbors.Search` | crates/knowledge-base/src/graph.rs:107-127 | the same for any depth, terminating by nodes not yet seen plus queue |
| `Neighbors.Visit` | crates/knowledge-base/src/graph.rs:114-125 | one node's links, first discoveries in order, each trading an unseen node for a queue entry |
| `Neighbors.BuildAdjacency` | crates/knowledge-base/src/graph.rs:101-106 | every relation is entered at both endpoints in order; blank endpoints drop it |
| `Neighbors.BfsCorrect` | crates/knowledge-base/src/graph.rs:93-128 | the answer is exactly the nodes at shortest undirected distance 1 to depth, each once, in non-decreasing hop order, with the true distance and the kind of an edge to a node one hop closer |
| `Neighbors.FoundIffDistance` | crates/knowledge-base/src/graph.rs:107-127 | b is listed at h hops if and only if its distance is h and within the depth |
| `Neighbors.FoundSymmetric` | crates/knowledge-base/src/graph.rs:101-106 | b is found from a at h hops if and only if a is found from b at h hops |
| `Neighbors.DeeperAppends` | crates/knowledge-base/src/graph.rs:107-127 | the answer at a smaller depth is a prefix of the answer at a larger one |
| `EditParser.ParseEdits` | crates/edit-parser/src/lib.rs:55-82 | the scanning loop returns what its blocks mean: all edits of the closed blocks, then what the unclosed rest yields, or the first failure |
| `EditParser.ParseActions` | crates/edit-parser/src/lib.rs:85-131 | the same for the action scanner, AGENT fields included |
| `EditParser.FindBlock` | crates/edit-parser/src/lib.rs:58-80 | the search in the loop finds exactly the next block of the rest of the response, and goes on right after it |
| `EditParser.NextBlock` | crates/edit-parser/src/lib.rs:59-66 | a closed block uses up at least six characters, so both scanners end |
| `EditParser.ActionsAgreeWithEdits` | crates/edit-parser/src/lib.rs:55-131 | what the edit parser accepts the action parser accepts, with the same edits in the same order if and only if nothing was salvaged from an unclosed block |
| `EditParser.EditActionsAreEdits` | crates/edit-parser/src/lib.rs:85-131 | whatever other blocks a response has, the edits among its actions are those of its edit blocks, in order: the last branch never adds one |
| `AgentBlocks.FieldIff` | crates/edit-parser/src/lib.rs:133-146 | where its name occurs first, a string field reads back if and only if its value has no quote |
| `AgentBlocks.ListIff` | crates/edit-parser/src/lib.rs:148-160 | where its name occurs first, a list of strings reads back if and only if no item is empty, has a comma or a closing bracket, or begins or ends with a quote |
| `AgentBlocks.ListIsGood` | crates/edit-parser/src/lib.rs:148-160 | from any body a list yields only such items |
| `EditRoundTrip.RoundTripIff` | crates/edit-parser/src/lib.rs:55-82 | a document of printed edits, with prose that opens no block, parses back to exactly those edits if and only if every edit is well formed and no prose before a block ends in '<' |
| `EditRoundTrip.EditsAreWellFormed` | crates/edit-parser/src/lib.rs:162-196 | the parser yields only well-formed edits, from any response |
| `EditRoundTrip.ReprintIsStable` | crates/edit-parser/src/lib.rs:55-82 | what any response parses to, printed and parsed again, is the same list |
| `EditRoundTrip.ProseIff` | crates/edit-parser/src/lib.rs:58-66 | for well-formed edits and any such prose: all are found in order if and only if no prose before a block ends in '<' |
| `ParserPanics.PanicIff` | crates/edit-parser/src/lib.rs:183-196 | the slice panics if and only if both markers are there and the first NEW precedes the first OLD |
| `ParserPanics.BlocksPanicIff` | crates/edit-parser/src/lib.rs:58-74 | a list of blocks stops the parser if and only if one is an EDIT block out of order and all before it parse |
| `ParserPanics.ResponsePanicIff` | crates/edit-parser/src/lib.rs:55-82 | the same for whole responses, the unclosed tail included |
| `ParserPanics.SwappedHalvesPanic` | crates/edit-parser/src/lib.rs:183-196 | for any path, the response with one edit whose halves are swapped stops the parser |
| `AutoWrap.AutoWrapIff` | crates/agent-core/src/agent.rs:49-75 | nothing is wrapped if and only if the answer is empty, has "<<<", reads as conversation or no file is missing; otherwise the answer is written out whole if and only if it makes a well-formed CREATE of the first missing file |
| `AutoWrap.WrapResult` | crates/agent-core/src/agent.rs:49-75 | for a target that is a trimmed single line without ">>>" the wrapper parses to one CREATE, of the answer up to its first ">>>" without trailing whitespace |
| `AutoWrap.WrapIsFaithfulIff` | crates/agent-core/src/agent.rs:67-70 | for any target and answer: it comes back whole if and only if the target is such a line and the answer has no ">>>" and does not end in whitespace |
| `FuzzyEdit.ExactTier` | crates/agent-core/src/code_utils.rs:36-49 | content is a leftmost non-overlapping split around OLD with at least one occurrence; the result is the same pieces around NEW, and its length is content + n * (NEW - OLD) |
| `Splitting.SplitIsUnique` | crates/agent-core/src/code_utils.rs:36-49 | that split is the only one, so the pieces are determined by content and OLD |
| `FuzzyEdit.ReplaceBySelf` | crates/agent-core/src/code_utils.rs:36-49 | replacing OLD by itself is the identity on normalized content |
| `FuzzyEdit.LineTiers` | crates/agent-core/src/code_utils.rs:51-77 | past the exact tier: None if and only if no window of lines matches after whitespace collapse, otherwise the first such window is replaced and all other lines stay |
| `FuzzyEdit.PositionIsFindStart` | crates/agent-core/src/code_utils.rs:51-66 | the single-line branch is the multi-line search at width one |
| `FuzzyEdit.EditedLines` | crates/agent-core/src/code_utils.rs:66-77 | for any content the lines of the written text are exactly the lines before, NEW's lines and the lines after, stripped of a final '\r' each, but for one final blank line |
| `AgentMatcher.SearchWindow` | crates/agent-core/src/agent.rs:930-960 | the nested loops find the first window that matches after trimming |
| `AgentMatcher.ApplyEdit` | crates/agent-core/src/agent.rs:909-981 | the agent's matcher: first exact occurrence, else the first trimmed window |
| `AgentMatcher.FuzzyCoversAgent` | crates/agent-core/src/code_utils.rs:47-77 | for non-blank OLD `fuzzy_replace` succeeds wherever the agent's matcher applies the edit, and its line window starts no later |
| `AgentMatcher.CoverIff` | crates/agent-core/src/agent.rs:909-981 | that holds for all contents if and only if OLD is not blank |
| `AgentMatcher.BlankOldPrepends` | crates/agent-core/src/agent.rs:909-925 | for blank OLD one matcher puts NEW in front and the other refuses |
| `AgentMatcher.SameOnSingleOccurrence` | crates/agent-core/src/agent.rs:909-925 | where OLD occurs once, both write the same text |
| `GraphExecutor.Executor.ApplyEdits` | crates/orchestrator/src/graph.rs:186-205 | edits apply in order until the first error, and what was written before it stays |
| `GraphExecutor.Executor.ApplyResponse` | crates/orchestrator/src/graph.rs:180-184 | an answer that does not parse contributes no edits |
| `GraphExecutor.Executor.CheckAndFix` | crates/orchestrator/src/graph.rs:219-262 | the retry loop ends exactly as the loop specification: workspace, result, every workspace checked, number of fix calls |
| `GraphExecutor.Executor.Execute` | crates/orchestrator/src/graph.rs:113-146 | on success the workspace is the initial one with exactly the returned edits replayed; passed means the last check passed on that workspace, escalated that every allowed check failed; at most max_retries checks and one fix call fewer |
| `GraphExecutor.Executor.ExecuteDoc` | crates/orchestrator/src/graph.rs:148-167 | a rewrite that lost too many lines is refused before anything is written; otherwise as above, never escalated |
| `GraphExecutor.AnyTruncated` | crates/orchestrator/src/graph.rs:81-86 | refuses if and only if some CREATE has under 60% of the lines of an original of at least 20 |
| `GraphExecutor.OthersUntouched` | crates/orchestrator/src/graph.rs:186-205 | files no edit names, and files that cannot be written, are left as they were |
| `Replay.LoopReplays` | crates/orchestrator/src/graph.rs:219-262 | on every outcome the workspace is the fix answers' edits replayed, and the returned list is the first edits followed by exactly those |
| `Replay.LoopVerdict` | crates/orchestrator/src/graph.rs:219-262 | escalated = false only if the last check passed, on the workspace returned; true only if all allowed checks failed |
| `Replay.LoopEffort` | crates/orchestrator/src/graph.rs:219-262 | at most max_retries checks and max_retries - 1 fix calls |
| `Replay.TaskReplays` | crates/orchestrator/src/graph.rs:113-146 | replaying the whole returned list on the initial workspace gives the final one |
| `MemoryIndex.CollideIff` | crates/knowledge-base/src/memory.rs:102-104 | two scopes have rows with a common id if and only if one's "ns:project:" is a prefix of the other's |
| `MemoryIndex.ColonFree` | crates/knowledge-base/src/memory.rs:102-104 | without ':' in namespaces and projects ids keep rows apart, whatever the keys contain |
| `MemoryIndex.HistoryMirrors` | crates/knowledge-base/src/memory.rs:60-99 | after any history of stores, touches and decays, refused insertions and interrupted decays included, the dense index is exactly the rows whose latest insertion went through, with their latest content, plus what interrupted decays left |
| `MemoryIndex.CoherentIffCaughtUp` | crates/knowledge-base/src/rvindex.rs:121-134 | table, dense and sparse index agree if and only if no row's latest insertion was refused and no entry outlived its row |
| `MemoryIndex.InterruptionIff` | crates/knowledge-base/src/memory.rs:378-386 | a decay that fails between its two deletions takes table and indexes apart if and only if the first deletion removed something |
| `MemoryIndex.AlwaysCoherentIff` | crates/knowledge-base/src/memory.rs:363-400 | over all histories without failures, and however the database orders text, table and indexes of a set of scopes never come apart if and only if no scope's prefix is a prefix of another's and no namespace is empty |
| `MemoryIndex.RelatedBreaks` | crates/knowledge-base/src/memory.rs:81-91 | for any two related scopes, the two stores after which a row is hidden by another |
| `MemoryIndex.EmptyNamespaceBreaks` | crates/knowledge-base/src/memory.rs:388-397 | a row with an empty namespace that was used once and then pruned stays in the index |
| `MemoryIndex.CoherentIsUnique` | crates/knowledge-base/src/memory.rs:108-128 | a table has at most one coherent pair of indexes |
| `MemoryStore.RvIndex.Insert` | crates/knowledge-base/src/rvindex.rs:121-134 | replace by id; a refused entry is gone from the dense index while the sparse one keeps the old text |
| `MemoryStore.RvIndex.Delete` | crates/knowledge-base/src/rvindex.rs:136-143 | removes the id from both |
| `MemoryStore.UntouchedRowIff` | crates/knowledge-base/src/memory.rs:363-386 | after any history, a row that was stored, with its times as text, and not used since is there if and only if no decay of its project went by a database that orders text first and found it little used or with a ttl; its times do not matter |
| `MemoryStore.StoredRowSurvivesIff` | crates/knowledge-base/src/memory.rs:60-70 | a stored row survives everything within the stale period, uses included, if and only if the database does not order text first, or the row has no ttl and is a trajectory or used at least twice |
| `MemoryStore.MemoryStore.Store` | crates/knowledge-base/src/memory.rs:60-99 | upserts by namespace, project and key and mirrors the row; a missing embedding or a failed write changes nothing, a refused insertion does not fail it |
| `MemoryStore.MemoryStore.Decay` | crates/knowledge-base/src/memory.rs:363-400 | the two deletions and the evictions, the error after the first deletion included, are one step of the history, and the count is the rows pruned |
| `MemoryStore.MemoryStore.RebuildIndex` | crates/knowledge-base/src/memory.rs:108-128 | inserts the rows with an embedding and a namespace in the order they are read, and counts those that were not refused |
| `MemoryStore.LastInsertionDecides` | crates/knowledge-base/src/memory.rs:108-128 | in any order, with colliding ids and refusals: the last row read under an id decides what the dense index has under it |
| `MemoryStore.MemoryStore.SearchInner` | crates/knowledge-base/src/memory.rs:165-201 | returns the similar enough hits and bumps the usage of exactly those rows |
| `MemoryStore.TouchingKeepsMirrors` | crates/knowledge-base/src/memory.rs:309-317 | bumping usage never disturbs what the index mirrors |
| `MemoryStore.RebuildRestores` | crates/knowledge-base/src/memory.rs:106-128 | after any history, in any order of rows, a rebuild of a fresh index without refusals gives coherent indexes; when nothing in the history was refused or interrupted, exactly those it left |
| `MemoryStore.Restart` | crates/agent-daemon/src/main.rs:275-285 | a boot with a fresh index and the table a history left does just that |
| `MemorySearch.SearchAgainstBruteForce` | crates/knowledge-base/src/rvindex.rs:147-154 | the result is a prefix of the brute-force ranking of matching rows, and its full top k if and only if the pool holds enough matches; always when the index is no larger than the pool |
| `MemorySearch.PoolTooSmall` | crates/knowledge-base/src/rvindex.rs:147-154 | an index in which the only matching row is missed |
| `MemorySearch.AnswersAreRows` | crates/knowledge-base/src/rvindex.rs:204-233 | whatever was refused or interrupted, hits are rows of the table with their present content and the similarity of their present embedding, or leftovers of interrupted decays; all in scope and similar enough |
| `MemorySearch.AnswersAreComplete` | crates/knowledge-base/src/memory.rs:165-201 | with coherent indexes within the pool, a row in scope whose present embedding is similar enough is missing only if k rows at least as similar are shown |
| `Router.InferenceRouter.OrderByLoad` | crates/inference-client/src/router.rs:144-159 | stable sort by load, then the tied leaders rotated by the cursor, which moves only if two or more are tied |
| `Router.OrderIsBalanced` | crates/inference-client/src/router.rs:144-159 | the order is a load-sorted permutation of the candidates whose first host is the cursor's choice among the least-loaded ones |
| `Router.SortIsStableSort` | crates/inference-client/src/router.rs:146-146 | the sort keeps equally loaded hosts in their order |
| `Router.InferenceRouter.TryHosts` | crates/inference-client/src/router.rs:221-234 | hosts are tried in order up to the first that answers, and every counter is back where it was |
| `Router.InferenceRouter.Chat` | crates/inference-client/src/router.rs:216-234 | without an answer every host was tried exactly as often as it is listed before falling back |
| `Router.InferenceRouter.Serve` | crates/inference-client/src/router.rs:216-234 | m requests in a row, each answered at the first attempt, are served by exactly the hosts the next two rows count |
| `Router.SequentialShare` | crates/inference-client/src/router.rs:152-156 | m sequential requests over k equally loaded hosts: each serves the floor or the ceiling of m / k, until the cursor wraps, or always if k divides 2^64 |
| `Router.ShareForeverIff` | crates/inference-client/src/router.rs:152-156 | from every cursor and for any number of requests each host serves its fair share if and only if k divides 2^64 |
| `RoundRobin.FairForeverIff` | crates/inference-client/src/router.rs:154-154 | the cursor is fair over all runs if and only if k divides 2^64 |
| `RoundRobin.WrapIsUnfair` | crates/inference-client/src/router.rs:154-154 | for every other k, the run around the wrap in which position 0 is served twice too early |
| `Router.ArrivalsStayWithinOne` | crates/inference-client/src/router.rs:144-159 | requests that arrive and do not finish keep loads within one of each other, are all counted, and touch no other host |
| `RouterRuns.CountersAreGuards` | crates/inference-client/src/router.rs:25-38 | in every reachable state of overlapping requests each counter is the number of live guards of its host; with none live all are zero |
| `RouterRuns.VisitsAreOrder` | crates/inference-client/src/router.rs:221-234 | along every run of overlapping requests, the hosts a request has entered since it came in are the first ones of its order |
| `RouterRuns.GivesUpAfterAll` | crates/inference-client/src/router.rs:221-234 | along every run, a failed request gives up if and only if it has entered every host it was given, each as often as listed; no guard is dropped below zero |
| `RouterRuns.ArrivesAtLeastLoaded` | crates/inference-client/src/router.rs:144-159 | an arriving request enters a host that is least loaded at that moment |
| `Frontmatter.RoundTripIff` | crates/agent-daemon/src/knowledge_sync.rs:102-108 | key, project and use count come back exactly if and only if key and project are non-empty trimmed single lines; content then comes back up to surrounding whitespace |
| `Frontmatter.RoundTrip` | crates/agent-daemon/src/knowledge_sync.rs:249-264 | the imported row exactly: leading whitespace of the content gone, a newline added |
| `Frontmatter.RoundTrips` | crates/agent-daemon/src/knowledge_sync.rs:202-223 | the same over any number of rounds |
| `Frontmatter.ImportIsClean` | crates/agent-daemon/src/knowledge_sync.rs:249-264 | whatever the file, an imported key and project are non-empty trimmed single lines |
| `KnowledgeSync.KnowledgeDir.Export` | crates/agent-daemon/src/knowledge_sync.rs:95-109 | rows are written in order under the slugs of their keys; later rows overwrite, old files stay |
| `KnowledgeSync.KnowledgeDir.ImportIfEmpty` | crates/agent-daemon/src/knowledge_sync.rs:190-224 | an empty table gets the entries of the listed files that parse, upserted in the order of the listing, and counts them; another table gets nothing |
| `KnowledgeSync.LastEntryWins` | crates/agent-daemon/src/knowledge_sync.rs:202-223 | of files that hold one key and project, the last listed is the row |
| `KnowledgeSync.FoundIff` | crates/agent-daemon/src/knowledge_sync.rs:95-109 | after an export over any directory, the rows that can be read are exactly the last row of each file name and what old files no row names |
| `KnowledgeSync.ImportedExactly` | crates/agent-daemon/src/knowledge_sync.rs:190-224 | in whatever order the directory is listed, the imported table is exactly the last row of each slug |
| `KnowledgeSync.ExportImportIff` | crates/agent-daemon/src/knowledge_sync.rs:38-42 | a table of a namespace comes back, every row and nothing else, if and only if the slugs of its keys differ |
| `KnowledgeSync.TwoProjectsShareAFile` | crates/agent-daemon/src/knowledge_sync.rs:95-109 | of one key in two projects only the second row comes back |
| `KnowledgeSync.SlugForgetsSeparators` | crates/agent-daemon/src/knowledge_sync.rs:38-42 | "a b", "a:b" and "a-b" are one file |
| `KnowledgeSync.GoneRowComesBackIff` | crates/agent-daemon/src/knowledge_sync.rs:95-109 | a row that is gone from the table is imported again from its old file if and only if no row of the later exports has its slug |
| `Decimal.ParsePrint` | crates/agent-daemon/src/knowledge_sync.rs:219-219 | a printed u32 parses back to itself |
| `Base64.Base64Encode` | crates/config/src/lib.rs:704-718 | the loop over three-byte chunks computes the encoding, with the shifts and masks as divisions |
| `Base64.DecodeEncode` | crates/config/src/lib.rs:704-718 | the strict decoder of section 4 of RFC 4648 undoes it for every byte string |
| `Base64.EncodeDecode` | crates/config/src/lib.rs:704-718 | and every text the decoder accepts is the encoding of what it decodes to |
| `Base64.EncodeShape` | crates/config/src/lib.rs:704-718 | length 4 * ceil(n / 3), alphabet digits only, pads only at the end and as many as bytes are missing |
| `Base64.DigitIsTable` | crates/config/src/lib.rs:705-705 | digits are the entries of the source's table |
| `ContextSize.WindowBounds` | crates/inference-client/src/ollama.rs:48-57 | the window lies between min(4096, ceiling) and the ceiling, is the ceiling or a power of two, and for 32-bit estimates covers the need up to the ceiling with less than twice of it |
| `ContextSize.CoversIff` | crates/inference-client/src/ollama.rs:50-55 | a ceiling covers the need of prompts of any length if and only if it is at most 4096; prompts whose estimate fits 32 bits are always covered |
| `ContextSize.WindowGrows` | crates/inference-client/src/ollama.rs:48-57 | monotone in prompt length and ceiling for 32-bit estimates |
| `ContextSize.MonotoneIff` | crates/inference-client/src/ollama.rs:50-50 | over prompts of any length, monotone if and only if the ceiling is at most 4096 |
| `ContextSize.FewSizes` | crates/inference-client/src/ollama.rs:40-46 | one ceiling gives at most 21 different windows |

## Left out

- Scheduler.PollIsProtocolRun: one set of failing requests for the round and nobody else's requests in it; `PollSteps` has both.
- SurrealDB's comparisons beyond the order of text and datetimes: a stored row without a ttl has a null there, and whether the second deletion then fails is part of whether deletions fail.
- Router.InferenceRouter.Chat: a request that runs alone; overlapping ones are in `RouterRuns`, where reading all loads, moving the cursor and entering the first guard are one step.
- Leases without a scheduler, the legacy global and project execution locks, and the watch path that spawns without a slot.
- Submitting, listing and watching tasks, publishing host resources, and the executor behind `handle_task`.
- How `effective_slots` reads memory pressure: the cap is any number between 1 and the configured maximum, chosen anew at every poll.
- NATS, SurrealDB, HTTP and git themselves: a bucket is a map with the time of each entry's last put, and each request is atomic.
- `check_and_fix_multi` as a separate method: it has the control flow of `CheckAndFix` and differs in which files its prompt shows.
- Prompts, the text of check errors, and which command a check runs: checks and answers are functions of the attempt.
- Paths are strings, without directories or links.
- The agent's own writing of CREATE and DELETE edits and its loop over files: only its matcher differs from the executor's.
- `validate_edits`, signature and path helpers of the agent.
- Hybrid search, the HNSW index and similarity arithmetic: the dense ranking is any exact descending list of the entries.
- Tokenizing for the sparse index: it is identified with the text it was built from.
- Failing deletions in the vector database, a failing rebuild query, and an index that was never initialized.
- File errors of an export. A file that cannot be read, or whose row cannot be stored, is one the listing does not have.
- The SurrealDB fallback scan, reranking by effectiveness, and counters wider than the machine's.
- Choosing the model and the hosts that carry it, the preferred-backend attempt, which enters no guard, and the fallback over other backends.
- Trajectories, routing statistics, digests and run transcripts of the export, and its git snapshot.
- How whitespace and letters are classified beyond Unicode's White_Space: alphanumeric is a parameter.
