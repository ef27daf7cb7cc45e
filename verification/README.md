# Verified model of the agent platform

A Dafny model of the durable agent runtime, the text and retrieval algorithms and the small protocols of a
FastAPI/Celery platform, with proofs about them. `dafny verify dfyconfig.toml` checks everything.

## What is modelled

**Agent store and workers.** Each database transaction is one atomic step. `AgentTables` has the rows and what a
transaction does to a row; `EventLog`, `TaskLease`, `Outbox` and `ToolReplay` let any number of processes take such
steps in any order, with crashes between any two, and prove what holds on every run; `ResumeDelivery` joins pause,
resume, outbox, lease and deliveries of one task into one machine; `AgentStore` is the store as an object with its
methods, and the Celery tasks that call it. One monotone clock is assumed. `acquire_task_lease` reads it before it
locks the row, and `release_task_lease` selects the row before it updates it by primary key, so each is two steps.

**Orchestration.** `ResearchLoop` is the budgeted research and repair loop, with the tools, the deadline and the
cancellation flag as oracles; `AgentGraph` is the node graph with its human interrupts. The graph takes any outcome
that the contract of the loop allows.

**Text.** `Tokens` (the token estimate, with the CJK ranges of both its copies), `Sentences`, `HardSplit`, `Packing`,
`Chunker`, `MarkdownBlocks`, `TokenBudget`. `Text` holds string helpers, and `Wrappers` the option type.

**Retrieval.** `Ranking` and `Bm25` over the reals, `Bm25Cache` for the fingerprint of the index cache,
`ParentContext`.

**Protocols and codecs.** `Sse` (server printer, browser decoder), `Frontmatter`, `LeaseSemaphore`, `LlmCache`,
`Compaction`.

A method states its result by a specification function; what the source promises is then proved about that function,
or about the state machine that uses the same function as a step.

## What the proofs found

Where a promise fails, the exact condition under which it holds is proved for all inputs, with an instance beside it.

- **Late release.** `release_task_lease` is a read followed by an update by primary key, under the default isolation.
  If the lease runs out between the two and another worker takes it, the update clears the new lease. Exclusion holds
  on every run without such an update, and every such update can lead to overlapping leases, unless the task is being
  cancelled or is terminal with no run left to save another status (`LeasesNeverOverlap`, `UpdateBreaksExclusionIff`).
- **Resume accepted too early.** A pausing run saves `waiting_user` before it clears the old response and releases its
  lease. A resume accepted in between is published, its delivery is skipped because of the lease, and nothing is left
  that would deliver it; on a second pause the first run also erases the new response. Every resume accepted with no
  run left and no lease in force is taken by the next delivery unless the task is cancelled, and every other one can
  be lost (`SettledResumesAreTaken`, `ResumeIsLostIff`).
- **Crashed run.** A message of a crashed run that is delivered again while that run's own lease is in force is
  skipped. If it was the last one, nothing is left that brings the task to a worker, and it stays live for ever
  (`CrashedRunIsTakenUpIff`, `CanBeTakenUpIff`, `FirstRunIsStranded`).
- **Web searches before their check.** A pass starts all its web searches before the first policy check, so a pass
  that is cut short has executed calls beyond its artifacts, at most its web searches (`ResearchAgent`,
  `PassExecutes`).
- **Pause by the research agent.** Such a pause leaves the status at "running", so `request_resume` refuses it
  (`PauseIsResumableIff`).
- **Blank answer.** When the answer taken from a tool is blank, `_final_response` falls through to the proposal
  template and publishes it unverified (`BlankDraftIff`, `UnverifiedProposalIff`).
- **Last event of a stream.** The generator polls first and reads the status afterwards. An event committed after its
  last poll is never sent, even if it was committed before the terminal status was saved; every earlier one is
  (`DeliveredIff`, `NothingMissedIff`).
- **Overlapping tool calls.** Two executions that both miss a saved result can return different ones, and only such
  two can (`OverlapDisagreesIff`).
- **Overstaying.** A holder that outlives its slot is not counted any more: an acquire breaks the limit exactly when
  all places are taken and a slot is free (`LimitBreaksIff`).
- **Back-off.** The cap of 300 seconds is never reached: the exponent is capped at 8 (`BackoffBounded`).
- **Final chunk.** The duplicate suppression also drops a genuine repetition at the end of a text
  (`EmittedRebuildsIff`, `RepeatedTailIsDropped`).
- **Frontmatter.** Values with a double quote, and empty metadata, do not survive (`RereadIff`,
  `EmptyMetadataNeverRoundTrips`).
- **CR LF.** Line endings are normalised read by read, so exactly the reads that end between CR and LF keep a CR
  (`CutsDoNotMatter`). The server prints no CR, so its own streams are not affected.
- **Index cache.** Count and greatest id identify the rows exactly when no row at or below that id becomes visible
  later (`FingerprintSoundIff`, `EnsureBm25`).
- **Cached responses.** They can be older than their lifetime, but not twice as old, and only in an L1 entry refilled
  from L2 (`OverAgeIff`, `ReturnedIsFreshEnough`).

## Model

| member | source | states |
|---|---|---|
| EventLog.IndicesAreDense | backend/packages/harness/deerflow/store.py:384-413 | In every reachable state of any number of appenders, with stale explicit indices and crashes, the committed indices of a task are 1, 2, ..., n in commit order |
| EventLog.CommitAppendsIff | backend/packages/harness/deerflow/store.py:391-412 | A commit appends the event exactly when the index held is the next one; otherwise it hits the unique constraint and changes nothing |
| EventLog.AppendEvent | backend/packages/harness/deerflow/store.py:384-413 | The retry loop: the event gets the next index at the first attempt that nobody overtakes, and is dropped exactly when all four are overtaken |
| EventLog.ListIsSuffix | backend/packages/harness/deerflow/store.py:415-426 | `list_events(after_index)` is the part of the log after that index, in order |
| EventLog.PollingIsExact | backend/packages/harness/deerflow/store.py:415-426 | A client that polls with its last index as cursor gets every committed event exactly once, in order, however polls and commits interleave |
| EventLog.EventGenerator | backend/app/api/agent.py:198-230 | The SSE generator yields what its round-by-round definition says: committed events first, then pushed ones above the cursor, heartbeats while idle, an end after 120 idle rounds or a terminal status |
| EventLog.YieldsIncrease | backend/app/api/agent.py:198-230 | Whatever Redis pushes, the durable indices yielded are strictly increasing above the client's cursor |
| EventLog.PushedTokens | backend/app/api/agent.py:209-216 | Every pushed token is yielded |
| EventLog.PushedEventIff | backend/app/api/agent.py:217-220 | A pushed durable event is yielded exactly when its index is above the cursor and above all pushed before it |
| EventLog.SilentStreamEnds | backend/app/api/agent.py:201-226 | A silent stream sends one heartbeat a round and ends after 120 |
| EventLog.NoGapWithoutPushes | backend/app/api/agent.py:198-230 | While the pushed stream carries only tokens, the indices yielded are consecutive from the cursor on |
| EventLog.DeliveredCount | backend/app/api/agent.py:198-230 | Over token-only pushes and any growing log, from any cursor the API accepts, negative or ahead of the log too, as many events are yielded as the last poll could see beyond it |
| EventLog.DeliveredIff | backend/app/api/agent.py:190-230 | From any cursor, an event after it reaches the client if and only if it was committed before the last poll: the one that is followed by a terminal status, or by the idle limit |
| EventLog.NothingMissedIff | backend/app/api/agent.py:190-230 | From any cursor, the client gets all it asks for of the log, as it stands in the end, if and only if nothing of that was committed after the last poll |
| EventLog.TerminalStatusCanHideLastEvent | backend/app/api/agent.py:221-230 | An instance for any log: the next event, committed between a poll and the terminal status read after it, never arrives |
| TaskLease.LeasesNeverOverlap | backend/packages/harness/deerflow/store.py:323-352 | Over whole runs of any workers, writers, crashes and clock steps, with the clock read before the row lock: granted intervals of different owners never overlap unless a release clears the unexpired lease of another owner, however long workers overrun |
| TaskLease.UpdateBreaksExclusionIff | backend/packages/harness/deerflow/store.py:343-352 | The exact condition before the update: from any state reached undisturbed, the update of a release can lead to overlapping leases if and only if the row names another owner with an unexpired lease, no cancellation is requested, and the status is live or some run has still to save its own |
| TaskLease.TimelyReleasesExclude | backend/packages/harness/deerflow/store.py:343-352 | Releases written within their own lease, which a worker can tell by its clock, keep the exclusion on every run |
| TaskLease.TimelyIsFenced | backend/packages/harness/deerflow/store.py:343-352 | A release written within its lease finds the row still its own, so it disturbs no successor |
| TaskLease.LateReleaseBreaksExclusion | backend/packages/harness/deerflow/store.py:343-352 | An instance from the creation of the task: a late release clears the successor's lease, and a third owner overlaps the second |
| TaskLease.DuplicateStartsNothing | backend/packages/harness/deerflow/store.py:323-334 | On every run, however late releases are, a delivery changes neither the row nor the grants while the row holds an unexpired lease, or when the task is terminal or its cancellation is requested |
| TaskLease.ExpiredLeaseIsFree | backend/packages/harness/deerflow/store.py:323-341 | A live task whose lease has run out is granted to the next delivery |
| TaskLease.GrantLasts | backend/packages/harness/deerflow/store.py:323-341 | A granted lease lasts `ttl` seconds from the clock that was read, and at least 30: until then no other owner gets the row, and from then on every one does |
| TaskLease.NothingElseIsGranted | backend/packages/harness/deerflow/store.py:323-341 | On every run nothing else is granted before those seconds are over, unless the owner releases or another release disturbs the lease |
| TaskLease.StartedOnce | backend/packages/harness/deerflow/store.py:335-339 | The start from which the deadline counts is set by the first grant and never changes |
| Outbox.NothingIsLost | backend/packages/harness/deerflow/store.py:200-309 | In every reachable state: one outbox row per accepted create or resume, in order and for that task, every task has one, each row is pending or was published, and a failed row is available again within 256 seconds |
| Outbox.SameKeySameTask | backend/packages/harness/deerflow/store.py:136-223 | Two racing creates with one idempotency key that both got a task got the same one, for the same user; a refusal for the key goes to another user only |
| Outbox.ListedIff | backend/packages/harness/deerflow/store.py:354-364 | A row is listed exactly when it is not dispatched, available by now and preceded by fewer than `limit` such rows; the list is in id order |
| Outbox.FirstOfIs | backend/app/api/agent.py:86-95 | The API publishes the first listed row of its own task, if there is one |
| Outbox.AnswersAreRight | backend/packages/harness/deerflow/store.py:136-223 | In every reachable state each answer of `create_task` is borne out: a task of the user who asked, or a key or session of another user |
| Outbox.IdentitiesLast | backend/packages/harness/deerflow/store.py:136-223 | On every run a task keeps its user, a key its task and a session its user |
| Outbox.EverythingCanStillBeDelivered | backend/app/tasks/agent_runtime.py:106-119 | From every reachable state, whatever crashed, repeated runs of one dispatcher's own loop with any limit, all but the last of them full, publish and mark every row, starting within 256 seconds |
| AgentTables.BackoffBounded | backend/packages/harness/deerflow/store.py:375-382 | The back-off is between 1 and 256 seconds: its cap of 300 is never reached |
| AgentTables.BackoffDoubles | backend/packages/harness/deerflow/store.py:375-382 | The delay doubles with every attempt, from 2 seconds to 256 at the eighth, and stays there |
| AgentStore.AgentRuntimeStore.CreateTask | backend/packages/harness/deerflow/store.py:112-223 | Task, key, session and outbox row are written together or not at all, and which answer is given in each case |
| AgentStore.AgentRuntimeStore.SaveTaskState | backend/packages/harness/deerflow/store.py:243-269 | The status is overwritten whoever holds the lease; nothing else of the row changes |
| AgentStore.AgentRuntimeStore.RequestCancel | backend/packages/harness/deerflow/store.py:271-279 | Accepted exactly for the user's own task that has not ended; only the cancellation mark changes |
| AgentStore.AgentRuntimeStore.RequestResume | backend/packages/harness/deerflow/store.py:281-309 | Accepted exactly for the user's own waiting task; the response, the status and a new outbox row are written together |
| AgentStore.AgentRuntimeStore.AcquireTaskLease | backend/packages/harness/deerflow/store.py:323-341 | Granted exactly when the row is acquirable at the given time; the new row, and no change otherwise |
| AgentStore.AgentRuntimeStore.ReleaseTaskLease | backend/packages/harness/deerflow/store.py:343-352 | With nothing written between its two statements it clears the lease of its owner only; for what can come between them see `TaskLease` |
| AgentStore.AgentRuntimeStore.PendingOutbox | backend/packages/harness/deerflow/store.py:354-364 | The loop returns the specified list, with the limit clamped to 1..500 |
| AgentStore.AgentRuntimeStore.MarkOutboxFailed | backend/packages/harness/deerflow/store.py:375-382 | Counts the attempt and moves the availability; the row is never un-pended or un-dispatched |
| AgentStore.DispatchPendingAgentTasks | backend/app/tasks/agent_runtime.py:106-119 | The loop tries each listed row once in order; the new table, the messages sent and both counters |
| AgentStore.AfterDispatchAt | backend/app/tasks/agent_runtime.py:106-119 | Each listed row is tried exactly once, no other row is touched, and a message goes out exactly for the listed rows whose publish did not raise |
| AgentStore.DispatchLosesNothing | backend/app/tasks/agent_runtime.py:106-119 | After a dispatch run a row is dispatched only if its message went out, and a failed one comes back at most 256 seconds later |
| AgentStore.RunAgentTaskTask | backend/app/tasks/agent_runtime.py:60-103 | One delivery that nobody disturbs: skipped, with nothing changed, exactly when the lease is refused; otherwise the final row and result on every path, with the lease given back |
| AgentStore.DeliveryAfterRun | backend/app/tasks/agent_runtime.py:60-103 | After an undisturbed run another delivery can start exactly when the task has not ended, and after a retryable failure the user's response is still there |
| ResumeDelivery.SettledResumesAreTaken | backend/app/tasks/agent_runtime.py:60-103 | Over all runs of pauses, resumes, cancellations, publishes, deliveries, failures and crashes of one task: if resumes are accepted only when no run is left and no lease is in force, each accepted resume was given to a run, or waits with a message that nothing can refuse, or the task is cancelled |
| ResumeDelivery.NextDeliveryTakes | backend/app/tasks/agent_runtime.py:60-67 | The next delivery of a waiting resume starts a run that is given its response |
| ResumeDelivery.ResumeIsLostIff | backend/packages/harness/deerflow/store.py:281-316 | The exact condition: a resume accepted now can be lost for ever, with no other early one and no later cancellation, if and only if a run is still there, a lease is in force or the task is cancelled already |
| ResumeDelivery.GoneForever | backend/packages/harness/deerflow/store.py:281-316 | A response that no run was given and that nothing is left to deliver is never given to a run later, whatever happens |
| ResumeDelivery.SkippedDeliveryLosesResume | backend/packages/harness/deerflow/runtime.py:1142-1158 | No failure is needed: after the pausing run saved its state and before it releases its lease, a resume is accepted and published, its delivery is skipped, and the run ends as usual |
| ResumeDelivery.FirstResumeIsLost | backend/app/tasks/agent_runtime.py:60-69 | That run from the creation of the task |
| ResumeDelivery.ClearErasesNewResponse | backend/packages/harness/deerflow/store.py:311-316 | A run that was itself given a response erases the new one when it clears its own |
| ResumeDelivery.RefusedForever | backend/packages/harness/deerflow/store.py:328-329 | A resume that no run was given before the cancellation is never given to one |
| ResumeDelivery.CrashedRunIsTakenUpIff | backend/packages/harness/deerflow/store.py:323-341 | For every schedule after a crash: the task is taken up again if and only if a delivery comes after the crashed run's lease has run out, and before a cancellation |
| ResumeDelivery.CanBeTakenUpIff | backend/app/tasks/agent_runtime.py:106-119 | An idle task can still be taken up if and only if it is not cancelled and a message or an unpublished row is left, or it waits for the user |
| ResumeDelivery.StrandedForever | backend/app/tasks/agent_runtime.py:106-119 | Otherwise it keeps its live status for ever, whatever happens |
| ResumeDelivery.OwnLeaseStrandsTask | backend/app/tasks/agent_runtime.py:60-67 | While the crashed run's own lease is in force, all messages that are left can be delivered in vain |
| ResumeDelivery.FirstRunIsStranded | backend/app/tasks/agent_runtime.py:55-67 | The shortest such run: publish, deliver, crash, deliver again before the lease has run out |
| AgentStore.ExecuteManagedTool | backend/packages/harness/deerflow/tool_manager.py:84-131 | The tool is called exactly when no result is saved for the key; the result returned is the saved one afterwards |
| ToolReplay.ExecutionKeyIdentifies | backend/packages/harness/deerflow/tool_manager.py:86-90 | Keys fit 128 characters and are equal exactly for the same call of the same task, across the plain and the hashed form |
| ToolReplay.CallsAreCrashesPlusOne | backend/packages/harness/deerflow/tool_manager.py:84-131 | With crashes anywhere, and no lookup that misses while another worker is past a miss of the same key: handler calls equal the crashes between call and save, plus one if a result is saved or about to be; all returned results are the saved one |
| ToolReplay.SavedIsReplayed | backend/packages/harness/deerflow/tool_manager.py:91-93 | Once a result, success or failure, is saved it stays, the tool is never called again with that key, and later executions return it |
| ToolReplay.HonouredKeysAgree | backend/packages/harness/deerflow/tool_manager.py:94-97 | If the provider honours the key, all executions of a call return the same result under every interleaving |
| ToolReplay.OverlapDisagreesIff | backend/packages/harness/deerflow/tool_manager.py:84-131 | The exact condition: after any run without overlap, a lookup that misses can lead to two different results of its key if and only if another worker is past a miss of that key |
| ToolReplay.OverlapCanDisagree | backend/packages/harness/deerflow/store.py:509-541 | An instance: two overlapping executions return any two results, the second overwriting the saved one |
| ResearchLoop.ResearchAgent | backend/packages/harness/deerflow/runtime.py:526-955 | Terminates for every repair count the planning tool reports. Past the deadline, at the budget or cancelled at entry: no call. Every artifact was checked by a signal that was not cancelled, nor expired below the budget, and at the budget it is a verification; the check that ends a run is named. On a normal exit the artifacts are those of the passes made and the last verification decides; at most one artifact above the maximum; every executed call has its artifact, but for the web searches of a pass that a refused check cuts short, whose number is given |
| ResearchLoop.RunPasses | backend/packages/harness/deerflow/runtime.py:728-932 | The loop: every pass before the last asked for repair within the limit and got tasks; errors arise only from a refused policy check; the calls executed |
| ResearchLoop.RunPass | backend/packages/harness/deerflow/runtime.py:778-887 | One pass starts all its web searches, makes its calls in order until one is refused, and only its final verification may exceed the budget; what it has executed |
| ResearchLoop.CallTools | backend/packages/harness/deerflow/runtime.py:592-625 | A call is made exactly while the task is not cancelled and, below the budget, within the deadline, and at the budget only for a verification; the reason of the first refusal; all calls but the web searches, which only publish their result, are executed here |
| ResearchLoop.GatheringIs | backend/packages/harness/deerflow/runtime.py:739-837 | One call for each source of each task, web searches after the others, local repairs last and only where the local source was chosen |
| ResearchLoop.PassExecutes | backend/packages/harness/deerflow/runtime.py:778-819 | The calls executed when a pass is cut short: those with an artifact, and the web searches of that pass that have none |
| ResearchLoop.PublishedCounts | backend/packages/harness/deerflow/runtime.py:839-889 | `n` passes hold exactly `n` proposals, `n` verifications and `n - 1` repair plans |
| ResearchLoop.PassesBounded | backend/packages/harness/deerflow/runtime.py:903-931 | With a planning tool that counts one up there are at most 3 - `repair_count` passes (one if none is left); with any tool, 3n <= max - base + 2 |
| ResearchLoop.HonestCount | backend/packages/harness/deerflow/runtime.py:919-923 | The repair count after `n` passes of a tool that counts one up |
| ResearchLoop.AdmittedWithin | backend/packages/harness/deerflow/runtime.py:600-604 | Admitted calls keep to the budget, but for the verification that ends a pass |
| AgentGraph.PublicationIsEarned | backend/packages/harness/deerflow/runtime.py:462-481 | Over all runs: research never runs on a plan that requires approval before one; a final response off the answer route needs a passed verification, content and approval; a finished run is completed |
| AgentGraph.ResearchWasApproved | backend/packages/harness/deerflow/runtime.py:462-481 | On the choices alone: whenever research is about to run and the last plan required approval, the human has answered "approve" since that plan |
| AgentGraph.GateObeysHuman | backend/packages/harness/deerflow/runtime.py:476-481 | After "approve" the next choice is research; after "edit" there is no research before a new plan |
| AgentGraph.ChoicesFollow | backend/packages/harness/deerflow/runtime.py:1104-1127 | In every run each choice is followed by what it calls for |
| AgentGraph.LastWordDecides | backend/packages/harness/deerflow/runtime.py:1022-1067 | What a finished run has published follows from its last choice: a draft, an earned proposal, the template for a blank draft, or the safe answer |
| AgentGraph.BlankDraftIff | backend/packages/harness/deerflow/runtime.py:216-229 | The draft taken from the tools is blank exactly when the last artifact that says anything has a blank answer, or neither answer nor repositories and a readme whose first 4000 characters are blank |
| AgentGraph.NewestSpeaks | backend/packages/harness/deerflow/runtime.py:216-229 | The newest artifact that says anything gives its answer, else its repositories, else the first 4000 characters of its readme |
| AgentGraph.UnverifiedProposalIff | backend/packages/harness/deerflow/runtime.py:1022-1067 | A proposal is published without a passed verification exactly when the answer agent took a blank draft from its tools |
| AgentGraph.BlankAnswerPublishesTemplate | backend/packages/harness/deerflow/runtime.py:216-229 | A tool whose answer is one space is enough: the run publishes the proposal template without verification or content |
| AgentGraph.ReviewNeverAsks | backend/packages/harness/deerflow/runtime.py:968-1019 | The review is reached only with a passed verification: its branch to the user is never taken, and it publishes exactly when there is content |
| AgentGraph.PauseIsResumableIff | backend/packages/harness/deerflow/runtime.py:443-444 | A paused run is accepted by `request_resume` exactly when the planner paused it |
| AgentGraph.ResearchPauseIsStuck | backend/packages/harness/deerflow/runtime.py:944-963 | A run paused by the research agent that `request_resume` refuses |
| AgentGraph.FiveNodesBetweenDecisions | backend/packages/harness/deerflow/runtime.py:1104-1127 | A run without human decisions has at most five nodes, and each decision allows five more |
| AgentGraph.NeverStuck | backend/packages/harness/deerflow/runtime.py:1104-1127 | Every node but the end has a next step |
| AgentGraph.RejectEndsInFallback | backend/packages/harness/deerflow/runtime.py:468-481 | Whatever is neither edit nor approve leads in two nodes to the safe answer and the end |
| AgentGraph.ResearchOutcomesArePossible | backend/packages/harness/deerflow/runtime.py:943-955 | The contract of the research loop gives exactly the outcomes the graph allows |
| Tokens.ApproxIsScan | backend/app/rag/chunker.py:124-133 | The counter by two regular expressions equals one left-to-right scan |
| Tokens.WordCosts | backend/app/rag/chunker.py:124-133 | A word costs a quarter of its characters, rounded up |
| Tokens.MarksCost | backend/app/rag/chunker.py:124-133 | Every CJK character and every punctuation mark costs one token, whitespace nothing |
| Tokens.MarksBreak | backend/app/rag/chunker.py:124-133 | Text before such a character and text from it on are counted apart |
| Tokens.TablesAreValid | backend/app/rag/chunker.py:124-133 | Both character tables of the repository, the chunker's and the budget's, meet the condition of the bounds |
| Tokens.ApproxConcat | backend/app/rag/chunker.py:124-133 | Subadditive under concatenation, and monotone in both parts |
| Tokens.ApproxAtMostLength | backend/app/rag/chunker.py:124-133 | Never more tokens than characters |
| Tokens.ApproxSlice | backend/app/rag/chunker.py:124-133 | A slice never costs more than its text |
| Tokens.ApproxJoin | backend/app/services/token_budget.py:64-78 | Joining with whitespace adds no tokens |
| Sentences.SplitSentencesKeepsText | backend/app/rag/chunker.py:136-141 | Sentence splitting loses nothing but whitespace |
| Sentences.SentencesAreCut | backend/app/rag/chunker.py:136-141 | No part has a sentence end before its last character or a line break |
| Sentences.UncutIsOneSentence | backend/app/rag/chunker.py:136-141 | And nothing else cuts: a text without either inside is one sentence |
| HardSplits.HardSplit | backend/app/rag/chunker.py:144-159 | The loop ends and gives the specified parts |
| HardSplits.WindowsCover | backend/app/rag/chunker.py:150-158 | The windows run to the end without a gap, each shifted so that it re-reads exactly the overlap |
| HardSplits.HardSplitLosesNothing | backend/app/rag/chunker.py:144-159 | Every visible character stands in one of the parts |
| HardSplits.HardPartsShort | backend/app/rag/chunker.py:144-159 | No part is empty or longer than the window |
| HardSplits.WindowsScale | backend/app/rag/chunker.py:144-149 | From 30 % CJK characters on the window has `size` characters, otherwise 3.5 times as many; the overlap scales alike, below the window |
| HardSplits.LatinTextStaysWhole | backend/app/rag/chunker.py:144-159 | A text without CJK characters is not split while it has at most 3.5 `size` characters |
| Packing.Pack | backend/app/rag/chunker.py:177-202 | The packing loop with its backward overlap loop gives the specified chunks, with the final duplicate suppressed |
| Packing.KeepSuffix | backend/app/rag/chunker.py:184-193 | The backward loop keeps the longest suffix within the overlap |
| Packing.CarryIsLongest | backend/app/rag/chunker.py:184-193 | What is carried over costs at most the overlap, and one piece more would exceed it |
| Packing.PackingIsFaithful | backend/app/rag/chunker.py:177-202 | Without the carried prefixes the groups are exactly the pieces; each prefix is a suffix of its predecessor within the overlap; no group closes early; each is within budget or one piece |
| Packing.EmittedRebuildsIff | backend/app/rag/chunker.py:198-201 | The emitted chunks rebuild the exact piece sequence if and only if the final chunk does not repeat its predecessor |
| Packing.EveryPieceIsChunked | backend/app/rag/chunker.py:177-202 | Every piece occurs in some emitted chunk, suppressed or not |
| Packing.PackedWithin | backend/app/rag/chunker.py:635-667 | When every piece is within a bound of at least `size`, so is every chunk, for both separators |
| Chunker.ChunkText | backend/app/rag/chunker.py:162-202 | Sentences, hard split and packing together, with the error for a non-positive size |
| Chunker.ChunkTextWithin | backend/app/rag/chunker.py:162-202 | Every chunk has at most 3.5 times `size` tokens, and at most `size` when every oversized sentence is mostly CJK |
| Chunker.ChunksWithin | backend/app/rag/chunker.py:124-202 | The same for the chunker's own table, every text and every overlap |
| Chunker.ChunkTextLosesNothing | backend/app/rag/chunker.py:162-202 | Every visible character of every sentence stands in a slice that some chunk contains |
| Chunker.FittingSentenceStaysWhole | backend/app/rag/chunker.py:170-175 | A sentence that fits stands in some chunk unsplit |
| Chunker.RepeatedTailIsDropped | backend/app/rag/chunker.py:198-201 | Two equal one-token sentences come out as one chunk |
| MarkdownBlocks.SplitTable | backend/app/rag/chunker.py:681-695 | The table loop gives the specified pieces, header first in each |
| MarkdownBlocks.TableRowsAreConserved | backend/app/rag/chunker.py:681-695 | No row is lost, repeated or moved; a piece exceeds the budget only for a single row; no split is unneeded |
| MarkdownBlocks.EveryPieceHasHeader | backend/app/rag/chunker.py:682-695 | Every piece begins with the first line, and with the second too when that is the rule below the titles |
| MarkdownBlocks.RuleIff | backend/app/rag/chunker.py:683-683 | A line is a rule exactly when it is whitespace, perhaps a bar and whitespace, perhaps a colon, and a dash |
| MarkdownBlocks.TableIsSplitByRows | backend/app/rag/chunker.py:681-695 | The lines of an oversized table are its header and the rows of the groups, and its pieces are the header with one group each |
| MarkdownBlocks.BodyIsBetween | backend/app/rag/chunker.py:673-677 | The lines of a fenced block are its fence, its body and the closing fence if it has one |
| MarkdownBlocks.CodePiecesAreFenced | backend/app/rag/chunker.py:678-679 | Every piece of oversized code stands between the fences of its block |
| MarkdownBlocks.SplitOversizedBlock | backend/app/rag/chunker.py:670-697 | The three branches for fenced code, tables and plain text, with the error for a non-positive size of plain text |
| MarkdownBlocks.ChunkMarkdownBlocks | backend/app/rag/chunker.py:635-667 | Block chunking is the same packing of the expanded blocks, or the error of a block that cannot be split |
| MarkdownBlocks.EveryBlockIsChunked | backend/app/rag/chunker.py:635-667 | Every block that fits, and every piece of one that does not, stands in some chunk |
| MarkdownBlocks.FittingBlockStaysWhole | backend/app/rag/chunker.py:638-643 | A block that fits is not split |
| MarkdownBlocks.SplitBlockWithin | backend/app/rag/chunker.py:670-697 | Every piece of an oversized block stays within the bound of its kind: 3.5 times the size for plain text, one row with its header for a table, a code piece with its fences |
| MarkdownBlocks.MarkdownChunksWithin | backend/app/rag/chunker.py:635-697 | No chunk costs more than a bound that covers `size` and the largest piece of every oversized block |
| MarkdownBlocks.PlainMarkdownWithin | backend/app/rag/chunker.py:635-697 | Markdown without code and tables keeps the 3.5 times `size` of plain text, in the chunker's own table |
| TokenBudget.TruncateTokens | backend/app/services/token_budget.py:93-102 | The shrinking loop gives the specified text |
| TokenBudget.TruncatedIs | backend/app/services/token_budget.py:81-102 | Within budget always; unchanged when it fits; else cut on one side only, never to nothing, and beyond the first guess only by the step that made it fit |
| TokenBudget.FirstKeptIs | backend/app/services/token_budget.py:93-98 | The first guess is the proportion of the characters, rounded down, and at least one |
| TokenBudget.TruncatedWithin | backend/app/services/token_budget.py:64-102 | The budget holds for the table that `count_tokens` falls back to |
| TokenBudget.FitRecentLines | backend/app/services/token_budget.py:105-120 | The longest run of newest lines within budget, or the end of the newest line |
| TokenBudget.AppendWithBudget | backend/app/services/conversation_context.py:228-238 | A summary within budget stays so; an empty text changes nothing; a text is appended whole when it fits, else clipped to what is left |
| ParentContext.Expand | backend/app/rag/parent_context.py:30-57 | Ends on any index set; takes exactly the available indices of a balanced open window, within budget unless the centre is alone, and stops only when all are taken or the neighbour in turn would overflow |
| ParentContext.JoinedWithBudget | backend/app/rag/parent_context.py:25-59 | The text is the chunks of that window in index order |
| ParentContext.SortedWindow | backend/app/rag/parent_context.py:58-59 | Sorting what was taken enumerates the window |
| ParentContext.LastChunkWins | backend/app/rag/parent_context.py:26-26 | Of several chunks with one index the last is taken |
| ParentContext.JoinedWithin | backend/app/rag/parent_context.py:58-59 | The joined text costs no more than its chunks |
| ParentContext.ContiguousWindow | backend/app/rag/parent_context.py:25-59 | On contiguous indices the window is an interval |
| Bm25.BM25Scorer.Index | backend/app/rag/embeddings.py:579-594 | The tables built document by document equal their definitions |
| Bm25.BM25Scorer.ScoreTerm | backend/app/rag/embeddings.py:608-616 | The contribution of one query token, from the tables, is the formula on the corpus |
| Bm25.BM25Scorer.ScoreOf | backend/app/rag/embeddings.py:605-616 | The inner loop adds up the formula over the query |
| Bm25.BM25Scorer.Search | backend/app/rag/embeddings.py:596-620 | Search returns the ranked list of the specification, empty without index or query |
| Bm25.OccurringTermHasAverage | backend/app/rag/embeddings.py:613-615 | A term that occurs makes the average length positive, so no division fails |
| Bm25.ScorePositiveIff | backend/app/rag/embeddings.py:604-618 | A document scores above zero if and only if it shares a token with the query |
| Bm25.SearchIsTopK | backend/app/rag/embeddings.py:617-620 | The result holds only sharing documents, in descending order, and none left out scores more |
| Bm25.SearchCount | backend/app/rag/embeddings.py:617-620 | The result has as many documents as share a token with the query, up to `top_k` |
| Bm25.FrequencySaturates | backend/app/rag/embeddings.py:612-616 | More occurrences of a token weigh more, but never as much as `k1 + 1` times its inverse document frequency |
| Bm25.LengthIsPenalised | backend/app/rag/embeddings.py:612-616 | For the same number of occurrences a longer document weighs less |
| Bm25.RarerWeighsMore | backend/app/rag/embeddings.py:612-616 | For a growing logarithm, a token that fewer documents contain weighs more, everything else equal |
| Bm25.RareTokenWins | backend/app/rag/embeddings.py:596-618 | Of two documents of equal length with one query token each, equally often, the one with the rarer token scores higher |
| Bm25.WeightAtAverage | backend/app/rag/embeddings.py:612-616 | The constants: the denominator at the average length and at twice that, and `ln 2` for a token in half of the documents |
| Bm25.CountIsMultiplicity | backend/app/rag/embeddings.py:585-592 | Term frequency is the number of occurrences in the document |
| Bm25.DocFreqCounts | backend/app/rag/embeddings.py:585-592 | Document frequency is the number of documents with the token |
| Bm25.MeanIs | backend/app/rag/embeddings.py:593-593 | The average times the number of documents is the total |
| Bm25.TotalLengthIs | backend/app/rag/embeddings.py:593-593 | The total is the number of all tokens |
| Ranking.SortHitsSorts | backend/app/rag/embeddings.py:619-619 | The sort is a descending permutation |
| Ranking.SortHitsStable | backend/app/rag/embeddings.py:619-619 | Hits with equal scores keep their order |
| Ranking.Accumulate | backend/app/rag/embeddings.py:633-637 | One accumulation loop adds the reciprocal ranks of one ranking |
| Ranking.FusedRankingIs | backend/app/rag/embeddings.py:622-638 | The fused list holds each id of either ranking exactly once with the sum of its reciprocal ranks, in descending order |
| Ranking.FusedIs | backend/app/rag/embeddings.py:622-637 | The score in numbers: `bm25_weight / (61 + i)` for rank `i` of one ranking, `(1 - bm25_weight) / (61 + j)` for rank `j` of the other |
| Ranking.FirstSeenFirst | backend/app/rag/embeddings.py:632-638 | Ids stand in the order in which they were first seen |
| Ranking.RrfFusion | backend/app/rag/embeddings.py:622-638 | The loops give that list, with equal scores in the order in which the ids were first seen |
| Ranking.FusionRespectsAgreement | backend/app/rag/embeddings.py:622-638 | A document ahead of another in both rankings never scores below it |
| Bm25Cache.FingerprintSoundIff | backend/app/rag/embeddings.py:121-132 | Of rows with the same count and greatest id, in any scope: they are the same if and only if no row at or below that id has become visible since |
| Bm25Cache.ScopeSelects | backend/app/rag/embeddings.py:90-108 | The rows of a scope are exactly those of the user, the knowledge base or none, and the document asked for |
| Bm25Cache.WritesAreNeverLate | backend/app/rag/chunker.py:753-769 | After any deletes and inserts with fresh ids, no row is late in any scope |
| Bm25Cache.EqualFingerprintsEqualRows | backend/app/rag/embeddings.py:121-132 | So then equal count and greatest id mean equal rows of the scope |
| Bm25Cache.Embedder.EnsureBm25 | backend/app/rag/embeddings.py:111-132 | Whatever the table has become: afterwards the index is that of the current rows if and only if it was rebuilt or no row was late, and it is left alone when the fingerprint is the same |
| Bm25Cache.Embedder.EnsureFresh | backend/app/rag/embeddings.py:111-132 | With ids that become visible in order the index is always that of the current rows |
| Bm25Cache.Embedder.BuildBm25 | backend/app/rag/embeddings.py:134-181 | The scope's index is exact for the rows read; other scopes keep theirs |
| Bm25Cache.FollowsOn | backend/app/rag/chunker.py:753-769 | The precondition of `EnsureFresh` holds of every later table |
| Bm25Cache.LateCommitGoesUnseen | backend/app/rag/embeddings.py:121-132 | An instance where a row is late: committed after one with a greater id, while an older document is deleted, it leaves the fingerprint as it was |
| Sse.ParseSseBlock | frontend/src/services/api.ts:358-372 | The block parser's loop computes the specified packet |
| Sse.DrainBuffer | frontend/src/services/api.ts:420-425 | The inner loop consumes exactly the complete blocks |
| Sse.ReadStream | frontend/src/services/api.ts:414-427 | However the text is cut into reads, the packets consumed are those of the whole received text |
| Sse.DrainConcat | frontend/src/services/api.ts:414-427 | Draining in two portions equals draining everything |
| Sse.CutsDoNotMatter | frontend/src/services/api.ts:417-418 | For every text and every way to cut it, line-ending normalisation read by read equals that of the whole if and only if no cut falls inside a CR LF pair |
| Sse.CutInsideCrlfMatters | frontend/src/services/api.ts:417-418 | Each pair that is split leaves exactly one character too many |
| Sse.ParseBody | backend/app/api/rag.py:35-38 | The body the server prints parses back to its packet |
| Sse.DataBlockIsMessage | frontend/src/services/api.ts:358-372 | A block of data lines alone is a message with a line break between them |
| Sse.UnterminatedBlockIsConsumed | frontend/src/services/api.ts:428-429 | A last block that the stream does not terminate is consumed at the end |
| Sse.RoundTrip | backend/app/api/rag.py:35-38 | For any printed items, heartbeats included, and any cut of the stream, exactly the printed packets are consumed in order |
| Sse.BrokenStreamGivesPrefix | frontend/src/services/api.ts:414-427 | When the connection is lost at any character, the complete blocks seen so far are a prefix of what was printed |
| Frontmatter.ParseFrontmatter | backend/app/skills/frontmatter.py:12-43 | The parser's loop computes the specified document |
| Frontmatter.FormatFrontmatter | backend/app/skills/frontmatter.py:46-56 | The printer gives one line per key in sorted key order between two fences |
| Frontmatter.PrintedTextIsUnique | backend/app/skills/frontmatter.py:46-56 | Metadata and body determine the printed text |
| Frontmatter.ParseFormat | backend/app/skills/frontmatter.py:12-56 | A printed document parses back to the re-read metadata and the body between a blank line and a final line break |
| Frontmatter.IdleLinesAddNothing | backend/app/skills/frontmatter.py:26-30 | A blank line, a comment or a line without a colon adds nothing, wherever it stands |
| Frontmatter.QuotesComeBackEscaped | backend/app/skills/frontmatter.py:46-54 | A value with a double quote comes back with the printer's backslashes |
| Frontmatter.RereadIff | backend/app/skills/frontmatter.py:26-54 | A value survives printing and parsing if and only if it is a quoted one without a double quote, or an unquoted one that is trimmed and not wrapped in single quotes |
| Frontmatter.RoundTripIff | backend/app/skills/frontmatter.py:12-56 | Non-empty metadata with well-formed keys come back if and only if every value survives |
| Frontmatter.EmptyMetadataNeverRoundTrips | backend/app/skills/frontmatter.py:12-56 | With no metadata the body never comes back: the closing fence is not seen |
| LeaseSemaphore.SlotStore.TryAcquire | backend/app/rag/distributed_limit.py:23-33 | The acquire script: purge, test, add and expire, as on the specification; acquired exactly when fewer than the limit are unexpired |
| LeaseSemaphore.SlotStore.Release | backend/app/rag/distributed_limit.py:34-34 | Only the caller's token is removed |
| LeaseSemaphore.AtMostLimit | backend/app/rag/distributed_limit.py:23-34 | In every reachable state, with crashes and lost answers: at most `limit` slots, and at most `limit` holders within their lease |
| LeaseSemaphore.PromptHoldersExclude | backend/app/rag/distributed_limit.py:72-98 | If no holder overstays, at most `limit` are inside |
| LeaseSemaphore.KeyExpiryLosesNothing | backend/app/rag/distributed_limit.py:29-30 | The expiry of the key never discards an unexpired lease |
| LeaseSemaphore.AcquireSucceedsIff | backend/app/rag/distributed_limit.py:27-33 | In every reachable state an acquire succeeds exactly when fewer than `limit` leases are unexpired |
| LeaseSemaphore.CrashedSlotsComeBack | backend/app/rag/distributed_limit.py:27-33 | When every grant is a lease old an acquire succeeds, whatever became of the holders |
| LeaseSemaphore.LimitBreaksIff | backend/app/rag/distributed_limit.py:23-98 | The exact condition: on every reachable state with at most `limit` inside, one more acquire leads beyond the limit if and only if all places are taken and some slot is free |
| LeaseSemaphore.FreeSlotMeansOverstaying | backend/app/rag/distributed_limit.py:72-98 | All places are taken and a slot is free only if a holder overstays its lease |
| LeaseSemaphore.OverstayingBreaksTheLimit | backend/app/rag/distributed_limit.py:72-98 | The shortest instance: a holder past its lease and its successor inside one slot |
| LlmCache.LLMGateway.CacheGet | backend/packages/harness/deerflow/llm_gateway.py:265-296 | The read and the refilled L1, on every path |
| LlmCache.LLMGateway.CacheSet | backend/packages/harness/deerflow/llm_gateway.py:298-321 | Both tiers after a write, with Redis down or a lifetime below a second |
| LlmCache.ReturnedIsFreshEnough | backend/packages/harness/deerflow/llm_gateway.py:265-321 | Over all runs of any workers, a cached response was generated for the same role and prompt less than twice the lifetime ago |
| LlmCache.OwnWriteIsReadBack | backend/packages/harness/deerflow/llm_gateway.py:265-321 | For one lifetime a worker reads back its own latest response, whatever others and Redis do |
| LlmCache.OthersReadIt | backend/packages/harness/deerflow/llm_gateway.py:265-321 | Another worker reads what was written for the whole seconds of the lifetime, and not longer |
| LlmCache.OverAgeIsRefilled | backend/packages/harness/deerflow/llm_gateway.py:265-296 | On all runs, a response returned a whole lifetime old is a hit in an L1 entry refilled from L2 after it was made; a read from L2, or of one's own response, never is that old |
| LlmCache.OverAgeIff | backend/packages/harness/deerflow/llm_gateway.py:265-296 | The exact condition: an entry that still hits will be returned over age, if the worker waits, if and only if it was refilled after its response was made |
| LlmCache.OlderThanLifetimeIsReturned | backend/packages/harness/deerflow/llm_gateway.py:286-291 | An instance near the bound of twice the lifetime |
| Compaction.Conversation.BuildContext | backend/app/services/conversation_context.py:312-378 | A build folds the stated number of oldest unsummarised messages, merges exactly them, and shows the last `history` of those that were unsummarised before it, when there were more |
| Compaction.Conversation.ChooseCount | backend/app/services/conversation_context.py:332-349 | How many messages a build folds |
| Compaction.BuildIs | backend/app/services/conversation_context.py:332-371 | Whatever the rule for the count: with more than `history` unsummarised messages the last `history` are shown and the others folded or left; with at most that many nothing is folded, or the oldest one when they are oversize |
| Compaction.Conversation.Compact | backend/app/services/conversation_context.py:350-355 | The summary, the checkpoint and what is folded move together |
| Compaction.AfterIsPending | backend/app/services/conversation_context.py:319-327 | The query by checkpoint finds exactly the messages not yet folded |
| Compaction.RecentIsPending | backend/app/services/conversation_context.py:357-371 | The recent window is the end of what is not folded |
| Compaction.GapIsBounded | backend/app/services/conversation_context.py:332-371 | After a build, messages in neither the summary nor the window are a stretch between them of at most threshold - 1 - history, none after a build that compacts; and when a build compacts |
| Compaction.FoldedOnceInOrder | backend/app/services/conversation_context.py:312-378 | Over any conversation the checkpoint never moves back, and what is folded is always the first messages in id order, each once |

## Left out

- TaskLease.LeasesNeverOverlap: is proved for runs in which no release clears another owner's unexpired lease, because
  it is false otherwise; `TaskLease.UpdateBreaksExclusionIff` shows that nothing else need be excluded.
- ToolReplay.CallsAreCrashesPlusOne: assumes that no lookup misses while another worker is past a miss of the same
  key; `ToolReplay.OverlapDisagreesIff` shows that results can differ otherwise, and `ToolReplay.HonouredKeysAgree`
  what remains.
- ResumeDelivery.SettledResumesAreTaken: the update of a release is the fenced one (for the late one see `TaskLease`),
  and "given to a run" says nothing about how that run ends.
- AgentStore.RunAgentTaskTask: one delivery that nothing disturbs; interleavings are the subject of `TaskLease` and
  `ResumeDelivery`.
- AgentStore.DeliveryAfterRun: likewise reads the row after an undisturbed run.
- EventLog.NoGapWithoutPushes: like `EventLog.DeliveredIff`, covers streams whose Redis messages are tokens, because
  the cursor can jump past an event that was not pushed.
- Outbox.NothingIsLost: says nothing about how often a message is delivered; a crash between publish and mark, or two
  dispatchers, publish it again.
- Bm25Cache.WritesAreNeverLate: takes ids as never reused and visible in order, rows as written once and the owner of
  a document as fixed; file names cached with the chunks are not part of the index here.
- Compaction.Conversation.BuildContext: one build at a time; two concurrent builds of a conversation could fold the
  same messages, since the row is not locked.
- LlmCache.ReturnedIsFreshEnough: takes the L2 read and the L1 fill as one step, and one clock for all workers.
- Frontmatter.ParseFrontmatter: metadata values are strings; the printer's other types are not modelled.
- Chunker.ChunkText: takes text that `clean_text` has normalised; that function is a chain of regular expressions with
  no property beyond them.
- MarkdownBlocks.ChunkMarkdownBlocks: takes the blocks and the cleaning inside `chunk_text` as parameters; splitting a
  document into sections and blocks are regular expressions.
- HardSplits.HardSplit: the ratio and the 3.5 characters per token are computed exactly, not in floating point.
- TokenBudget.TruncateTokens: the path without a tokenizer library; the proportion is computed exactly.
- Tokens.ApproxIsScan: the class of word characters is a parameter that excludes whitespace.
- Bm25.ScorePositiveIff: reals for floats; of the logarithm only its sign above one is used; the tokenizer is a
  parameter.
- ResearchLoop.ResearchAgent: which sources a task uses and what tools answer are oracles; a call that an earlier run
  of the task has saved counts as executed, though it is replayed.
- AgentGraph.PublicationIsEarned: a node that raises ends the run in the Celery task and is modelled there, not in the
  graph.
- Sse.RoundTrip: event names and JSON text are strings with no line break; JSON itself and the decoding of UTF-8
  across reads are not modelled.
- The circuit breaker of the LLM gateway: one counter and one timestamp per provider, with only one-step properties.
- LangGraph's checkpoints, SQLAlchemy, Redis and Celery themselves: steps of the model, or oracles.
- Authentication, request validation, prompts, dashboards, memory decay, OCR and vision calls: no deep property.
