# RockBot: a verified model

A model in Dafny of the deciding logic of RockBot, a multi-agent gateway: the workflow engine, the
handling of conversation histories, the tool loop and its repetition detector, the choice among
permission rules, the two request/response protocols and the audit log. It says what that code
computes and proves what it promises, for every input and every interleaving.
`dafny verify dfyconfig.toml` checks the whole project.

| files | what they model |
|---|---|
| `WorkflowGraph`, `WorkflowValidation` | workflow definitions as graphs; validation by Kahn's algorithm |
| `Texts` | texts spelled by pieces with gaps between them |
| `MessageTemplate` | the message of a workflow node, built from its template |
| `WorkflowExecution`, `WorkflowSteps` | round-by-round concurrent execution; its schedules and its interleavings |
| `WorkflowLevels`, `WorkflowPaths` | which round can run which node |
| `WorkflowSchedules`, `WorkflowNaming` | exactly when the outputs do not depend on the schedule |
| `Conversation`, `Compaction` | repair of a history so that calls and results pair up; cutting it |
| `LoopDetector` | the detector of repetitive calls |
| `ToolExecution`, `ToolLoop` | how tool calls end; the loop around them, its bounds and its history |
| `AgentStats` | the running figures of an agent |
| `PathGlob`, `SegmentGlob` | the two glob matchers |
| `GlobAgreement`, `GlobDifference` | where they agree and where they differ |
| `RuleChoice` | the two ways to choose among permission rules |
| `ApprovalProtocol`, `CredentialManager` | human approval of credential requests |
| `RemoteDispatch`, `RemoteExecutors` | dispatch of tool calls to remote executors |
| `AuditChain` | the hash-chained audit log |

## How it is built

A loop or a method that changes state is a method here, proved against a function or relation over
values; the promises are then proved of that function or relation. The two protocols are state
machines whose events are the atomic sections of the code (what happens under one lock, or between
two awaits). `CredentialManager` and `RemoteExecutors` hold the shared tables and what has been sent
into the channels, and show that each section is one such event of a run they carry along.

In `WorkflowExecution` a run is the list of outputs after each round. A round follows a schedule: the
order in which results are recorded and, for each, how many were recorded when its task built its
message. `RunLayer` lets any task make any next step at any time; `WorkflowSteps.LayerExactly` says
that what the steps can leave is exactly what the schedules record. In `ToolLoop` a run is a list of
turns, and everything the code asks of the outside (model answers, what each call meets, how texts
are read, token counts) is arbitrary at every turn.

## Assumptions

- The agent invoker is a function of agent and message, and edge conditions other than `Always` are
  an arbitrary function of condition and output. Node tasks end with a result or an error; they do
  not panic.
- Request and approval ids are fresh when they are made.
- The hashes of tool calls and of audit entries are arbitrary functions. An audit entry is hashed the
  same whether an optional field is absent or empty.
- Reading the vault succeeds only while it is open; whether a path resolves to a credential is
  arbitrary.
- One process appends to an audit log, and what is written as JSON is read back unchanged.
- Text is a sequence of characters. Where the code measures or slices bytes, text is ASCII.

## What the proofs brought out

- `permissions.rs` documents `**` as any characters. The code also drops a `/` that follows it, so
  `a/**/b` matches `a/xb`. `PathGlob.DocumentedExactly`: the two readings agree for every path
  exactly when no maximal run of stars of even length is directly followed by `/`; `***/x` still
  means what is documented.
- In `manager.rs` a `?` is a wildcard only in a segment that also contains `*`; in `permissions.rs`
  it always is. `GlobDifference.AgreeExactly` says which patterns mean the same to both, if stars
  stand side by side only as a whole segment: `**/*b` does, but `**/*` covers the empty path in
  `manager.rs` only.
- The two evaluators disagree on `a/**` and `a`, and among equally good rules one reports the last
  and the other the first. The level never depends on the order.
- Repeated node ids are reported as a cycle, because visits are compared with the number of nodes.
- The input of a workflow is itself scanned for `{output:...}` placeholders, because it is
  substituted before the scan. `MessageTemplate.InputPassesExactly`: even the template `{input}`
  passes the input on exactly when it holds no closed placeholder.
- Results of a round are recorded while later tasks of the round still start, so a template that
  names another node of its own round can see a race. `WorkflowSchedules.AgreeExactly` says for any
  workflow when all executions agree, and `WorkflowNaming.AgreeForAllExactly` when they do so whatever
  the agents answer and whichever conditions are met: a template may name any node of another level,
  be it a source, an earlier ancestor or a node that runs later, and `WorkflowLevels` computes levels
  from the edges. A template that names its own node reads the text for a missing output, unless the
  node is listed twice as an entry.
- The safe compaction boundary can separate a call from its result when a system message stands
  between them. `Compaction.RepairDistributesExactly` says when a cut is harmless.
- A compaction whose boundary is 0 removes nothing and adds a summary.
- A call that a hook or a breakpoint stops, or whose tool reports an error, pushes a message and no
  result. The loop detector zips the two lists, so from there on results are paired with messages of
  earlier calls (`ToolExecution.AlignedExactly`).
- A handoff leaves the history paired exactly when it is the last call of its response.
- The detector's comments promise detection of calls without progress, but `check` never reads
  results.
- With at most two nudges between tool iterations and the breaker at thirty recorded calls, one
  response costs at most 90 iterations, and `ToolLoop.BoundsAreReached` attains that.
- `dispatch` is documented to return `None` when the client disconnects. It holds the session table
  for reading while it waits, so the disconnect cannot be registered until it has returned.
- Audit verification does not look at sequence numbers and cannot notice lines cut off the end. The
  hashed fields are joined without separators: the bytes fix the sequence number, and the other
  fields exactly when corresponding fields are equally long (`AuditChain.FieldsFixedExactly`).

## Model

| member | source | states |
|---|---|---|
| `WorkflowGraph.RankedIsAcyclic` | crates/rockbot-agent/src/orchestration.rs:357-389 | if every edge goes up in some ranking of the nodes, no non-empty path returns to its start |
| `WorkflowGraph.PredecessorsMakeCycle` | crates/rockbot-agent/src/orchestration.rs:357-389 | a non-empty set in which every node has a predecessor in the set lies on a cycle, which is what an unfinished run of Kahn's algorithm leaves |
| `WorkflowGraph.LongPathIsCyclic` | crates/rockbot-agent/src/orchestration.rs:357-389 | a path longer than the number of nodes it visits makes the graph cyclic (pigeonhole) |
| `WorkflowGraph.IdCount` | crates/rockbot-agent/src/orchestration.rs:357-389 | there are as many distinct ids as nodes exactly when no id is repeated, so comparing the visit count with the node count also rejects repeated ids |
| `WorkflowValidation.Validate` | crates/rockbot-agent/src/orchestration.rs:320-392 | accepts exactly the definitions that have nodes and entries, refer only to existing ids, have distinct ids and no cycle; a rejection names the first fault in the order of the checks |
| `WorkflowValidation.PopsEveryNode` | crates/rockbot-agent/src/orchestration.rs:357-389 | the visit count equals the node count exactly when ids are distinct and the graph has no cycle, whatever order the hash map yields, with parallel edges and self-loops |
| `WorkflowValidation.CountInDegrees` | crates/rockbot-agent/src/orchestration.rs:358-364 | every node ends with the number of edges into it, parallel ones counted each |
| `WorkflowValidation.Release` | crates/rockbot-agent/src/orchestration.rs:374-384 | after popping a node each degree counts exactly the edges from nodes not popped yet, and the queue holds exactly the free nodes, each once |
| `WorkflowValidation.EdgeTargetCounted` | crates/rockbot-agent/src/orchestration.rs:374-384 | a degree is positive whenever it is decremented (no underflow), and its node has been neither popped nor queued |
| `WorkflowValidation.ReleaseEdge` | crates/rockbot-agent/src/orchestration.rs:374-384 | one decrement keeps degrees and queue exact, and queues a node just when its last edge goes |
| `WorkflowValidation.Outcome` | crates/rockbot-agent/src/orchestration.rs:387-389 | once the queue is empty, all ids have been popped exactly when the graph has no cycle |
| `WorkflowValidation.AnyOrder` | crates/rockbot-agent/src/orchestration.rs:366-370 | the initial queue holds each free node once, in any order |
| `MessageTemplate.FindsLeftmost` | crates/rockbot-agent/src/orchestration.rs:402-408 | the search used by substitution and expansion finds the leftmost occurrence, or none when there is none |
| `MessageTemplate.FindsFirstChar` | crates/rockbot-agent/src/orchestration.rs:408-411 | the closing brace found is the first one |
| `MessageTemplate.ReadingSpellsMessage` | crates/rockbot-agent/src/orchestration.rs:402-423 | the reading of a message as texts and placeholders spells exactly that message |
| `MessageTemplate.ReadingIsTight` | crates/rockbot-agent/src/orchestration.rs:404-423 | no text part holds the marker, ids end at their first closing brace, and an unclosed marker is followed by no brace: every placeholder has been found |
| `MessageTemplate.MessageReadsItsNames` | crates/rockbot-agent/src/orchestration.rs:395-428 | the message depends on nothing but the input and the outputs of the nodes its substituted template names |
| `MessageTemplate.ExpandMarker` | crates/rockbot-agent/src/orchestration.rs:404-423 | one round of the loop writes one placeholder or keeps an unclosed marker, and what it leaves to scan expands to the rest of the message |
| `MessageTemplate.Expand` | crates/rockbot-agent/src/orchestration.rs:404-423 | the scanning loop produces the message with every placeholder of its reading replaced and unclosed markers kept as text |
| `MessageTemplate.BuildNodeMessage` | crates/rockbot-agent/src/orchestration.rs:395-428 | `{input}` is replaced first and the result, input text included, is then scanned for placeholders; without a template the message is the input |
| `MessageTemplate.ReplacesEvery` | crates/rockbot-agent/src/orchestration.rs:402-402 | there are pieces, none of which holds the word, that spell the text with the word between them and the replaced text with the filler between them: every occurrence is replaced |
| `MessageTemplate.MessageIsBuilt` | crates/rockbot-agent/src/orchestration.rs:395-428 | for every template: pieces free of `{input}` spell it with `{input}` between them and the substituted text with the input between them; texts and closed placeholders spell that text, and the message with each placeholder replaced by the output it names, or by `[no output]` |
| `MessageTemplate.InputPassesExactly` | crates/rockbot-agent/src/orchestration.rs:395-428 | a template that is only `{input}` passes the input on unchanged, whatever has been recorded, exactly when the input itself holds no closed placeholder |
| `WorkflowExecution.RunLayer` | crates/rockbot-agent/src/orchestration.rs:139-242 | whatever the interleaving of starts, finishes and collection, the tasks move one at a time until all are collected, and what is left is what some schedule records; each task is counted once |
| `WorkflowExecution.FindReady` | crates/rockbot-agent/src/orchestration.rs:249-279 | finds exactly the nodes not completed, with all sources done and some in-edge condition met, each once |
| `WorkflowExecution.RunRounds` | crates/rockbot-agent/src/orchestration.rs:135-290 | terminates; from any entry nodes of a graph with distinct ids its rounds form a complete run, and each node that ran was invoked once, plus once more for every entry that repeats another |
| `WorkflowExecution.Execute` | crates/rockbot-agent/src/orchestration.rs:105-316 | terminates; on a valid definition its rounds form a complete run and invocations are counted as for the rounds; on success the result consists, at rising offsets and without anything else, of the outputs of the exit nodes that have one, in exit order, with `\n\n---\n\n` between neighbours |
| `WorkflowExecution.ResultHolds` | crates/rockbot-agent/src/orchestration.rs:292-315 | the gathered list has as its k-th entry the output of the k-th exit that has one, in the order of the named exits or else of the nodes without outgoing edges, and the result spells it; it is an error exactly when no exit has one |
| `WorkflowExecution.RoundsExactly` | crates/rockbot-agent/src/orchestration.rs:135-279 | the first round runs the entry nodes; a later one adds exactly the nodes not recorded whose sources all are and for which some in-edge is `Always` or matches its source's output |
| `WorkflowExecution.NothingAwaited` | crates/rockbot-agent/src/orchestration.rs:249-290 | a run that has ended leaves no such node out |
| `WorkflowExecution.OutputsAreAnswers` | crates/rockbot-agent/src/orchestration.rs:143-214 | every recorded output is the agent's answer, or `[ERROR: ...]` around its error, to the node's message built from outputs that include all earlier rounds and nothing of later ones |
| `WorkflowExecution.Kept` | crates/rockbot-agent/src/orchestration.rs:189-214 | no recorded output is ever changed by a later round |
| `WorkflowExecution.RoundFollowsSources` | crates/rockbot-agent/src/orchestration.rs:249-279 | the nodes of a round are new, and each that is not an entry node comes after all its sources |
| `WorkflowExecution.RunIsLeastClosed` | crates/rockbot-agent/src/orchestration.rs:135-290 | the nodes that ran are the least set that holds the entry nodes and is closed under: all sources run and some in-edge condition true of its source's output |
| `WorkflowExecution.GatheredNone` | crates/rockbot-agent/src/orchestration.rs:304-312 | no output is gathered exactly when none of the exit nodes has one |
| `WorkflowExecution.LeavesAreLeaves` | crates/rockbot-agent/src/orchestration.rs:294-301 | without named exits the exits are the nodes without outgoing edges |
| `WorkflowSteps.LayerExactly` | crates/rockbot-agent/src/orchestration.rs:139-242 | the tasks of a round, moving in any order, can leave exactly what the schedules of the round record: no interleaving is missed and every schedule can be followed |
| `WorkflowSteps.ScheduleFollowed` | crates/rockbot-agent/src/orchestration.rs:139-242 | a sequence of moves that follows a given schedule up to its i-th result |
| `WorkflowLevels.RunFollowsLevels` | crates/rockbot-agent/src/orchestration.rs:135-290 | in every run, whatever agents answer and conditions say, a node of round k has level k: it is among the nodes that can have run after k + 1 rounds and not after k if every condition is met |
| `WorkflowLevels.LevelIsRound` | crates/rockbot-agent/src/orchestration.rs:135-290 | if every condition is met, each round of the sequential meaning runs a whole level |
| `WorkflowPaths.RanIffNoLongPath` | crates/rockbot-agent/src/orchestration.rs:135-290 | without conditions, exactly the nodes at which no path of k edges ends have run after k rounds |
| `WorkflowPaths.RoundIsLongestPath` | crates/rockbot-agent/src/orchestration.rs:135-290 | without conditions, a node runs in the round numbered by the longest path that ends at it |
| `WorkflowPaths.EveryNodeRuns` | crates/rockbot-agent/src/orchestration.rs:135-290 | without conditions and with the entry nodes being those without in-edges, every node runs, failed invocations included |
| `WorkflowPaths.UnconditionalSucceeds` | crates/rockbot-agent/src/orchestration.rs:292-315 | such a workflow always ends with a result, even when no exit node is named |
| `WorkflowSchedules.AgreeExactly` | crates/rockbot-agent/src/orchestration.rs:143-242 | all complete executions of a valid workflow end with the same outputs exactly when, in each round of the sequential meaning and for each node of it, no set of others of the round being recorded already changes what the node records |
| `WorkflowSchedules.RunIsCanonical` | crates/rockbot-agent/src/orchestration.rs:143-242 | under that condition every execution records after each round what the sequential meaning gives |
| `WorkflowSchedules.ScheduleIndependence` | crates/rockbot-agent/src/orchestration.rs:143-242 | under that condition any two complete executions record the same outputs, round for round |
| `WorkflowSchedules.Race` | crates/rockbot-agent/src/orchestration.rs:143-242 | wherever the condition fails, for any round, node and set of others, two complete executions end with different outputs |
| `WorkflowSchedules.SequentialRun` | crates/rockbot-agent/src/orchestration.rs:143-242 | the sequential meaning is itself one of the complete executions |
| `WorkflowNaming.AgreeForAllExactly` | crates/rockbot-agent/src/orchestration.rs:395-428 | for every valid workflow: whatever the agents answer and whichever conditions are met, all executions agree, exactly when no template, after substitution of the input, names another node of its own level, and no node listed twice as an entry names itself |
| `WorkflowNaming.LevelIsLongestPath` | crates/rockbot-agent/src/orchestration.rs:135-290 | without conditions the level of a node is the length of the longest path that ends at it |
| `WorkflowNaming.AgreeForAllAgentsExactly` | crates/rockbot-agent/src/orchestration.rs:395-428 | so without conditions it is nodes with equally long paths that must not name each other |
| `WorkflowNaming.NamingSourcesIsOrderFree` | crates/rockbot-agent/src/orchestration.rs:395-428 | the condition holds, with edge conditions too, when templates name only sources of their node and entry nodes name nothing |
| `WorkflowNaming.EchoMessage` | crates/rockbot-agent/src/orchestration.rs:395-428 | the message of a template that is one placeholder is that node's output, or the text for a missing one |
| `WorkflowNaming.RaceExample` | crates/rockbot-agent/src/orchestration.rs:143-214 | a valid workflow with two complete executions that end differently: two entry nodes, one repeating what the other has produced |
| `Conversation.LlmMessagesFromContext` | crates/rockbot-agent/src/agent.rs:2032-2138 | the filtering loop shows the model the repaired history, converted message by message, and in what it shows calls and results match: a result follows its caller before anyone else speaks and answers one of its ids, and every call has exactly one result |
| `Conversation.ShownAsKept` | crates/rockbot-agent/src/agent.rs:2115-2137 | the i-th message shown has role, text and call id of the i-th message kept, its calls exactly if the entry is readable, and none is a plain system message |
| `Conversation.ShownIsMatched` | crates/rockbot-agent/src/agent.rs:2032-2138 | the same matching for any history, over the list as it is sent |
| `Conversation.Admit` | crates/rockbot-agent/src/agent.rs:2039-2113 | one message is kept, and calls are owed a result afterwards, as repair says; comparing set sizes is comparing sets |
| `Conversation.SatisfiedIds` | crates/rockbot-agent/src/agent.rs:2070-2091 | the required ids answered before the next user or assistant message, system messages skipped |
| `Conversation.RepairPairs` | crates/rockbot-agent/src/agent.rs:2032-2138 | whatever the history, in the repaired one each result answers a call owed one and nothing is owed when anyone speaks |
| `Conversation.PairedMeansExactlyAnswered` | crates/rockbot-agent/src/agent.rs:2065-2113 | that is the same as: every message that speaks is followed, before the next that speaks, by exactly one result for each of its distinct calls and by no other, and no result comes before the first |
| `Conversation.RepairIsSubsequence` | crates/rockbot-agent/src/agent.rs:2032-2138 | repair only drops messages and keeps their order |
| `Conversation.FixedAreKept` | crates/rockbot-agent/src/agent.rs:2039-2047 | all user messages, assistant messages without readable calls and compaction summaries are kept, in order |
| `Conversation.RepairKeepsExactlyPaired` | crates/rockbot-agent/src/agent.rs:2032-2138 | repair drops nothing but plain system messages exactly when the history is fully paired |
| `Conversation.RepairIdempotent` | crates/rockbot-agent/src/agent.rs:2032-2138 | repairing twice is repairing once |
| `Compaction.FindSafeCompactionBoundary` | crates/rockbot-agent/src/agent.rs:1997-2014 | finds the largest safe index that leaves at least keep_recent messages, or 0 |
| `Compaction.LargestSafe` | crates/rockbot-agent/src/agent.rs:1997-2014 | a safe index is neither right after an assistant message with a tool_calls entry nor right before a tool result; no larger one within the limit is safe |
| `Compaction.RepairDistributesExactly` | crates/rockbot-agent/src/agent.rs:2032-2138 | for any cut, repairing the whole equals repairing both parts exactly when no kept call is still owed a result at the cut |
| `Compaction.RepairDistributesOverBoundary` | crates/rockbot-agent/src/agent.rs:1997-2014 | at the boundary repair distributes, if no system message is directly followed by a tool result |
| `Compaction.SafeCutCanSplitPair` | crates/rockbot-agent/src/agent.rs:1997-2014 | without that condition it can fail for every number of messages kept, whatever stands before and after: a boundary between two system messages separates a call from its result |
| `Compaction.CompactionKeepsRecent` | crates/rockbot-agent/src/agent.rs:1871-1977 | the last keep_recent messages survive unchanged, and what the length becomes |
| `Compaction.CompactionKeepsPairs` | crates/rockbot-agent/src/agent.rs:1849-1977 | compaction keeps a paired history paired and puts no result behind a system message |
| `Compaction.CompactionReplacesPrefix` | crates/rockbot-agent/src/agent.rs:1849-1977 | what the model sees after compaction is the summary and the repair of the part kept; what it no longer sees is the repair of the part removed |
| `LoopDetector.ToolLoopDetector.RecordCall` | crates/rockbot-agent/src/agent.rs:93-103 | the call is recorded last and the window trimmed to sixty |
| `LoopDetector.ToolLoopDetector.RecordResult` | crates/rockbot-agent/src/agent.rs:106-114 | the history becomes the one in which the latest unresolved entry of the tool has the result |
| `LoopDetector.ResolvesLatest` | crates/rockbot-agent/src/agent.rs:106-114 | only that entry changes, and of it only the result |
| `LoopDetector.ResolvesNothing` | crates/rockbot-agent/src/agent.rs:106-114 | without an unresolved entry of the tool nothing changes |
| `LoopDetector.ResolveKeepsHashes` | crates/rockbot-agent/src/agent.rs:106-114 | call hashes, and so the verdict, stay |
| `LoopDetector.ToolLoopDetector.Check` | crates/rockbot-agent/src/agent.rs:117-207 | the verdict and its repetition count are given by the two suffix lengths and the window size |
| `LoopDetector.CountSame` | crates/rockbot-agent/src/agent.rs:138-145 | the streak is the longest suffix of equal calls |
| `LoopDetector.CountCycles` | crates/rockbot-agent/src/agent.rs:172-179 | the cycle count is half, rounded down, of the longest suffix alternating between the last two calls |
| `LoopDetector.SameRunIsLongest` | crates/rockbot-agent/src/agent.rs:138-145 | the last n calls are equal exactly when n is within that suffix length |
| `LoopDetector.AlternatingRunIsLongest` | crates/rockbot-agent/src/agent.rs:172-179 | the last n calls alternate exactly when n is within that suffix length |
| `LoopDetector.OneMoreCycle` | crates/rockbot-agent/src/agent.rs:172-179 | two more calls continue an alternation exactly when they repeat the last two |
| `LoopDetector.StopsExactlyWhen` | crates/rockbot-agent/src/agent.rs:117-207 | the verdict is critical exactly when thirty calls are in the window, or the last ten are the same, or the last ten alternate between two |
| `LoopDetector.WarnsExactlyWhen` | crates/rockbot-agent/src/agent.rs:117-207 | the verdict is at least a warning exactly when thirty calls are in the window, or the last five are the same, or there are six and the last four alternate between two |
| `LoopDetector.WindowKeepsLatest` | crates/rockbot-agent/src/agent.rs:93-103 | after any calls the window holds exactly the latest sixty |
| `LoopDetector.BreakerStaysTripped` | crates/rockbot-agent/src/agent.rs:93-131 | once thirty calls are in the window no further calls can bring it below thirty or change the verdict from stop |
| `ToolExecution.ExecuteToolCalls` | crates/rockbot-agent/src/agent.rs:3955-4500 | each call ends as hooks, breakpoints, executors and the tool decide in the code's order; the messages are one for each call that ended and the results those of the ends that give one; it ends early just after a handoff or at a call without security context |
| `ToolExecution.ExecuteCall` | crates/rockbot-agent/src/agent.rs:3973-4498 | one call: how it ends, the result it leaves for the caller, if any, and the message it pushes, in every case but one |
| `ToolExecution.NoResultExactly` | crates/rockbot-agent/src/agent.rs:3973-4498 | a call that pushes a message leaves no result exactly when a hook aborts it, a breakpoint does not approve it, or the tool run here reports an error |
| `ToolExecution.SuccessExactly` | crates/rockbot-agent/src/agent.rs:4174-4498 | a result reports success exactly when a remote executor replied with success, or without a reply the tool was run here and handed over or completed with success |
| `ToolExecution.ResultsComeFrom` | crates/rockbot-agent/src/agent.rs:4174-4420 | there are as many results as calls whose end gives one, each under the name of its own call |
| `ToolExecution.OriginsInOrder` | crates/rockbot-agent/src/agent.rs:4174-4420 | these calls come in order, once each and none missing |
| `ToolExecution.AlignedExactly` | crates/rockbot-agent/src/agent.rs:3422-3426 | zipped for the loop detector, the first n results stand beside the messages of their own calls exactly when none of the first n calls ended without a result |
| `ToolExecution.ResultsSettle` | crates/rockbot-agent/src/agent.rs:3955-4500 | messages in call order settle what is owed exactly when no call id is repeated |
| `ToolExecution.ExchangeKeepsPairs` | crates/rockbot-agent/src/agent.rs:3529-3551 | appending a response and the messages of all its calls keeps a paired history paired exactly when the response repeats no call id |
| `ToolExecution.CutExchangeKeepsPairs` | crates/rockbot-agent/src/agent.rs:3377-3420 | with distinct ids and the messages of the first n calls only, exactly when n is the number of calls |
| `ToolExecution.SpeechKeepsPairs` | crates/rockbot-agent/src/agent.rs:3192-3253 | appending a message that speaks and calls nothing keeps the history paired |
| `ToolLoop.ProcessLlmResponse` | crates/rockbot-agent/src/agent.rs:3068-3601 | the loop's iterations, history, window of calls, outcome and counts are those of a run of turns as `Leads` and `EndFits` describe them; at most 30 iterations execute tools and at most 90 take place; never more than the configured limit and one, or without one than 33 and 8 for each tool, or 161, and exactly that many when the limit ends the run |
| `ToolLoop.Iterate` | crates/rockbot-agent/src/agent.rs:3141-3561 | one iteration within the limit either goes on with a turn that fits or ends the run as final answer, abandoned, handed over or stopped by the detector |
| `ToolLoop.RunTools` | crates/rockbot-agent/src/agent.rs:3324-3551 | an iteration with tool calls: what it appends and records in each way it can end or go on |
| `ToolLoop.JudgeTools` | crates/rockbot-agent/src/agent.rs:3422-3551 | once all calls have ended, the verdict on the new window stops the loop with its repetition count or lets it go on |
| `ToolLoop.GoOn` | crates/rockbot-agent/src/agent.rs:3467-3561 | the exchange is appended, a hint follows exactly on a warning, and compaction comes in between only as the code places it |
| `ToolLoop.Nudge` | crates/rockbot-agent/src/agent.rs:3191-3253 | the model's text, if any, and a reminder are appended, then perhaps a compaction |
| `ToolLoop.NextResponse` | crates/rockbot-agent/src/agent.rs:3237-3581 | after a nudge a failing model ends the run quietly and after tools with an error, while a request that cannot be built always is an error |
| `ToolLoop.RecordCalls` | crates/rockbot-agent/src/agent.rs:3324-3338 | the window afterwards holds the latest sixty of the old window and the new calls |
| `ToolLoop.RecordResults` | crates/rockbot-agent/src/agent.rs:3422-3426 | the results and messages of the calls are recorded pairwise, as far as both lists go; no call hash changes |
| `ToolLoop.RunBounded` | crates/rockbot-agent/src/agent.rs:3098-3581 | on every run, whatever is answered and configured: at most 30 tool iterations, at most 90 iterations, at most one past the configured limit or past 32 and 8 for each tool but no more than 160, exactly one past it when the limit ends the run, and a window of at most 60 |
| `ToolLoop.RecentSurvive` | crates/rockbot-agent/src/agent.rs:1849-1977 | a compaction leaves the latest 8, 12 or 20 messages as they were, by a context of up to 16000, up to 32000 or more tokens, and puts the summary in front unless there were at most two more |
| `ToolLoop.BoundsAreReached` | crates/rockbot-agent/src/agent.rs:3098-3581 | both bounds are reached by one run |
| `ToolLoop.ThirtiethCallStops` | crates/rockbot-agent/src/agent.rs:117-131 | no run goes on after a tool iteration that records the thirtieth call |
| `ToolLoop.TurnKeepsPairs` | crates/rockbot-agent/src/agent.rs:3467-3561 | every turn keeps the history paired, hints, nudges and compactions included |
| `ToolLoop.RunKeepsPairs` | crates/rockbot-agent/src/agent.rs:3068-3601 | on every run without repeated call ids the history stays paired turn by turn, and is paired at the end exactly when no handoff has left calls unanswered |
| `ToolLoop.RunIsShown` | crates/rockbot-agent/src/agent.rs:3068-3601 | then repair drops no user, assistant or tool message from it |
| `ToolLoop.ProcessingContext.Compact` | crates/rockbot-agent/src/agent.rs:1849-1977 | the messages become the compacted history |
| `ToolLoop.ProcessingContext.CompactIfNeeded` | crates/rockbot-agent/src/agent.rs:2247-2261 | either nothing happens or, with more than the given number of messages, the history is compacted |
| `AgentStats.Agent.UpdateStats` | crates/rockbot-agent/src/agent.rs:4797-4812 | the three figures are those of the samples seen so far, the new one last |
| `AgentStats.CountsAreExact` | crates/rockbot-agent/src/agent.rs:4797-4812 | the message count and token total are exact |
| `AgentStats.AverageWithinSamples` | crates/rockbot-agent/src/agent.rs:4804-4812 | the rolling average never leaves the range of the samples |
| `AgentStats.AverageTrailsMean` | crates/rockbot-agent/src/agent.rs:4804-4812 | after n samples the total exceeds n times the average by between 0 and n(n-1)/2, so the average never exceeds the mean and trails it by at most (n-1)/2 |
| `AgentStats.BoundIsReached` | crates/rockbot-agent/src/agent.rs:4804-4812 | processing times 0, 1, 2, ... reach that bound |
| `PathGlob.MatchesPattern` | crates/rockbot-credentials/src/permissions.rs:228-315 | the matcher, which remembers only its last single star, returns true exactly when the token meaning of the pattern holds of the path |
| `PathGlob.MatchesSomeSuffix` | crates/rockbot-credentials/src/permissions.rs:248-254 | after `**` it succeeds exactly when some suffix of the path matches the rest |
| `PathGlob.EarlierStarForgotten` | crates/rockbot-credentials/src/permissions.rs:270-276 | at a further wildcard, letting an earlier star take more can gain nothing, so one remembered star is enough |
| `PathGlob.NoSlashReached` | crates/rockbot-credentials/src/permissions.rs:284-297 | two placements of the same one-character tokens, the later reached without a slash, have no slash up to the end of the later |
| `PathGlob.StarTakesOneMore` | crates/rockbot-credentials/src/permissions.rs:282-297 | a star takes nothing, or one more character that is not a slash |
| `PathGlob.Retry` | crates/rockbot-credentials/src/permissions.rs:282-305 | when what is left fails, only a longer star can succeed, and not across a slash |
| `PathGlob.OnlyStarsDenoteEmpty` | crates/rockbot-credentials/src/permissions.rs:309-314 | on an exhausted path exactly the patterns made of `*` match |
| `PathGlob.PlainPatternIsItself` | crates/rockbot-credentials/src/permissions.rs:271-275 | a pattern without wildcards matches exactly itself |
| `PathGlob.DocumentedExactly` | crates/rockbot-credentials/src/permissions.rs:8-11 | the matcher's meaning is the documented one for every path exactly when no maximal run of stars of even length is directly followed by `/` |
| `PathGlob.SwallowsExactly` | crates/rockbot-credentials/src/permissions.rs:236-247 | the scanner swallows a slash exactly at the end of such a run |
| `PathGlob.SwallowingAcceptsMore` | crates/rockbot-credentials/src/permissions.rs:240-243 | dropping the slash after `**` only ever accepts more paths |
| `PathGlob.SwallowedSlashExample` | crates/rockbot-credentials/src/permissions.rs:240-243 | a concrete pattern and path on which code and documentation differ |
| `RuleChoice.PermissionEvaluator.Evaluate` | crates/rockbot-credentials/src/permissions.rs:81-131 | the decision is a best applying rule of the endpoint, none that applies being more specific or as specific and more restrictive, the last such rule; Deny without one |
| `RuleChoice.Choose` | crates/rockbot-credentials/src/permissions.rs:90-131 | the same for one list of rules |
| `RuleChoice.FindMatches` | crates/rockbot-credentials/src/permissions.rs:91-94 | exactly the rules whose method and pattern fit, in order |
| `RuleChoice.SortByScore` | crates/rockbot-credentials/src/permissions.rs:104-105 | a stable sort by descending exactness, pattern length and method constraint, a permutation of its input |
| `RuleChoice.InsertByScore` | crates/rockbot-credentials/src/permissions.rs:104-105 | one step of it keeps order and stability |
| `RuleChoice.MostRestrictiveTied` | crates/rockbot-credentials/src/permissions.rs:107-120 | among the leading ties the last of the most restrictive, which nothing in the whole list beats |
| `RuleChoice.DecisionPrefers` | crates/rockbot-credentials/src/permissions.rs:13-19 | the decision comes from an applying rule at least as specific as every other (exact path, then longer pattern, then named method) and, among equally specific ones, at least as strict, Deny before AllowHil2fa before AllowHil before Allow; it is the last such rule |
| `RuleChoice.StrictestDecides` | crates/rockbot-credentials/src/permissions.rs:13-19 | a rule as specific as any other that applies sets a lower bound on strictness, so that a Deny among them denies |
| `RuleChoice.DecisionUnique` | crates/rockbot-credentials/src/permissions.rs:81-131 | rules and request determine the decision |
| `RuleChoice.LevelIgnoresOrder` | crates/rockbot-credentials/src/permissions.rs:13-19 | reordering the rules never changes the level |
| `RuleChoice.ExactRuleWins` | crates/rockbot-credentials/src/permissions.rs:16-16 | if a rule for exactly this path applies, the winner's pattern is the path |
| `RuleChoice.PermissionEvaluator.AddPermission` | crates/rockbot-credentials/src/permissions.rs:51-56 | the rule is appended to its endpoint's list, every other list stays |
| `RuleChoice.PermissionEvaluator.RemovePermission` | crates/rockbot-credentials/src/permissions.rs:59-67 | the first rule with the id is removed from one endpoint that has it, whatever the order of endpoints, and nothing else changes; the result says whether there was one |
| `RuleChoice.RemoveUndoesAdd` | crates/rockbot-credentials/src/permissions.rs:51-67 | removing a newly added rule restores the list |
| `RuleChoice.EvaluatePath` | crates/rockbot-credentials/src/manager.rs:125-162 | the decision is a longest applying rule, among those a most restrictive, the first such; Deny when none applies |
| `RuleChoice.PathDecisionPrefers` | crates/rockbot-credentials/src/manager.rs:125-162 | the decision comes from a longest applying rule, among those from a strictest by the four levels in order, and from the first such |
| `RuleChoice.PathLevelIgnoresOrder` | crates/rockbot-credentials/src/manager.rs:125-162 | reordering the rules never changes the level |
| `RuleChoice.PathDecisionUnique` | crates/rockbot-credentials/src/manager.rs:125-162 | rules and path determine the decision |
| `RuleChoice.EvaluatorsDisagree` | crates/rockbot-credentials/src/manager.rs:182-196 | an example on which the two matchers differ: `a/**` covers `a` in this evaluator and not in the one of permissions.rs |
| `SegmentGlob.PatternMatches` | crates/rockbot-credentials/src/manager.rs:175-180 | true exactly when the segments of the path can be assigned, in consecutive pieces, to the parts of the pattern |
| `SegmentGlob.MatchParts` | crates/rockbot-credentials/src/manager.rs:182-231 | the recursion over parts returns true exactly when such an assignment exists |
| `SegmentGlob.FirstPart` | crates/rockbot-credentials/src/manager.rs:190-228 | an assignment is a choice for the first part and an assignment for the others |
| `SegmentGlob.GlobMatchSegment` | crates/rockbot-credentials/src/manager.rs:235-271 | the index loop returns true exactly when the characters of the segment can be assigned to the pattern characters |
| `SegmentGlob.OnlyStarsLeft` | crates/rockbot-credentials/src/manager.rs:266-270 | what is left of a pattern fits nothing exactly when it is all stars |
| `SegmentGlob.EarlierStarForgotten` | crates/rockbot-credentials/src/manager.rs:244-251 | an earlier star need not be retried once a further star is reached |
| `SegmentGlob.FitsIsAssigned` | crates/rockbot-credentials/src/manager.rs:235-271 | reading from the left, one pattern character at a time, decides the assignment |
| `SegmentGlob.AssignedByHead` | crates/rockbot-credentials/src/manager.rs:190-228 | assignments, of segments or of characters, decompose at the head |
| `SegmentGlob.SplitRoundTrip` | crates/rockbot-credentials/src/manager.rs:176-177 | splitting cuts at every slash and nowhere else: joining restores the text and no part holds a slash |
| `SegmentGlob.SplitFirst` | crates/rockbot-credentials/src/manager.rs:176-177 | the first part ends at the first slash |
| `GlobAgreement.MatchersAgree` | crates/rockbot-credentials/src/manager.rs:175-271 | this matcher and the one of permissions.rs accept the same paths for the compatible patterns, among them `**`, `**/*b`, `a/**/*b` and every pattern without `**` and `?` |
| `GlobDifference.AgreeExactly` | crates/rockbot-credentials/src/manager.rs:175-271 | if stars stand side by side only as a whole segment `**`, the two matchers accept the same paths exactly when the pattern is `**`, or `?` occurs only in segments with a star, every `**` is followed by another or by a segment with a star among its leading wildcards, and the last two segments are not `**` and `*` |
| `ApprovalProtocol.ReleaseIsJustified` | crates/rockbot-credentials/src/manager.rs:541-616 | over all interleavings, a credential is released only to a request for which the rules in force when it asked gave Allow, or gave AllowHil and its own approval was opened and answered yes, which later found the flag unlocked, and only from an open vault |
| `ApprovalProtocol.FinishedExactly` | crates/rockbot-credentials/src/manager.rs:399-616 | over all interleavings, a finished request holds the credential exactly if an earlier step read an open vault for it, authorized and found unlocked, and does not exactly if an earlier step refused it: it was asked under Deny or AllowHil2fa, its own approval was answered no, it timed out and was cleaned up, it found the flag locked, or it read a closed vault or an unresolved path |
| `ApprovalProtocol.CanAlwaysEnd` | crates/rockbot-credentials/src/manager.rs:399-616 | no request is ever stuck: it can still be finished, and it can still be released exactly unless its approval was denied or timed out or it has been refused |
| `ApprovalProtocol.InvariantHolds` | crates/rockbot-credentials/src/manager.rs:347-429 | after every step of every run each request's phase is explained by earlier steps and each table entry belongs to a request in the right phase |
| `ApprovalProtocol.StepTracked` | crates/rockbot-credentials/src/manager.rs:347-429 | every step keeps table and requests consistent |
| `ApprovalProtocol.WaitingIsPending` | crates/rockbot-credentials/src/manager.rs:399-416 | a request without a reply has its approval in the table, so its channel stays open and the closed-channel branch is not reached |
| `ApprovalProtocol.QuiescentIsEmpty` | crates/rockbot-credentials/src/manager.rs:426-429 | whenever every request is done the table is empty |
| `ApprovalProtocol.RemovedOnce` | crates/rockbot-credentials/src/manager.rs:347-360 | each opened approval is taken out of the table exactly once, never before it is opened and never again |
| `ApprovalProtocol.FlagFollowsVault` | crates/rockbot-credentials/src/manager.rs:485-504 | between lock and unlock calls the flag says whether the vault is closed |
| `CredentialManager.Manager.BeginRequest` | crates/rockbot-credentials/src/manager.rs:541-555 | evaluates the rules once, and that decision is the one the protocol step admits |
| `CredentialManager.Manager.OpenApproval` | crates/rockbot-credentials/src/manager.rs:363-397 | stores the reply sender under its fresh id, as the protocol step does |
| `CredentialManager.ReplySent` | crates/rockbot-credentials/src/manager.rs:347-360 | sending a reply through the held sender and dropping the sender is the protocol step for the approval's own request and leaves every other channel alone |
| `CredentialManager.Manager.RespondToApproval` | crates/rockbot-credentials/src/manager.rs:347-360 | succeeds exactly when the id is pending, and then its sender is used and gone |
| `CredentialManager.Manager.EndWait` | crates/rockbot-credentials/src/manager.rs:408-422 | what the request finds in its channel is the reply recorded for it; it times out only without one |
| `CredentialManager.Manager.CleanupExpiredApproval` | crates/rockbot-credentials/src/manager.rs:426-429 | takes the expired approval out of the table |
| `CredentialManager.Manager.RemovePermission` | crates/rockbot-credentials/src/manager.rs:110-117 | removes the first rule with the id and says whether there was one |
| `CredentialManager.Manager.Section` | crates/rockbot-credentials/src/manager.rs:485-615 | adding a rule, the two halves of locking and unlocking and the two of a retrieval are protocol steps; a retrieval passes exactly when the flag is clear, and then when the vault is open and the path resolves |
| `RemoteDispatch.ReturnsFirstOwnResponse` | crates/rockbot-client/src/remote_exec.rs:408-475 | over all interleavings, a dispatch that returns a response returns the first one sent for its own request id after it began |
| `RemoteDispatch.ReturnsNoneExactly` | crates/rockbot-client/src/remote_exec.rs:453-474 | a dispatch that has returned came back empty exactly if it timed out before any response had been sent for its id |
| `RemoteDispatch.CanAlwaysDrain` | crates/rockbot-client/src/remote_exec.rs:345-600 | whatever has happened, every dispatch can still return and every cleanup end, after which both tables are empty and executors may register and unregister |
| `RemoteDispatch.ReplyIsFinal` | crates/rockbot-client/src/remote_exec.rs:547-560 | once a dispatch has its reply no later response replaces it |
| `RemoteDispatch.ChunksAreExactly` | crates/rockbot-client/src/remote_exec.rs:563-587 | a dispatch that asked for output has received exactly the chunks sent for its id while it was pending, in order, and any other none |
| `RemoteDispatch.IdsAreOwnedOnce` | crates/rockbot-client/src/remote_exec.rs:422-451 | no two dispatches share a request id |
| `RemoteDispatch.WaitingIsSafe` | crates/rockbot-client/src/remote_exec.rs:419-453 | while a dispatch waits, its channel is unused and open, its executor is registered and cannot be unregistered |
| `RemoteDispatch.QuiescentIsEmpty` | crates/rockbot-client/src/remote_exec.rs:589-600 | when every dispatch has returned and every cleanup has ended, the pending and the recently-completed tables are empty |
| `RemoteDispatch.StepTracked` | crates/rockbot-client/src/remote_exec.rs:408-600 | every step keeps the tables, dispatches and cleanups consistent |
| `RemoteDispatch.AlwaysTracked` | crates/rockbot-client/src/remote_exec.rs:408-600 | so they are consistent after every run |
| `RemoteDispatch.AlwaysExplained` | crates/rockbot-client/src/remote_exec.rs:408-475 | after every run each dispatch's phase is explained by the first response sent for its id |
| `RemoteExecutors.Registry.BeginDispatch` | crates/rockbot-client/src/remote_exec.rs:418-451 | returns at once unless the executor has a session; otherwise registers the senders under the fresh id, an output sender only if the caller asked for output |
| `RemoteExecutors.ReplyArrives` | crates/rockbot-client/src/remote_exec.rs:547-560 | what a taken response sender is sent reaches the dispatch the id was made for, and no other |
| `RemoteExecutors.Registry.DeliverResponse` | crates/rockbot-client/src/remote_exec.rs:547-560 | takes the response sender of a pending id at most once, as the protocol step does |
| `RemoteExecutors.ChunkArrives` | crates/rockbot-client/src/remote_exec.rs:563-587 | what an output sender is sent reaches the dispatch the id was made for, after its earlier chunks |
| `RemoteExecutors.Registry.DeliverOutput` | crates/rockbot-client/src/remote_exec.rs:563-587 | forwards a chunk through the output sender registered under its id, and drops it when there is none |
| `RemoteExecutors.Registry.EndWait` | crates/rockbot-client/src/remote_exec.rs:453-474 | what the dispatch finds in its channel is the reply recorded for it; it times out only without one |
| `RemoteExecutors.Registry.RemovePending` | crates/rockbot-client/src/remote_exec.rs:453-600 | takes the id of a timed-out or cleaned-up call out of the table |
| `RemoteExecutors.Registry.Section` | crates/rockbot-client/src/remote_exec.rs:345-600 | clients come and go and cleanups note and forget ids as the protocol steps do |
| `AuditChain.HexRoundTrip` | crates/rockbot-credentials/src/types.rs:497-520 | decoding an encoding gives the bytes back |
| `AuditChain.DecodedLength` | crates/rockbot-credentials/src/types.rs:508-520 | a decodable text is twice as long as its bytes |
| `AuditChain.EncodedAt` | crates/rockbot-credentials/src/types.rs:497-503 | byte i is encoded as the lower-case digits of its quotient and remainder by 16 at 2i and 2i + 1 |
| `AuditChain.DecodesExactly` | crates/rockbot-credentials/src/types.rs:508-520 | a text can be decoded exactly when it consists of pairs whose second is a hexadecimal digit of either case and whose first is one too or a plus sign |
| `AuditChain.VerifyLines` | crates/rockbot-credentials/src/audit.rs:154-259 | reports valid exactly for a clean file, and otherwise the counts of the longest clean prefix |
| `AuditChain.AuditLog.Verify` | crates/rockbot-credentials/src/audit.rs:154-259 | the same for the log's file |
| `AuditChain.ReadLastEntry` | crates/rockbot-credentials/src/audit.rs:57-81 | yields the last entry's hash and the next number, and fails exactly on an unreadable line or hash |
| `AuditChain.AuditLog.Reopen` | crates/rockbot-credentials/src/audit.rs:34-54 | restores hash and number from the file, which stays as it is |
| `AuditChain.AuditLog.Append` | crates/rockbot-credentials/src/audit.rs:103-151 | accepts exactly an entry that links to the last hash with the next number and a right hash; then adds one line and moves on; otherwise changes nothing and names the first check that failed |
| `AuditChain.BuiltIsAccepted` | crates/rockbot-credentials/src/audit.rs:375-398 | an entry from the builder is always accepted by the log that made it |
| `AuditChain.BuildKeepsDraft` | crates/rockbot-credentials/src/audit.rs:375-398 | the builder sets the number, the encoded link and the encoded hash, and leaves every other field as given |
| `AuditChain.FirstEntry` | crates/rockbot-credentials/src/audit.rs:34-54 | the first entry of an empty log has number 1 and a link of 64 zeros |
| `AuditChain.AppendKeepsWellBuilt` | crates/rockbot-credentials/src/audit.rs:103-151 | an accepted entry keeps the file clean, numbered and in step with the log's state |
| `AuditChain.BuiltLogVerifies` | crates/rockbot-credentials/src/audit.rs:34-259 | any log built from empty by any attempts to append verifies with both counts equal to its length, and reopening restores the same hash and next number |
| `AuditChain.IntactAppend` | crates/rockbot-credentials/src/audit.rs:103-151 | a chain with one more entry is intact exactly when the chain was and the entry links to its end |
| `AuditChain.LineAdded` | crates/rockbot-credentials/src/audit.rs:164-250 | how one more line changes cleanness and entries |
| `AuditChain.PrefixIsClean` | crates/rockbot-credentials/src/audit.rs:154-259 | cutting lines off the end of a clean file goes unnoticed |
| `AuditChain.FinalHashFixesBytes` | crates/rockbot-credentials/src/audit.rs:402-432 | two intact chains that reach the same hash after n entries hash the same bytes at each of the n positions, or exhibit a collision |
| `AuditChain.EqualEndsAgree` | crates/rockbot-credentials/src/audit.rs:154-259 | the same for two files that pass verification with equally many entries and the same last hash |
| `AuditChain.BytesSpelled` | crates/rockbot-credentials/src/audit.rs:402-432 | the hashed bytes are eight bytes of the number, lowest first, and then the twelve text fields and the link in order, an absent optional field as nothing |
| `AuditChain.OneFieldShows` | crates/rockbot-credentials/src/audit.rs:402-432 | entries that differ in one field only never hash the same bytes |
| `AuditChain.BytesFixSequence` | crates/rockbot-credentials/src/audit.rs:402-432 | equal hashed bytes mean equal sequence numbers |
| `AuditChain.BuiltLogsAgree` | crates/rockbot-credentials/src/audit.rs:34-151 | two logs of fewer than 2^64 entries, built by appending, that end in the same hash are equally long with the same bytes throughout, or the hash collides on two of their entries, or the last entry of one hashes to the value of an empty log |
| `AuditChain.FieldsFixedExactly` | crates/rockbot-credentials/src/audit.rs:402-432 | for entries with the same hashed bytes, the fields are the same exactly when corresponding fields are equally long |
| `AuditChain.FieldBoundaryNotFixed` | crates/rockbot-credentials/src/audit.rs:402-432 | moving text between path and parameter hash keeps the bytes and so the link |

## Left out

- Model calls, streaming, retries, timeouts in wall-clock time, token counting and prompt text:
  arbitrary answers and arbitrary decisions to compact stand for them.
- The streaming tool loop of `agent.rs`: its handoff and critical exits leave calls without results
  on purpose.
- ToolExecution.ExecuteToolCalls: takes what hooks, approvals, executors and tools answer, and the
  text pushed for each way a call can end, as arbitrary, and leaves out guardrails and progress
  events.
- The rules by which texts are read (acknowledgement, announcement, question, removal of think
  blocks): arbitrary functions of the text.
- Failures of the session store while messages are persisted: the error ends the run half way.
- Hint, reminder and summary texts: arbitrary.
- Compaction.FindSafeCompactionBoundary: asks for a positive number of messages to keep unless the
  history is empty, because the code indexes past the end otherwise; its callers keep 8, 12 or 20.
- WorkflowExecution.Execute: does not model progress events or the session id.
- A panicking node task: it would count as executed and stay uncompleted, and could run again.
- The matching of `Contains` and regular-expression conditions: an arbitrary predicate.
- AgentStats.Agent.UpdateStats: does not model 64-bit overflow of the sums.
- Reasons and messages that accompany decisions and errors.
- Cancellation of a waiting credential request: dropping it would leave its pending entry.
- ApprovalProtocol.ReleaseIsJustified: the parsing of credential paths and decryption are one
  arbitrary outcome, found or not.
- Two-factor approval: the code refuses these requests, and so does the model.
- The choice of an executor, its capabilities and its workspace path.
- `dispatch_to_target` differs from `dispatch` only in how the executor is found and is the same
  event here.
- Cryptography, file access, JSON, key management, stored credentials and vault grants.
- AuditChain.VerifyLines: leaves out the error text with its line number.
- GlobDifference.AgreeExactly: does not decide for patterns with two adjacent stars inside a longer
  segment, such as `a**`, whether the two matchers agree on them.
- Byte offsets inside multi-byte characters, where the globs slice and previews cut.
- The swarm blackboard, channels, command line, user interfaces, deployment, indexing, skills and
  configuration.
