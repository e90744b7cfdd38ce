# Verified models of an incident-response agent platform

Dafny models of the pieces of the platform that carry its guarantees, with machine-checked proofs of
those guarantees. `dafny verify dfyconfig.toml` checks everything.

| file | what it models |
|---|---|
| `Graphs.dfy` | paths, cycles and topological orders of finite multigraphs |
| `PlaybookCompiler.dfy` | cycle detection by Kahn's algorithm, and the acceptance of playbooks |
| `PlaybookExecutor.dfy` | the graph built from an accepted playbook, and its runs |
| `Substitution.dfy`, `PromptFence.dfy`, `PromptFenceTags.dfy` | pattern substitution, the fence around untrusted text, and the ways a tag can be written |
| `CircuitBreaker.dfy` | the circuit breaker and its exponential backoff |
| `ConnectionPool.dfy`, `ConnectionPoolRuns.dfy` | the bounded pool of connections with consumers and eviction, and what its operations mean for its users |
| `TlpFilter.dfy`, `RetryAdapter.dfy` | the TLP:RED filter, and the retry loop around tool calls |
| `Orchestrator.dfy`, `OrchestratorRuns.dfy`, `OrchestratorVisits.dfy` | the eleven nodes of an investigation, their runs, and what single visits contribute to a run |
| `Lineage.dfy` | the hash chain of evidence records |
| `Revocation.dfy` | token revocation on two back ends |
| `ContextCascade.dfy`, `ContextAccounts.dfy` | the four layers that reduce a conversation to a token budget, what the budget counts, and what is told of the messages that are gone |
| `Powers.dfy`, `Results.dfy` | powers of two; `Option` and `Result` |

Code that changes state is modelled as classes and loops, each proved against a function on values; the
properties of whole runs are lemmas about those functions. Code made of expressions is modelled as functions.

## Findings

Places where the code does not do what its text says. Each has a lemma with the exact condition.

- **A payload can still swallow the end of its own fence** (`shared/btagent_shared/prompt_fence.py:55-74`).
  No tag survives in the payload, but a tag that the payload begins and never closes is completed by the
  wrapper's closing tag. The second tag of the output is the closing tag exactly if the payload leaves no such
  beginning: `WrappedShowsTwoTags`, with `"<" + tag` as an instance in `UnclosedPayloadSwallowsTheFence`.
- **The investigation can loop** (`agents/btagent_agents/orchestrator/edges.py:93-124`). The comment "this cannot
  loop" is right for the `continue` edge but not for the `knowledge` edge below it, which stays enabled. Every
  run ends within 9 visits unless it is `Doomed`, a condition on the state, the inputs of the first visits and a
  non-empty `knowledge_context`; a doomed run goes back for knowledge again and again:
  `EndsWithinNineOrNever`, `DoomedRunLoops`. With knowledge at hand and no action pending, every message
  classified as a request for enrichment is an instance: `EnrichmentRequestIsDoomed`.
- **An old message can approve** (`agents/btagent_agents/orchestrator/nodes.py:924-932`). A checkpoint resumed
  without a reply reads the last human message, whatever it was about. It approves exactly if that message is
  not empty and reads as approval: `UnansweredCheckpointApprovesIff`. For any reading of texts, a run without
  replies executes what was pending exactly if the message it started with reads as approval:
  `OldMessageDecides`, with `OldMessageApproves` as an instance. "Approved" below has this meaning.
- **An altered record does not invalidate every later one**
  (`engine/btagent_engine/middleware/evidence_chain.py:5-7`). Of the later records the next one alone can be
  invalidated, and is exactly if the altered record has another link hash: `AlterationIsLocated`.
- **The separator argument is a condition on the inputs** (`engine/btagent_engine/middleware/evidence_chain.py:88-90`).
  Node and run ids are strings of any kind. A record is determined by its hash exactly if none of its hashed
  fields holds the separator: `HashDeterminesFieldsIff`. The other record can have the same time, whose ISO form
  never holds it: `SeparatorInFieldIsAmbiguous`.
- **"Log back in immediately" needs the next second** (`backend/btagent_backend/auth/revocation.py:272-275`).
  A login is refused exactly within the second of the revocation: `FreshLoginNeedsTheNextSecond`.
- **A revocation does not survive a change of the back end** (`backend/btagent_backend/auth/revocation.py:182-192`).
  A back end answers right at all times exactly if it took the last write of the key, or holds one with the same
  expiry: `BackendAnswersRightIff`.
- **The backoff formula is cut off twice** (`agents/btagent_agents/mcp/registry.py:131-141`). The wait follows the
  formula exactly unless the exponent stops at 32 before the maximum is reached: `WaitIsTheFormulaIff`. It
  exceeds the maximum exactly for a breaker that did not trip and a base above it: `WaitExceedsTheCapIff`.
- **A TLP refusal is reported as a success and then as a failure**
  (`agents/btagent_agents/mcp/adapters.py:112-155`), and is retried. That happens exactly if the result is RED,
  the investigation is, or what the filter leaves is too deep: `RefusalIsReportedTwiceIff`. Any number of refusals
  in a row trips a closed circuit exactly if its threshold is one: `RefusalsTripIff`.
- **The filter's scan refuses deep results** (`shared/btagent_shared/security/tlp.py:109-134`). What has no RED
  tag but nests deeper than 64 levels is refused like RED data: `ScanMeaning`, with `DeepResultsAreRefused` for
  nested objects of every depth.
- **Summarising a short conversation repeats its system message**
  (`agents/btagent_agents/context/cascade.py:273-291`), and so does keeping no message at all, whose slice takes
  every message: `SystemMessageOnceIff`.
- **Externalising contents that are not strings can raise the estimate**
  (`agents/btagent_agents/context/cascade.py:62-106`). It does so exactly if the references are estimated higher
  than the contents they replace, which can be computed beforehand: `ExternalizingChangesBy`,
  `ExternalizingRaisesIff`, with `ExternalizingTextlessRaises` as a family of instances.

- **A reference calls characters bytes** (`agents/btagent_agents/context/cascade.py:95-100`). The number it shows is
  the size in bytes exactly for a content in ASCII: `ShownSizeIsBytesIff`.
- **The keepalive thread has no effect** (`agents/btagent_agents/mcp/registry.py:491-499`). It moves the time of the
  last use of connections in use, which are never evicted, and the last release sets that time anew. Whenever it
  runs, every get is answered as without it: `KeepaliveIsInvisible`.
- **No get ever reconnects** (`agents/btagent_agents/mcp/registry.py:551-558`). No operation disconnects, so every
  connection of every reachable pool is healthy: `PoolStaysUsable`.

## Model

| member | source | states |
|---|---|---|
| PlaybookCompiler.SuccessorsAreKnownReferences | agents/btagent_agents/playbook/compiler.py:191-207 | a step's successors are exactly the existing ids it names by next step, either branch of a decision or a branch of a fork; an empty id is found by a fork only |
| PlaybookCompiler.CollectSuccessors | agents/btagent_agents/playbook/compiler.py:192-207 | the loop over a step's references finds those successors, in order and with repetitions |
| PlaybookCompiler.EdgeListMeaning | agents/btagent_agents/playbook/compiler.py:191-211 | there is an edge from a to b exactly if some step with id a has b as a successor; ids need not be unique |
| PlaybookCompiler.EdgesStayInside | agents/btagent_agents/playbook/compiler.py:194-207 | no edge leaves the set of step ids: a dangling reference adds none |
| PlaybookCompiler.AddEdges | agents/btagent_agents/playbook/compiler.py:209-211 | adding a step's successors keeps adjacency lists and in-degrees a description of all edges so far |
| PlaybookCompiler.BuildGraph | agents/btagent_agents/playbook/compiler.py:187-211 | adjacency lists and in-degrees describe the whole multigraph, self-loops and repeated edges included |
| PlaybookCompiler.InitialQueue | agents/btagent_agents/playbook/compiler.py:213 | the queue starts with exactly the ids without incoming edge, each once |
| PlaybookCompiler.Relax | agents/btagent_agents/playbook/compiler.py:218-221 | after a pop the in-degrees count the edges from steps not yet popped, and the queue gains exactly the steps that became free |
| PlaybookCompiler.PopKeepsInvariant | agents/btagent_agents/playbook/compiler.py:215-221 | popping the queue's head extends a topological order by a step not popped before |
| PlaybookCompiler.KahnVerdict | agents/btagent_agents/playbook/compiler.py:223-228 | when the queue is empty the steps with positive in-degree are exactly those reachable from a cycle, and the popped ones are the rest |
| PlaybookCompiler.AllOrderedIffAcyclic | agents/btagent_agents/playbook/compiler.py:224 | fewer steps were popped than there are ids exactly if the graph has a cycle |
| PlaybookCompiler.ValidateDag | agents/btagent_agents/playbook/compiler.py:182-228 | for any list of steps: no error exactly if the multigraph is acyclic; otherwise one error naming exactly the steps reachable from a cycle, and the popped ids are a topological order of the others |
| PlaybookCompiler.ValidateBranches | agents/btagent_agents/playbook/compiler.py:161-180 | branches pass exactly if neither their number nor a length exceeds its limit and no reference is empty |
| PlaybookCompiler.Compile | agents/btagent_agents/playbook/compiler.py:248-281 | a playbook is accepted, unchanged, exactly if it has at most the allowed number of legal steps with distinct ids and no cycle; an error names the first offending position or the steps below a cycle |
| PlaybookExecutor.CompileToGraph | agents/btagent_agents/playbook/executor.py:51-105 | the built graph has one node for each id, the first step as entry, and for each node the END edge, the router or the resolved next step |
| PlaybookExecutor.StepHandsOver | agents/btagent_agents/playbook/executor.py:80-105 | a step other than a decision or an end hands over to its next step exactly if that is a non-empty id of the playbook, and otherwise to END |
| PlaybookExecutor.DecisionFollowsItsCondition | agents/btagent_agents/playbook/executor.py:203-231 | a decision goes to the branch its condition chose; if that is no step, to the branch a second evaluation chooses; if that is none either, to END |
| PlaybookExecutor.TransitionIsValidatedEdge | agents/btagent_agents/playbook/executor.py:80-105 | every transition between two nodes is an edge the validator checked |
| PlaybookExecutor.RunFollowsEdges | agents/btagent_agents/playbook/executor.py:80-105 | the visits of any run, whatever its decisions yield, form a path of the validated graph |
| PlaybookExecutor.RunEndsWhereItMay | agents/btagent_agents/playbook/executor.py:68-105 | every run begins at the first step and is over only after an end step, or after one whose next step, or one of whose branches, is absent or no step |
| PlaybookExecutor.ResultsFollowTrail | agents/btagent_agents/playbook/executor.py:120-181 | the results of any run are those of its visits in their order, one for each visit to a step other than a join or an end |
| PlaybookExecutor.AcceptedPlaybookTerminates | agents/btagent_agents/playbook/executor.py:51-105 | an accepted playbook reaches END within as many visits as it has steps, for all decision outcomes; no step is visited twice or has two results |
| Substitution.FindAllInOrder | shared/btagent_shared/prompt_fence.py:55-64 | the matches an iteration yields are in order and do not overlap |
| Substitution.FindAllSound | shared/btagent_shared/prompt_fence.py:55-64 | each of them is a match at its position |
| Substitution.FindAllComplete | shared/btagent_shared/prompt_fence.py:55-64 | every position where the pattern matches lies inside one of them |
| Substitution.ReplaceRewritesTheMatches | shared/btagent_shared/prompt_fence.py:62-64 | substitution rewrites exactly those regions and keeps every other character in order, for any pattern and rewriting |
| PromptFence.TagNamesAreUsable | shared/btagent_shared/prompt_fence.py:40 | the program's tag names satisfy what the theorems ask of a list of names |
| PromptFence.ScannerMatchesPattern | shared/btagent_shared/prompt_fence.py:49-52 | the scanner matches n characters exactly where the regular expression, read declaratively, does |
| PromptFenceTags.SpellingIsCaseBlind | shared/btagent_shared/prompt_fence.py:46-52 | a name is found exactly where each of its letters stands in either case, or the Kelvin sign for a k |
| PromptFenceTags.TagInAnyWriting | shared/btagent_shared/prompt_fence.py:43-52 | every writing of a tag is matched up to its closing bracket: any mix of cases, opening or closing, white space around the slash, any attributes |
| PromptFenceTags.LongerNameIsNoTag | shared/btagent_shared/prompt_fence.py:43-52 | a name that goes on with a word character is no tag |
| PromptFence.NeutralizedHasNoTags | shared/btagent_shared/prompt_fence.py:55-64 | the neutralised text has no tag at any position |
| PromptFence.NeutralizeIsIdempotent | shared/btagent_shared/prompt_fence.py:55-64 | text without tags is left alone, and neutralising twice is neutralising once |
| PromptFence.NeutralizeEscapesTheMatches | shared/btagent_shared/prompt_fence.py:62-64 | only the matched regions change; every other character is kept in order |
| PromptFence.EscapeIsTwoReplacements | shared/btagent_shared/prompt_fence.py:62-64 | escaping a region is replacing one bracket after the other |
| PromptFence.EscapeIsReversible | shared/btagent_shared/prompt_fence.py:55-64 | an escaped tag is still legible: undoing the escapes gives back any text without an ampersand |
| PromptFence.RegionIsTag | shared/btagent_shared/prompt_fence.py:49-64 | every rewritten region is a tag of the pattern |
| PromptFence.TagIsInRegion | shared/btagent_shared/prompt_fence.py:49-64 | every tag of the input starts inside a rewritten region |
| PromptFence.UnmatchedStartStaysUnmatched | shared/btagent_shared/prompt_fence.py:55-64 | rewriting later regions never completes a tag that was incomplete before |
| PromptFence.HeadsThatRemain | shared/btagent_shared/prompt_fence.py:55-64 | a tag beginning remains in the output exactly if the payload has one that it never closes |
| PromptFenceTags.TaglessPayloadIsKept | shared/btagent_shared/prompt_fence.py:67-74 | wrapping succeeds exactly for the known tags, and a payload without tags stands between them unchanged |
| PromptFence.WrappedShowsTwoTags | shared/btagent_shared/prompt_fence.py:67-74 | wrapped text shows exactly two tags, the opening one and one that ends the text; the second is the closing tag alone exactly if the payload leaves no tag open |
| PromptFence.UnclosedPayloadSwallowsTheFence | shared/btagent_shared/prompt_fence.py:67-74 | the payload that is a bare tag beginning takes the closing tag into its own |
| Breakers.CircuitBreaker.constructor | agents/btagent_agents/mcp/registry.py:68-105 | a breaker starts closed with all counters at zero |
| Breakers.CircuitBreaker.ComputeRecoveryTimeout | agents/btagent_agents/mcp/registry.py:131-141 | the wait for the current number of cycles |
| Breakers.CircuitBreaker.EffectiveState | agents/btagent_agents/mcp/registry.py:143-158 | looking at an OPEN circuit after its wait makes it HALF_OPEN and resets the successes; nothing else changes |
| Breakers.CircuitBreaker.RecordSuccess | agents/btagent_agents/mcp/registry.py:162-175 | the effect of a success on the raw state, closing and clearing at the threshold |
| Breakers.CircuitBreaker.RecordFailure | agents/btagent_agents/mcp/registry.py:177-206 | the effect of a failure on the raw state, opening from HALF_OPEN or at the threshold |
| Breakers.CircuitBreaker.CheckState | agents/btagent_agents/mcp/registry.py:208-215 | refuses exactly while OPEN, with a positive delay after which, and not before, the circuit lets a call through |
| Breakers.CircuitBreaker.Reset | agents/btagent_agents/mcp/registry.py:217-224 | back to the initial state |
| Breakers.WaitGrowsUpToTheCap | agents/btagent_agents/mcp/registry.py:131-141 | waits after a trip do not decrease with the number of cycles and stay within the cap |
| Breakers.WaitIsTheFormulaIff | agents/btagent_agents/mcp/registry.py:131-141 | the wait is base * 2^(n-1) up to the maximum exactly unless the exponent is cut off before the maximum is reached |
| Breakers.WaitExceedsTheCapIff | agents/btagent_agents/mcp/registry.py:131-141 | a wait exceeds the maximum exactly if no cycle is counted and the base exceeds it |
| Breakers.WaitsDouble | agents/btagent_agents/mcp/registry.py:131-141 | n waits that were not capped sum to base * (2^n - 1) |
| Breakers.CountersAlwaysOk | agents/btagent_agents/mcp/registry.py:143-224 | in every run: CLOSED exactly if no cycle is counted; failures and successes below their thresholds; the cycles are the trips since the last close or reset |
| Breakers.AlwaysScheduled | agents/btagent_agents/mcp/registry.py:143-206 | in every run the last failure is never before the last trip, nor a trip in the future, and half-open comes after the wait |
| Breakers.TripsKeepTheirDistance | agents/btagent_agents/mcp/registry.py:131-206 | the k-th trip comes no earlier than the first plus the waits of the trips between |
| Breakers.BackoffIsExponential | agents/btagent_agents/mcp/registry.py:131-206 | that bound is base * (2^(k-1) - 1) while no wait was capped |
| Breakers.FailureCountIsWorstStretch | agents/btagent_agents/mcp/registry.py:162-206 | while closed the failure count is the largest excess of failures over successes in any stretch up to now |
| Breakers.TripsAtAnExcessOfFailures | agents/btagent_agents/mcp/registry.py:162-206 | a closed circuit trips at a failure exactly if that excess reaches the threshold |
| Breakers.OpenStaysOpen | agents/btagent_agents/mcp/registry.py:143-206 | before the wait is over an open circuit stays open in the same cycle, and failures only postpone it |
| Breakers.OpenCircuitHolds | agents/btagent_agents/mcp/registry.py:143-215 | no interleaving of attempts, successes, failures and state reads admits a call before the last failure plus the current wait |
| Breakers.HalfOpenClosesIff | agents/btagent_agents/mcp/registry.py:162-175 | successes in a row close a half-open circuit, with all counters cleared, exactly when they make up the threshold; until then they are counted and nothing else changes |
| Breakers.OpenRecoversIff | agents/btagent_agents/mcp/registry.py:143-175 | once its wait is over an open circuit admits a call and closes exactly if as many successes follow as the threshold asks for |
| Breakers.FailureSchedulesTheWait | agents/btagent_agents/mcp/registry.py:131-206 | after a failure the circuit is closed exactly if it was and stays below its threshold; otherwise it lets calls through exactly from the wait of its cycle after that failure on |
| TlpFilter.StripRedItems | agents/btagent_agents/mcp/adapters.py:181-214 | the recursion with its accumulators returns the stripped tree and the number of outermost RED nodes below the root |
| TlpFilter.TaggedIff | agents/btagent_agents/mcp/adapters.py:170-178 | an object is RED exactly if one of four fields is a string that reads red in any case |
| TlpFilter.StrippedHasNoRed | agents/btagent_agents/mcp/adapters.py:181-214 | a tree whose root is not RED has no RED node at any depth afterwards |
| TlpFilter.CountIsZeroIffUnchanged | agents/btagent_agents/mcp/adapters.py:181-214 | the count is zero exactly if the tree is returned unchanged |
| TlpFilter.StripIsIdempotent | agents/btagent_agents/mcp/adapters.py:181-214 | stripping twice is stripping once, with count zero |
| TlpFilter.VisibleIsKept | agents/btagent_agents/mcp/adapters.py:181-214 | nothing else is lost: written out from left to right, what lies outside RED nodes is the same before and after, and RED values are replaced where they stood |
| TlpFilter.RedValueIsReplaced | agents/btagent_agents/mcp/adapters.py:181-214 | a RED value of an object becomes, under its key, the placeholder that says so and why |
| TlpFilter.CountIsOutermostNodes | agents/btagent_agents/mcp/adapters.py:181-214 | the count is the number of paths to RED nodes with no RED node above them |
| TlpFilter.LossIsCounted | agents/btagent_agents/mcp/adapters.py:217-257 | an object without a count of its own has one after the filter exactly if it held something RED, and that is the number of outermost RED nodes |
| TlpFilter.ScanMeaning | shared/btagent_shared/security/tlp.py:109-134 | the scan reports a hit exactly if some node is RED or some branch is deeper than the limit |
| TlpFilter.EnforceOnReturn | agents/btagent_agents/mcp/adapters.py:217-257 | a result passes exactly if it is not RED, the investigation is not, and what remains can be scanned; nothing RED passes and a clean result passes unchanged |
| TlpFilter.DeepResultsAreRefused | shared/btagent_shared/security/tlp.py:109-134 | objects nested n deep without any RED tag pass exactly if n is within the scan depth |
| RetryAdapter.TotalDelayIsBounded | agents/btagent_agents/mcp/adapters.py:162-164 | n delays stay within base * (2^n - 1), and reach it if none was capped |
| RetryAdapter.DelayIsCapped | agents/btagent_agents/mcp/adapters.py:162-164 | a delay is base * 2^(n-1) below the cap and the cap from there on; delays do not shrink |
| RetryAdapter.ResilientAdapter.Report | agents/btagent_agents/mcp/adapters.py:129-145 | what is reported after a call: nothing, a failure, a success, or a success and a failure for a refusal |
| RetryAdapter.VerdictMeaning | agents/btagent_agents/mcp/adapters.py:129-145 | an attempt succeeds exactly with a returned result that passes, which is filtered; it gives up exactly if the tool reports an open circuit; it is retried exactly for an exception or a refusal |
| RetryAdapter.ReportsEffect | agents/btagent_agents/mcp/adapters.py:129-145 | an exception counts as one failure, a result that passes as one success, an open circuit reported by the tool as neither |
| RetryAdapter.RaisingTripsIff | agents/btagent_agents/mcp/adapters.py:140-145 | a tool that raises on every call opens a closed circuit exactly with the call that makes up the threshold |
| RetryAdapter.PassingRecoversIff | agents/btagent_agents/mcp/adapters.py:129-138 | after the wait, calls that pass close the circuit exactly if they are as many as its threshold asks for; until then it stays half-open |
| RetryAdapter.ResilientAdapter.AttemptOnce | agents/btagent_agents/mcp/adapters.py:112-152 | one attempt: whether the circuit blocks it, how it ends, and exactly what the breaker sees, with what others do to it during the call |
| RetryAdapter.ResilientAdapter.AttemptNext | agents/btagent_agents/mcp/adapters.py:110-152 | an attempt extends the account of an execution by its own reports |
| RetryAdapter.ResilientAdapter.Sleep | agents/btagent_agents/mcp/adapters.py:149-152 | the delay after an attempt, during which others may use the breaker |
| RetryAdapter.ResilientAdapter.Execute | agents/btagent_agents/mcp/adapters.py:87-160 | at most the allowed attempts and calls; the time slept, at most base * (2^(max_retries-1) - 1); every change of the shared breaker is one the attempts report or others make meanwhile; what is returned holds nothing RED; result and error are those of the last attempt |
| RetryAdapter.NoCallWhileOpen | agents/btagent_agents/mcp/adapters.py:110-152 | an execution that begins under an open circuit and ends before its wait is over does not call the tool, whatever others do with the breaker meanwhile |
| RetryAdapter.CallsAreAdmitted | agents/btagent_agents/mcp/adapters.py:110-130 | each call an execution makes is an attempt the breaker admitted |
| RetryAdapter.CallsAwaitTheWait | agents/btagent_agents/mcp/adapters.py:110-130 | every call of an execution that begins under an open circuit, and of others meanwhile, starts no earlier than the last failure plus the wait |
| RetryAdapter.RefusalIsReportedTwiceIff | agents/btagent_agents/mcp/adapters.py:129-145 | a success followed by a failure is reported exactly for a returned result that is RED, in a RED investigation, or too deep once filtered |
| RetryAdapter.RefusalsTripIff | agents/btagent_agents/mcp/registry.py:162-206 | any number of refusals in a row leaves a closed circuit closed exactly if its threshold exceeds one, counting for one failure at most, and otherwise open |
| RetryAdapter.OkIsClean | agents/btagent_agents/mcp/adapters.py:129-138 | a successful attempt returns nothing RED |
| ConnectionPool.ManagedConnection.AddConsumer | agents/btagent_agents/mcp/registry.py:301-303 | records the consumer and the time of use |
| ConnectionPool.ManagedConnection.RemoveConsumer | agents/btagent_agents/mcp/registry.py:305-308 | forgets the consumer; idling starts when the last one is gone |
| ConnectionPool.ManagedConnection.Reconnect | agents/btagent_agents/mcp/registry.py:361-372 | reconnecting always succeeds here, and resets the breaker |
| ConnectionPool.ManagedConnection.Acquire | agents/btagent_agents/mcp/registry.py:545-558 | a known connection is refused under an open circuit, reconnected if unhealthy, and leased |
| ConnectionPool.ConnectionRegistry.EvictIdleConnections | agents/btagent_agents/mcp/registry.py:501-519 | removes exactly the connections without consumer that idled beyond the timeout, and counts them |
| ConnectionPool.ConnectionRegistry.NewConnection | agents/btagent_agents/mcp/registry.py:571-580 | adds a fresh connection and changes no other |
| ConnectionPool.ConnectionRegistry.GetConnection | agents/btagent_agents/mcp/registry.py:523-580 | the new pool and the error of a get, and whether the object returned is the known or a fresh one |
| ConnectionPool.ConnectionRegistry.ReleaseConnection | agents/btagent_agents/mcp/registry.py:582-594 | releases one consumer of one connection; unknown names change nothing |
| ConnectionPool.ConnectionRegistry.RunHealthChecks | agents/btagent_agents/mcp/registry.py:470-489 | every connection is healthy exactly if connected, then idle ones are evicted |
| ConnectionPool.ConnectionRegistry.RunKeepalive | agents/btagent_agents/mcp/registry.py:491-499 | touches exactly the connected connections in use |
| ConnectionPool.ConnectionRegistry.RecordSuccess | agents/btagent_agents/mcp/registry.py:635-641 | reports to the breaker of that connection and touches it; no other changes |
| ConnectionPool.ConnectionRegistry.RecordFailure | agents/btagent_agents/mcp/registry.py:643-648 | reports to the breaker of that connection; no other changes |
| ConnectionPool.StepStaysBounded | agents/btagent_agents/mcp/registry.py:560-580 | no operation takes the pool beyond its maximum |
| ConnectionPool.PoolStaysBounded | agents/btagent_agents/mcp/registry.py:501-594 | over any sequence of operations the pool stays within its maximum |
| ConnectionPool.StepKeepsLease | agents/btagent_agents/mcp/registry.py:301-308 | only a consumer's own release ends its lease |
| ConnectionPool.LeaseHolds | agents/btagent_agents/mcp/registry.py:501-594 | over any sequence of operations a leased connection stays in the pool and leased: it is never evicted |
| ConnectionPool.GetLeases | agents/btagent_agents/mcp/registry.py:523-580 | a successful get leases; one without room or configuration adds nothing |
| ConnectionPoolRuns.GetErrors | agents/btagent_agents/mcp/registry.py:523-580 | a get is refused exactly for an open circuit within its wait, for a full pool in which too few connections idle beyond the timeout, or for a new name without configuration |
| ConnectionPoolRuns.GetHandsOut | agents/btagent_agents/mcp/registry.py:545-580 | what a get hands out is healthy and has the named consumer beside those it had; a new or reconnected connection has a fresh breaker; an unnamed consumer is not recorded and is no use |
| ConnectionPoolRuns.GetLeavesOthers | agents/btagent_agents/mcp/registry.py:560-580 | a get changes no other connection, and removes one exactly if a new one needs room in a full pool and that one idled beyond the timeout |
| ConnectionPoolRuns.ReleaseEndsLease | agents/btagent_agents/mcp/registry.py:582-594 | a release ends the lease of that consumer on that connection, and no other |
| ConnectionPoolRuns.StepKeepsIff | agents/btagent_agents/mcp/registry.py:501-580 | an operation drops a connection exactly if it evicts and that connection idled beyond the timeout without consumer |
| ConnectionPoolRuns.StepTouches | agents/btagent_agents/mcp/registry.py:301-311 | the time of the last use moves exactly with a get by a named consumer, a success, the release that leaves no consumer, and the keepalive of a connection in use |
| ConnectionPoolRuns.HealthIsConnection | agents/btagent_agents/mcp/registry.py:336-358 | a health check finds exactly the connected ones healthy |
| ConnectionPoolRuns.ReleasedConnectionGoes | agents/btagent_agents/mcp/registry.py:501-594 | a connection released by its last consumer and not asked for since is gone after the first eviction later than the idle timeout, whatever happens in between |
| ConnectionPoolRuns.PoolStaysUsable | agents/btagent_agents/mcp/registry.py:314-372 | over any sequence of operations all connections stay healthy and connected, so no get reconnects one |
| ConnectionPoolRuns.BreakerFollowsNotes | agents/btagent_agents/mcp/registry.py:635-648 | while a consumer has its connection, the breaker goes through exactly the successes and failures noted for it and the checks of the gets, over any sequence of operations |
| ConnectionPoolRuns.KeepaliveIsInvisible | agents/btagent_agents/mcp/registry.py:491-499 | leaving out all keepalives of any sequence of operations changes no answer of a get, no membership and no consumers |
| ConnectionPool.UsedConnectionStays | agents/btagent_agents/mcp/registry.py:501-594 | a connection used at some time stays in the pool for the idle timeout |
| ConnectionPool.FailedGetOnlyEvicts | agents/btagent_agents/mcp/registry.py:560-564 | a get that fails on a full pool removes only connections without consumer idle beyond the timeout, and changes no other |
| Orchestrator.ExtractIocs | agents/btagent_agents/orchestrator/nodes.py:224-248 | the loop yields the matches not known before, each once and in order |
| Orchestrator.MergeEnrichment | agents/btagent_agents/orchestrator/nodes.py:1050-1070 | each indicator gets the verdict filed under its normalised key, with its confidence if there is one, and the malicious ones are counted |
| Orchestrator.DecideActions | agents/btagent_agents/orchestrator/nodes.py:934-952 | all proposed actions are approved or all rejected; others are untouched |
| Orchestrator.ExecuteActions | agents/btagent_agents/orchestrator/graph.py:79-91 | exactly the approved actions are completed |
| OrchestratorRuns.StepComesCloser | agents/btagent_agents/orchestrator/edges.py:60-148 | every visit that does not take the knowledge edge lowers a bound on the visits to come |
| OrchestratorRuns.DoomIsKept | agents/btagent_agents/orchestrator/edges.py:93-124 | being doomed is decided by the first visits and never changes afterwards |
| OrchestratorRuns.EndsWithinNineOrNever | agents/btagent_agents/orchestrator/edges.py:60-128 | every invocation from any state ends within 9 visits unless it is doomed, and then never; without knowledge context none is doomed |
| OrchestratorRuns.DoomedRunLoops | agents/btagent_agents/orchestrator/edges.py:119-124 | a doomed run takes the knowledge edge again within every ten visits |
| OrchestratorRuns.EnrichmentRequestIsDoomed | agents/btagent_agents/orchestrator/edges.py:119-124 | with knowledge and no pending action every message classified as a request for enrichment starts a doomed run |
| OrchestratorRuns.NineVisitsAreReached | agents/btagent_agents/orchestrator/graph.py:150-201 | the bound of 9 is tight |
| OrchestratorRuns.EnrichesAtMostOnce | agents/btagent_agents/orchestrator/nodes.py:844-856 | a run that ends visits enrichment at most once, even if enrichment fails |
| OrchestratorRuns.LedgerAlongTrace | agents/btagent_agents/orchestrator/nodes.py:934-952 | the actions of a run are at any time those it started with, all proposed ones rejected, all approved and about to be executed, or all completed |
| OrchestratorRuns.ExecutionFollowsApproval | agents/btagent_agents/orchestrator/edges.py:131-148 | execution directly follows a checkpoint that approved, on the actions that were proposed |
| OrchestratorRuns.LastHumanStays | agents/btagent_agents/orchestrator/nodes.py:924-932 | while no reply arrives the last human message of a run is the one it started with |
| OrchestratorRuns.UnansweredCheckpointApprovesIff | agents/btagent_agents/orchestrator/nodes.py:924-932 | a checkpoint without a reply approves exactly if that message is not empty and reads as approval |
| OrchestratorRuns.OldMessageDecides | agents/btagent_agents/orchestrator/nodes.py:924-952 | for any reading of texts, a run with pending actions and no replies reaches a checkpoint, and executes exactly if the message it started with is not empty and reads as approval |
| OrchestratorRuns.OldMessageApproves | agents/btagent_agents/orchestrator/nodes.py:924-952 | an instance: a request that reads as approval and that nobody answers executes what is pending |
| OrchestratorRuns.ActionsFollowTheHuman | agents/btagent_agents/orchestrator/nodes.py:934-952 | along every run the actions keep length, order and identity, those not proposed are untouched, and all proposed ones share one fate |
| OrchestratorRuns.CompletionNeedsApproval | agents/btagent_agents/orchestrator/graph.py:83-91 | whatever becomes approved or completed during a run, an earlier checkpoint approved |
| OrchestratorRuns.NothingPendingAtEnd | agents/btagent_agents/orchestrator/edges.py:73-80 | a finished run leaves no action proposed or approved |
| OrchestratorRuns.FreshIocsAreFresh | agents/btagent_agents/orchestrator/nodes.py:224-248 | extraction adds exactly the matched keys that were not known, without repetition |
| OrchestratorRuns.VisitGrows | agents/btagent_agents/orchestrator/nodes.py:415-544 | no visit moves or drops an indicator, repeats a key, cuts the timeline or lowers the severity |
| OrchestratorRuns.RunGrows | agents/btagent_agents/orchestrator/nodes.py:251-255 | the same between any two moments of any run |
| OrchestratorVisits.TraceIsARun | agents/btagent_agents/orchestrator/graph.py:150-201 | every state and all inputs have a run, which goes from visit to visit until it ends |
| OrchestratorVisits.RunIsTheTrace | agents/btagent_agents/orchestrator/graph.py:150-201 | and only one |
| OrchestratorVisits.FirstWorkerDoesTheTask | agents/btagent_agents/orchestrator/nodes.py:273-363 | every run begins with the node named like its task: the classified one, or the one at hand for a vague follow-up, an empty text or a hand-off; an unknown or general task goes to synthesis |
| OrchestratorVisits.SecondRoutingEnriches | agents/btagent_agents/orchestrator/nodes.py:306-325 | within a run nothing is classified twice: coming back to routing leads to enrichment |
| OrchestratorVisits.VagueFollowUpRepeatsTheTask | agents/btagent_agents/orchestrator/nodes.py:345-350 | every run ends in synthesis, so a vague follow-up after it starts the worker of the task it ended with |
| OrchestratorVisits.VisitKeepsTheRest | agents/btagent_agents/orchestrator/nodes.py:273-1100 | which visits can change the task, the actions and the indicators; knowledge never changes |
| OrchestratorVisits.VisitSigns | agents/btagent_agents/orchestrator/nodes.py:415-1100 | every visit after routing names its own node as the agent, and a hand-over the enrichment to come |
| OrchestratorVisits.WorkerSetsStatus | agents/btagent_agents/orchestrator/nodes.py:415-1100 | the status each worker and the checkpoint leave |
| OrchestratorVisits.SynthesisTurns | agents/btagent_agents/orchestrator/edges.py:60-128 | after synthesis: pending actions go to the human, a due enrichment and an enrichment with knowledge back to routing, all else ends the run unless it was paused |
| OrchestratorVisits.CheckpointIsPaused | agents/btagent_agents/orchestrator/nodes.py:870-880 | a run arrives at a checkpoint only with the status paused |
| OrchestratorVisits.LastHumanTextIs | agents/btagent_agents/orchestrator/nodes.py:924-930 | the last human text is that of the last human message, however many assistant messages follow |
| OrchestratorVisits.TriageTakesTheWorse | agents/btagent_agents/orchestrator/nodes.py:251-255 | a triage answers at least some severity exactly if the current or the scored one is at least that; unknown names count as medium |
| OrchestratorVisits.RankOrders | agents/btagent_agents/orchestrator/nodes.py:252-254 | the places in the list of severities order them as usual |
| OrchestratorVisits.SeverityIsTheWorstScored | agents/btagent_agents/orchestrator/nodes.py:415-544 | along every run the severity is the worst of the one at the start and those its triages scored |
| OrchestratorVisits.FreshIocsInOrder | agents/btagent_agents/orchestrator/nodes.py:224-248 | extraction goes through the matches in order; later ones depend on earlier ones by their keys only |
| OrchestratorVisits.FreshIocIsUnverified | agents/btagent_agents/orchestrator/nodes.py:236-247 | a new indicator has confidence 0.5 and no verdict |
| OrchestratorVisits.VisitFilesVerdicts | agents/btagent_agents/orchestrator/nodes.py:1050-1070 | an indicator changes exactly by the verdict filed under its normalised key, whose confidence, if any, replaces its own |
| OrchestratorVisits.MaliciousAreFiled | agents/btagent_agents/orchestrator/nodes.py:1058-1062 | the indicators counted as malicious are those whose filed verdict says so |
| OrchestratorVisits.VerdictLasts | agents/btagent_agents/orchestrator/nodes.py:1045-1099 | the verdict a run that ends files for an indicator is the one it ends with |
| OrchestratorVisits.RunIsLogged | agents/btagent_agents/orchestrator/nodes.py:415-1100 | along every run the timeline has one entry for each visit that did something, and the transcript one message for each visit after routing besides the replies |
| OrchestratorVisits.ReplyDecides | agents/btagent_agents/orchestrator/nodes.py:924-952 | a reply approves a pending action, in the name of the analyst, exactly if it is not empty and reads as approval, and otherwise rejects it |
| OrchestratorVisits.ExecutionCompletesAll | agents/btagent_agents/orchestrator/graph.py:73-108 | an execution completes, in the name of the analyst, exactly the actions the run found proposed, and the investigation is contained |
| OrchestratorVisits.ExecutionEndsContained | agents/btagent_agents/orchestrator/edges.py:82-91 | a run that executed ends contained right after, unless an enrichment is due |
| OrchestratorVisits.ContainedMeansExecuted | agents/btagent_agents/orchestrator/graph.py:73-108 | whatever becomes contained during a run, a visit in between executed an approved action |
| Lineage.VerifyChain | engine/btagent_engine/lineage.py:69-91 | accepts exactly the intact chains and otherwise reports the first record that does not link |
| Lineage.BuildLineageGraph | engine/btagent_engine/lineage.py:94-131 | one node for each record, in order, with its fields and position; one edge for each named predecessor; and the verdict of the verification if asked for |
| Lineage.ReplayTo | engine/btagent_engine/lineage.py:134-148 | the prefix that ends with the first record of that hash, or an error exactly if there is none |
| Lineage.EvidenceChain.AfterRun | engine/btagent_engine/middleware/evidence_chain.py:107-127 | appends a record that links, so an intact chain stays intact |
| Lineage.JoinIsInjective | engine/btagent_engine/middleware/evidence_chain.py:88-92 | fields without the separator are determined by their join among all lists of as many fields |
| Lineage.SeparatorInFieldIsAmbiguous | engine/btagent_engine/middleware/evidence_chain.py:88-92 | a record with the separator in any hashed field shares its hash with a different one of the same time |
| Lineage.HashDeterminesFieldsIff | engine/btagent_engine/middleware/evidence_chain.py:88-92 | a record is the only one with its hash, in its fields and predecessor, exactly if none of its fields holds the separator |
| Lineage.HashDeterminesRecord | engine/btagent_engine/middleware/evidence_chain.py:73-92 | no other consistent record, whatever its fields hold, has the hash of a record without separators |
| Lineage.LinkHashesAreDistinct | engine/btagent_engine/lineage.py:69-91 | no two records of an intact chain have the same hash |
| Lineage.SameTipSameChain | engine/btagent_engine/lineage.py:69-91 | an intact chain without separators equals, record by record, every intact chain that ends in the same hash |
| Lineage.AlterationIsLocated | engine/btagent_engine/lineage.py:69-91 | a record changed to any other one is reported at its position or, if that has a matching hash, at the next; only the last can escape; a later record is invalidated exactly if it is the next one and the link hash was changed |
| Lineage.OmissionIsLocated | engine/btagent_engine/lineage.py:69-91 | leaving out a record other than the last is reported at its position |
| Lineage.ProjectionIsSimplePath | engine/btagent_engine/lineage.py:94-131 | the graph of an intact chain is one simple path through all its nodes |
| Lineage.ReplayIsTheOnlyHistory | engine/btagent_engine/lineage.py:134-148 | a replay of a chain without separators is intact, and no other intact chain ends in that hash |
| Revocation.RevocationList.constructor | backend/btagent_backend/auth/revocation.py:52-62 | the list starts empty and may probe at once |
| Revocation.RevocationList.ScheduleRetry | backend/btagent_backend/auth/revocation.py:65-77 | doubles the backoff between its initial and its largest value and sets the next probe |
| Revocation.RevocationList.GetRedis | backend/btagent_backend/auth/revocation.py:80-112 | which back end answers, when a probe is made, and what a probe does to the schedule |
| Revocation.RevocationList.CheckHealth | backend/btagent_backend/auth/revocation.py:124-126 | probes even before its time, and says whether Redis is in use |
| Revocation.RevocationList.CloseRedis | backend/btagent_backend/auth/revocation.py:129-143 | forgets the client and the schedule, not the revocations |
| Revocation.RevocationList.LocalPrune | backend/btagent_backend/auth/revocation.py:160-165 | drops exactly the expired revocations |
| Revocation.RevocationList.Revoke | backend/btagent_backend/auth/revocation.py:173-192 | writes to the back end in use, or nothing without a name or time left; pruning stays unobservable |
| Revocation.RevocationList.IsRevoked | backend/btagent_backend/auth/revocation.py:195-210 | true exactly if the last write to the back end in use has not expired |
| Revocation.RevocationList.RevokeUserTokens | backend/btagent_backend/auth/revocation.py:268-306 | writes the next whole second as the user's epoch |
| Revocation.RevocationList.IsUserRevoked | backend/btagent_backend/auth/revocation.py:309-339 | true exactly for tokens issued before the epoch in force; tokens without a time of issue pass |
| Revocation.BackendAnswersRightIff | backend/btagent_backend/auth/revocation.py:182-210 | after any history a back end answers like one list for both, at all times, exactly if it took the key's last write or holds one with the same expiry |
| Revocation.RunStaysSteady | backend/btagent_backend/auth/revocation.py:80-143 | over any operations with the link up throughout all writes go to Redis, and with it down throughout to the process |
| Revocation.SteadyListAnswers | backend/btagent_backend/auth/revocation.py:173-260 | a token or family is then revoked exactly if its latest revocation with time left has not expired, on either back end; pruning cannot be observed |
| Revocation.RevokedForItsTime | backend/btagent_backend/auth/revocation.py:173-210 | with the link up, or down, throughout, what is revoked for a time is revoked for exactly that time, whatever is done after it, until it is revoked anew |
| Revocation.EmptyRevocationChangesNothing | backend/btagent_backend/auth/revocation.py:173-181 | a revocation without a name or without time left changes nothing |
| Revocation.RedisIsUsedIff | backend/btagent_backend/auth/revocation.py:80-112 | an operation goes to Redis exactly if it succeeds there and the client is open, or its time has come and Redis answers |
| Revocation.ClosingForgetsFailures | backend/btagent_backend/auth/revocation.py:129-143 | after closing, the next operation uses Redis exactly if that answers, whatever failed before |
| Revocation.EpochBackendsAgreeIff | backend/btagent_backend/auth/revocation.py:277-306 | after any history both back ends refuse the same unexpired tokens exactly if the last epoch is kept for the longest token lifetime |
| Revocation.NoEpochNoDifference | backend/btagent_backend/auth/revocation.py:309-339 | without an epoch they always agree |
| Revocation.EpochRefusesUpToItsSecond | backend/btagent_backend/auth/revocation.py:284-339 | after any history, while the last epoch, set at t, is in force, exactly the tokens with iat up to floor(t) are refused |
| Revocation.FreshLoginNeedsTheNextSecond | backend/btagent_backend/auth/revocation.py:284-292 | so a login after it is refused exactly within the same whole second |
| Revocation.SteadyListRefuses | backend/btagent_backend/auth/revocation.py:268-339 | over any operations with the link up, or down, throughout, a token is refused exactly if it is older than the user's latest epoch, in Redis while that is kept |
| Revocation.ForceLogoutRefuses | backend/btagent_backend/auth/revocation.py:268-339 | after a force-logout for time t and any operations but another one, exactly the tokens with iat up to floor(t) are refused, in Redis while the epoch is kept |
| Revocation.BackoffDoublesUpToTheCap | backend/btagent_backend/auth/revocation.py:65-72 | the n-th failed probe in a row waits 2^(n-1) seconds, at most 30 |
| Revocation.ProbesBackOff | backend/btagent_backend/auth/revocation.py:65-112 | after n failed probes the next one is due exactly when the n-th wait since the last is over; one that succeeds opens the client and clears the schedule |
| ContextCascade.EstimateMessageTokens | agents/btagent_agents/context/budget.py:64-108 | the nested loops compute the estimate of a conversation |
| ContextCascade.EstimateMonotone | agents/btagent_agents/context/budget.py:47-61 | a longer text never has the smaller estimate |
| ContextAccounts.EstimateIsRoundedDown | agents/btagent_agents/context/budget.py:47-61 | the estimate of a text is its length divided by the ratio, rounded down, but at least one unless it is empty |
| ContextAccounts.EstimateOfConcat | agents/btagent_agents/context/budget.py:64-108 | the estimate of a conversation is the sum over its parts |
| ContextAccounts.EstimateIsAdditive | agents/btagent_agents/context/budget.py:83-108 | a message adds four tokens, those of its text or blocks, and those of its calls |
| ContextAccounts.BlocksOfConcat | agents/btagent_agents/context/budget.py:88-100 | the estimate of a list of blocks is the sum over its parts |
| ContextAccounts.CallsOfConcat | agents/btagent_agents/context/budget.py:102-106 | and so is that of a list of calls |
| ContextAccounts.OneBlock | agents/btagent_agents/context/budget.py:92-100 | a block costs its text, and a thousand tokens more for an image |
| ContextAccounts.OneCall | agents/btagent_agents/context/budget.py:102-106 | a call costs its name and its arguments |
| ContextAccounts.LargeIff | agents/btagent_agents/context/cascade.py:41-53 | only tool and function messages can be large, those in ASCII by their length |
| ContextAccounts.Utf8LengthIff | agents/btagent_agents/context/cascade.py:41-53 | the bytes of a character are those of UTF-8 |
| ContextAccounts.BytesOfConcat | agents/btagent_agents/context/cascade.py:41-53 | the bytes of a text are the sum over its parts |
| ContextAccounts.BytesOfOneMoreBlock | agents/btagent_agents/context/cascade.py:45-52 | an object among the blocks of a content counts with its serialised form, a string as it is |
| ContextCascade.Layer0Externalize | agents/btagent_agents/context/cascade.py:62-106 | large tool messages become references, and the artifacts are their contents, in order |
| ContextCascade.ExternalizingLosesNothing | agents/btagent_agents/context/cascade.py:62-106 | putting the artifacts back at the externalised positions restores the conversation with large contents serialised, hence exactly iff those are strings |
| ContextAccounts.ReferenceLeadsToItsArtifact | agents/btagent_agents/context/cascade.py:84-101 | the reference that replaces a message contains the key of the very artifact that holds its content, the number of characters and the digest, whose first quarter makes the key |
| ContextAccounts.GroupedSays | agents/btagent_agents/context/cascade.py:97-98 | the number in a reference reads as the length |
| ContextAccounts.GroupedHasCommas | agents/btagent_agents/context/cascade.py:97-98 | its digits come in groups of three |
| ContextAccounts.ShownSizeIsBytesIff | agents/btagent_agents/context/cascade.py:97-98 | that number is the size in bytes exactly for ASCII |
| ContextCascade.ReferenceIsShorterIff | agents/btagent_agents/context/cascade.py:84-100 | a reference is shorter than what it replaces exactly from 160 characters on, which a string content of 10 KB always has |
| ContextCascade.ExternalizingChangesBy | agents/btagent_agents/context/cascade.py:62-106 | layer 0 changes the estimate by the estimates of the references minus those of the contents they replace |
| ContextCascade.ExternalizingRaisesIff | agents/btagent_agents/context/cascade.py:84-101 | for one large message it raises the estimate exactly if the content is estimated lower than its reference |
| ContextCascade.ExternalizingNeverRaises | agents/btagent_agents/context/cascade.py:62-106 | for string contents layer 0 never raises the estimate |
| ContextCascade.ExternalizingTextlessRaises | agents/btagent_agents/context/cascade.py:84-101 | for blocks without text or image it always does |
| ContextCascade.Layer1Compress | agents/btagent_agents/context/cascade.py:154-187 | large tool messages, and no others, get a rewritten content |
| ContextAccounts.BandDecides | agents/btagent_agents/context/cascade.py:62-187 | after two layers: tool and function contents are references from 10 KB on and rewritten from 3 KB on; all else stays in its place |
| ContextAccounts.WindowAccounts | agents/btagent_agents/context/cascade.py:195-228 | the window keeps the first two and the last three messages in order, and its marker says how many are gone: with those kept, all |
| ContextAccounts.FirstTwoOutlastTheWindow | agents/btagent_agents/context/cascade.py:62-228 | the first two messages of a conversation are the first two after the window |
| ContextAccounts.SummaryIsShown | agents/btagent_agents/context/cascade.py:258-291 | after all layers the summary stands right in front of the last three messages |
| ContextCascade.SystemMessageOnceIff | agents/btagent_agents/context/cascade.py:258-291 | after summarising, the system message occurs twice exactly if the conversation was no longer than the kept tail or that is empty |
| ContextCascade.ApplyCascade | agents/btagent_agents/context/cascade.py:299-367 | the result is the first stage that fits the budget, or the last one; the mask says which layers were applied; over budget only if the prune bit is set |
| ContextAccounts.MaskTellsTheLayers | agents/btagent_agents/context/cascade.py:315-366 | each bit of the mask stands for one layer that was applied |
| ContextCascade.EveryMessageHasAnOrigin | agents/btagent_agents/context/cascade.py:62-291 | every message of every stage is an original, a tool or function message with another content, the prune marker or the summary |
| ContextCascade.RecentMessagesSurvive | agents/btagent_agents/context/cascade.py:30-291 | through every stage the three most recent messages stay the last ones in their order, with tool and function contents rewritten at most |
| ContextCascade.SystemMessageSurvives | agents/btagent_agents/context/cascade.py:29-291 | through every stage a system message at the front stays there unchanged |
| ContextCascade.PrunedIsShort | agents/btagent_agents/context/cascade.py:195-291 | at most six messages are left after pruning, and five after a summary |

## Left out

- YAML parsing, key whitelists and error texts of the playbook compiler: steps arrive typed, and an error carries a position or a set of ids instead of a sorted message.
- The statuses `running` and `paused_hitl` of the playbook executor and the content of step results: they do not influence where a run goes. What a decision yields is any choice between its two branches; the choice of the router's fallback is any other one.
- What a parallel fork does with its branches inside its own visit: the executor adds no edges for them, so a run passes a fork like any other step, while the validator does count them.
- Scheduling inside LangGraph, its recursion limit and its checkpoints: one node is visited at a time, and a run stops only where an edge says so.
- Characters outside ASCII in the fence pattern: which of them are word characters is a parameter, and case folding is modelled as far as names without the letters i and s can see it, which the three names of the program do not contain.
- Threads, locks and background loops of the registry: each locked operation is one step, and the loops are further operations.
- Fractions of a second in the breaker and the adapter: their times are integers in any unit. Revocation uses reals.
- RetryAdapter.ResilientAdapter.Execute: the server stays registered or unregistered throughout, and nobody resets the breaker meanwhile.
- Breakers.OpenCircuitHolds: assumes no reset in between; a reconnect of an unhealthy connection resets the breaker, but only after the circuit let the get through.
- ConnectionPool.ManagedConnection.Reconnect: the branch for a failed reconnect cannot be reached, as connecting raises nothing.
- Singleton management, status reports and shutdown of the registry.
- Language models, keyword tables, indicator patterns, MITRE lookup, enrichment sources and the reading of a reply in the orchestrator: any outcome is an input of a visit. The texts of messages, apart from whether they are empty, play no role.
- SHA-256: the link hash is a free constructor over the joined fields and the previous hash, so it has no collisions, and a separator at the boundary to the previous hash is not modelled. In the cascade the digest is any function to 64 characters.
- The clock between two reads within one revocation call, and loss of data inside Redis: one call sees one time, and Redis keeps an entry until it expires. The process keeps its two tables of tokens and of families in one map keyed by both.
- JSON sampling and truncation in layer 1: any rewriting of the content; its size is not bounded, as re-indentation and the suffix can make it longer.
- The table of ratios by model family: the ratio is any fraction. Rounding of the division by a float is not modelled.
- Building the prompt for a summary: the summary is a parameter.
- File offloading of large results, role-based access, redaction, routers, manifests, persistence and the user interface: further components, mostly plumbing or finite tables.
