# Verified models of Sparse-vLLM's chain cache and benchmark harness

On the server, Sparse-vLLM keeps the state of conversations resident between turns and
resumes them by prefix.  Around it, the benchmark harness decides which numbers are
believed: it kills containers that outgrow their disk, tells the server which part of a
conversation it may skip, generates samples with stored answers, splits work over workers
and puts the pieces together again, and turns timestamps and cache counters into rates.
This project models those parts and proves what they promise, for all inputs, all runs and
all interleavings.

`dafny verify dfyconfig.toml` checks everything.

## What is modelled

**The Docker writable-layer guard** (`GuardProtocol`, `GuardTheorems`, `GuardRaces`,
`GuardClasses`).
Agent threads register and unregister containers while one guard thread polls Docker, fails
containers that are too large, and fails everything after repeated monitoring errors.
`GuardProtocol` is the program as a state machine: one transition per critical section, so
that a run is one interleaving of the threads, with Docker, the event file and `docker kill`
answering arbitrarily.  `GuardTheorems` has the invariant of all runs and what follows from
it, `GuardRaces` which deficient answers are tolerated.  `GuardClasses` has the two classes of the program with their fields and methods; each
object carries the state machine along as ghost state and every method is proved to move it
by transitions of the protocol, other threads being let in wherever they can get in.

**The chain-cache client** (`ChatValues`, `ChainClient`, `ChainModel`).  The client keeps the
committed transcript of a server-side chain, a pending response, and a recovery id after an
exception; it may tell the server to skip the first messages of a request.  `ChainClient` is
the state machine of one query (any number of attempts, arbitrary replies and exceptions) and
of whole sessions; `ChainModel` is the class, with the loops and field updates of the program,
proved against it.

**The chain index on the server** (`ChainIndex`, `ChainIndexTheorems`, `ChainIndexTombstones`,
`ChainIndexPlans`, `ChainIndexRecords`, `ChainIndexRanks`, `ChainIndexResume`,
`ChainIndexClass`).  The lifecycle of resident chains: planning an admission (prefix check by digest, eviction of idle chains in order of
last access), carrying the plan out, ending a turn, invalidation, tombstones and the bounded
token history.  `ChainIndex` has the operations as functions on the state, the next six
modules what holds of all runs, of forgotten chains, of plans, of the records, of several
ranks that follow rank 0 and of what resumed chains reuse, and `ChainIndexClass` the class, with the loops and
field updates of the program, proved against those functions.

**RULER** (`FitSearch`, `CommonWords`, `VariableTracking`, `Sharding`).  The search for the
largest repetition count, the base-26 words and the common-words answer, the interleaving and
hiding of assignment chains, and evaluation over several workers.

**LongBench** (`Selection`, `SelectionMeaning`, `LongBenchMerge`).  Streaming selection of samples per token
bucket, and the merge of worker artifacts.

**SCBench** (`PassAtK`, `CommentRemoval`, `CacheAccounting`, `CacheSession`).  The pass@k
estimator, the splices that remove comments, and the accounting of prefix-cache hits from a
single request to the summary of a run over many examples.

**The efficiency probes** (`Percentile`, `Throughput`, `ProxyBound`, `JitteredLengths`).
Percentiles, throughput against time per output token, and varied request lengths.

`Wrappers`, `Strings`, `Sequences` and `Sorting` hold what the others share.  `StableSort` is
the model of Python's `list.sort`.

## Where the code and its promises part

* `remove_comments` is exact on all texts of a length if and only if no two captures share a
  byte, except where everything up to the end of the text is captured
  (`ExactIffSharedOnlyAtEnd`).  A captured range inside another one makes the outer splice
  remove bytes behind it (`NestedCapturesRemoveTooMuch`).
* The stored answer of the common-words task is the true one if and only if the number of
  distinct words is at most 26^4 (`AnswerTrueIffEnoughWords`): beyond that the words repeat.
* The search for a repetition count ends if and only if some power of two it tries is too
  long (`DoublingEndsIff`): for a measure that no repetition makes longer the doubling is
  still running after any number of turns (`ConstantMeasureNeverEnds`).
* The planned reuse of an SCDQ turn falls short of the shared context exactly when the turn
  is not the first, no earlier one succeeded, and the object remembers from before the
  session a sequence that does not begin with the context (`ShortPlanIff`).  This does happen
  to an object that plays two sessions (`StaleSequenceLowersPlan`).  The plan of the first
  turn is the whole context, although nothing has been cached.
* Observed decode throughput is bounded by the concurrency proxy on every timeline of given
  output lengths if and only if the lengths are balanced: over the requests that decode, the
  sum of their tokens after the first times the sum of the reciprocals is at most the number
  of requests times the number of those that decode (`BelowProxyIffBalanced`).  When every
  request decodes, that means equal lengths (`BalancedIffEqual`).  Lengths 2 and 101 are not
  balanced (`MixedPairIsUnbalanced`); `MixedLengthsExceedProxy` has a timeline for them.
* Carrying out a plan to create a chain on the state it was made on fails exactly when its
  sequence id belongs to a resident chain that is not among the victims
  (`FreshPlanApplies`); the victims are evicted by then.
* Carrying out a plan on a later state than it was made on can make an id both resident and
  reported as gone.  `SeparateUnlessRevived` says for which plans on which states: a plan to
  create a chain, whose victims are distinct and idle, whose sequence id is free or a
  victim's, whose chain is not resident unless it is a victim itself, and whose id is among
  the tombstones once the victims have theirs.  Runs in which every plan is carried out on
  the state it was made on never get there (`FreshRunStaysSeparate`); two plans for one new
  chain, the second carried out after the chain has come and gone, do
  (`OutdatedPlanRevives`).
* The server accepts an append start only for a reply with the assistant's role and a
  transcript that goes on after it, which the client does not check (`AppendAcceptedIff`).
* In the guard, an exception type that `_poll_once` does not list (a decoding error, say)
  leaves the failure counter as it is and goes to the handler of `_run`; an exception out of
  that handler ends the guard thread, nothing else does (`GuardDiesOnlyInHandler`), it can
  happen (`GuardCanDie`), and from then on no container is checked again (`DeadIsFinal`).  A
  JSON boolean passes as a size, because Python's booleans are integers.

## Model

| member | source | states |
|---|---|---|
| `GuardTheorems.InvKept` | benchmark/swe_bench_lite/docker_writable_guard.py:95-283 | every transition of every thread keeps the invariant that ties registry, objects, logs, counter and the guard thread's position |
| `GuardTheorems.ReachableInv` | benchmark/swe_bench_lite/docker_writable_guard.py:95-283 | the invariant holds in every state of every interleaving |
| `GuardTheorems.FailureIsFinal` | benchmark/swe_bench_lite/docker_writable_guard.py:41-47 | over any run a failed object never changes again, and no object changes its id or image |
| `GuardTheorems.OneKillPerFailure` | benchmark/swe_bench_lite/docker_writable_guard.py:133-161 | each failed object is killed exactly once, or its kill is the next thing due, and has at most one event; nothing else is ever killed or logged |
| `GuardTheorems.EventUnlessRaised` | benchmark/swe_bench_lite/docker_writable_guard.py:155-161 | over every run the event of a failed object is in the log, from its writing on, exactly if writing it did not raise |
| `GuardTheorems.BytesOfFailure` | benchmark/swe_bench_lite/docker_writable_guard.py:41-47 | after every run an object records bytes exactly if it failed for exceeding the limit, and then those bytes |
| `GuardTheorems.RegisteredAreHealthy` | benchmark/swe_bench_lite/docker_writable_guard.py:133-143 | except between a failure and its retirement, every registered object is without failure and filed under its own id |
| `GuardTheorems.RegistrationEnds` | benchmark/swe_bench_lite/docker_writable_guard.py:106-113 | a registration ends if and only if its id is unregistered or the guard retires that very, failed, object: retiring never removes another object under the same id |
| `GuardTheorems.FailClosedThreshold` | benchmark/swe_bench_lite/docker_writable_guard.py:176-243 | the counter is always the length of the current run of errored polls, and fail-closed starts exactly on an errored poll that brings that run to the limit |
| `GuardTheorems.FailClosedIsComplete` | benchmark/swe_bench_lite/docker_writable_guard.py:163-173 | when fail-closed has run, everything registered at its snapshot has failed, and for the monitoring, whatever the agents did meanwhile |
| `GuardTheorems.GuardDiesOnlyInHandler` | benchmark/swe_bench_lite/docker_writable_guard.py:273-283 | after any run the guard thread is dead if and only if somewhere on the way recording or killing raised inside the handler of its loop |
| `GuardTheorems.DeadIsFinal` | benchmark/swe_bench_lite/docker_writable_guard.py:273-283 | once the guard thread is dead, over every further run only agents act: nothing is polled, failed, logged or killed, no registration ends but by its agent, and what is registered later is never failed |
| `GuardTheorems.GuardCanDie` | benchmark/swe_bench_lite/docker_writable_guard.py:163-283 | a run from the start to the guard's death: an exception that the poll does not handle, then an event that cannot be written |
| `GuardTheorems.RaisesFirstError` | benchmark/swe_bench_lite/docker_writable_guard.py:41-53 | the stored failure of an object is, after any run, the first error brought against it, or none if none was |
| `GuardTheorems.StayersAreAnswered` | benchmark/swe_bench_lite/docker_writable_guard.py:206-236 | if Docker answers requested ids only and each at most once, an object in both snapshots of an accepted poll has a record |
| `GuardRaces.PollSnapshots` | benchmark/swe_bench_lite/docker_writable_guard.py:176-245 | a poll asks for the containers registered when it begins and judges those registered when its answer is accepted |
| `GuardTheorems.AcceptedPollActsOnRecords` | benchmark/swe_bench_lite/docker_writable_guard.py:243-271 | at the end of an accepted poll every object of the closing snapshot is without failure exactly if every record on its id has a size from 0 to the limit, and otherwise has the failure that the first other one calls for: invalid for no integer or a negative one, exceeded above the limit |
| `GuardTheorems.AcceptedPollChecksStayers` | benchmark/swe_bench_lite/docker_writable_guard.py:175-271 | an object in both snapshots of an accepted poll was checked: failed as exceeding with b bytes if and only if its size is the integer (or boolean as 0 or 1) b above the limit, as invalid if and only if its size is no integer or negative, and not at all if and only if it is from 0 to the limit |
| `GuardRaces.AcceptedIff` | benchmark/swe_bench_lite/docker_writable_guard.py:206 | a completed answer is accepted at once if and only if Docker exits with 0 and there are as many records as containers |
| `GuardRaces.ToleratedIff` | benchmark/swe_bench_lite/docker_writable_guard.py:206-236 | any other answer is accepted if and only if Docker failed, some polled container has no record, none of those is registered any more, and the lines of the error stream that are not blank name just these, each once, as "error: no such object: " in either case with the id and blanks around; otherwise the counter rises |
| `GuardRaces.GoneContainersAreTolerated` | benchmark/swe_bench_lite/docker_writable_guard.py:206-236 | the ordinary race: one line "Error: No such object: " with the id for each container without a record, all of them unregistered meanwhile, is accepted |
| `GuardRaces.NamedIds` | benchmark/swe_bench_lite/docker_writable_guard.py:213-223 | what is collected from any error stream are exactly the ids its lines name, and there is one for each line that is not blank if and only if every such line names one and none twice |
| `GuardClasses.GuardState.Fail` | benchmark/swe_bench_lite/docker_writable_guard.py:41-47 | the first failure wins and the call says whether it was this one |
| `GuardClasses.GuardState.RaiseIfFailed` | benchmark/swe_bench_lite/docker_writable_guard.py:49-53 | raises the first error that the guard has brought against the object, over all that happened before, and nothing as long as it has brought none |
| `GuardClasses.DockerWritableLayerGuard.Register` | benchmark/swe_bench_lite/docker_writable_guard.py:95-104 | rejects an empty or registered id without a change, otherwise files a fresh healthy object; a run of the protocol |
| `GuardClasses.DockerWritableLayerGuard.Unregister` | benchmark/swe_bench_lite/docker_writable_guard.py:106-108 | removes the id and nothing else; a run of the protocol |
| `GuardClasses.DockerWritableLayerGuard.Retire` | benchmark/swe_bench_lite/docker_writable_guard.py:110-113 | removes the object only if it is still the one filed under its id |
| `GuardClasses.DockerWritableLayerGuard.FailState` | benchmark/swe_bench_lite/docker_writable_guard.py:133-161 | the object carries its first error and is registered under no id; if it was healthy exactly one kill, its own, is added, otherwise none; a run of the protocol |
| `GuardClasses.DockerWritableLayerGuard.FailClosed` | benchmark/swe_bench_lite/docker_writable_guard.py:163-173 | unless recording or killing raises, every object registered at the start ends up failed for the monitoring; a run of the protocol |
| `GuardClasses.DockerWritableLayerGuard.IsCleanupRace` | benchmark/swe_bench_lite/docker_writable_guard.py:206-236 | a deficient answer is tolerated exactly for an ordinary race, said on the exit code, the records, the lines and the registry |
| `GuardClasses.DockerWritableLayerGuard.ScanRecords` | benchmark/swe_bench_lite/docker_writable_guard.py:244-271 | the loop over the records is a run of the protocol, with other threads between its steps |
| `GuardClasses.DockerWritableLayerGuard.PollOnce` | benchmark/swe_bench_lite/docker_writable_guard.py:175-271 | one poll is a run of the protocol, so every theorem about runs holds of it |
| `GuardClasses.DockerWritableLayerGuard.RunTurn` | benchmark/swe_bench_lite/docker_writable_guard.py:273-283 | one turn of the guard thread is a run of the protocol that leaves it waiting or dead |
| `ChatValues.ChainMessageIdempotent` | benchmark/swe_bench_lite/model.py:88-118 | projecting a message twice changes nothing, so a reply replayed from the transcript projects to the committed one |
| `ChatValues.ChainMessageIgnores` | benchmark/swe_bench_lite/model.py:104-118 | the projection does not see extra fields or empty ones |
| `ChatValues.ChainMessageSees` | benchmark/swe_bench_lite/model.py:104-118 | two messages have the same projection if and only if they agree, up to what is dropped inside, in role, content, reasoning content, tool calls, tool call id and name |
| `ChatValues.PlainValueKeeps` | benchmark/swe_bench_lite/model.py:88-102 | a value made plain has lost, at every depth, exactly what stands under "extra" or "provider_specific_fields" and the null entries of dictionaries; everything else is found along the same path |
| `ChainClient.ContinuationMeansPrefix` | benchmark/swe_bench_lite/model.py:326-377 | the transcript check passes if and only if the new transcript begins with the committed request and the committed reply |
| `ChainClient.QueryComesToRest` | benchmark/swe_bench_lite/model.py:379-517 | however a query ends, nothing is pending afterwards and recovery id and reset reason are set or cleared together |
| `ChainClient.AppendStartIsLicensed` | benchmark/swe_bench_lite/model.py:389-416 | a request carries `chain_append_start = k` only if its first k projected messages are exactly the committed request and reply and the reply was safe to append to |
| `ChainClient.QuerySucceedsIff` | benchmark/swe_bench_lite/model.py:379-513 | a query whose base class returns succeeds if and only if its last attempt had an admissible transcript and a complete answer |
| `ChainClient.SuccessCommits` | benchmark/swe_bench_lite/model.py:490-513 | a successful query commits the transcript and the reply of its last attempt; the reply's chain unless its status is "invalidated"; and that it may be appended to, exactly if the chain lives on and the finish reason is "stop" or "tool_calls" |
| `ChainClient.AppendFollowsCleanReply` | benchmark/swe_bench_lite/model.py:389-416 | after a success the next request of a continuing transcript goes out on that chain, and carries `chain_append_start`, one past the committed request, exactly after such a reply |
| `ChainClient.IncompleteAnswer` | benchmark/swe_bench_lite/model.py:422-471 | an incomplete answer is refused for the first thing it lacks: chain id, choices, message, finish reason, status |
| `ChainClient.RewrittenTranscriptIsRefused` | benchmark/swe_bench_lite/model.py:389-398 | on a chain that continues, nothing is sent if and only if the transcript was rewritten |
| `ChainClient.RecoveringRequest` | benchmark/swe_bench_lite/model.py:389-416 | a recovering request names the chain to recover and never carries `chain_append_start` |
| `ChainClient.AppendAcceptedIff` | src/sparsevllm/entrypoints/openai/render.py:184-231 | on a licensed append start the server's checks pass if and only if a message follows the replayed reply, the committed reply has the assistant's role, no message has multimodal content, and the chat template renders reply and new messages as a proper extension of the reply |
| `ChainClient.AppendPromptCompletes` | src/sparsevllm/entrypoints/openai/render.py:204-231 | what the server then appends completes the rendering of the reply to the rendering of the reply and the new messages |
| `ChainClient.AppendRefused` | src/sparsevllm/entrypoints/openai/render.py:184-231 | each refusal of an append rendering if and only if: multimodal content, nothing new, a message before it that is not the assistant's, an unstable suffix, an empty one |
| `ChainClient.MultimodalIff` | src/sparsevllm/entrypoints/openai/render.py:120-125 | messages have multimodal content if and only if the content of one is a list with a part whose type is not "text" |
| `ChainClient.FailureBeforeResponse` | benchmark/swe_bench_lite/model.py:473-492 | a query that fails before a response is pending changes nothing |
| `ChainClient.FailureAfterResponse` | benchmark/swe_bench_lite/model.py:473-486 | a query that fails with a response pending keeps the committed transcript and arranges recovery of that response's chain |
| `ChainClient.RecoveryIsReported` | benchmark/swe_bench_lite/model.py:493-517 | the first success after a failure reports the reset reason, once |
| `ChainClient.EpochIsPrefixOrder` | benchmark/swe_bench_lite/model.py:326-398 | over any session with any server, the transcripts committed since the last reset are strictly growing prefixes, each followed by its reply |
| `ChainModel.SparseVLLMLitellmModel.FindContinuationError` | benchmark/swe_bench_lite/model.py:326-377 | the walk over the transcripts finds the first difference the specification names |
| `ChainModel.SparseVLLMLitellmModel.SendAttempt` | benchmark/swe_bench_lite/model.py:379-471 | one attempt updates the fields, sends and raises exactly as the state machine says |
| `ChainModel.SparseVLLMLitellmModel.RunQuery` | benchmark/swe_bench_lite/model.py:473-517 | a query is a step of the session machine and keeps the prefix order of the epoch; after a success the fields hold the last transcript, its reply, its chain unless invalidated, and whether the reply may be appended to |
| `ChainIndexTheorems.InvKept` | src/sparsevllm/engine/chain_cache.py:321-881 | every call, with whatever arguments and whether or not it raises, keeps: one chain per sequence id, exact and bounded history count, distinct bounded tombstones, distinct access times, created = resident + evicted + invalidated, idle chains resumable and without reservation |
| `ChainIndexTheorems.ReachableInv` | src/sparsevllm/engine/chain_cache.py:321-881 | all of this holds after every run |
| `ChainIndexPlans.PlanIsSparing` | src/sparsevllm/engine/chain_cache.py:621-666 | a plan fails for want of space only if all idle chains together hold too little; otherwise its victims are the shortest run of least recently used idle chains that hold enough in every layer and in rows |
| `ChainIndexPlans.PlanOutcome` | src/sparsevllm/engine/chain_cache.py:501-649 | each refusal, and success, if and only if the record and the request are so: an active chain is busy, then fingerprint, sequence id and prefix are compared, a chain that is not resident is gone exactly with a tombstone, and last the idle chains must hold what is lacking |
| `ChainIndexPlans.PlanFields` | src/sparsevllm/engine/chain_cache.py:516-666 | a plan's status, reuse, input count and reservations; planning changes nothing but the counters of busy chains and of mismatches, by one for each |
| `ChainIndexPlans.VictimsAreOldest` | src/sparsevllm/engine/chain_cache.py:624-645 | every victim was last accessed before every idle chain that is spared |
| `ChainIndexPlans.CoversIffFreesEnough` | src/sparsevllm/engine/chain_cache.py:621-649 | reducing the deficits chain by chain, never below zero, comes to comparing sums |
| `ChainIndexPlans.FreedIsSum` | src/sparsevllm/engine/chain_cache.py:637-648 | what chains hold adds up, layer by layer and in rows; in a layer that it does not have a chain holds nothing |
| `ChainIndexPlans.FreshPlanApplies` | src/sparsevllm/engine/chain_cache.py:668-718 | a plan carried out on its own state succeeds unless it creates a chain on a sequence id in use; then exactly the victims are gone, the chain is active with what it had processed, and all others are untouched |
| `ChainIndexPlans.ActiveIsPinned` | src/sparsevllm/engine/chain_cache.py:501-811 | nothing but the end of its own turn, its own invalidation or a reset touches an active chain's record |
| `ChainIndexPlans.BoundaryAdvances` | src/sparsevllm/engine/chain_cache.py:749-788 | over any call the processed boundary of a record that is still there is where it was or further on, unless the call evicts the chain and creates a new one under its id, which has processed nothing |
| `ChainIndexPlans.RaisingLeavesState` | src/sparsevllm/engine/chain_cache.py:720-811 | ending a turn (by tokens, by digest or by values), remembering, evicting and invalidating leave the whole state as it was when they raise, history count and clock included |
| `ChainIndexPlans.SeparateUnlessRevived` | src/sparsevllm/engine/chain_cache.py:668-718 | a call makes an id both resident and reported as gone if and only if it carries out a creation whose victims are distinct and idle, whose sequence id is free or a victim's, whose chain is absent or a victim, and whose id is among the tombstones once the victims have theirs |
| `ChainIndexPlans.EvictAllIff` | src/sparsevllm/engine/chain_cache.py:674-675 | the evictions of a plan go through if and only if the victims are distinct idle chains; their tombstones are then those of the victims in order |
| `ChainIndexPlans.FreshRunStaysSeparate` | src/sparsevllm/engine/chain_cache.py:668-718 | over every run in which each plan is carried out on the state it was made on, no id is both resident and reported as gone |
| `ChainIndexPlans.OutdatedPlanRevives` | src/sparsevllm/engine/chain_cache.py:668-718 | for every id and every limit of tombstones, a run of six calls that makes an id both: plan twice, carry out, finish, evict, carry out the second plan |
| `ChainIndexRecords.EndOfTurn` | src/sparsevllm/engine/chain_cache.py:749-788 | ending a turn succeeds exactly for an active chain whose boundary does not move back; the record is then idle, the most recent, at the new boundary, with the slots and rows given and without reservation |
| `ChainIndexRecords.Admitted` | src/sparsevllm/engine/chain_cache.py:668-718 | the record that carrying out a plan leaves, field by field: active, most recent, with the plan's input and reservations, a new one empty on one row and a resumed one with all it had; and the counters |
| `ChainIndexRecords.Leaving` | src/sparsevllm/engine/chain_cache.py:790-811 | eviction succeeds exactly for idle chains, invalidation for any; the chain's tokens leave the count and each is counted as what it is |
| `ChainIndexRecords.HistoryErrorIs` | src/sparsevllm/engine/chain_cache.py:373-419 | each reason not to remember tokens if and only if: a negative count; a token that does not fit 32 unsigned bits, or too few; and last the room that is left without the chain's own history |
| `ChainIndexRecords.RememberedIff` | src/sparsevllm/engine/chain_cache.py:1115-1154 | tokens are remembered if and only if the chain is idle, of that sequence id, within those bounds and at that boundary and digest |
| `ChainIndexTombstones.RememberedIff` | src/sparsevllm/engine/chain_cache.py:367-371 | an id has a tombstone if and only if it was removed and fewer others than the limit have been removed since |
| `ChainIndexTombstones.GoneIff` | src/sparsevllm/engine/chain_cache.py:434-447 | after any run that decides between "gone" and "unknown" for every id that is not resident |
| `ChainIndexRanks.PlanInStep` | src/sparsevllm/engine/chain_cache.py:1027-1058 | the number of tokens and the digest of the reused prefix lead another rank to the very plan of rank 0 |
| `ChainIndexRanks.FollowValidates` | src/sparsevllm/engine/chain_cache.py:1027-1061 | a rank carries a plan out if and only if it has come to the same one itself |
| `ChainIndexRanks.RanksStayInStep` | src/sparsevllm/engine/llm_engine.py:890-934 | over every run of admissions, turn ends and invalidations no rank raises for a diverged plan, and all agree but for the token history and the counters of refusals |
| `ChainIndexRanks.LeadAdmitsIff` | src/sparsevllm/engine/llm_engine.py:919-934 | rank 0 sends a plan to all ranks, with the digest of the reused prefix, if and only if the request can be planned and, on a resumed chain, brings a token beyond the reused ones; otherwise no record changes |
| `ChainIndexRanks.ResumeIsSound` | src/sparsevllm/engine/chain_cache.py:539-619 | the tokens a resumed request reuses are those the chain has processed, unless the digest collides on the two |
| `ChainIndexRanks.HistoryFits` | src/sparsevllm/engine/chain_cache.py:886-905 | with at most `rows` resident chains, no history longer than the longest sequence and capacity for `rows` of those, remembering tokens does not lack capacity; that runs stay within these bounds is `ChainIndexResume.FitsKept` |
| `ChainIndexRanks.LeadStaysSynced` | src/sparsevllm/engine/chain_cache.py:1115-1154 | within those bounds a turn of rank 0 keeps its tokens behind the digest of every chain; over runs this is `ChainIndexResume.EveryTurnIsRemembered` |
| `ChainIndexResume.FitsKept` | src/sparsevllm/engine/chain_cache.py:621-747 | if a request for a new chain lacks a row whenever all rows are taken, and sequences are of bounded length, every turn of rank 0 keeps resident chains to the rows, histories to that length, and the tokens behind every digest known |
| `ChainIndexResume.EveryTurnIsRemembered` | src/sparsevllm/engine/chain_cache.py:1115-1154 | over every such run from the empty index each turn that ends is remembered with all its tokens, and there is a row for every resident chain |
| `ChainIndexResume.ResumesLastTurn` | src/sparsevllm/engine/chain_cache.py:501-747 | over every such run, whatever was evicted, invalidated and created again in between, a resumed request reuses exactly the tokens processed by the last turn ended on that chain, unless the digest collides on the two |
| `ChainIndexResume.ContinuationIsResumed` | src/sparsevllm/engine/chain_cache.py:501-718 | over every such run an idle chain is resumed by any request with its fingerprint and sequence id whose prompt begins with the tokens of its last ended turn, if the idle chains hold what is lacking; all those tokens are reused, and with a new token the plan is carried out |
| `ChainIndexClass.ChainCacheIndex.AddTombstone` | src/sparsevllm/engine/chain_cache.py:367-371 | the id moves to the end and the oldest tombstones make room |
| `ChainIndexClass.ChainCacheIndex.SortedCandidates` | src/sparsevllm/engine/chain_cache.py:624-632 | the evictable chains, each once, in order of access time and id |
| `ChainIndexClass.ChainCacheIndex.ChooseVictims` | src/sparsevllm/engine/chain_cache.py:633-648 | the loops over candidates and layers take as many as the specification and leave its deficits |
| `ChainIndexClass.ChainCacheIndex.MakePlan` | src/sparsevllm/engine/chain_cache.py:501-666 | the plan or error of the specification; only a counter changes |
| `ChainIndexClass.ChainCacheIndex.CarryOut` | src/sparsevllm/engine/chain_cache.py:668-718 | the evictions and the admission of the specification, keeping the invariant |
| `ChainIndexClass.ChainCacheIndex.PrepareTokenHistory` | src/sparsevllm/engine/chain_cache.py:373-419 | raises exactly for a negative count, a token that does not fit 32 bits, too few tokens, or a history over capacity |
| `ChainIndexClass.ChainCacheIndex.FinishChain` | src/sparsevllm/engine/chain_cache.py:720-747 | the end of a turn as specified, as a whole or not at all |
| `ChainIndexClass.ChainCacheIndex.EvictChain` | src/sparsevllm/engine/chain_cache.py:799-811 | removes an idle chain, its owner entry and its history; an active one raises |
| `ChainIndexClass.ChainCacheIndex.InvalidateChain` | src/sparsevllm/engine/chain_cache.py:790-797 | removes a chain in either state |
| `FitSearch.FitRepetitionCount` | benchmark/ruler_vt/tasks.py:173-211 | for any measure, monotone or not, the count found fits and the next one does not; at most 2 log2(count) + 4 builds; raises exactly when one repetition does not fit |
| `FitSearch.Double` | benchmark/ruler_vt/tasks.py:194-200 | doubling stops between a power of two that fits and the next, which does not |
| `FitSearch.DoubleFor` | benchmark/ruler_vt/tasks.py:194-200 | the doubling loop cut off after any number of turns: it is still running exactly if its guard has held every time, and its counts are the next powers of two |
| `FitSearch.DoublingEndsIff` | benchmark/ruler_vt/tasks.py:194-200 | the doubling ends after some number of turns if and only if some power of two it tries is too long |
| `FitSearch.ConstantMeasureNeverEnds` | benchmark/ruler_vt/tasks.py:173-200 | a measure that no repetition makes longer, whose first count fits: the doubling is still running after any number of turns |
| `FitSearch.Bisect` | benchmark/ruler_vt/tasks.py:202-211 | bisection keeps a fitting count below an unfitting one and returns the payload and length of the count it ends on |
| `FitSearch.BoundaryIsMaximum` | benchmark/ruler_vt/tasks.py:173-211 | for a monotone measure a count that fits with an unfitting successor is the largest that fits |
| `CommonWords.Base26` | benchmark/ruler_vt/tasks.py:153-158 | the loop writes the digits from the back and reverses them into the code |
| `CommonWords.CodedDecodes` | benchmark/ruler_vt/tasks.py:153-158 | decoding gives back the value modulo 26^width |
| `CommonWords.DecodedCodes` | benchmark/ruler_vt/tasks.py:153-158 | every string of letters is the code of exactly its decoded value |
| `CommonWords.CodedInjective` | benchmark/ruler_vt/tasks.py:153-162 | different values below 26^width have different codes |
| `CommonWords.CodedInOrder` | benchmark/ruler_vt/tasks.py:153-158 | codes are in the order of their values, as strings are ordered |
| `CommonWords.AnswerTrueIffEnoughWords` | benchmark/ruler_vt/tasks.py:266-298 | for every offset and shuffle the stored answer lists without repetition exactly the words with frequency freq_cw, all others having freq_ucw, if and only if neither the words asked for nor the answer and one more exceed 26^4 |
| `CommonWords.PromptHasCount` | benchmark/ruler_vt/tasks.py:274-282 | up to that size the prompt has as many different words as asked for, or one more than the answer if that is more |
| `CommonWords.DrawnIff` | benchmark/ruler_vt/tasks.py:277 | which offsets can be drawn: those with all words behind them and one to spare, and the first |
| `CommonWords.TrueAnswerIsMostFrequent` | benchmark/ruler_vt/tasks.py:117-120 | with freq_cw > freq_ucw the answer's words are strictly more frequent than all others |
| `VariableTracking.ShuffleSublists` | benchmark/ruler_vt/pred.py:114-128 | for any priorities the output has every element of every chain once, each chain in its own order; raises exactly when a chain is empty; terminates |
| `VariableTracking.HideChain` | benchmark/ruler_vt/pred.py:134-137 | each sentence of a chain ends up at its drawn position shifted by its index, in order, and no other owner's sentences are disturbed |
| `VariableTracking.HideChains` | benchmark/ruler_vt/pred.py:130-137 | the text is a shuffle of the haystack and all the chains in which each keeps its order; raises exactly when a chain is longer than the text it is hidden in |
| `Sharding.StrideAt` | benchmark/ruler_vt/pred.py:988 | worker `rank` gets the samples at the positions rank, rank + world, ..., and no others |
| `Sharding.SplitKeepsAll` | benchmark/ruler_vt/pred.py:988 | for every number of workers the split loses and repeats nothing |
| `Sharding.EvaluateSamples` | benchmark/ruler_vt/pred.py:579-637 | for every batch size there is one row per sample, in order, with the outcome of its own place in its own batch; a batch that raises or answers with the wrong count fails as a whole |
| `Sharding.OwedIs` | benchmark/ruler_vt/pred.py:614-633 | a sample's batch runs from the last multiple of the batch size, and its outcome is the prediction at its place there exactly if the model returns one for each sample of the batch |
| `Sharding.MergeWorkerOutputs` | benchmark/ruler_vt/pred.py:748-771 | raises exactly when a worker's file is missing, otherwise the rows of all files stably sorted by index |
| `Sharding.MergeUndoesSplit` | benchmark/ruler_vt/pred.py:763-771 | the merged rows carry the indices 0 to n - 1 in order, and row i is row i / world of worker i % world |
| `Sharding.AcceptedIffEachOnce` | benchmark/ruler_vt/pred.py:817-829 | the merged file passes the count and identity checks if and only if the workers' rows hold every index exactly once |
| `Sharding.ShardedRun` | benchmark/ruler_vt/pred.py:579-834 | for all numbers of workers and samples and all batch sizes the run passes validation unless a generation failed, and every sample has the outcome its own worker gave it |
| `LongBenchMerge.MergeWorkerOutputs` | benchmark/long_bench/pred.py:314-361 | raises if and only if a row lacks its identity or two rows share one, naming the first; otherwise the result is a strictly ordered permutation of the workers' rows |
| `LongBenchMerge.OrderedMeans` | benchmark/long_bench/pred.py:352-360 | of any two merged rows the first belongs to a data set that precedes, as strings do, or has the smaller source index in the same one |
| `LongBenchMerge.IdentityIs` | benchmark/long_bench/pred.py:336-344 | a row has an identity exactly with a source index and a data set, the artifact's own or, in an artifact of all data sets, the row's |
| `LongBenchMerge.MergeIgnoresWorkers` | benchmark/long_bench/pred.py:314-361 | how the rows are spread over the workers, and their order, leave no trace in the artifact |
| `Selection.ParseTokenBuckets` | benchmark/long_bench_v2/contracts.py:44-90 | accepts exactly the non-empty lists of well-formed, distinctly named, pairwise disjoint buckets, and keeps their order |
| `Selection.AcceptableIff` | benchmark/long_bench_v2/contracts.py:58-87 | a list is acceptable if and only if its entries are, no two names agree, and no number of tokens lies in the ranges of two |
| `Selection.WellFormedIff` | benchmark/long_bench_v2/contracts.py:58-79 | an entry is well-formed if and only if it is an object with a name that is not empty and three positive integers, the first not above the second |
| `Selection.AtMostOneBucket` | benchmark/long_bench_v2/contracts.py:80-87 | accepted buckets give each row at most one |
| `Selection.ChosenNext` | benchmark/long_bench_v2/contracts.py:209-229 | append, sort and drop keep a bucket's list equal to the first `samples` of all its rows sorted |
| `Selection.StreamRows` | benchmark/long_bench_v2/contracts.py:201-229 | after the loop every bucket holds exactly the first `samples` of its sorted rows, and their true count |
| `Selection.SelectSamples` | benchmark/long_bench_v2/contracts.py:192-244 | raises if and only if some bucket is short, naming the first; otherwise the buckets' selections in order, numbered |
| `Selection.SelectionIgnoresRowOrder` | benchmark/long_bench_v2/contracts.py:192-244 | for rows with distinct ids, shuffling the data set changes neither the selected rows nor their order |
| `SelectionMeaning.ChosenMeans` | benchmark/long_bench_v2/contracts.py:201-229 | a bucket's selection, in the rows: as many as wanted of those in its range, or all; none twice; by digest and id; and no row in range that is left out comes before one taken |
| `SelectionMeaning.ShortIff` | benchmark/long_bench_v2/contracts.py:233-240 | a bucket is short if and only if fewer rows are in its range than it wants |
| `PassAtK.EstimatorIsBinomial` | benchmark/scbench/repo_qa_utils.py:98-104 | the early return and the product together are 1 - C(n-c, k) / C(n, k), without a division by zero |
| `PassAtK.EstimatorRatio` | benchmark/scbench/repo_qa_utils.py:98-104 | the same as a ratio for k at most n |
| `PassAtK.EstimatorRange` | benchmark/scbench/repo_qa_utils.py:98-104 | the estimate lies in [0, 1] and does not decrease in the number of correct samples |
| `PassAtK.PassAtOne` | benchmark/scbench/repo_qa_utils.py:98-104 | pass@1 is c / n |
| `PassAtK.EstimatorIsProbability` | benchmark/scbench/repo_qa_utils.py:88-104 | the estimate is the fraction of the k-element sets of samples that contain a correct one |
| `CommentRemoval.RemoveComments` | benchmark/scbench/repo_qa_utils.py:123-134 | captures in any order that share bytes at the end of the text only: exactly the bytes in no range remain, in order |
| `CommentRemoval.ExactIffSharedOnlyAtEnd` | benchmark/scbench/repo_qa_utils.py:131-134 | the splices are exact on every text of a length if and only if captures share bytes at its end only |
| `CommentRemoval.DisjointCapturesAreExact` | benchmark/scbench/repo_qa_utils.py:131-134 | for disjoint captures in any order exactly the bytes in no range remain |
| `CommentRemoval.NoCapturedByteSurvives` | benchmark/scbench/repo_qa_utils.py:131-134 | no captured byte survives, however the captures overlap |
| `CommentRemoval.NestedCapturesRemoveTooMuch` | benchmark/scbench/repo_qa_utils.py:131-134 | a text and two nested captures: the loop leaves one byte of it, although two lie outside both captures |
| `CacheAccounting.EligibleIsLargest` | benchmark/scbench/run_scbench.py:98-117 | eligible tokens are the largest block multiple within the reusable prefix and the prompt less one token; none for a prompt of at most one token or a negative block size |
| `CacheAccounting.CommonPrefixLen` | benchmark/scbench/run_scbench.py:106-112 | the loop finds the longest common prefix |
| `CacheAccounting.ReuseTotals` | benchmark/scbench/run_scbench.py:120-166 | covered and beyond tokens add up to the cached ones on every list of records, and the requests beyond their plan are counted |
| `CacheAccounting.AccountingIs` | benchmark/scbench/run_scbench.py:120-142 | the cached tokens of a request are split at its plan without loss, at most the plan being covered and tokens lying beyond only a plan that is covered; the scope says which |
| `CacheAccounting.LineParts` | benchmark/scbench/run_scbench.py:142-166 | which field of a line is its plan, and what the line adds to each total |
| `CacheAccounting.Summarize` | benchmark/scbench/run_scbench.py:229-287 | the totals over the lines; the hit rate times the prompt tokens is the cached tokens, the coverage rate times the plan the covered ones, and 0 where the divisor is; over successful records with non-empty prompts coverage is in [0, 1], the hit rate below 1, and at least one token per request is recomputed |
| `CacheAccounting.ClaimPassesIff` | benchmark/scbench/run_scbench.py:342-366 | a reported hit passes if and only if it is nothing, or a positive number of whole blocks that leaves a prompt token |
| `CacheSession.SuccessIsHonest` | benchmark/scbench/run_scbench.py:368-492 | a successful record satisfies what the summary relies on |
| `CacheSession.RecordIs` | benchmark/scbench/run_scbench.py:368-492 | a request's record, in its fields: the metrics have failed exactly if the reported hit is neither nothing nor whole positive blocks that leave a token, and otherwise it is what the engine did |
| `CacheSession.SessionIsHonest` | benchmark/scbench/run_scbench.py:500-532 | so does every successful record of every session |
| `CacheSession.LaterPlansReachContext` | benchmark/scbench/run_scbench.py:514-532 | after a successful turn every later plan is at least the common prefix with it, which covers the shared context |
| `CacheSession.MaxCommonIs` | benchmark/scbench/run_scbench.py:516-519 | the plan is attained by a cached sequence and no cached sequence has a longer common prefix |
| `CacheSession.CachedIs` | benchmark/scbench/run_scbench.py:529-532 | what is cached after any number of turns: every successful turn's sequence, and besides at most what the object remembered before the session |
| `CacheSession.PlanReachesContextIff` | benchmark/scbench/run_scbench.py:515-519 | the plan reaches the context if and only if nothing is cached or something cached begins with it |
| `CacheSession.ShortPlanIff` | benchmark/scbench/run_scbench.py:500-532 | in every session the plan of a turn is below the shared context if and only if the turn is not the first, no earlier one succeeded, and the object remembers from before the session a sequence that does not begin with the context |
| `CacheSession.StaleSequenceLowersPlan` | benchmark/scbench/run_scbench.py:489-532 | an object that plays two sessions, the second of which has a plan below its context |
| `CacheSession.SparseVLLMSCBenchSearch.RunOneRequest` | benchmark/scbench/run_scbench.py:368-493 | a request that is not admitted leaves no record; an admitted one has its record written whether or not the engine raises later, and only a success becomes the last cached sequence |
| `CacheSession.SparseVLLMSCBenchSearch.TestScdq` | benchmark/scbench/run_scbench.py:500-536 | the loop plays the session as specified and stops at the turn that raises, which has a record exactly if it was admitted |
| `CacheSession.TraceIsHonest` | benchmark/scbench/run_scbench.py:200-215 | whatever the engine does over any number of sessions, every successful record in the trace, and among those a raise leaves behind, is honest |
| `CacheSession.PassNext` | benchmark/scbench/run_scbench.py:200-215 | from one example to the next no record is lost; a session that returns is flushed, one that raises adds nothing to the trace |
| `CacheSession.SparseVLLMSCBenchSearch.RunExamples` | benchmark/scbench/run_scbench.py:842-940 | the records of each finished session go to the trace in order; a raise ends the run with that session's records still in the object |
| `CacheSession.SparseVLLMSCBenchSearch.RunAndSummarize` | benchmark/scbench/run_scbench.py:229-292 | for every engine and all examples with a context the summary of a finished run has the totals and rates of the successful records, and recomputes at least one token for each |
| `CacheSession.SuccessLinesAre` | benchmark/scbench/run_scbench.py:231-232 | what is summed up are the lines of the successful records, in order, and no others |
| `Percentile.PercentileDefinedIff` | benchmark/efficiency/bench_probe.py:158-162 | raises exactly for no values or a quantile outside [0, 1] |
| `Percentile.PercentileOfPermutation` | benchmark/efficiency/bench_probe.py:158-168 | the order of the values does not matter |
| `Percentile.PercentileInRange` | benchmark/efficiency/bench_probe.py:158-168 | it lies between its values at 0 and 1, which are the least and the greatest value |
| `Percentile.ValueInterpolates` | benchmark/efficiency/bench_probe.py:164-168 | between two neighbouring ordered values it moves on a straight line from one to the other |
| `Percentile.PercentileInterpolates` | benchmark/efficiency/bench_probe.py:158-168 | for any values and their ordering: at the quantile that lies a part of the way from one place to the next, the percentile lies that part of the way between the values there |
| `Percentile.PercentileOfOne` | benchmark/efficiency/bench_probe.py:158-168 | every percentile of one value is that value |
| `Percentile.PercentileMonotoneInQuantile` | benchmark/efficiency/bench_probe.py:158-168 | it does not decrease in the quantile, also from one segment to another |
| `Percentile.PercentileMonotoneInValues` | benchmark/efficiency/bench_probe.py:158-168 | raising values, in whatever order they come, does not lower it |
| `Throughput.RequestPhaseMetrics` | benchmark/efficiency/bench_probe.py:461-533 | raises exactly for no request, dictionaries that disagree, or an impossible record, naming the least such request; otherwise, in the dictionaries: the timings by id, the mean time per token of those that have one, the longest wait for a first token, and the span from the first of these to the last completion |
| `Throughput.ComplaintIs` | benchmark/efficiency/bench_probe.py:492-508 | a record is possible if and only if it has a token, its times are in order and, with more than one token, decoding takes time; otherwise which of these is complained of |
| `Throughput.PhaseRates` | benchmark/efficiency/bench_probe.py:555-596 | each refusal if and only if, and otherwise the rates: times their duration they give the input tokens and the output tokens after the first of each request |
| `Throughput.ProxyIs` | benchmark/efficiency/bench_probe.py:536-552 | the concurrency proxy times the time per token is a thousand times the concurrency |
| `Throughput.WithinWindow` | benchmark/efficiency/bench_probe.py:529-531 | no request decodes for longer than the batch's window |
| `Throughput.EqualLengthsBelowProxy` | benchmark/efficiency/bench_probe.py:485-596 | for requests of one length above one the observed decode throughput is at most the concurrency proxy, with equality if and only if every request decodes over the whole window |
| `Throughput.ObservedBelowSumOfRates` | benchmark/efficiency/bench_probe.py:485-596 | for arbitrary lengths the observed decode throughput is at most the sum of 1000 / tpot, and equal to it if every request that decodes does so over the whole window |
| `Throughput.MixedLengthsExceedProxy` | benchmark/efficiency/bench_probe.py:485-596 | a batch of mixed lengths that exceeds the proxy |
| `ProxyBound.BelowProxyIffBalanced` | benchmark/efficiency/bench_probe.py:485-596 | for given output lengths the observed decode throughput is at most the concurrency proxy on every possible timeline if and only if the lengths are balanced |
| `ProxyBound.BatchBound` | benchmark/efficiency/bench_probe.py:485-596 | for one batch of balanced lengths the bound holds, and on the timeline on which every request decodes over the whole window it holds only then |
| `ProxyBound.BalancedIffEqual` | benchmark/efficiency/bench_probe.py:485-596 | when every request decodes, lengths are balanced if and only if they are equal |
| `JitteredLengths.Jittered` | benchmark/efficiency/workload.py:64-101 | for every jitter and all shuffles a varied trace has exactly `count` lengths, from the target down by the rounded jitter (one token if that is less, and not below 1), no frequency more than one above another, and two different lengths, so the repair is never reached; raises exactly as stated |
| `JitteredLengths.CutIsBalanced` | benchmark/efficiency/workload.py:91-97 | whole cycles and a beginning of one more are balanced |
| `JitteredLengths.RoundIsNearest` | benchmark/efficiency/workload.py:83 | rounding of the jitter gives the nearest integer, ties to even |

## Left out

- The inference engine apart from the chain index (scheduler, cache managers, kernels, radix prefix cache): its answers are arbitrary, and the physical demands of a request are given, the same on every rank.
- Aliasing of chain records: the program hands out the record objects it goes on updating, the model files records as values.
- The byte length of digests, the fingerprint's fields, and statistics derived from the index.
- Reservations of active chains as computed by the cache managers' hooks: the run theorems of `ChainIndexResume` take from them only that a new chain lacks a row once every row has a resident chain. Sequences without a chain take rows too, which makes the demand higher and is allowed.
- Subprocesses, Docker and HTTP transport, files, JSON, clocks, sleeps and threads as such: they are oracles, sequences and interleaved steps.
- The guard's event details, times and messages, and the kill's output: the model logs which object had an event and which was killed.
- A guard object whose registration is rejected: the program creates it and drops it, the model does not create it.
- Floating point: rates, percentiles, the estimator and the jitter are over the reals.
- Tokenizers, templates, regular expressions, tree-sitter, digests and random generators: uninterpreted functions, arbitrary draws or arbitrary permutations.
- Prefix pruning by HTTP polling in the litellm model: mostly validation of the server's replies.
- Text of continuation errors with their digests and field lists: the model says which message differs.
- Uniqueness of variable names in `generate_chains`: on a collision it adds names and can build a short chain, so it does not hold.
- `optimal_num_noises`: its measure is random from one call to the next.
- The needle, frequent-words and plain variants of the RULER tasks, and BLEU-style scores.
- FitRepetitionCount: requires that the doubling ends, which is exactly when the program terminates (`DoublingEndsIff`).
- SelectSamples: takes buckets as parsing leaves them, as its only callers do.
- Line-by-line contents of merged rows other than identity, sample index and an arbitrary payload.
- A `sample_idx` that is present but not a number: the program raises from the sort key, the model has integers.
- The multi-turn variant of an SCBench session, which extends one prompt from turn to turn.
- Trace lines whose counters are null: the program writes numbers only.
- The step loop of a single SCBench request with its step and progress limits: its outcome is arbitrary.
- `truncate_input` for a maximum of 0 or 1, argument parsing, report formatting and artifact validators.
