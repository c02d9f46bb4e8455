# Sylliptor: verified models

Dafny models of the stateful engines of the Sylliptor agent CLI, with proofs of what they
promise. `dafny verify dfyconfig.toml` checks everything.

| what | files |
|---|---|
| run deadlines: phases, reserve, start decisions, timeouts, child deadlines | `DeadlineModel`, `DeadlineTheorems`, `DeadlineRuns`, `ExecutionDeadline`, `DeadlineDecisions`, `SubagentDeadlines`, `ClientTimeout` |
| the telemetry queue and its concurrent shippers | `EventQueue`, `AgentBoxClient`, `QueueProtocol`, `QueueClients` |
| bounded collection of review diffs, and the verdict | `Utf8`, `BoundedRead`, `NameStatus`, `DiffListing`, `ListingTheorems`, `DiffCollection`, `DiffTheorems`, `ReviewVerdict`, `ReviewTheorems`, `ReviewDecisions`, `ReviewRun` |
| the patch of an untracked file and the extractors of patch paths | `PatchPaths`, `UntrackedPatch` |
| workspace copy, diff and sync | `WorkspaceTree`, `WorkspaceSync`, `SyncTheorems`, `WorkspaceDecisions` |
| redaction of exported JSON | `Redaction`, `RedactionPolicy` |
| process trees and service identity | `ProcessTree`, `ServiceIdentity` |
| lazy loading under threads | `LazyRunner` |
| the machine event stream | `ForgeSession` |
| reduction of execution prompts | `AssetBlocks`, `AssetTheorems`, `AssetContents`, `AssetSections`, `AssetLines`, `ReductionLadder`, `ExecutionReserves` |

Objects that the program updates in place are classes whose methods are proved against functions
on values; what the program promises is then proved about those functions. Concurrent code is a
state machine with one step per read or write of shared state. What the models cannot see (the
clock, Git's output, the remote plane, secret patterns) is data of a run: a clock that may move
before every reading, or the outcome of a leaf carried along with the value it belongs to.

Where a promise does not hold of the code as it stands, the exact condition is proved, often with
a concrete case that fails:

- the comment at `execution_deadline.py:560-563` that the window opens past 75% holds from budgets
  of 0.2 s on (`WindowOpensAfterThreeQuarters`);
- inside the finalization window a request is let through whatever its estimate
  (`WindowIgnoresEstimate`), and a deadline without an end raises exhaustion on entry when neither a
  timeout nor a ceiling is set (`DisabledEntry`);
- a queue append cut by a crash spoils the next event, and with one client that is the only way to
  lose one (`LostExactlyWhenSpoiled`, `CutWriteLosesNextEvent`); two clients on one directory also
  lose events to a replace with lines that no longer match the file (`LostExactlyWhenTaken`,
  `TakenByStaleOrSpoiling`, `TwoClientsLoseAnEvent`); 500 rejected events block the queue for good
  (`EventuallyShippedIff`);
- a review approves changes it never showed when every path Git printed is refused
  (`UnseenApprovalExactlyWhen`, `BackslashFileIsApproved`);
- paths with " b/", line separators or whitespace at the end do not survive a patch
  (`PatchReadsBackExactlyWhen`);
- the walk over a workspace is written to leave artifact directories out, and enters all of them; no
  listed file changes by it (`ListedExactlyWhen`);
- a list as `type` can lose a block inside and become a flagged type, so that a reasoning block is
  left and redacting again removes more (`CleanExactlyWhen`, `ListedTypeBecomesFlagged`);
- the kill traversal does not end for a process below itself (`TraversalEndsExactlyWhen`,
  `ReusedNumbersNeverEnd`);
- the module comment at `forge_events.py:13-28` says an unhandled exception is an error with code 2;
  an exception that carries another code is reported with that code, and as completed when
  that code is 0, 1 or empty (`ExceptionIsReportedExactlyAs`, `FailureCanReadAsSuccess`);
- while focused blocks are still allowed, a heading line inside the content of a full block keeps that
  content in a block marked reference only (`SectionHoldsContentExactlyWhen`, `HeadingKeepsContent`);
- over-subscribed reserves miss a floor that could be met (`BestIsReachedExactlyWhen`);
- `status` reports a replaced process as running (`RunningDespiteReplacement`).

## Model

| member | source | states |
|---|---|---|
| DeadlineModel.RecordKeepsSound | src/sylliptor_agent_cli/execution_deadline.py:243-248 | every record built by recording durations keeps total ≤ count · maximum |
| DeadlineModel.EstimateIsMaximum | src/sylliptor_agent_cli/execution_deadline.py:249-258 | the average of such a record never exceeds its maximum, so the estimate is the maximum |
| DeadlineModel.EstimateGrows | src/sylliptor_agent_cli/execution_deadline.py:243-258 | recording a duration never lowers the estimate, and the estimate covers it |
| DeadlineModel.PeakIsPeak | src/sylliptor_agent_cli/execution_deadline.py:476-508 | the latency term of a group of operations is the largest estimate recorded for it, 0 for none |
| DeadlineModel.ReserveGrows | src/sylliptor_agent_cli/execution_deadline.py:443-529 | recording any duration never shrinks the finalization reserve |
| DeadlineModel.ClampedTimeoutFits | src/sylliptor_agent_cli/execution_deadline.py:422-441 | a clamped timeout fits what is left beyond the reserve, is refused exactly when less than the minimum is left, and exceeds the configured value exactly when that value is below the minimum |
| DeadlineTheorems.StageNeverGoesBack | src/sylliptor_agent_cli/execution_deadline.py:557-582 | a later reading of the clock gives no earlier degradation stage and blocks no fewer operations |
| DeadlineTheorems.TornPhaseIsBetween | src/sylliptor_agent_cli/execution_deadline.py:611-619 | a phase put together from three clock readings lies between the phases at the first and the last of them |
| DeadlineTheorems.PhaseNeverGoesBack | src/sylliptor_agent_cli/execution_deadline.py:476-619 | the phase rank does not go down when the clock does not and the reserve does not |
| DeadlineTheorems.ReserveIsCapped | src/sylliptor_agent_cli/execution_deadline.py:510-529 | the reserve is at most max(0.05, min(maximum reserve, fraction · configured duration)) |
| DeadlineTheorems.WindowOpensAfterThreeQuarters | src/sylliptor_agent_cli/execution_deadline.py:557-575 | with the default finalization policy the window never opens before 75% of the budget if and only if the budget is at least 0.2 s |
| DeadlineTheorems.ClosedMeansEveryRequestRefused | src/sylliptor_agent_cli/execution_deadline.py:651-786 | an operation is closed by the budget if and only if every possible request for it is refused |
| DeadlineTheorems.BudgetRefusalIsPermanent | src/sylliptor_agent_cli/execution_deadline.py:557-582 | after a refusal for degradation or exhaustion every later decision on that operation is a refusal, whatever was observed and whatever the caller asks |
| DeadlineTheorems.NormalWorkFits | src/sylliptor_agent_cli/execution_deadline.py:651-786 | a decision that lets normal work through leaves estimate + reserve within the remaining time, outside the window, on an operation that is not closed |
| DeadlineRuns.RunNeverGoesBack | src/sylliptor_agent_cli/execution_deadline.py:443-649 | over any run of ticks, observations, reports and marks the clock, the reserve and the phase rank never go back, and what was recorded as entered or marked stays as it was |
| DeadlineRuns.RefusalSurvivesRun | src/sylliptor_agent_cli/execution_deadline.py:443-786 | a budget refusal before a run is a refusal after it |
| DeadlineRuns.StagesReportedOnceInOrder | src/sylliptor_agent_cli/execution_deadline.py:584-609 | every degradation stage is reported at most once, in ladder order, at times that do not decrease, and the record of entered stages holds exactly the reported ones |
| DeadlineDecisions.StageDecided | src/sylliptor_agent_cli/execution_deadline.py:557-582 | the stage, in seconds of the budget: wrap-up from its fraction on, convergence from the smaller one, fractions outside (0, 1] giving way to 0.9 and 0.75 |
| DeadlineDecisions.ReserveDecided | src/sylliptor_agent_cli/execution_deadline.py:476-529 | the reserve covers every configured minimum and every weighted estimate of what was observed (larger of average and longest duration, times the multiplier of its kind) as far as the limit allows, and is one of these or the limit |
| DeadlineDecisions.DefaultReserveDecided | src/sylliptor_agent_cli/execution_deadline.py:476-529 | with the default policy the reserve is at least a second, at most two minutes or a quarter of the budget, and covers 1.5 times the longest model call and 1.25 times the longest verification within that |
| DeadlineDecisions.ClampIsLongest | src/sylliptor_agent_cli/execution_deadline.py:422-441 | no timeout longer than the clamped one fits what is left beside the reserve and the configured value |
| DeadlineDecisions.DisabledClampsNothing | src/sylliptor_agent_cli/execution_deadline.py:422-431 | without a deadline every timeout stays as configured |
| DeadlineDecisions.EstimateDecided | src/sylliptor_agent_cli/execution_deadline.py:451-474 | the estimate is the largest candidate: an observed, a default or a clamped configured duration; none when there is none |
| DeadlineDecisions.StartDecided | src/sylliptor_agent_cli/execution_deadline.py:651-786 | each refusal reason has its exact condition in seconds, in the order they are tried; otherwise the request is let through if and only if its estimate is at most what is left beside the reserve, or the window is open |
| DeadlineDecisions.PhaseDecided | src/sylliptor_agent_cli/execution_deadline.py:611-619 | exhausted from the deadline on, the window while no more than the reserve is left, else the stage of the elapsed budget, each at its own reading |
| DeadlineDecisions.DecisionReports | src/sylliptor_agent_cli/execution_deadline.py:651-786 | what a decision reports beside its reason: estimate, phase, reserve and the time left |
| DeadlineDecisions.StageReportDecided | src/sylliptor_agent_cli/execution_deadline.py:584-599 | a stage is reported exactly when the clock has reached it and it was not reported before; a run that jumps a stage reports only the one it landed in |
| DeadlineDecisions.WindowReportDecided | src/sylliptor_agent_cli/execution_deadline.py:621-630 | the window is reported exactly when it is open before the deadline and was not reported before |
| ExecutionDeadlines.DurationObservation.Record | src/sylliptor_agent_cli/execution_deadline.py:243-248 | one duration is added to the record, negative ones as 0 |
| ExecutionDeadlines.ExecutionDeadline.ClampTimeoutSeconds | src/sylliptor_agent_cli/execution_deadline.py:422-441 | answers the clamped timeout at the clock reading it makes |
| ExecutionDeadlines.ExecutionDeadline.ObserveDuration | src/sylliptor_agent_cli/execution_deadline.py:443-449 | takes exactly the observation step of a run; other operations keep their records |
| ExecutionDeadlines.ExecutionDeadline.LargestEstimate | src/sylliptor_agent_cli/execution_deadline.py:485-505 | the loop over all records finds the peak estimate of a group |
| ExecutionDeadlines.ExecutionDeadline.FinalizationReserveSeconds | src/sylliptor_agent_cli/execution_deadline.py:476-529 | answers the capped reserve from the three peaks |
| ExecutionDeadlines.ExecutionDeadline.CurrentPhase | src/sylliptor_agent_cli/execution_deadline.py:611-619 | answers the phase at three ordered clock readings |
| ExecutionDeadlines.ExecutionDeadline.MaybeEnterDegradationStage | src/sylliptor_agent_cli/execution_deadline.py:584-599 | takes exactly the stage-report step of a run and returns what it reported |
| ExecutionDeadlines.ExecutionDeadline.MaybeEnterFinalization | src/sylliptor_agent_cli/execution_deadline.py:621-630 | takes exactly the window-report step of a run; true exactly the first time the window is seen |
| ExecutionDeadlines.ExecutionDeadline.EstimatedDurationSeconds | src/sylliptor_agent_cli/execution_deadline.py:451-474 | combines observed, default and clamped configured durations into the largest, or raises for a configured one that is not positive |
| ExecutionDeadlines.ExecutionDeadline.StartDecision | src/sylliptor_agent_cli/execution_deadline.py:651-786 | answers the decision of the model at ordered clock readings |
| ExecutionDeadlines.DeriveSubagentDeadline | src/sylliptor_agent_cli/execution_deadline.py:821-856 | returns the parent itself when it is closing or ends first, else a child with the fallback; raises exactly for a fallback that is not positive |
| SubagentDeadlines.DerivedIsTheEarlier | src/sylliptor_agent_cli/execution_deadline.py:821-856 | a parent that is not finalizing or exhausted hands down exactly the earlier of its deadline and now + fallback |
| SubagentDeadlines.DerivedDecided | src/sylliptor_agent_cli/execution_deadline.py:821-856 | the parent is handed down as it is if and only if it is over, in its window or ends first; any other gives a fresh budget from now on under its policies |
| SubagentDeadlines.NoChildOutlivesAnAncestor | src/sylliptor_agent_cli/execution_deadline.py:821-856 | in any chain of derivations every derived deadline is finite and none outlives an enabled ancestor |
| ClientTimeout.GrantedRetryEndsInTime | src/sylliptor_agent_cli/execution_deadline.py:958-992 | a granted retry never lengthens the client timeout, leaves a useful one, and wait + timeout + cleanup reserve, and outside the window + finalization reserve, end by the deadline |
| ClientTimeout.RetryGrantedExactlyWhen | src/sylliptor_agent_cli/execution_deadline.py:958-992 | a retry is granted if and only if wait and minimum fit the time left, and beside the reserve unless the window was read as open; a window that opened since the phase was read refuses it, as does a useless rest |
| ClientTimeout.RetryTimeoutIsLongest | src/sylliptor_agent_cli/execution_deadline.py:976-991 | any timeout longer than the granted one exceeds the one before or what is left beside wait and reserves |
| ClientTimeout.RetryHook.Allows | src/sylliptor_agent_cli/execution_deadline.py:958-992 | grants exactly when the terms do at the ordered readings it makes, phase first; only then the timeout is shortened and one attempt is logged, which is on time: wait, timeout, cleanup reserve and, with a phase reading that is not the window, the finalization reserve end by the deadline |
| ClientTimeout.EntryTimeoutFits | src/sylliptor_agent_cli/execution_deadline.py:897-956 | under an enabled deadline the first timeout is at most the configured one, unless that is below the minimum; entry raises for exhaustion exactly when the cleanup reserve leaves less than the minimum at the last reading, else for an invalid value exactly when the configured one is not positive; the attempt leaves the cleanup reserve, and the finalization reserve too where there is room |
| ClientTimeout.EntryTimeoutIsLongest | src/sylliptor_agent_cli/execution_deadline.py:897-956 | any longer first timeout exceeds the configured one or what is left: beside the finalization reserve unless the run is closing or the minimum would not be left |
| ClientTimeout.ClampForEntry | src/sylliptor_agent_cli/execution_deadline.py:897-956 | answers the entry timeout of the terms at the ordered readings it makes |
| ClientTimeout.Enter | src/sylliptor_agent_cli/execution_deadline.py:918-996 | raises and changes nothing, or shortens the timeout, installs the hook and lets the first attempt start |
| ClientTimeout.Retries | src/sylliptor_agent_cli/execution_deadline.py:958-992 | any sequence of requests, with durations recorded in between: each is granted exactly as the terms of that moment say at readings made one after the other, and exactly the granted attempts are logged, with their readings |
| ClientTimeout.GuardsNeverShrink | src/sylliptor_agent_cli/execution_deadline.py:443-529 | what a retry outside the window must leave unused never shrinks from one request to a later one |
| ClientTimeout.RetriesEndInTime | src/sylliptor_agent_cli/execution_deadline.py:958-992 | over any sequence of requests, whatever is observed meanwhile, the timeouts of the granted attempts only shrink, from the first attempt on, and every attempt ends on time with both reserves, or the cleanup reserve alone where the window was read as open |
| ClientTimeout.WithClampedClient | src/sylliptor_agent_cli/execution_deadline.py:918-1006 | timeout and hook are restored on every exit; the block raises exactly when entry does, and otherwise logs exactly the first and the granted attempts, shrinking and each on time, reserves written out |
| EventQueue.EventBatch | src/sylliptor_agent_cli/agentbox_client.py:289-301 | the batch is the first 500 readable events of the queue |
| EventQueue.Remaining | src/sylliptor_agent_cli/agentbox_client.py:176-181 | the rewrite keeps every line except those of shipped events, in order |
| EventQueue.KeepTakesOutShipped | src/sylliptor_agent_cli/agentbox_client.py:176-181 | rewriting takes out exactly the shipped events |
| EventQueue.KeepGoesByLine | src/sylliptor_agent_cli/agentbox_client.py:176-181 | rewriting goes line by line: an event goes exactly when its id was shipped, and a line without an event stays in its place |
| EventQueue.BatchDecided | src/sylliptor_agent_cli/agentbox_client.py:289-301 | a batch is the first 500 events, or all of them |
| EventQueue.AcceptedQueueDrains | src/sylliptor_agent_cli/agentbox_client.py:151-185 | when everything is accepted n ships take exactly the first 500 · n events off the front, until the queue is empty |
| EventQueue.EventuallyShippedIff | src/sylliptor_agent_cli/agentbox_client.py:151-185 | an acceptable event is shipped eventually if and only if fewer than 500 rejected events stand before it |
| AgentBoxClients.AgentBoxClient.NewEvent | src/sylliptor_agent_cli/agentbox_client.py:109-128 | each event gets the next sequence number of the client and the open session, or a fresh one |
| AgentBoxClients.AgentBoxClient.Enqueue | src/sylliptor_agent_cli/agentbox_client.py:130-141 | the event becomes the last of the queue |
| AgentBoxClients.AgentBoxClient.ShipOnce | src/sylliptor_agent_cli/agentbox_client.py:151-185 | one batch is posted; exactly what the plane accepted leaves the queue, and only when its answer arrived |
| QueueProtocol.NoEventLost | src/sylliptor_agent_cli/agentbox_client.py:130-185 | one client, every interleaving with lost responses, failed writes and crashes: each event written whole is queued, stored, or on a recorded spoiled line, and the queue stays a subsequence of write order |
| QueueProtocol.LostExactlyWhenSpoiled | src/sylliptor_agent_cli/agentbox_client.py:130-185 | in every such run an event written whole is lost if and only if its line was spoiled and the plane has not stored it |
| QueueProtocol.SpoiledExactlyWhen | src/sylliptor_agent_cli/agentbox_client.py:328-353 | a line is spoiled if and only if some step appended it, cut or whole, to a last line left open, and a line is left open if and only if the last write to the file before was cut part way |
| QueueProtocol.UncutRunSpoilsNothing | src/sylliptor_agent_cli/agentbox_client.py:328-353 | no line is spoiled unless a write was cut part way; crashes around the replace do no harm |
| QueueProtocol.UncutRunLosesNothing | src/sylliptor_agent_cli/agentbox_client.py:130-185 | so without a cut write no event is lost |
| QueueProtocol.CutWriteLosesNextEvent | src/sylliptor_agent_cli/agentbox_client.py:328-331 | after a crash inside an append the next event merges with the fragment and is lost |
| QueueProtocol.TwoClientsLoseAnEvent | src/sylliptor_agent_cli/agentbox_client.py:85-88 | two client objects on one queue directory have two locks, and an append between read and replace is lost |
| QueueClients.LostExactlyWhenTaken | src/sylliptor_agent_cli/agentbox_client.py:130-185 | for any number of clients and any run an event is lost if and only if the plane has not stored it and some step took it from the file that no later replace undid |
| QueueClients.TakenByStaleOrSpoiling | src/sylliptor_agent_cli/agentbox_client.py:172-182 | a step that takes an unstored event is an append onto a line left open, or a replace whose prepared lines no longer match the file |
| QueueClients.OrderIsKept | src/sylliptor_agent_cli/agentbox_client.py:130-185 | for any number of clients the readable events stay a subsequence of write order without repetition |
| QueueProtocol.ReplaceKeepsEvents | src/sylliptor_agent_cli/agentbox_client.py:172-182 | replacing the file keeps order and loses nothing the plane has not stored |
| QueueProtocol.AcknowledgedLeave | src/sylliptor_agent_cli/agentbox_client.py:172-182 | with one client a replace takes out exactly the events the plane acknowledged, whatever was appended since they were read, and closes the last line |
| QueueProtocol.RewritesStayFitting | src/sylliptor_agent_cli/agentbox_client.py:172-182 | under one lock a prepared rewrite still fits the file when it replaces it |
| LazyRunner.LoadsOnceForAllCallers | src/sylliptor_agent_cli/background_runner.py:121-144 | for any threads and interleaving the loader completes at most once, runner and error are never both set, all callers get the same result |
| LazyRunner.AnswerNeverChanges | src/sylliptor_agent_cli/background_runner.py:128-144 | an answer once given is the answer of every later call of any thread |
| LazyRunner.SomeCallerCanStep | src/sylliptor_agent_cli/background_runner.py:134-144 | while some caller is not through, some thread can take a step |
| Utf8.CutDecodesToWholeChars | src/sylliptor_agent_cli/code_review.py:991-997 | encoded text cut anywhere and decoded with errors ignored is the characters that fit whole |
| Utf8.TruncationKeepsWholeChars | src/sylliptor_agent_cli/code_review.py:991-997 | nothing is cut when all fits; else the longest whole-character prefix within the limit is kept |
| Utf8.KnownEncodings | src/sylliptor_agent_cli/code_review.py:991-997 | the examples of section 7 of RFC 3629 encode as printed there, a lone surrogate as a question mark |
| BoundedRead.DrainBounded | src/sylliptor_agent_cli/code_review.py:820-843 | whatever the chunks, the parts are the longest prefix within the limit, the flag says exactly whether more came, and the pipe is read to its end |
| BoundedRead.ReadBounded | src/sylliptor_agent_cli/code_review.py:886-895 | the same prefix, reading not past the limit |
| BoundedRead.ReadForPatch | src/sylliptor_agent_cli/code_review.py:727-738 | the file is cut to its longest allowed prefix, and the flag says exactly whether it was |
| NameStatus.NormalizedPathIsStable | src/sylliptor_agent_cli/code_review.py:922-942 | an accepted path is relative, without empty, `.` or `..` parts and control characters; normalizing it again changes nothing if and only if it does not start like a drive |
| NameStatus.PlainPathIsKept | src/sylliptor_agent_cli/code_review.py:922-942 | a path as Git prints it for a file inside the workspace is accepted unchanged |
| NameStatus.PathAcceptedExactlyWhen | src/sylliptor_agent_cli/code_review.py:922-942 | a path is accepted if and only if it is 1 to 1024 characters without control characters, backslash or U+FFFD, not absolute, not on a drive, with a name and no `..` between its slashes, in a directory that stays inside; the answer joins the names |
| NameStatus.StatusDecided | src/sylliptor_agent_cli/code_review.py:963-975 | which letters are a status, and which of them carry two paths |
| NameStatus.ReadEntry | src/sylliptor_agent_cli/code_review.py:955-974 | one turn of the parser takes the tokens of one entry |
| NameStatus.ReadPaths | src/sylliptor_agent_cli/code_review.py:967-975 | the part of a turn that takes the paths, on the status token or after it, two for renames and copies |
| NameStatus.ParseNameStatus | src/sylliptor_agent_cli/code_review.py:945-988 | the loop computes the listing of the model |
| NameStatus.EntryTakesItsTokens | src/sylliptor_agent_cli/code_review.py:955-974 | a well-formed entry takes exactly its own tokens, whatever its paths contain |
| NameStatus.ListingRoundTrip | src/sylliptor_agent_cli/code_review.py:945-988 | parsing a printed listing gives its entries back: kept + dropped are the entries read, an unsafe path drops only its own entry, capped exactly when entries remain |
| DiffListing.ListChanges | src/sylliptor_agent_cli/code_review.py:595-617 | a failed command raises and notes nothing; otherwise the parsed changes, with a cut, dropped paths and the cap noted in that order |
| DiffListing.RangeSpecs | src/sylliptor_agent_cli/code_review.py:583-593 | one spec for each listed change, in order |
| DiffListing.WorkingTreeSpecs | src/sylliptor_agent_cli/code_review.py:527-581 | staged, unstaged and untracked changes in order; reaching the discovery limit cuts the specs there and is noted, a failed command raises |
| DiffListing.UntrackedSpecs | src/sylliptor_agent_cli/code_review.py:560-581 | each untracked name is skipped, omitted as unsafe or added, until the discovery limit |
| ListingTheorems.ListingDecided | src/sylliptor_agent_cli/code_review.py:595-617 | a listing that was not cut gives every printed entry if and only if all paths are safe and the cap has room, and gives none if and only if no entry is safe |
| ListingTheorems.DiscoveryDecided | src/sylliptor_agent_cli/code_review.py:527-617 | discovery is complete if and only if no output was cut, every printed path is safe and the discovery limit leaves room; then the i-th printed entry is the i-th spec under its normalized paths |
| DiffCollection.DiffCollector.ListChangedFiles | src/sylliptor_agent_cli/code_review.py:620-625 | every path of every change is listed once, in order, under its public name |
| DiffCollection.DiffCollector.CollectPatches | src/sylliptor_agent_cli/code_review.py:627-711 | the loop takes exactly the turns of the model and stops for good at the total limit |
| DiffCollection.DiffCollector.TakeSpec | src/sylliptor_agent_cli/code_review.py:628-684 | one turn: the order of refusals, omissions, warnings and flags |
| DiffCollection.DiffCollector.AppendSegment | src/sylliptor_agent_cli/code_review.py:686-711 | what is appended, counted and flagged when a segment is cut to what remains |
| DiffCollection.DeduplicateOmissions | src/sylliptor_agent_cli/code_review.py:1004-1014 | first occurrences, in order |
| DiffCollection.DeduplicationKeepsElements | src/sylliptor_agent_cli/code_review.py:463-475 | deduplication loses no element and keeps none twice |
| DiffCollection.DeduplicationKeepsOrder | src/sylliptor_agent_cli/code_review.py:463-475 | elements stand in the order in which they first occur |
| DiffTheorems.CutSegmentStaysWithinBudget | src/sylliptor_agent_cli/code_review.py:688-700 | a segment is kept whole or cut to a whole-character prefix plus marker, never beyond what remains |
| DiffTheorems.CollectionIsBounded | src/sylliptor_agent_cli/code_review.py:619-711 | the byte count is the UTF-8 length of the joined patch and within the limit; no more distinct files than allowed are included |
| DiffTheorems.EveryChangeIsAccounted | src/sylliptor_agent_cli/code_review.py:619-711 | every change is included whole, omitted on record, blank, or the diff is marked truncated |
| DiffTheorems.SegmentsShowAll | src/sylliptor_agent_cli/code_review.py:680-684 | part by part the segments show every change that has something to show: a line with section and path, the redacted patch up to trailing whitespace, and for a cut patch the file marker |
| ReviewDecisions.TurnDecided | src/sylliptor_agent_cli/code_review.py:627-680 | why a change is left out, in order: a sensitive path or a secret in its name, the file limit, the byte limit, a failed or refused patch, a binary one; a blank patch leaves no record |
| ReviewDecisions.NothingKeptOutIsShown | src/sylliptor_agent_cli/code_review.py:627-711 | whatever is collected, every part of the prompt begins as one of the changes, and that change has no sensitive path, no secret in its name, and was read as text |
| ReviewDecisions.CutKeepsTheMost | src/sylliptor_agent_cli/code_review.py:686-700 | a part that had to be cut ends in the marker as far as there is room, and before it shows as many whole characters as the remaining bytes hold |
| DiffTheorems.CompleteExactlyWhen | src/sylliptor_agent_cli/code_review.py:619-711 | a collection is complete if and only if the listing was, every change is clean, and there is room for each in turn; then part by part, in order, the patch shows the redacted patch of every change that is not blank, under its section and path, and nothing else |
| ReviewVerdict.NormalizeResponse | src/sylliptor_agent_cli/code_review.py:1062-1137 | accepts and rejects exactly as the model of the validation |
| ReviewVerdict.ReviewCollected | src/sylliptor_agent_cli/code_review.py:353-417 | the first valid answer within the attempts decides, no answer is asked for in vain, and an incomplete approval becomes a comment |
| ReviewTheorems.AcceptedFindingIsSound | src/sylliptor_agent_cli/code_review.py:1083-1131 | an accepted finding cites an included file and a tight line range |
| ReviewTheorems.AcceptedAnswerIsSound | src/sylliptor_agent_cli/code_review.py:1062-1137 | what validation lets through: at most 100 sound findings, no approval with critical or high ones, no request for changes without one |
| ReviewDecisions.FindingDecided | src/sylliptor_agent_cli/code_review.py:1087-1131 | a finding comes out of the fields if and only if they describe it: no other field, a level in any case, a confidence that is not critical, a shown path, an ordered range of at most 201 lines, four texts with something in them, clipped at 8000 |
| ReviewDecisions.AnswerAcceptedExactlyWhen | src/sylliptor_agent_cli/code_review.py:1062-1137 | an answer is accepted as a if and only if it conveys a: no other field, one of three verdicts, an overview, at most 100 findings each described, no approval next to a critical or high one, no request for changes without one |
| ReviewDecisions.ReviewDecided | src/sylliptor_agent_cli/code_review.py:353-417 | the review raises if and only if something is shown and no answer conveys anything; else it has the findings of the first valid answer, their number by severity, and its verdict, lowered to a comment exactly when it approves and something was left out; with nothing shown it approves exactly when no file changed |
| ReviewTheorems.RenderedAnswerIsAccepted | src/sylliptor_agent_cli/code_review.py:1062-1137 | every answer that keeps the rules is accepted exactly as given |
| ReviewTheorems.CountsAddUp | src/sylliptor_agent_cli/code_review.py:398-411 | the counts of the summary cover every finding once |
| ReviewRun.Review | src/sylliptor_agent_cli/code_review.py:353-494 | listing, collection and answers put together: the review is that of the model, or raises with a failed listing |
| ReviewRun.GitErrorExactlyWhen | src/sylliptor_agent_cli/code_review.py:419-617 | a review raises a Git error if and only if a listing it needs fails; the working tree needs the next one while fewer than twice the file limit are found |
| ReviewRun.ChangedFilesExactlyWhen | src/sylliptor_agent_cli/code_review.py:619-625 | the changed files are all paths of all changes, of a rename both, each under its public name |
| ReviewRun.ReviewIsCompleteExactlyWhen | src/sylliptor_agent_cli/code_review.py:419-711 | the diff of what Git printed is complete if and only if no listing was cut, every printed path is safe and within the limit, and every change is clean and has room in turn; then the i-th printed entry is the i-th change, and part by part, in order, the patch shows the redacted patch of each that is not blank |
| ReviewRun.ApprovalSawEverything | src/sylliptor_agent_cli/code_review.py:353-711 | a review that asked the reviewing client and approves listed every entry Git printed; each change was public, readable, textual and uncut, the prompt shows the redacted patch of each in order up to trailing whitespace, unless blank, and there is no severe finding |
| ReviewRun.IncompleteApprovalExactlyWhen | src/sylliptor_agent_cli/code_review.py:353-617 | whatever Git wrote, an incomplete diff is approved if and only if no change was discovered and something was left out on the way |
| ReviewRun.UnseenApprovalExactlyWhen | src/sylliptor_agent_cli/code_review.py:353-617 | when no listing was cut, such an approval happens if and only if Git printed something and no printed entry has safe paths |
| ReviewRun.BackslashFileIsApproved | src/sylliptor_agent_cli/code_review.py:353-617 | a range whose only change adds a file with a backslash in its name is approved unseen |
| PatchPaths.ParsePatchChangedFiles | src/sylliptor_agent_cli/diff_paths.py:90-113 | the target paths of the headers, or of the +++ lines without headers, each once |
| PatchPaths.IterPatchPaths | src/sylliptor_agent_cli/diff_paths.py:61-87 | both paths of each header, or of the --- and +++ lines without headers, each once |
| PatchPaths.BothSidesAreRead | src/sylliptor_agent_cli/diff_paths.py:28-58 | the header of a rename is read as its old and its new path, for paths without " b/" and whitespace at the end |
| PatchPaths.RenameIsListed | src/sylliptor_agent_cli/diff_paths.py:61-113 | the header of a rename alone: its new path has changed, and both are listed, the old one first |
| PatchPaths.ChangedExactlyWhen | src/sylliptor_agent_cli/diff_paths.py:90-113 | of a patch with headers the changed files are exactly the new paths they name, each once, without the null path |
| PatchPaths.ListedExactlyWhen | src/sylliptor_agent_cli/diff_paths.py:61-87 | of a patch with headers all paths are exactly those they name on either side, each once, without the null path |
| PatchPaths.HeaderlessListed | src/sylliptor_agent_cli/diff_paths.py:78-113 | without headers they are exactly the paths of the +++ lines, and of the --- and +++ lines, each once |
| UntrackedPatch.TruncateIsTruncateUtf8 | src/sylliptor_agent_cli/code_review.py:991-997 | truncating text without lone surrogates is taking a prefix |
| UntrackedPatch.OnlyTheHeaderIsAHeader | src/sylliptor_agent_cli/code_review.py:741-757 | no line after the header starts like one, whatever the file contains |
| UntrackedPatch.PatchShowsContent | src/sylliptor_agent_cli/code_review.py:739-757 | read back line by line, the patch of a new file is its five headers and then every line of the file, in order, behind a plus |
| UntrackedPatch.DecimalReadsBack | src/sylliptor_agent_cli/code_review.py:748 | the number of lines in the hunk header reads back as that number |
| UntrackedPatch.HeaderIsRead | src/sylliptor_agent_cli/diff_paths.py:28-39 | both sides of the header are the path itself if and only if it survives; else neither is |
| UntrackedPatch.PatchReadsBackExactlyWhen | src/sylliptor_agent_cli/diff_paths.py:28-113 | the patch printed for an untracked file is read back as exactly its path if and only if the path has no " b/", no line separator and no whitespace at its end; any other path is not extracted at all |
| WorkspaceTree.ListedExactlyWhen | src/sylliptor_agent_cli/execution_shared.py:331-357 | the test that leaves a directory out of the walk never holds, as no artifact path passes the normalization before it; so the walk lists exactly the files that are no artifacts themselves |
| WorkspaceTree.FewerFilesFewerArtifacts | src/sylliptor_agent_cli/runtime_artifacts.py:98-116 | with fewer manifests there are no more artifacts |
| WorkspaceTree.PruneKeepsForm | src/sylliptor_agent_cli/execution_shared.py:1079-1085 | pruning removes only directories at or above its start, no file, and leaves a well-formed tree |
| WorkspaceDecisions.ArtifactExactlyWhen | src/sylliptor_agent_cli/runtime_artifacts.py:98-116 | a path is a runtime artifact if and only if it starts with one of four own directories, has one of four cache names in it, lies in the build output of a crate, or is a coverage or bytecode file |
| WorkspaceDecisions.ExcludedExactlyWhen | src/sylliptor_agent_cli/execution_shared.py:1003-1037 | the copy leaves out the artifacts, and what has one of the eight directory names anywhere in it |
| WorkspaceDecisions.NestedRepositoryIsLeftOut | src/sylliptor_agent_cli/execution_shared.py:1003-1037 | files of a nested repository are no artifacts, and yet left out |
| WorkspaceDecisions.ProtectedExactlyWhen | src/sylliptor_agent_cli/execution_shared.py:1060-1065 | a path is protected by the prefixes it equals or lies below; an empty one protects nothing |
| WorkspaceDecisions.PrunedExactlyWhen | src/sylliptor_agent_cli/execution_shared.py:1079-1086 | of the directories at and above the start exactly those go that hold nothing but the way to it |
| WorkspaceDecisions.WrittenBack | src/sylliptor_agent_cli/execution_shared.py:1067-1086 | writing one change back makes a directory with what lies above it, writes exactly that file, or leaves nothing at or below a gone path |
| WorkspaceSync.Workspace.CopySnapshot | src/sylliptor_agent_cli/execution_shared.py:1009-1037 | the copy holds exactly the files not excluded, and all directories not excluded |
| WorkspaceSync.Workspace.PruneFrom | src/sylliptor_agent_cli/execution_shared.py:1079-1085 | the loop removes parents while they are empty, never the root |
| WorkspaceSync.Workspace.SyncChangedFiles | src/sylliptor_agent_cli/execution_shared.py:1040-1089 | each change is applied as in the model, in order, and the applied ones are returned |
| SyncTheorems.SyncedFile | src/sylliptor_agent_cli/execution_shared.py:1040-1089 | whatever the order, a changed file gets its new content, a gone path goes with all under it, every other file stays |
| SyncTheorems.RoundTrip | src/sylliptor_agent_cli/execution_shared.py:1009-1089 | for any list of protected prefixes: after copy, edit, diff and sync every file is as in the edited copy, except exactly: artifacts, protected files, and files the copy left out and the edited copy still lacks, which stay as they were |
| SyncTheorems.OtherDirsStay | src/sylliptor_agent_cli/execution_shared.py:1040-1089 | a directory stays unless a gone path lies above or below it |
| Redaction.ContentMarkersWin | src/sylliptor_agent_cli/feedback_report.py:1509-1532 | a key with a content marker of the reasoning family is dropped, whatever diagnostic or other text stands around it |
| RedactionPolicy.PayloadKeyDecided | src/sylliptor_agent_cli/feedback_report.py:1509-1532 | a key is dropped if and only if its normalized name is a continuation container, an opaque name, holds "chainofthought" or "internalmonologue", or is of the reasoning family and marks content or marks no diagnostic |
| RedactionPolicy.MappingDecided | src/sylliptor_agent_cli/feedback_report.py:1486-1506 | a mapping is dropped if and only if its type is listed or ends like a listed one, or it has `thought: true` |
| RedactionPolicy.AsciiKeyNormalized | src/sylliptor_agent_cli/feedback_report.py:1482-1483 | the normalized name of an ASCII key is its letters in lower case and its digits |
| RedactionPolicy.NoForbiddenKeyIsLeft | src/sylliptor_agent_cli/feedback_report.py:1535-1594 | whatever the tree, no mapping at any depth of the output has a forbidden key |
| RedactionPolicy.OnlyAllowedIsLeftExactlyWhen | src/sylliptor_agent_cli/feedback_report.py:1535-1594 | no forbidden key and no forbidden mapping is left at any depth, if and only if the type field of every kept mapping stays unflagged |
| RedactionPolicy.EncryptedContentGoes | src/sylliptor_agent_cli/feedback_report.py:1509-1532 | `encrypted_content` is dropped |
| RedactionPolicy.ReasoningTokensStay | src/sylliptor_agent_cli/feedback_report.py:1509-1532 | `reasoning_tokens` is kept |
| Redaction.TypeStaysExactlyWhen | src/sylliptor_agent_cli/feedback_report.py:1486-1594 | the condition of the next three rows, read off the input type field (absent or a dropped block, a scalar or string whose sanitized text is unflagged, a list or mapping whose redacted text is), says exactly that the text of the output type field is unflagged |
| Redaction.RedactedIsBlockExactlyWhen | src/sylliptor_agent_cli/feedback_report.py:1486-1506 | what redaction returns is a reasoning block if and only if it kept a mapping whose type field does not stay unflagged |
| Redaction.CleanExactlyWhen | src/sylliptor_agent_cli/feedback_report.py:1535-1594 | no flagged key and no reasoning block is left at any depth, if and only if the type field of every kept mapping stays unflagged |
| Redaction.TwiceIsOnceExactlyWhen | src/sylliptor_agent_cli/feedback_report.py:1535-1594 | redacting twice is redacting once, under the same condition |
| Redaction.ScalarTypesStay | src/sylliptor_agent_cli/feedback_report.py:1486-1506 | the condition holds whenever all type fields are scalars |
| Redaction.ListedTypeBecomesFlagged | src/sylliptor_agent_cli/feedback_report.py:1486-1506 | a list as type can lose a block inside and become a flagged type itself |
| Redaction.OpenValueIsKept | src/sylliptor_agent_cli/feedback_report.py:1535-1594 | a value whose enclosing keys and mappings are unflagged is kept at its shifted place |
| ProcessTree.BuildChildren | src/sylliptor_agent_cli/durable_service_manager.py:1141-1155 | the children map holds each row under its parent, in order |
| ProcessTree.MappedExactlyWhen | src/sylliptor_agent_cli/durable_service_manager.py:1141-1155 | x is a child of p in the map if and only if some row of the snapshot has it so |
| ProcessTree.TerminateTree | src/sylliptor_agent_cli/durable_service_manager.py:1141-1171 | every process of the tree is terminated exactly once, after all its descendants, and nothing else is |
| ServiceIdentity.ServiceManager.Stop | src/sylliptor_agent_cli/durable_service_manager.py:318-362 | a process with another start token under the recorded number is left alone and its service marked stale; any other known service is forgotten, and its targets terminated first if and only if the process is present and not seen to exit |
| ServiceIdentity.AliveExactlyWhen | src/sylliptor_agent_cli/durable_service_manager.py:591-603 | alive means present and not seen to exit, or replaced by another process; the identity is valid for every recorded number not known to be another process |
| ServiceIdentity.TargetsDecided | src/sylliptor_agent_cli/durable_service_manager.py:605-631 | termination goes for the container, if any, then for the process this manager started unless it has exited, or else for the recorded number |
| ProcessTree.TraversalEndsExactlyWhen | src/sylliptor_agent_cli/durable_service_manager.py:1141-1162 | on any snapshot that lists each process once the traversal ends if and only if the target is not its own descendant |
| ProcessTree.ReusedNumbersNeverEnd | src/sylliptor_agent_cli/durable_service_manager.py:1141-1162 | two processes that are each other's parent, as reused process numbers leave them, keep it going for ever |
| ServiceIdentity.ServiceManager.ReportStatus | src/sylliptor_agent_cli/durable_service_manager.py:280-316 | running if and only if the recorded process is present and not seen to exit, or replaced; else stale without a number and exited with one; and recorded |
| ForgeSession.Emitter.Emit | src/sylliptor_agent_cli/forge_events.py:161-193 | an undeclared name raises, a disabled or closed emitter ignores the event, any other is appended |
| ForgeSession.NamesDecided | src/sylliptor_agent_cli/forge_events.py:41-71 | the twelve names a stream may carry, and the two of them that close it |
| ForgeSession.MachineSession.Finalize | src/sylliptor_agent_cli/forge_events.py:349-387 | a session without a terminal event gets exactly the one for its outcome |
| ForgeSession.MachineSession.Exit | src/sylliptor_agent_cli/forge_events.py:338-347 | finalizes and restores the emitter active before |
| ForgeSession.OneTerminalEvent | src/sylliptor_agent_cli/forge_events.py:317-411 | for any body, nested or raising: the stream of an enabled session has exactly one terminal event, its last; when the body did not close the stream itself that event is run_completed with (true, 0) exactly for a return or the code 0, with (false, 1) exactly for the code 1, and error "interrupted" with 130, "exit" with any other code n, or "exception" with 2 when no code is found |
| ForgeSession.RunBody | src/sylliptor_agent_cli/forge_events.py:317-347 | the events and the outcome of a body are those of the model, and the emitter active before is active again |
| ForgeSession.RunSession | src/sylliptor_agent_cli/forge_events.py:390-411 | a session writes exactly the stream of the model for its body and lets the outcome of the body through; a disabled one writes nothing |
| AssetBlocks.SplitLosesNothing | src/sylliptor_agent_cli/execution_context.py:483-499 | prelude and blocks together are the lines in order; each block starts with its only heading |
| AssetBlocks.SplitBlocks | src/sylliptor_agent_cli/execution_context.py:483-499 | the loop computes the sections of the model |
| AssetBlocks.AssetBlockMode | src/sylliptor_agent_cli/execution_context.py:502-510 | the mode of a block is that of its first line that states one |
| AssetBlocks.DowngradeToReference | src/sylliptor_agent_cli/execution_context.py:513-531 | the loop replaces every mode line, or inserts one |
| AssetBlocks.ReduceBlocks | src/sylliptor_agent_cli/execution_context.py:450-480 | a block keeps its content exactly while fewer than allowed of its mode came before it |
| AssetTheorems.DowngradedIsTame | src/sylliptor_agent_cli/execution_context.py:513-531 | a downgraded block has no inline mode and no new heading |
| AssetContents.ContentIsGoneExactlyWhen | src/sylliptor_agent_cli/execution_context.py:441-447 | dropping the contents leaves no opening tag if and only if every one in the text is closed later |
| AssetContents.PieceHoldsContentExactlyWhen | src/sylliptor_agent_cli/execution_context.py:450-531 | a shown block still holds inline content if and only if it opens some and stays inline, or is downgraded and does not close it |
| AssetSections.DropNamedSection | src/sylliptor_agent_cli/execution_context.py:424-438 | the loop drops the lines of the named part, its blocks with it, up to a line that ends in a colon |
| AssetSections.ReduceSection | src/sylliptor_agent_cli/execution_context.py:406-421 | named parts are dropped, then all contents when no inline block is allowed, then the blocks are reduced and every line is stripped at its end |
| AssetSections.SectionStaysWithin | src/sylliptor_agent_cli/execution_context.py:406-480 | for every section and state, splitting the result again gives at most the allowed blocks, full-inline blocks and focused blocks |
| AssetLines.SectionShows | src/sylliptor_agent_cli/execution_context.py:406-480 | line by line, a reduced section shows what stands before the blocks and the first blocks, as many as allowed, in order and up to blank lines and trailing whitespace, with the inline blocks that are too many downgraded |
| AssetLines.DowngradedShows | src/sylliptor_agent_cli/execution_context.py:513-531 | a downgraded block shows the lines outside its contents, with the note in place of every mode line, or after its heading when it has none |
| AssetLines.BlockCanBeDowngraded | src/sylliptor_agent_cli/execution_context.py:469-482 | so does every block a section is split into: it starts with its heading, which opens no content |
| AssetLines.NoteReplacesMode | src/sylliptor_agent_cli/execution_context.py:516-524 | the note that stands in place of a mode line, word for word; other lines stay |
| AssetLines.DropContentsShows | src/sylliptor_agent_cli/execution_context.py:441-447 | dropping contents drops exactly the lines from an opening tag that is closed later to the first line that closes it |
| AssetLines.DropNamedShows | src/sylliptor_agent_cli/execution_context.py:424-438 | dropping a named part drops exactly the lines from its name on that are headings or do not end in a colon |
| AssetLines.ModeDecided | src/sylliptor_agent_cli/execution_context.py:502-510 | the mode of a block is what the first of its lines that states one says |
| AssetLines.KeptWholeStaysInline | src/sylliptor_agent_cli/execution_context.py:458-472 | a block stays whole if and only if fewer earlier blocks have its mode than are allowed |
| AssetSections.NoInlineNoContentExactlyWhen | src/sylliptor_agent_cli/execution_context.py:406-447 | with no inline block allowed content is left only if the text opens one that is nowhere closed, and exactly then when all blocks are shown |
| AssetSections.SectionHoldsContentExactlyWhen | src/sylliptor_agent_cli/execution_context.py:406-531 | with inline blocks allowed content is left if and only if the text before the blocks opens some or a shown block still holds some |
| AssetSections.HeadingKeepsContent | src/sylliptor_agent_cli/execution_context.py:406-531 | a section with a heading inside the closed content of a full block, and a focused block: the fourth state of the ladder for it allows no full block and still leaves that content; from the fifth state on it is gone |
| AssetTheorems.ReducedStaysWithin | src/sylliptor_agent_cli/execution_context.py:450-480 | splitting a reduced section again gives at most the allowed blocks, full-inline blocks and focused blocks |
| AssetTheorems.EnoughAllowanceKeepsContent | src/sylliptor_agent_cli/execution_context.py:450-480 | with room for every inline block no block is downgraded |
| ReductionLadder.LadderOnlyShrinks | src/sylliptor_agent_cli/execution_context.py:619-808 | every later state of the ladder allows no more of anything and strictly less description |
| ReductionLadder.LadderDecided | src/sylliptor_agent_cli/execution_context.py:637-808 | how many requirements, tasks, assets, criteria, files and scopes each state keeps |
| ReductionLadder.LadderTextsDecided | src/sylliptor_agent_cli/execution_context.py:645-808 | how long its texts may be, and what is left of the relevant assets |
| ExecutionReserves.ResolveReserves | src/sylliptor_agent_cli/execution_budget.py:110-197 | headroom gives way first, then the response down to its minimum, by exactly the lacking tokens; flag and reason say exactly what changed |
| ExecutionReserves.PartsDecided | src/sylliptor_agent_cli/execution_budget.py:110-145 | what is available is the window without margin, prefix, schema and images; the response is the smaller of the model's and the requested one; negative parts count as 0 |
| ExecutionReserves.NoChoiceDoesBetter | src/sylliptor_agent_cli/execution_budget.py:110-197 | no admissible choice of reserves gets closer to the floor than the best budget |
| ExecutionReserves.BestChoice | src/sylliptor_agent_cli/execution_budget.py:110-197 | some admissible choice reaches it |
| ExecutionReserves.FittingReservesResolveBest | src/sylliptor_agent_cli/execution_budget.py:145-180 | when the requested reserves fit, budget + reserves are what is available and the budget is the best one |
| ExecutionReserves.BestIsReachedExactlyWhen | src/sylliptor_agent_cli/execution_budget.py:145-180 | the best budget is reached if and only if the reserves fit, all that may be given up is, there is no floor, or the least response does not fit |
| ExecutionReserves.OversubscribedFallsShort | src/sylliptor_agent_cli/execution_budget.py:145-150 | 2000 available, 1024 + 1024 requested and floor 1200 give 1152, where 1200 could be had |

## Left out

- Floating point: time is `real`; infinities, NaN and rounding are not modelled.
- Text with lone surrogates: exact in `Utf8`, `DiffCollection` and `ReviewVerdict`; paths, patches and sections elsewhere are strings of characters without them.
- ClientTimeout.Enter: does not model a client object without a timeout attribute, which the program leaves alone, nor values of that attribute that are no numbers.
- ClientTimeout.Retries: durations that others record arrive between two requests, not inside one.
- EventQueue.EventBatch: JSON parsing is abstract; a line holds an event with a string id or is junk to every reader.
- QueueProtocol.NoEventLost: does not model the reuse of random ids, the removal of temporary files, or other programs writing the queue file; the plane acknowledges only ids it stored.
- AgentBoxClients.AgentBoxClient.NewEvent: does not model the fields of an event that are copied from the configuration.
- NameStatus.ParseNameStatus: file-system decoding of bytes is taken as done; which directories lead outside the workspace is data.
- DiffListing.ListChanges: resolving revisions, the arguments of the commands and their byte limits are not modelled; what a command wrote, whether it was cut and whether it failed is data.
- ReviewRun.UnseenApprovalExactlyWhen: for listings that were not cut; what is left of a cut one is arbitrary text, covered by `IncompleteApprovalExactlyWhen`.
- DiffCollection.DiffCollector.CollectPatches: what Git prints, the secret patterns, the sensitive paths and the binary notice are data of each change.
- ReviewVerdict.ReviewCollected: does not model prompts, error texts, or a reviewer client that raises by itself; redaction of a text is carried with the text, and field names are one case each.
- UntrackedPatch.PatchReadsBackExactlyWhen: for a header within the byte limit; of shell-like splitting only that its words are made of characters of the text.
- WorkspaceSync.Workspace.SyncChangedFiles: does not model symbolic links, file modes, failing system calls, a path that is a file in one tree and a directory in the other, or path texts that normalization rewrites (backslashes, surrounding whitespace).
- SyncTheorems.RoundTrip: digests are taken as injective (files above the hashing limit, compared by times and size, are not modelled), no path is a file in one tree and a directory in the other; the listing through Git is not modelled, only the walk.
- WorkspaceSync.Workspace.CopySnapshot: the copy is made into a fresh tree outside the source.
- Redaction.TwiceIsOnceExactlyWhen: sanitizing a string twice is taken to be sanitizing it once; regular expressions for secrets, URLs and paths, and the text of a container, are abstract.
- Redaction.ScalarTypesStay: sanitizing is taken not to turn the name of a type into a flagged one.
- ProcessTree.TerminateTree: a snapshot lists each process once; a process that cannot be opened is skipped by the program, here every request to terminate is recorded.
- ServiceIdentity.ServiceManager.Stop: signals, waiting and container clean-up are single recorded steps; payloads are reduced to the fields that decide.
- ForgeSession.Emitter.Emit: does not model data that cannot be serialized, nor a broken output stream, after which accepted events are not seen.
- AssetSections.ReduceSection: a text is its lines, and content tags stand on lines of their own, with nothing but blanks around them.
- LazyRunner.LoadsOnceForAllCallers: the loader returns, raises an exception that is stored, or is torn away by an interrupt, which is counted and not stored.
- `_apply_startup_headroom_preflight`, `_sync_tree_lightweight`, `_github_new_issue_url`, `_allocate_bundle_dir`: single loops that would add easy members.
- Configuration, Git and network calls, prompts, rendering and reports.
