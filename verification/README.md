# Agent gateway: verified protocols and parsers

RustyKrab is an agent gateway. It delegates work to agents it does not control: native command-line agents, paired
nodes and local models. What it believes about their work comes from a handful of small protocols and readers. This
project models those in Dafny and proves what they promise, for every input, every interleaving and every run.

| files | what they model |
|---|---|
| `Grants.dfy`, `GrantRuns.dfy`, `GrantAnswers.dfy` | a run-scoped MCP grant: the class whose methods are its lock sections, the transition system of any number of callers, a clock and a revoker, and what each is told |
| `NativeReader.dfy`, `NativeObserver.dfy`, `NativeCorrelation.dfy`, `ClaudeCorrelation.dfy`, `NativeCapture.dfy` | the reader that pairs a native agent's command starts with their terminals: its state as values, as a class updated in place, what its records mean, and what that says of the captured bytes |
| `ResultContract.dfy`, `ContractScan.dfy` | finding the result contract in a final message: fences, the backward brace scan, and exactly which JSON objects the scan finds |
| `ClaudeUsage.dfy`, `IdleWait.dfy` | usage read from an event stream; the inactivity timeout |
| `PeerRun.dfy`, `PeerGuarantees.dfy`, `PeerResults.dfy`, `PeerTiming.dfy`, `PeerTasks.dfy` | running a brief on a paired node that may be unreachable, restart or lose the task; what it returns; how late a run can end; the node's task table |
| `RunLog.dfy`, `Attestation.dfy`, `ReportRuns.dfy`, `ReportClaims.dfy`, `ReportOrder.dfy`, `Resume.dfy`, `ToolCeiling.dfy` | the local worker: its session log, host-observed commands in its reports and reports filed in parallel with other calls, resumed conversations, and the tool ceiling computed by the probe and again by the run |
| `Utf8.dfy`, `RecallPaging.dfy` | UTF-8 (section 3 of RFC 3629) and paging through the history archive |
| `CompactionBudget.dfy` | the budget chain from `models.toml` to the summary call |
| `SseExtract.dfy`, `SseStandard.dfy` | a JSON-RPC answer in an event stream, and the reading of section 9.2.6 of the WHATWG HTML standard beside it |

Code that updates an object is a class whose methods are proved equal to functions on values; loops are methods proved
equal to recursive functions; the theorems are lemmas about those functions. `dafny verify dfyconfig.toml` checks
everything.

Text is a sequence of characters where the code only looks at ASCII, and of bytes where it slices. JSON is either a
parsed event or an abstract parse function. Time is a natural number that never goes back.

## Results a reader may not expect

Where the code and its documentation, or what one would expect of it, differ. The model follows the code.

- Grants: the module text says every attempt counts against the quota; a repeated request id is refused without
  counting (`mcp_grants.rs:466-469`). `GrantRuns.AdmittedExactlyWhen` says which attempts spend an id.
- Result contract: the documentation gives the order as whole message, fenced block, last object; the code tries them
  in the reverse order (`external_worker.rs:1821`). The scan is meant to find the last balanced object; it judges a
  quote by one character, so a string ending in an escaped backslash swaps inside and outside for what is on its left.
  `ContractScan.ObjectFoundExactly` says exactly when the object is found, and `ContractScan.BackslashesMislead` shows
  both failures.
- Idle wait: a reader takes the instant of its output before it publishes it, so a slow one can replace a newer instant
  and a talking process be given up early (`IdleWait.StaleInstantTimesOut`); `IdleWait.TooEarlyExactlyWhenStale` and
  `IdleWait.NeverTimedOutExactlyWhen` say exactly when.
- Reports: a batch's calls run in parallel, so a kept report can miss a command that returned before it was accepted,
  and two can be kept against their acceptance order (`ReportClaims.BatchedCommandIsMissed`,
  `ReportOrder.BatchedReportsSwap`); `ReportClaims.KeptReportAttests` and `ReportOrder.OrderExactlyWhen` say what holds.
- Peer: the documentation says what happens when the timeout passes, not how late a run can end. One poll and one
  request past it is no bound: a lost task or the cancel alone exceeds it (`PeerGuarantees.LateByALostTask`,
  `PeerGuarantees.LateByTheCancel`). `PeerTiming` has the exact worst case and the configurations that do keep it. The
  good view a resubmission brings does not count as being back in touch (`PeerGuarantees.ResubmissionIsNotTouch`).
- Recall: a peek is described as capped at 50,000 bytes; it returns up to 50,003, and more than 50,000 exactly when the
  cap falls inside a character (`RecallPaging.PeekIsBounded`, `RecallPaging.PeekOverItsCap`).
- Event streams: a payload's leading newlines are dropped (`SseExtract.FrameReadsBack`), and a stream with CRLF line ends
  is read as one event (`SseExtract.CrlfStreamIsOneEvent`); `SseStandard.CrlfReadAsStandardExactlyWhen` says when that
  is still the standard's reading.
- Review briefs: the probe clears workspace and writable requests that the run then refuses
  (`ToolCeiling.ReviewStopsMore`).
- Resuming: a later system message of several blocks becomes a notice of its first text block; its other blocks are lost
  (`local_worker.rs:855-857`, modelled in `Resume.Continue`).
- Budget: with a provider limit below 2,047 tokens and no summary window the summary call does not fit
  (`CompactionBudget.SummaryFitsExactlyWhen`).

## Model

| member | source | states |
|---|---|---|
| `Grants.Live.AdmitCall` | crates/rustykrab-agent/src/mcp_grants.rs:451-487 | admission as one lock section keeps the quota arithmetic: attempts are the distinct ids, within the quota, each an observation, the call in flight or a busy refusal |
| `Grants.Live.SettleCall` | crates/rustykrab-agent/src/mcp_grants.rs:491-506 | settling an admitted call keeps that arithmetic and records it unless the grant is sealed |
| `Grants.Live.SealGrant` | crates/rustykrab-agent/src/mcp_grants.rs:510-529 | sealing keeps it, leaves nothing in flight, and returns the record as it then stands |
| `Grants.Live.Greet` | crates/rustykrab-agent/src/mcp_grants.rs:437-449 | the bridge is connected from the first moment both halves of the handshake were seen, unless sealed |
| `GrantRuns.NextKeeps` | crates/rustykrab-agent/src/mcp_grants.rs:265-327 | every step of every caller, the clock, the revoker and dropped requests keeps the whole invariant |
| `GrantRuns.RunKeeps` | crates/rustykrab-agent/src/mcp_grants.rs:265-400 | so does every run, of any length and interleaving |
| `GrantRuns.Conservation` | crates/rustykrab-agent/src/mcp_grants.rs:451-529 | observations + call in flight + busy refusals = attempts = distinct ids <= quota, and at most one call ever runs |
| `GrantRuns.AdmittedExactlyWhen` | crates/rustykrab-agent/src/mcp_grants.rs:451-487 | a caller is let through if and only if the grant is live and not ended, quota unspent, id new, tool granted and available, and nobody's call running; and exactly when its id is spent |
| `GrantRuns.OneObservationEach` | crates/rustykrab-agent/src/mcp_grants.rs:532-553 | an admitted call has exactly one observation once it no longer holds the grant, and it agrees with what its caller was told; dropped or sealed under it, that is Ambiguous |
| `GrantRuns.ToldExactlyWhatIsRecorded` | crates/rustykrab-agent/src/mcp_grants.rs:285-327 | a caller is told its call succeeded if and only if the record holds an Ok observation of that caller's call |
| `GrantRuns.SealingIsFinal` | crates/rustykrab-agent/src/mcp_grants.rs:374-400 | whatever runs after sealing, a second sealing included, the record is the one first returned, nobody is admitted, and nobody newly told of success |
| `GrantRuns.LateResultIsCancelled` | crates/rustykrab-agent/src/mcp_grants.rs:321-326 | a result after sealing changes nothing in the grant, its call already has its one observation, and its caller is told Cancelled |
| `GrantRuns.EndIsFinal` | crates/rustykrab-agent/src/mcp_grants.rs:456-520 | once a call ended the run the summary stands, nothing is admitted or recorded again, and the last observation is that call's Ok |
| `GrantRuns.EndingCallEndsTheRun` | crates/rustykrab-agent/src/mcp_grants.rs:302-326 | a finished call with an end summary sets it for good: in every continuation that is the summary, that call is the last one recorded, and its caller was told of success |
| `GrantRuns.ReviewRunsNothing` | crates/rustykrab-agent/src/mcp_grants.rs:205-209 | on a read-only review's grant no run admits a call, and every observation is a denial |
| `GrantAnswers.FinishedCallSays` | crates/rustykrab-agent/src/mcp_grants.rs:302-326 | a finished call is told and recorded as a success if and only if it ends the run or its result has no error, no error flag and no refusal; a tool that raised, and anything else, is a failure |
| `GrantAnswers.RefusedExactlyWhy` | crates/rustykrab-agent/src/mcp_grants.rs:451-487 | each refusal reason has exactly its own condition, the first that holds is told, an ungranted name leaves a denial under its first 80 characters, and an admitted call runs to the deadline or its cap |
| `GrantAnswers.StoppedExactlyWhen` | crates/rustykrab-agent/src/mcp_grants.rs:285-301 | a call is stopped if and only if the grant was revoked or its time is up, recorded as ambiguous unless sealed, and told as a stop on a live grant, else as cancelled |
| `GrantAnswers.ConnectedExactlyWhen` | crates/rustykrab-agent/src/mcp_grants.rs:437-449 | in every run the bridge is connected from the first moment both halves of the handshake were seen on an unsealed grant, and not before |
| `NativeReader.NewText` | crates/rustykrab-agent/src/native_observation.rs:24-36 | the text kept is a prefix cut at a character boundary, at most 1,024 bytes; truncated if and only if the value is longer, if and only if something is missing |
| `NativeReader.AddTo` | crates/rustykrab-agent/src/native_observation.rs:110-152 | keeps the index exact and returns the position of the record with the event's key |
| `NativeReader.Terminal` | crates/rustykrab-agent/src/native_observation.rs:160-167 | keeps the index exact and the record's key |
| `NativeReader.CodexStep` | crates/rustykrab-agent/src/native_observation.rs:225-277 | every Codex event keeps the index exact |
| `NativeReader.ClaudeStep` | crates/rustykrab-agent/src/native_observation.rs:169-223 | every Claude event keeps the index exact |
| `NativeObserver.Reader.Add` | crates/rustykrab-agent/src/native_observation.rs:110-152 | the in-place update is the specified one, on every branch |
| `NativeObserver.Reader.MarkTerminal` | crates/rustykrab-agent/src/native_observation.rs:160-167 | the same for terminals |
| `NativeObserver.Reader.ReadCodex` | crates/rustykrab-agent/src/native_observation.rs:225-277 | the same for a whole Codex event |
| `NativeObserver.Reader.ReadClaude` | crates/rustykrab-agent/src/native_observation.rs:169-223 | the same for a whole Claude event with all its blocks |
| `NativeObserver.Reader.DowngradeIncomplete` | crates/rustykrab-agent/src/native_observation.rs:322-328 | after an incomplete capture nothing reads as completed, and nothing else changes |
| `NativeObserver.Observe` | crates/rustykrab-agent/src/native_observation.rs:281-330 | the batch is the fold and downgrade of lines read off the pieces between newlines of the first 4 MiB: blank, over 256 KiB, rejected by the parser, or its event |
| `NativeCapture.SplitOnce` | crates/rustykrab-agent/src/native_observation.rs:297 | there is one way to split a text into pieces without newlines |
| `NativeCapture.CaptureCounts` | crates/rustykrab-agent/src/native_observation.rs:297-328 | malformed and oversized count exactly the pieces the parser rejects and those over 256 KiB; one of them, or a capture cut short, leaves nothing completed |
| `NativeCapture.CaptureCompletedIff` | crates/rustykrab-agent/src/native_observation.rs:281-330 | of a captured Codex output: a command is completed if and only if everything was captured and read, every thread has an id, at most 32 records are asked for, and its own events are one untruncated request and one matching completion with exit 0 |
| `NativeCorrelation.CompletedExactly` | crates/rustykrab-agent/src/native_observation.rs:247-275 | one key's automaton ends Completed, or Failed, on exactly one shape of history |
| `NativeCorrelation.FoldSimulates` | crates/rustykrab-agent/src/native_observation.rs:225-330 | in every Codex stream each key's record is what its automaton makes of that key's own events, however they interleave, and the incomplete flag says exactly what is missing |
| `NativeCorrelation.CompletedIff` | crates/rustykrab-agent/src/native_observation.rs:225-330 | a record of a key is Completed if and only if the capture is intact and the key's whole history is one untruncated current-style request and one later terminal of the same command, completed with exit 0 |
| `NativeCorrelation.FailedIff` | crates/rustykrab-agent/src/native_observation.rs:261-268 | a recorded key reads as failed if and only if its history is such a pair with a nonzero exit |
| `NativeCorrelation.KeyedExactly` | crates/rustykrab-agent/src/native_observation.rs:110-112 | an event is of a key if and only if its id is a string of 1 to 256 bytes, in the session of the moment |
| `NativeCorrelation.KeylessSays` | crates/rustykrab-agent/src/native_observation.rs:123-151 | an event without a usable id gets a record of its own that claims nothing, if there is room |
| `NativeCorrelation.FirstActionSays` | crates/rustykrab-agent/src/native_observation.rs:125-134 | what a request or a terminal alone leaves, with its reason |
| `NativeCorrelation.PairSays` | crates/rustykrab-agent/src/native_observation.rs:255-275 | what a request and its matching terminal leave, for every status and exit code |
| `NativeCorrelation.IndexIsLinearSearch` | crates/rustykrab-agent/src/native_observation.rs:110-167 | in every stream correlated records have distinct keys, a key is indexed if and only if some record has it, at that record, and there are at most 32 |
| `NativeCorrelation.AmbiguityIsFinal` | crates/rustykrab-agent/src/native_observation.rs:154-158 | whatever follows, an ambiguous record stays ambiguous and never reads Completed, Failed or Interrupted |
| `NativeCorrelation.ClaudeNeverCompletes` | crates/rustykrab-agent/src/native_observation.rs:169-223 | no Claude stream yields Completed |
| `ClaudeCorrelation.StreamFollows` | crates/rustykrab-agent/src/native_observation.rs:169-223 | in every Claude stream each key's record is what its automaton makes of that key's own blocks |
| `ClaudeCorrelation.OutcomeExactly` | crates/rustykrab-agent/src/native_observation.rs:199-221 | that automaton fails, or is interrupted, on exactly one shape of history |
| `ClaudeCorrelation.ClaudeOutcomeIff` | crates/rustykrab-agent/src/native_observation.rs:169-223 | a recorded key is Failed, or Interrupted, if and only if, after results before its first request, it has one untruncated Bash request and one result: an error, or the sole result of an interrupted message |
| `ResultContract.FencedBlocks` | crates/rustykrab-agent/src/external_worker.rs:1787-1796 | the fence loop yields the trimmed bodies of the blocks in order |
| `ResultContract.FenceIsFirst` | crates/rustykrab-agent/src/external_worker.rs:1787-1796 | each search finds the first fence there is, or there is none |
| `ResultContract.FencedBody` | crates/rustykrab-agent/src/external_worker.rs:1788-1796 | a block fenced after any introduction and language line is read as its trimmed body, and what follows as if alone |
| `ResultContract.ScanBack` | crates/rustykrab-agent/src/external_worker.rs:1797-1820 | the backward loop returns what the recursive scan specifies |
| `ResultContract.ContractCandidates` | crates/rustykrab-agent/src/external_worker.rs:1785-1823 | candidates are the scanned object, then the fenced blocks last first, then the trimmed message |
| `ResultContract.CandidatesAre` | crates/rustykrab-agent/src/external_worker.rs:1785-1823 | candidate by candidate: the scanned object if there is one, the fenced blocks last first, the trimmed message last |
| `ResultContract.TrimIs` | crates/rustykrab-agent/src/external_worker.rs:1786 | trimming takes white space off both ends and nothing else |
| `ResultContract.ParseContract` | crates/rustykrab-agent/src/external_worker.rs:1763-1783 | returns the report of the first candidate that is one, wherever it stands; an error if and only if none is, and then that of the last object that was no report, or that there is none, with the end of the message |
| `ResultContract.LastErrorIs` | crates/rustykrab-agent/src/external_worker.rs:1765-1781 | that error is the last misshapen candidate's, whatever candidates surround it |
| `ContractScan.ReadsJson` | crates/rustykrab-agent/src/external_worker.rs:1801-1820 | over any JSON value, entered inside or outside a string at any depth, the scan counts exactly the exposed braces and leaves swapped once per string ending in an escaped backslash |
| `ContractScan.ObjectFoundExactly` | crates/rustykrab-agent/src/external_worker.rs:1797-1820 | after any prose and before any suffix without `}`, the scan returns exactly the JSON object if and only if an even number of its strings end in an escaped backslash and the exposed braces are balanced |
| `ContractScan.ObjectFound` | crates/rustykrab-agent/src/external_worker.rs:1785-1823 | so it does whenever no string ends in one, and the object is the first candidate |
| `ContractScan.ReportRead` | crates/rustykrab-agent/src/external_worker.rs:1763-1783 | then the first candidate is that object and reads as its report |
| `ContractScan.BackslashesMislead` | crates/rustykrab-agent/src/external_worker.rs:1805 | one such string and the object is missed; with two, a lone brace between them decides |
| `ContractScan.BalancedWalk` | crates/rustykrab-agent/src/external_worker.rs:1807-1816 | counting depth from the right comes out even without stopping if and only if the braces are balanced |
| `ClaudeUsage.ReadClaude` | crates/rustykrab-agent/src/external_worker.rs:1574-1645 | without an envelope, tokens are the sum over distinct message ids of the last usage of each and turns their number; with one, the last envelope decides both and the final message; commands are all of them in order, and the failure the last one reported |
| `ClaudeUsage.FailsExactlyWhen` | crates/rustykrab-agent/src/external_worker.rs:1612-1631 | a failure is reported if and only if some envelope is an error or of another subtype than success, and it is the last such one's, whatever envelopes follow it |
| `ClaudeUsage.FailureSays` | crates/rustykrab-agent/src/external_worker.rs:1612-1631 | which envelopes fail, and as what |
| `ClaudeUsage.EnvelopeDecides` | crates/rustykrab-agent/src/external_worker.rs:1604-1611 | an envelope last decides alone: input, output and cache creation tokens, and its turns up to 32 bits |
| `ClaudeUsage.EventIsItsMessages` | crates/rustykrab-agent/src/external_worker.rs:1586-1595 | an assistant event is a turn of its message, or of its line when it names none, at what it counts |
| `ClaudeUsage.DecimalIsOneNumber` | crates/rustykrab-agent/src/external_worker.rs:1590 | two lines without a message id never share one |
| `ClaudeUsage.Note` | crates/rustykrab-agent/src/external_worker.rs:1592-1595 | replacing or appending keeps one entry a distinct id, with its last usage |
| `ClaudeUsage.SumByMessage` | crates/rustykrab-agent/src/external_worker.rs:1576-1595 | a message contributes its last usage once, and nothing else to the others' sum |
| `ClaudeUsage.OrderDoesNotMatter` | crates/rustykrab-agent/src/external_worker.rs:1576-1643 | two streams with the same last usage for every id have the same total, however often and in whatever order blocks repeat |
| `IdleWait.GivesUpOnlyOnSilence` | crates/rustykrab-agent/src/external_worker.rs:1015-1038 | in every interleaving, with taking an instant and publishing it apart, giving up comes `limit` after the instant published last, and after every published instant if the last is the largest |
| `IdleWait.TooEarlyExactlyWhenStale` | crates/rustykrab-agent/src/external_worker.rs:243-246 | from where the loop looks, it can give up less than `limit` after a published instant, nothing further being published, if and only if an instant newer than the last published one is not `limit` old yet |
| `IdleWait.StaleInstantTimesOut` | crates/rustykrab-agent/src/external_worker.rs:1017-1032 | two readers do bring that about: given up 9 after an output, with a limit of 10 |
| `IdleWait.NeverTimedOutExactlyWhen` | crates/rustykrab-agent/src/external_worker.rs:228-253 | silences below `gap` and publication within `delay`, by any number of readers, protect a process in every run if and only if `gap + 2 * delay <= limit` (silences below one unit, in which no time passes, need any limit at all) |
| `IdleWait.TalkerIsNeverTimedOut` | crates/rustykrab-agent/src/external_worker.rs:1023-1037 | the sufficient half for one run: such a process is never timed out, however long it runs |
| `IdleWait.SilenceEndsTheWait` | crates/rustykrab-agent/src/external_worker.rs:1023-1037 | a process silent for `limit` is given up by the loop's fifth step from then, wherever the loop stood and in every schedule without output or exit |
| `PeerRun.SubmitTask` | crates/rustykrab-agent/src/peer_worker.rs:264-306 | the submission loop computes the specified submission against any node |
| `PeerRun.RunBrief` | crates/rustykrab-agent/src/peer_worker.rs:372-448 | the polling loop with its resubmissions computes the specified run against any node |
| `PeerGuarantees.ReportIsTheNodes` | crates/rustykrab-agent/src/peer_worker.rs:372-448 | every submission carries this run's id, and a report is returned only if it is the one in the last view received, done or failed with a typed error |
| `PeerResults.ResultByLastEvent` | crates/rustykrab-agent/src/peer_worker.rs:264-575 | the last event decides the result: a done view its report or that it has none, a failed one its report if the error is typed, any other end its status, a refused request its refusal, a cancel the timeout, and anything else being out of touch |
| `PeerResults.RepliesAreTheNodes` | crates/rustykrab-agent/src/peer_worker.rs:206-228 | every reply acted on is the node's answer to that request: a readable success its view, silence or a proxy's 502 to 504 unreachable, anything else its status |
| `PeerGuarantees.CancelExactlyInTouch` | crates/rustykrab-agent/src/peer_worker.rs:389-443 | at the deadline a cancel is sent if and only if no poll went unanswered since the last poll that brought a view; no other run cancels |
| `PeerGuarantees.EndsSoonAfterDeadline` | crates/rustykrab-agent/src/peer_worker.rs:384-444 | bounds by what happened in the run: one poll and one request past the deadline, and the cancel if sent, when no task was lost; a longer bound when one was |
| `PeerTiming.EndsByWorstCase` | crates/rustykrab-agent/src/peer_worker.rs:264-444 | every run against every node is over by the worst case of its configuration |
| `PeerTiming.WorstCaseIsReached` | crates/rustykrab-agent/src/peer_worker.rs:264-444 | and for every configuration some node makes a run last exactly that long |
| `PeerTiming.PromptExactlyWhen` | crates/rustykrab-agent/src/peer_worker.rs:264-444 | every run of a configuration is over within one poll and one request of its deadline if and only if two requests fit into a poll and the last submission that can go unanswered leaves room for one more request |
| `PeerTiming.PromptForEveryTimeout` | crates/rustykrab-agent/src/peer_worker.rs:264-444 | whatever the timeout, that is so if and only if `2 * request <= poll` and `request <= 1` |
| `PeerGuarantees.EntryOutlivesFailedResubmission` | crates/rustykrab-agent/src/peer_worker.rs:423-445 | the run's task entry is left behind if and only if a resubmission failed; other runs' entries never change |
| `PeerGuarantees.LateByALostTask` | crates/rustykrab-agent/src/peer_worker.rs:418-424 | with the built-in poll and request times a lost task keeps a run going three requests past its deadline |
| `PeerGuarantees.LateByTheCancel` | crates/rustykrab-agent/src/peer_worker.rs:394-403 | and the cancel alone, with nothing lost, takes one past a poll and a request |
| `PeerGuarantees.ResubmissionIsNotTouch` | crates/rustykrab-agent/src/peer_worker.rs:389-424 | a run that got its task back by resubmitting still ends as unreachable, and leaves that task running |
| `PeerTasks.OneLiveTask` | crates/rustykrab-agent/src/peer_worker.rs:11-13 | while a node keeps its table from run id to task, no run ever has two live tasks, whichever submissions arrive and whatever ends or is swept in between |
| `PeerTasks.ClientLeavesOneTask` | crates/rustykrab-agent/src/peer_worker.rs:264-424 | so a whole run of the client opens tasks of its own run id only and never leaves two of them live |
| `PeerTasks.DoubledExactlyWhen` | crates/rustykrab-agent/src/peer_worker.rs:416-424 | a resubmission leaves a run with two live tasks if and only if the table lost the run while a task of it lived |
| `RunLogs.FirstSeenIsHistory` | crates/rustykrab-agent/src/local_worker.rs:1763-1787 | the log's list is every id ever offered, once, each as first offered, in first-seen order |
| `RunLogs.RunLog.constructor` | crates/rustykrab-agent/src/local_worker.rs:633-656 | the file starts as the conversation's messages, with their count, if the write succeeds |
| `RunLogs.RunLog.Note` | crates/rustykrab-agent/src/local_worker.rs:1780-1787 | a message is kept if and only if its id is new |
| `RunLogs.RunLog.Record` | crates/rustykrab-agent/src/local_worker.rs:1790-1802 | the list stays everything first seen whatever writes fail, and the file body stays the list as long as none failed |
| `RunLogs.RunLog.Finish` | crates/rustykrab-agent/src/local_worker.rs:1806-1833 | whatever writes failed before, a successful last one leaves the whole list in the file with its exact count |
| `Attestation.Attest` | crates/rustykrab-agent/src/external_worker.rs:1500-1513 | the loop computes the specified artifacts |
| `Attestation.AttestedExactly` | crates/rustykrab-agent/src/external_worker.rs:1499-1513 | the command artifacts are distinct, exactly those among the first 64 commands and in the order they first appear there, no probe artifact is left, the others stay in order, and attesting twice is attesting once |
| `Attestation.ReplacedExactly` | crates/rustykrab-agent/src/local_worker.rs:2101-2110 | replacing a kind leaves exactly the given values of it and every other artifact in order |
| `Attestation.GrantAttests` | crates/rustykrab-agent/src/mcp_grants.rs:374-388 | a finished grant's report has one call artifact per recorded call, in order, and none of the agent's own |
| `Attestation.RecordingBackend.Return` | crates/rustykrab-agent/src/local_worker.rs:1934-1951 | appends the command of an exec that came back with an exit code, and nothing else |
| `Attestation.RecordingBackend.Draft` | crates/rustykrab-agent/src/local_worker.rs:2050-2110 | drafts the report against one copy of the commands, or refuses it, as specified |
| `Attestation.RecordingBackend.Push` | crates/rustykrab-agent/src/local_worker.rs:2112-2115 | appends an accepted report |
| `Attestation.RecordingBackend.ClaimsRan` | crates/rustykrab-agent/src/local_worker.rs:2075-2100 | true if and only if nothing was observed or every claimed check matches |
| `Attestation.DraftAttests` | crates/rustykrab-agent/src/local_worker.rs:2070-2110 | a drafted report's command artifacts are exactly the copied commands, it has no probe artifact and the others as filed, and its checks all match if there was any command |
| `ReportRuns.RunKeeps` | crates/rustykrab-agent/src/local_worker.rs:2044-2117 | every interleaving of tool returns with reports being drafted, accepted and pushed keeps the whole invariant |
| `ReportRuns.HostObserves` | crates/rustykrab-agent/src/local_worker.rs:1935-1951 | the observed commands are those of exec calls that came back with an exit code, in that order |
| `ReportClaims.KeptReportAttests` | crates/rustykrab-agent/src/local_worker.rs:2065-2116 | in every run a kept report was accepted; its commands are those observed at its draft, a prefix of those at its acceptance and equal if and only if none returned between; its checks match them if anything had been observed, and those at acceptance too unless the matcher lets more commands undo a match |
| `ReportClaims.BatchedCommandIsMissed` | crates/rustykrab-agent/src/runner.rs:3032-3038 | a report batched with a command can be kept without it and with a check that matches nothing |
| `ReportOrder.OrderExactlyWhen` | crates/rustykrab-agent/src/local_worker.rs:2111-2115 | kept reports stay in acceptance order under every way to push if and only if no accepted report waits behind a later accepted one |
| `ReportOrder.BatchedReportsSwap` | crates/rustykrab-agent/src/local_worker.rs:2111-2115 | two batched reports can be kept against their acceptance order |
| `Resume.Continue` | crates/rustykrab-agent/src/local_worker.rs:840-876 | the in-place edits compute the specified conversation |
| `Resume.RepeatedFirings` | crates/rustykrab-agent/src/local_worker.rs:847-873 | after any number of firings the conversation is the last system message, the kept messages after the opening system block with later system ones as notices (the text found in them alone, if any), and every firing's turn in order |
| `Resume.OneSystemMessage` | crates/rustykrab-agent/src/local_worker.rs:847-873 | exactly one system message, the last firing's, at index 0; every message after the opening system block as it was, a system one as a prefixed notice from the user; then each firing's one turn |
| `ToolCeiling.Activate` | crates/rustykrab-agent/src/local_worker.rs:766-807 | fails if and only if a required tool or server is outside the ceiling, naming the first missing tool; otherwise returns exactly the opening, required and served tools, ascending and each once |
| `ToolCeiling.Start` | crates/rustykrab-agent/src/local_worker.rs:1081-1130 | a non-review run stops before any model call if and only if the probe's requirement check rejects it; a review if and only if it asks for more than reporting |
| `ToolCeiling.SameCeiling` | crates/rustykrab-agent/src/local_worker.rs:331-353 | probe and run compute the same ceiling for every brief |
| `ToolCeiling.CatalogExactly` | crates/rustykrab-agent/src/local_worker.rs:730-749 | the catalog is, in ascending order, what a session may use of the host's seven tools, and of its own and unreserved late ones within the allowed list |
| `ToolCeiling.CeilingExactly` | crates/rustykrab-agent/src/local_worker.rs:331-353 | the ceiling name by name: a review's one tool, else the catalog less exec, and less edit, write and read without files, where the shell is a repository's and there is no workspace |
| `ToolCeiling.FilesCounted` | crates/rustykrab-agent/src/local_worker.rs:1101-1115 | counting files finds an undelegated one if and only if there is one |
| `ToolCeiling.ReviewStopsMore` | crates/rustykrab-agent/src/local_worker.rs:1082-1095 | for a review the run stops exactly what the probe rejects, and workspace or writable requests besides |
| `ToolCeiling.ClearedToolsAreUsable` | crates/rustykrab-agent/src/local_worker.rs:408-438 | every required tool of a cleared brief is one the session may use, and exec only with a workspace where the shell is the repository's |
| `Utf8.BoundaryNear` | crates/rustykrab-agent/src/recall_tools.rs:427-433 | in UTF-8 text every offset has a boundary within three bytes |
| `RecallPaging.SnapToBoundary` | crates/rustykrab-agent/src/recall_tools.rs:427-433 | the loop returns the first boundary at or after the offset |
| `RecallPaging.PeekIsBounded` | crates/rustykrab-agent/src/recall_tools.rs:248-266 | a peek is UTF-8 text of at most 50,003 bytes, over 50,000 if and only if the cap is reached inside a character |
| `RecallPaging.TruncatedExactly` | crates/rustykrab-agent/src/recall_tools.rs:255-265 | a peek says it is truncated if and only if it ends before the requested end and the archive's; otherwise every byte up to there is in it |
| `RecallPaging.PagesTile` | crates/rustykrab-agent/src/recall_tools.rs:248-266 | peeks that each start where the last ended tile the archive, whatever ends are asked for |
| `RecallPaging.PeekMovesOn` | crates/rustykrab-agent/src/recall_tools.rs:254-258 | each such peek makes progress until the archive is exhausted |
| `RecallPaging.ReadAllIsEverything` | crates/rustykrab-agent/src/recall_tools.rs:248-266 | and together they are the archive |
| `RecallPaging.ReadAllInPages` | crates/rustykrab-agent/src/recall_tools.rs:248-266 | in nonempty UTF-8 pages within the bound |
| `RecallPaging.PeekOverItsCap` | crates/rustykrab-agent/src/recall_tools.rs:221-224 | some archive gives a peek of 50,003 bytes |
| `CompactionBudget.FromToml` | crates/rustykrab-agent/src/local_model.rs:196-214 | a file loads if and only if its default and every resolved entry validate and no tag is blank, and then each entry is its own settings over the default's |
| `CompactionBudget.ValidExactly` | crates/rustykrab-agent/src/local_model.rs:257-290 | what is accepted, bound by bound |
| `CompactionBudget.OverIsPerSetting` | crates/rustykrab-agent/src/local_model.rs:135-156 | a setting an entry names is the entry's, any other the base's; two entries over a base are their settings together |
| `CompactionBudget.EmptyFileLoads` | crates/rustykrab-agent/src/local_model.rs:196-214 | a file that says nothing loads as the built-in settings |
| `CompactionBudget.WindowBodyLoads` | crates/rustykrab-agent/src/local_model.rs:244-254 | the generated body validates for exactly the windows the daemon accepts, with a quarter of a small window for output and the built-in settings otherwise |
| `CompactionBudget.SummaryFitsExactlyWhen` | crates/rustykrab-agent/src/compaction.rs:230-273 | for every accepted model and any limit the context is within the window and the summary call fits if and only if it has its own window, or the provider no limit or one of at least 2,047 |
| `CompactionBudget.BudgetsAreLargest` | crates/rustykrab-agent/src/compaction.rs:230-273 | each budget is the largest its bounds allow: context, summary cap, output, and input |
| `CompactionBudget.SummaryFits` | crates/rustykrab-agent/src/compaction.rs:251-261 | with no limit or one of at least 2,048 it fits, in at most a quarter of the context |
| `CompactionBudget.EveryModelFits` | crates/rustykrab-agent/src/local_model.rs:217-222 | and so for every model tag of every file that loads |
| `SseExtract.ExtractFromSse` | crates/rustykrab-channels/src/mcp_http.rs:210-256 | the answer is what the first event says whose data parses with the id asked for: its error's code and message, or its result, null if it has none; no answer if and only if there is no such event |
| `SseExtract.FrameReadsBack` | crates/rustykrab-channels/src/mcp_http.rs:228-238 | a frame of data lines mixed with comment and event lines is read as its payload without leading newlines, so as itself if and only if it does not start with one |
| `SseExtract.StreamAnswers` | crates/rustykrab-channels/src/mcp_http.rs:226-256 | for any list of such frames with payloads that do not start with a newline extraction recovers each payload, and the answer is what the first matching payload says |
| `SseExtract.FrameCarries` | crates/rustykrab-channels/src/mcp_http.rs:228-238 | every payload without carriage returns has such a frame, one data line per line, and the frame carries exactly it |
| `SseExtract.CrlfStreamIsOneEvent` | crates/rustykrab-channels/src/mcp_http.rs:227 | any stream whose line ends are all CRLF is read as one event |
| `SseExtract.CrlfEventsRunTogether` | crates/rustykrab-channels/src/mcp_http.rs:227-238 | so two CRLF events are read as one payload of both |
| `SseStandard.CrlfReadAsStandardExactlyWhen` | crates/rustykrab-channels/src/mcp_http.rs:226-241 | a CRLF stream's nonempty data are those of section 9.2.6 if and only if no data line has text and no event has two, or the last event alone has text, from its first data line on, and no event is left open with data |

## Left out

- HTTP, processes, signals, run groups, git worktrees, file permissions and synced writes: operating-system effects.
- The registry of grants and token minting: one grant is modelled, with a flag for whether it is still mapped.
- Panics under the grant's lock, and memory ordering below the lock.
- Fields of an observation that are only displayed: decoded command, standard output and error, result text, runtime status.
- JSON and TOML parsing: events come as the fields the readers look at, and whole documents through an abstract parse function.
- Prompt, brief and error texts, and the classification of a 422 body by `refused`.
- The peer's standing (`heard`, `not_heard`), `refresh`, `stop`, `resumable` and usage: they do not feed the run's result.
- `read_codex`: single assignments per event.
- `extract_jsonrpc_from_value`: a search of one array.
- `keep_alive`, `think`, strategy and late binding of `models.toml`: copied, not used by the budget.
- Wrap-around of 64-bit token sums and of the scan's 32-bit depth: totals and depths are unbounded here.
- The step ledger, its notices and stalls, and the controller's check matcher: a matcher is a parameter.
- The file tools `run` adds after activation.
- The session log's calls come one at a time; a failed write may leave anything in the file.
- SseStandard.CrlfReadAsStandardExactlyWhen: streams with a byte order mark, lone carriage returns or a `data` field without its colon are not considered.
- PeerGuarantees.EndsSoonAfterDeadline: bounds by the run's own trace; the exact worst case is PeerTiming's.
- IdleWait.NeverTimedOutExactlyWhen: is about any number of readers; which of its failing runs the source's two can bring about when the delay is not below the gap is not stated.
