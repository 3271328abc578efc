# Verified model of the desktop client's backend core

A Dafny model of the stateful and protocol code of the desktop client, with proofs of what that code is
for. `dafny verify dfyconfig.toml` checks all of it. One module per component:

| file | component | what is proved |
|---|---|---|
| `EventSink.dfy`, `EventSinkProtocol.dfy` | batched app-server events | over every interleaving of callers and flush ticks nothing is lost, duplicated or reordered within a workspace; terminal events arrive right behind their predecessors; a flush keeps the order in which workspaces were first seen; the two locks never deadlock |
| `LspRegistry.dfy` | bounded registry of language servers | capacity, single flight per key, no overwritten, leaked or wrongly stopped session; what each call returns |
| `LspRequests.dfy` | request/response correlation | a call gets the first response with its own id; late responses change nothing; failing the table reaches everybody; how each call ends |
| `LspFraming.dfy` | Content-Length framing (LSP 3.17, section "Base Protocol") | reading undoes writing; a stream that breaks off anywhere yields exactly the values that arrived whole |
| `FileUri.dfy` | percent-encoded file URIs (section 2.1 of RFC 3986) | decoding undoes encoding; exactly which paths survive a round trip |
| `ScanCache.dfy` | signature-keyed scan cache | for exactly which sources every call returns a current value, over every interleaving |
| `JsonlCursor.dfy`, `JsonlCutLine.dfy` | JSONL append cursor | following a growing file equals one full read; for any file, exactly when two reads are one |
| `ClientStorage.dfy`, `ClientStorageProtocol.dfy` | write-through store cache | cache and file refine the fold of all commands, elided writes included; over every interleaving with split reads, exactly when |
| `HmacCookie.dfy`, `CookieCommit.dfy` | visitor-cookie header and commit protocol | only well-formed cookies get in; commits are serializable and written in order of acceptance |
| `RenameClosure.dfy` | rename closure of a file | the result is exactly the connected component |
| `YamlKeys.dfy`, `YamlLines.dfy` | YAML key parser | the indentation stack agrees with ancestry found by looking back; exactly which lines hold a key |
| `LocalUsage.dfy`, `UsageAccounts.dfy` | token accounting | deltas telescope; models and days balance; exactly which reports count and where they are booked |
| `Agents.dfy` | fresh ids, agent import | termination by pigeonhole; exactly which agents are taken and what becomes of each; the import's books balance |
| `I18nTrees.dfy`, `I18nChunks.dfy` | translation scripts | flatten/build and chunk/merge are inverse, and exactly when they are not |
| `Text.dfy`, `Wrappers.dfy` | shared | UTF-8 (decoding is the inverse of encoding), lines, trimming, decimal numbers; `Option`, `Result`, lists without repeats |

Objects the source updates in place are classes, and each of their methods is proved to take its state
from one value to the next given by a function; loops are methods with invariants. Where several tasks or
threads touch the same state, the critical sections are those methods, and a step system over the same
functions runs them in every order: `Exec` runs a list of actions, `Run` says that it ends in a given
state, and the theorems speak about every run.

Inputs that come from outside are parameters: clocks, the order in which a hash map is walked, which
servers die when, whether a disk write succeeds, what a JSON decoder yields, the versions of scanned
sources, git's rename pairs, the day of a timestamp.

## Findings

Where the code does not do what a reader may expect, the model follows the code. For each case a lemma
gives the input or the run, and another the exact condition:

- A path with a backslash, or a relative one, does not survive its file URI: `BackslashIsLost`, `LosslessExactly`.
- A server that dies within the first 15 bytes of a frame looks like a clean end: `CutFrameIsNoMessage`, and `CutStreamYieldsWholeFrames` for whole streams (equivalences).
- Once more than 2^64 ids are issued, a repeated id can orphan a waiting call: `WaitingCallIsOrphaned` builds the run, `OrphanedIff` shows the bound is tight.
- A call that slips past the liveness check of a dying server gets no error from `fail_pending` and waits for its own timeout: `LateCallExists`; `FinalFailReachesIff` says that the last `fail_pending` reaches exactly the calls whose id is in the table then.
- An urgent event may arrive before an earlier event of its own workspace: `UrgentMayOvertake`; it keeps the order if and only if nothing is queued there, `UrgentKeepsOrderIff`.
- A cached scan may be stale: `UpfrontMayReturnStaleValue` and, with signatures taken from the values, `DerivedMayReturnStaleValue`; `UpfrontIsCurrentIff` and `DerivedIsCurrentIff` say for exactly which sources no call ever is.
- After a failed disk write the same patch reports success and is not written, however often it is retried: `RetryAfterFailureIsElided`, `PatchAgreesIff`; whichever writes fail, the file holds what was seen right after the last one performed, `FileHoldsLastPerformed`.
- A read that fills the cache late brings back what a write in between replaced: `LateFillHappens`, `LateFillUndoesWrite`; the cache follows the commands if and only if every fill finds them meaning what they meant at its read, `CacheFollowsFoldIff`.
- A file that grows while it is read has records returned twice, unless what was appended holds none: `GrowthDuringReadDuplicates`, `GrowthDuringReadExactIff`.
- A cursor inside a line may make two records of one, or hide that a full read would fail, as where a no-break space stands before a record: `CursorInsideLineSplits`, `NoBreakSpaceHidesFailure`. The two reads are the full read if and only if both parts of the line are blank or one of them is nothing but JSON blanks: `CursorInsideLineIff`.
- The span of a YAML key counts bytes, so a blank that is not ASCII shifts it: `NoBreakSpaceShiftsSpan`, `SpanIsKeyIff`.
- A key `__proto__` is lost on the way: `BuildUndoesFlatten`, `FlattenUndoesBuildIff`, `MergeUndoesChunkIff` (equivalences).

## Model

| member | source | states |
|---|---|---|
| EventSink.BatchedEventState.Submit | src-tauri/src/event_sink.rs:253-265 | the event goes behind its workspace's queue, a new workspace behind the others, and the queues stay valid: order duplicate-free and equal to the keys, no empty or mixed queue |
| EventSink.BatchedEventState.TakeWorkspaceBatch | src-tauri/src/event_sink.rs:267-273 | takes out one workspace's whole queue and no other |
| EventSink.BatchedEventState.DrainAllWorkspaceBatches | src-tauri/src/event_sink.rs:283-307 | every queue becomes one batch, in first-seen order, and the counters follow |
| EventSink.BatchedEventState.DrainQueues | src-tauri/src/event_sink.rs:285-294 | the loop empties the map and yields one batch per listed workspace |
| EventSink.BatchedEventState.CriticalBypassBatch | src-tauri/src/event_sink.rs:325-332 | an urgent event is a batch of its own and leaves the queues alone |
| EventSink.BatchedEventState.TerminalBarrierBatch | src-tauri/src/event_sink.rs:334-348 | the terminal event goes behind its workspace's queue into one batch |
| EventSink.SubmitBytes | src-tauri/src/event_sink.rs:253-265 | the byte counter stays exact if and only if the true total fits a usize |
| EventSink.DrainBytes | src-tauri/src/event_sink.rs:283-307 | an exact counter is 0 after a flush, and the reported size is all that was queued |
| EventSink.BarrierBytes | src-tauri/src/event_sink.rs:334-348 | an exact counter stays exact and drops by the drained workspace's bytes |
| EventSink.FlushSubtracts | src-tauri/src/event_sink.rs:295-304 | exact or not, a flush takes what it drained off the counter, which stops at zero, and reports its size as a usize |
| EventSinkProtocol.DrainedOnLane | src-tauri/src/event_sink.rs:283-307 | the drained batches hold, workspace by workspace, exactly what was queued |
| EventSinkProtocol.DrainOnLane | src-tauri/src/event_sink.rs:208-227 | a drain under `emit_order` moves a workspace's queue into flight, its terminal event behind it |
| EventSinkProtocol.LaneKept | src-tauri/src/event_sink.rs:401-426 | no step of any thread changes emitted + in flight + queued = events in `inner` order |
| EventSinkProtocol.RunKeepsOrder | src-tauri/src/event_sink.rs:208-227 | every reachable state has one holder of `emit_order` at most, valid queues without urgent events, and that equation for every workspace |
| EventSinkProtocol.EmittedInLogOrder | src-tauri/src/event_sink.rs:401-426 | in every run a workspace's non-urgent events are emitted in the order they took `inner`, none lost or repeated |
| EventSinkProtocol.TerminalArrivesLast | src-tauri/src/event_sink.rs:334-348 | a terminal event is delivered right behind all events of its workspace that came before it, whatever other threads did |
| EventSinkProtocol.QuietMeansDelivered | src-tauri/src/event_sink.rs:208-227 | with nothing queued and no thread running, everything that came in has been emitted |
| EventSinkProtocol.RunKeepsFirstSeen | src-tauri/src/event_sink.rs:253-294 | in every run the workspaces are listed in the order in which their oldest queued events took `inner`, also after barriers have taken some out |
| EventSinkProtocol.FlushInFirstSeenOrder | src-tauri/src/event_sink.rs:283-307 | a flush yields its batches in the order of their first events in the log, each with all of its workspace's events since |
| EventSinkProtocol.FlushArrivesWhole | src-tauri/src/event_sink.rs:208-227 | in every continuation what one drain took out arrives right behind what was emitted before it, batch by batch, with nothing in between |
| EventSinkProtocol.WayOfEvent | src-tauri/src/event_sink.rs:372-426 | by the name of its method an event is queued, goes alone, or takes its workspace's queue along |
| EventSinkProtocol.NeverStuck | src-tauri/src/event_sink.rs:401-426 | while a thread is unfinished some thread can move: the two locks never deadlock |
| EventSinkProtocol.UrgentMayOvertake | src-tauri/src/event_sink.rs:416-426 | a run in which an urgent event arrives before an earlier event of its workspace |
| EventSinkProtocol.UrgentKeepsOrderIff | src-tauri/src/event_sink.rs:416-426 | when an urgent event takes `inner`, exactly the queued events of its workspace are overtaken: the order is kept if and only if there are none |
| EventSinkProtocol.RunKeepsBytes | src-tauri/src/event_sink.rs:253-307 | in every run whose events fit a usize together, the byte counter is the size of what is queued |
| EventSinkProtocol.FlushSizeReported | src-tauri/src/event_sink.rs:295-304 | the reported flush size is that of what the drain took out |
| EventSinkProtocol.RunKeepsCounters | src-tauri/src/event_sink.rs:325-348 | every batch is non-empty and of one workspace; the flush counter counts batches, the two critical counters critical events, up to saturation |
| LspRegistry.StaleKeysExact | src-tauri/src/code_intel_lsp.rs:430-435 | the expired keys are exactly those of dead and idle sessions, each once |
| LspRegistry.EvictionPolicy | src-tauri/src/code_intel_lsp.rs:422-451 | dead sessions and those idle for 15 minutes go; one more, a least recently used, only when the registry would stay full without the requested key |
| LspRegistry.EvictionMakesRoom | src-tauri/src/code_intel_lsp.rs:422-451 | after an eviction there is room for the requested key |
| LspRegistry.SemanticNavigationRuntime.InitializerFor | src-tauri/src/code_intel_lsp.rs:482-491 | drops unreferenced initializers, then returns the key's live mutex or registers a new one |
| LspRegistry.SemanticNavigationRuntime.RemoveAll | src-tauri/src/code_intel_lsp.rs:603-607 | removes the selected keys and hands over exactly the sessions that were under them |
| LspRegistry.SemanticNavigationRuntime.Sweep | src-tauri/src/code_intel_lsp.rs:591-613 | the first locked block of session_for: evict, then refresh and return a cached session |
| LspRegistry.SemanticNavigationRuntime.Insert | src-tauri/src/code_intel_lsp.rs:622-648 | the second locked block: evict, then register the new session |
| LspRegistry.SemanticNavigationRuntime.RemoveFailed | src-tauri/src/code_intel_lsp.rs:655-675 | removes the key's session only if it is the failed one |
| LspRegistry.InitializerKept | src-tauri/src/code_intel_lsp.rs:482-491 | every mutex a task references is the one in the table, and no two keys share one |
| LspRegistry.VacancyKept | src-tauri/src/code_intel_lsp.rs:588-646 | a task that will register a session finds its key vacant until it does |
| LspRegistry.AccountKept | src-tauri/src/code_intel_lsp.rs:582-676 | every session ever started stays registered, in a task's hand, awaiting stop_session, or stopped |
| LspRegistry.RunKeepsRegistry | src-tauri/src/code_intel_lsp.rs:582-676 | every reachable state keeps all of these together |
| LspRegistry.RegistryIsSafe | src-tauri/src/code_intel_lsp.rs:582-676 | over every interleaving: at most six sessions registered, one spawn per key in flight, no registered session stopped or about to be |
| LspRegistry.InsertOverwritesNothing | src-tauri/src/code_intel_lsp.rs:635-651 | inserting finds the key vacant, and every other session stays or is handed to stop_session |
| LspRegistry.EvictSparesReplacement | src-tauri/src/code_intel_lsp.rs:655-675 | evicting a failed session unregisters that session exactly, never its replacement |
| LspRegistry.NoSessionLeaks | src-tauri/src/code_intel_lsp.rs:582-686 | once all calls have returned, a session is registered if and only if it was not stopped |
| LspRegistry.SpawnedIsReturned | src-tauri/src/code_intel_lsp.rs:621-651 | in every continuation a call that has started a server returns that server's session |
| LspRegistry.CachedIsReturned | src-tauri/src/code_intel_lsp.rs:591-619 | a call whose key keeps its session in the sweep has refreshed it and returns it, whatever happens meanwhile |
| LspRegistry.FailsIffSpawnFails | src-tauri/src/code_intel_lsp.rs:582-652 | session_for fails if and only if its server failed to start |
| LspRegistry.SectionsExact | src-tauri/src/code_intel_lsp.rs:591-648 | what the two evicting blocks leave under every key: nothing selected, all others as they were, the requested key used just now |
| LspRegistry.InitializersReferenced | src-tauri/src/code_intel_lsp.rs:482-491 | after initializer_for some task references each mutex in the table |
| LspRegistry.AliveIff | src-tauri/src/code_intel_lsp.rs:678-686 | in every continuation a started server is alive if and only if it was not stopped and has not died |
| LspRequests.PendingRequests.Dispatch | src-tauri/src/code_intel_lsp.rs:894-910 | a response takes out and answers the request under its id, or changes nothing |
| LspRequests.PendingRequests.FailPending | src-tauri/src/code_intel_lsp.rs:978-983 | empties the table and sends every request in it one error, in any order |
| LspRequests.IdsRepeatAfterWrap | src-tauri/src/code_intel_lsp.rs:298 | ids count from 1, and two requests share one exactly when their numbers differ by a multiple of 2^64 |
| LspRequests.RepeatedIdDropsSender | src-tauri/src/code_intel_lsp.rs:298-300 | the step: registering under the id of a call still waiting drops that call's sender |
| LspRequests.WaitingCallIsOrphaned | src-tauri/src/code_intel_lsp.rs:298-316 | a run that reaches it: one call waits while 2^64 more are numbered |
| LspRequests.RegisterFindsFreeId | src-tauri/src/code_intel_lsp.rs:298-300 | within 2^64 requests, registering replaces nobody |
| LspRequests.RunKeepsCorrelation | src-tauri/src/code_intel_lsp.rs:289-332 | every reachable state: distinct ids, each unanswered request's sender in exactly one place under its own id, every answer justified by a response |
| LspRequests.AnswerIsOwnFirstResponse | src-tauri/src/code_intel_lsp.rs:879-910 | a call answered by the server got the first response with its own id since it was registered |
| LspRequests.ReturnedRequestIsGone | src-tauri/src/code_intel_lsp.rs:289-332 | a call that has returned is not in the table, and a late response with its id changes nothing |
| LspRequests.NeverCanceled | src-tauri/src/code_intel_lsp.rs:313-316 | the branch for a dropped sender is never taken |
| LspRequests.OrphanedIff | src-tauri/src/code_intel_lsp.rs:298-316 | a call can find its sender dropped if and only if more than 2^64 ids are issued |
| LspRequests.FailAnswersEverybody | src-tauri/src/code_intel_lsp.rs:978-983 | every request in the table is promised the failure |
| LspRequests.PromiseKept | src-tauri/src/code_intel_lsp.rs:854-877 | no later step breaks the promise, and it is fulfilled once the reader has sent what it holds |
| LspRequests.FinalFailReachesIff | src-tauri/src/code_intel_lsp.rs:875-876 | the last fail_pending promises its error to an unanswered call if and only if the call's id is in the table at that moment |
| LspRequests.LateCallIsNeverAnswered | src-tauri/src/code_intel_lsp.rs:295-331 | in every continuation of the last fail_pending: a call in the table keeps its promised failure, any other unanswered call is never answered and can only be turned away, fail to write or time out |
| LspRequests.LateCallExists | src-tauri/src/code_intel_lsp.rs:295-331 | a run in which a call past the liveness check is not in the table then, and times out |
| LspRequests.NoCallAfterEnd | src-tauri/src/code_intel_lsp.rs:295-297 | in every continuation of the server's exit or stop, a call that starts later, or has not passed its check, gets no number and can only return that the server is not running |
| LspRequests.OutcomeFollowsStep | src-tauri/src/code_intel_lsp.rs:289-332 | a call returns a write error, a timeout or an answer if and only if its write failed, its timer fired or it received one, and is turned away if and only if it got no number |
| LspRequests.ReadErrorIsPromised | src-tauri/src/code_intel_lsp.rs:869-872 | an error of the reader is promised, in every continuation, to every call in the table at that moment |
| LspFraming.ReadLspMessage | src-tauri/src/code_intel_lsp.rs:985-1025 | the header loop agrees with the recursive reader, errors and end of input included |
| LspFraming.ReadsFrame | src-tauri/src/code_intel_lsp.rs:985-1025 | reading a written frame off any input yields its payload and the rest |
| LspFraming.ReadingUndoesWriting | src-tauri/src/code_intel_lsp.rs:270-286 | for every list of values under a lossless codec, reading the written stream yields them in order and then a clean end |
| LspFraming.OtherHeadersIgnored | src-tauri/src/code_intel_lsp.rs:991-1018 | a header line whose text does not begin with "Content-Length:" changes nothing, wherever it stands |
| LspFraming.FrameIsText | src-tauri/src/code_intel_lsp.rs:270-286 | a frame is the bytes of `Content-Length: N`, two line ends and the payload |
| LspFraming.LengthHeaderRead | src-tauri/src/code_intel_lsp.rs:1006-1013 | a length counts whatever spaces surround it and over any earlier one; without a number of 64 bits the message fails |
| LspFraming.LengthIsNeeded | src-tauri/src/code_intel_lsp.rs:1015 | a blank line before any length fails the message |
| LspFraming.PayloadIsNeeded | src-tauri/src/code_intel_lsp.rs:1016-1021 | so does a payload that does not arrive whole, and an end of input behind a length |
| LspFraming.HeaderIsText | src-tauri/src/code_intel_lsp.rs:991-995 | so does a header line that is the encoding of no text |
| LspFraming.CutFrameIsNoMessage | src-tauri/src/code_intel_lsp.rs:985-1025 | a frame cut anywhere never yields a message, and reads as a clean end if and only if fewer than 15 bytes arrived |
| LspFraming.CutStreamYieldsWholeFrames | src-tauri/src/code_intel_lsp.rs:854-877 | for any list of values and any cut of their stream, reading yields exactly the values whose frames arrived whole, and ends cleanly if and only if fewer than 15 bytes of the next frame arrived |
| Text.UsizeRoundTrip | src-tauri/src/code_intel_lsp.rs:272 | printing a length and parsing it gives it back |
| Text.PaddedNumber | src-tauri/src/code_intel_lsp.rs:1010 | a plus sign and leading zeros are read over, and what does not fit 64 bits is refused |
| Text.DecodesIff | src-tauri/src/code_intel_lsp.rs:1076 | bytes are UTF-8 for a text if and only if they are its encoding |
| FileUri.PercentEncodePath | src-tauri/src/code_intel_lsp.rs:1037-1047 | the byte loop agrees with the recursive encoder |
| FileUri.PercentDecodePath | src-tauri/src/code_intel_lsp.rs:1061-1077 | the index loop agrees with the recursive decoder: it fails on a bad triplet or bytes that are not UTF-8 |
| FileUri.DecodingUndoesEncoding | src-tauri/src/code_intel_lsp.rs:1037-1077 | every byte string survives encoding and decoding |
| FileUri.EncodedIsPlain | src-tauri/src/code_intel_lsp.rs:1037-1047 | an encoded path holds only plain characters and well-formed percent triplets |
| FileUri.EncodesByteByByte | src-tauri/src/code_intel_lsp.rs:1037-1047 | letters, digits and /:-_.~ stand for themselves, any other byte for a percent sign and two upper-case hexadecimal digits |
| FileUri.HexValueIff | src-tauri/src/code_intel_lsp.rs:1079-1086 | hexadecimal digits are read in either case, and nothing else is one |
| FileUri.DecodeFailsIff | src-tauri/src/code_intel_lsp.rs:1061-1075 | decoding gives up if and only if some percent sign lacks two hexadecimal digits behind it |
| FileUri.UriGivesPathIff | src-tauri/src/code_intel_lsp.rs:1049-1059 | a URI gives a path if and only if it starts with `file://` and what follows decodes to UTF-8 |
| FileUri.NormalizeKeepsUtf8 | src-tauri/src/code_intel_lsp.rs:1028 | replacing backslashes keeps a path valid UTF-8 |
| FileUri.UriRoundTrip | src-tauri/src/code_intel_lsp.rs:1027-1059 | what exactly comes back from any path's URI |
| FileUri.LosslessExactly | src-tauri/src/code_intel_lsp.rs:1027-1059 | a path survives if and only if it is absolute and has no backslash |
| FileUri.BackslashIsLost | src-tauri/src/code_intel_lsp.rs:1028 | a legal file name that does not come back |
| ScanCache.ScanEntries.GetOrCompute | src-tauri/src/backend_budget.rs:88-138 | a lone call: hit, miss or invalidation, the value returned and the entry left |
| ScanCache.ScanEntries.GetOrComputeWithSignatures | src-tauri/src/backend_budget.rs:140-195 | the same for the form that signs the value found and the value computed |
| ScanCache.ScanEntries.Invalidate | src-tauri/src/backend_budget.rs:197-199 | removes the key and says whether it was there |
| ScanCache.ScanEntries.InvalidateMatching | src-tauri/src/backend_budget.rs:201-209 | removes exactly the matching keys and counts them |
| ScanCache.RunKeepsCache | src-tauri/src/backend_budget.rs:88-195 | in every run each entry and each call holds what a scan yielded in one version under a signature of another |
| ScanCache.MissReportedIff | src-tauri/src/backend_budget.rs:97-121 | in every continuation a miss is reported if and only if the lookup found no entry |
| ScanCache.UpfrontHitIff | src-tauri/src/backend_budget.rs:101-111 | a hit is reported, with the value found, if and only if the entry had the caller's signature at the lookup |
| ScanCache.DerivedHitIff | src-tauri/src/backend_budget.rs:155-167 | the same at the comparison, for the signature taken from the value found |
| ScanCache.EntryMoves | src-tauri/src/backend_budget.rs:122-209 | an entry changes only by an insertion under its key and goes only when invalidated, and then does |
| ScanCache.HitIsFreshIff | src-tauri/src/backend_budget.rs:140-195 | a hit is reported for an equal signature only; with signatures that tell different results apart it equals a fresh scan if and only if the scan gave the same when the entry was computed and when it was signed |
| ScanCache.HitIsFreshIfSteady | src-tauri/src/backend_budget.rs:140-195 | so it does, with such signatures, when the entry was computed and signed in one version |
| ScanCache.UpfrontReturnsCurrentValue | src-tauri/src/backend_budget.rs:88-138 | with a signature taken beforehand, and sources that scan alike whenever and since a signature comes back, every call returns what a scan would have yielded at some moment of the call |
| ScanCache.UpfrontIsCurrentIff | src-tauri/src/backend_budget.rs:88-138 | that condition on the sources is exact: all calls of all runs return a current value if and only if it holds |
| ScanCache.UpfrontMayReturnStaleValue | src-tauri/src/backend_budget.rs:88-138 | a run without it: signed in version 0, computed in version 1, served in version 2 |
| ScanCache.NeverReturningIsSteady | src-tauri/src/backend_budget.rs:88-138 | signatures that tell different results apart and never come back meet it |
| ScanCache.DerivedReturnsCurrentValue | src-tauri/src/backend_budget.rs:140-195 | the same for the other form, for sources whose stored value, when it matches, is what the scan yields |
| ScanCache.DerivedIsCurrentIff | src-tauri/src/backend_budget.rs:140-195 | and that condition is exact too |
| ScanCache.DerivedMayReturnStaleValue | src-tauri/src/backend_budget.rs:140-195 | a run of the other form in which a call is served a value older than itself |
| JsonlCursor.ReadRecords | src-tauri/src/backend_budget.rs:334-351 | the line loop agrees with the recursive reader |
| JsonlCursor.ReadJsonlAppendOnly | src-tauri/src/backend_budget.rs:302-363 | the whole call, its one recursion at most included |
| JsonlCursor.MisfitIsFullRead | src-tauri/src/backend_budget.rs:316-328 | a cursor of another file, or beyond the length of this one, changes nothing: the whole file is parsed; any other is read on from, or given up for a corrupt line |
| JsonlCursor.FitIsReadOn | src-tauri/src/backend_budget.rs:302-363 | for a fitting cursor: the records behind it, or which error, or a read of the whole file, and when |
| JsonlCursor.LineRead | src-tauri/src/backend_budget.rs:335-350 | a line is its text's bytes with either line end or none: blank, a record or no JSON |
| JsonlCursor.LineIsText | src-tauri/src/backend_budget.rs:336 | bytes that encode no text are an error |
| JsonlCursor.StateTellsOrigin | src-tauri/src/backend_budget.rs:302-363 | the reported state says where the records come from |
| JsonlCursor.RecordsSplitAtLineEnd | src-tauri/src/backend_budget.rs:334-351 | what lies before a line end and behind it is read independently |
| JsonlCursor.AppendedRecordsExact | src-tauri/src/backend_budget.rs:302-363 | a read from a cursor at a line end yields exactly the appended records |
| JsonlCursor.FollowingIsOneFullRead | src-tauri/src/backend_budget.rs:302-363 | for a file that grows by whole lines, the successive reads concatenate to one full read |
| JsonlCursor.GrowthDuringReadDuplicates | src-tauri/src/backend_budget.rs:309-336 | lines appended between metadata and read are returned twice |
| JsonlCursor.GrowthDuringReadExactIff | src-tauri/src/backend_budget.rs:309-336 | whatever the file held and whatever was appended while it was read, half lines included: the two reads together are one full read if and only if what was appended holds no record |
| JsonlCutLine.CursorInsideLineSplits | src-tauri/src/backend_budget.rs:302-363 | the smallest file whose one record is read as two |
| JsonlCutLine.CursorInsideLineIff | src-tauri/src/backend_budget.rs:330-351 | for any file cut inside a line, a parser that skips JSON blanks around a text and rejects other white space there, and two reads that succeed: together they are the full read if and only if both parts of the line are blank or one is nothing but JSON blanks; otherwise the full read fails or holds one record less |
| JsonlCutLine.NoBreakSpaceHidesFailure | src-tauri/src/backend_budget.rs:338-349 | a file with a no-break space before a record: the two reads succeed, the full read fails |
| JsonlCutLine.PartsOfText | src-tauri/src/backend_budget.rs:338-349 | two texts yield what they yield as one under exactly that condition |
| ClientStorage.ClientStore.ReadStore | src-tauri/src/client_storage.rs:165-177 | the cached value, or the file's, which is then cached |
| ClientStorage.ClientStore.WriteStore | src-tauri/src/client_storage.rs:179-192 | cache first, then the file, which may fail |
| ClientStorage.ClientStore.PatchStoreAtPath | src-tauri/src/client_storage.rs:194-226 | overrides key by key and writes only on a change |
| ClientStorage.MergePatch | src-tauri/src/client_storage.rs:212-218 | the loop, in any key order, yields the override and flags exactly a change |
| ClientStorage.CacheRefinesFold | src-tauri/src/client_storage.rs:165-226 | along any commands cache and file agree and equal the fold of writes and overrides |
| ClientStorage.ReadReturnsFold | src-tauri/src/client_storage.rs:165-177 | a read returns that fold |
| ClientStorage.WrittenIsRead | src-tauri/src/client_storage.rs:165-226 | along any commands the value last written is what a read returns and the file holds, until a patch |
| ClientStorage.FirstCommands | src-tauri/src/client_storage.rs:157-226 | a missing file reads as null and its first patch creates the object; a file that is no JSON stops reads and patches until a write |
| ClientStorage.FileIsReadOnce | src-tauri/src/client_storage.rs:165-177 | what a read returned is returned again whatever becomes of the file |
| ClientStorage.PatchAgreesIff | src-tauri/src/client_storage.rs:219-225 | a patch that reports success leaves cache and file agreeing if and only if they agreed or it was written |
| ClientStorage.RetryAfterFailureIsElided | src-tauri/src/client_storage.rs:219-225 | after a failed write every retry of the patch reports success, changes nothing and writes nothing, however many there are |
| ClientStorage.FileHoldsLastPerformed | src-tauri/src/client_storage.rs:179-226 | along any commands whose locks and disk writes may fail, the file holds the key map seen right after the last write performed |
| ClientStorage.LateFillAgreesIff | src-tauri/src/client_storage.rs:165-177 | whatever commands run between the reading of the file and the late fill: the fill keeps cache and file together if and only if they left the key map as it was |
| ClientStorage.LateFillUndoesWrite | src-tauri/src/client_storage.rs:165-177 | after a write in between, the next patch puts the old value on disk |
| ClientStorageProtocol.CacheFollowsFoldIff | src-tauri/src/client_storage.rs:165-226 | with reads of three steps and writes of two, over every interleaving: a process sees the fold of the commands in every state if and only if every fill finds the fold as it was when its file was read |
| ClientStorageProtocol.QuietMeansAgreement | src-tauri/src/client_storage.rs:165-226 | then cache and file agree whenever no command is in progress |
| ClientStorageProtocol.LateFillHappens | src-tauri/src/client_storage.rs:165-177 | for every readable file a run whose fill does harm |
| ClientStorageProtocol.ReadReturnsWhatItSaw | src-tauri/src/client_storage.rs:165-177 | over every interleaving a read returns the cached value it saw, or else what the file held when it was read |
| CookieCommit.VisitorCookie.CompareAndSet | src-tauri/src/baidu_tongji.rs:275-285 | one step of the register: replaced only if it is still what was sent and differs |
| CookieCommit.VisitorCookie.PersistCookieUpdate | src-tauri/src/baidu_tongji.rs:249-261 | the file changes if and only if the write succeeds |
| CookieCommit.VisitorCookie.CommitResponseCookie | src-tauri/src/baidu_tongji.rs:263-290 | a lone commit: an unvalidated or cookieless response changes nothing, a good write keeps file and memory equal |
| CookieCommit.CommitsAreSerializable | src-tauri/src/baidu_tongji.rs:263-290 | over every interleaving memory is the compare-and-sets done one by one, and writes are attempted in the order of acceptance |
| CookieCommit.RegisterIsLastAccepted | src-tauri/src/baidu_tongji.rs:275-285 | the register holds the last accepted value |
| CookieCommit.QuietDiskEqualsMemory | src-tauri/src/baidu_tongji.rs:263-290 | with no commit in progress memory is the value last attempted; disk equals it if that write succeeded, and otherwise if and only if the value stored before is the same |
| CookieCommit.DiskNeverMoreThanOneBehind | src-tauri/src/baidu_tongji.rs:263-290 | with successful writes the disk is at most the commit in progress behind |
| CookieCommit.OnlyAcceptedUpdatesShow | src-tauri/src/baidu_tongji.rs:263-290 | memory changes only under the commit lock and only from the value the request was sent with; disk only to the accepted value |
| CookieCommit.StoredCookiesAreValid | src-tauri/src/baidu_tongji.rs:176-233 | whatever the file holds and the servers answer, only well-formed cookies reach memory or disk |
| CookieCommit.NoWriteIsRefused | src-tauri/src/baidu_tongji.rs:222-233 | no accepted cookie is refused when it is written |
| CookieCommit.ValidatedIff | src-tauri/src/baidu_tongji.rs:326-380 | a response is committed only with status 200 to 299 and, for the script, a text of 1 to 131,072 bytes that names beacon and site |
| CookieCommit.GoodResponseIsCommitted | src-tauri/src/baidu_tongji.rs:303-380 | such a response leads to a commit if and only if some part of its headers sets a well-formed cookie, and then of the first one |
| CookieCommit.ComparedWithSnapshot | src-tauri/src/baidu_tongji.rs:263-303 | in every continuation a commit replaces the cookie if and only if it equals what it was when the request was sent |
| CookieCommit.CommitTakesEffect | src-tauri/src/baidu_tongji.rs:249-290 | the commit's cookie goes into memory in that case and only then, is written if that changes anything, and a write that succeeds puts it on disk |
| CookieCommit.LoneCommit | src-tauri/src/baidu_tongji.rs:275-285 | a commit that is alone stores its cookie if and only if memory still is what was sent |
| HmacCookie.ExtractHmacCount | src-tauri/src/baidu_tongji.rs:176-195 | the loops over headers and parts agree with the search over all parts in order |
| HmacCookie.ExtractedIsFirstValid | src-tauri/src/baidu_tongji.rs:176-195 | what is extracted is the first well-formed visitor cookie of any part, and nothing if and only if there is none |
| HmacCookie.SplitIsExact | src-tauri/src/baidu_tongji.rs:181-184 | splitting cuts at every separator and nowhere else |
| HmacCookie.SplitOnceIsExact | src-tauri/src/baidu_tongji.rs:186-188 | name and value are cut at the first equals sign, if there is one |
| HmacCookie.PartsExact | src-tauri/src/baidu_tongji.rs:177-184 | a header is cut at each semicolon and each comma and nowhere else |
| HmacCookie.HeadersConcat | src-tauri/src/baidu_tongji.rs:177-180 | the parts of several headers follow one another, and an unreadable header has none |
| HmacCookie.ValidExactly | src-tauri/src/baidu_tongji.rs:106-112 | well-formed values are 1 to 128 ASCII letters, digits, hyphens, underscores and full stops |
| HmacCookie.PartSetsCookie | src-tauri/src/baidu_tongji.rs:185-192 | a part with the name in any case, an equals sign and a well-formed value, in blanks, sets the cookie to it |
| HmacCookie.OnlyPartSetsCookie | src-tauri/src/baidu_tongji.rs:185-192 | and no other part sets it |
| HmacCookie.LoadVisitorCookie | src-tauri/src/baidu_tongji.rs:197-220 | a cookie is loaded if and only if the record holds a well-formed one, and then it is that one |
| RenameClosure.GitDiffPathsForFile | src-tauri/src/git_utils.rs:404-465 | nothing for an empty path, the path itself without git status, else the renamed paths |
| RenameClosure.ConnectedPaths | src-tauri/src/git_utils.rs:435-448 | the fixpoint loop ends and yields the connected component |
| RenameClosure.ListPaths | src-tauri/src/git_utils.rs:450-464 | lists the ends of the renames inside the set |
| RenameClosure.ListingExact | src-tauri/src/git_utils.rs:450-464 | each of those paths once and no other |
| RenameClosure.ListingInOrder | src-tauri/src/git_utils.rs:450-464 | the list is in the order in which git names the paths |
| RenameClosure.EitherSlash | src-tauri/src/utils.rs:82-84 | spellings of a path that differ in their slashes give one path, with slashes |
| RenameClosure.ClosedIsComponent | src-tauri/src/git_utils.rs:435-448 | a reachable set no rename leaves is the component |
| RenameClosure.ResultIsComponent | src-tauri/src/git_utils.rs:404-465 | the result is the component without duplicates; an unrenamed target yields only itself |
| RenameClosure.SameComponentSameList | src-tauri/src/git_utils.rs:404-465 | any member asked for gives the identical list |
| YamlKeys.ParseYamlPropertyEntries | src-tauri/src/code_intel.rs:295-386 | the parser's entries are those found by ancestry without any stack |
| YamlKeys.NameKeys | src-tauri/src/code_intel.rs:297-385 | the loop keeps on its stack exactly the open sections |
| YamlKeys.AcceptKey | src-tauri/src/code_intel.rs:348-382 | a new key's entry, and the stack behind it |
| YamlKeys.CloseSections | src-tauri/src/code_intel.rs:348-354 | popping keeps exactly the sections indented less, and those are the open ones that enclose the new key |
| YamlKeys.StackStrictlyDeeper | src-tauri/src/code_intel.rs:348-382 | stack indentation strictly increases |
| YamlKeys.TopIsParent | src-tauri/src/code_intel.rs:356-360 | the top of the stack is the latest enclosing section, whose name the key is appended to |
| YamlKeys.FullKeyNests | src-tauri/src/code_intel.rs:356-360 | a full name is the key's own behind that of the latest section that is indented less with only deeper lines since, or its own alone |
| YamlLines.KeyLineParses | src-tauri/src/code_intel.rs:299-383 | n spaces, a list marker or none, blanks, a bare or quoted name, blanks, a colon and any value hold that key, at indentation n or n + 2, over its bytes, opening a section if the value is blank, a comment, `|` or `>` |
| YamlLines.KeyLineOnly | src-tauri/src/code_intel.rs:299-383 | every line that holds a key is written like that |
| YamlLines.HoldsKeyIff | src-tauri/src/code_intel.rs:299-346 | so a line holds a key if and only if it is |
| YamlLines.KeyCharacters | src-tauri/src/code_intel.rs:341-346 | the characters of a key |
| YamlLines.LinesExact | src-tauri/src/code_intel.rs:299 | a document is its lines, each with a line feed behind it that the last may lack |
| YamlKeys.YamlKeyAtCursor | src-tauri/src/code_intel.rs:388-396 | looks up the last entry whose span covers the cursor |
| YamlKeys.ItemLinesIncrease | src-tauri/src/code_intel.rs:295-386 | the entries are the lines that hold a key, in order, one each |
| YamlKeys.CursorIsUnambiguous | src-tauri/src/code_intel.rs:388-396 | a cursor finds a key exactly when it lies in the span of a line's key, and then that one |
| YamlLines.CursorOnKeyLine | src-tauri/src/code_intel.rs:388-396 | on any such line of a document the cursor on the key finds it under its full name |
| YamlKeys.SpanIsKeyIff | src-tauri/src/code_intel.rs:362-373 | for every accepted line: the span starts at the key's byte offset and ends with it, so it points at the key's characters if and only if the text before the key is ASCII |
| YamlKeys.NoBreakSpaceShiftsSpan | src-tauri/src/code_intel.rs:362-373 | a line whose span misses its key |
| LocalUsage.UsageTables.ScanFile | src-tauri/src/local_usage.rs:621-816 | one file: the tables gain exactly the charges of the reports that count |
| LocalUsage.UsageTables.EnterDelta | src-tauri/src/local_usage.rs:792-814 | books a delta on its day and model, or nowhere |
| LocalUsage.ScanEntersCharges | src-tauri/src/local_usage.rs:621-816 | the loop's state at any line is determined by the reports counted so far |
| LocalUsage.DeltasSumToTotalPlusJumps | src-tauri/src/local_usage.rs:768-794 | deltas sum to the final running total plus all downward jumps |
| LocalUsage.CountedOnceIffNeverFalls | src-tauri/src/local_usage.rs:768-794 | each token is counted exactly once if and only if no reported total falls |
| LocalUsage.NothingAfterStop | src-tauri/src/local_usage.rs:659-691 | nothing behind a foreign workspace counts |
| UsageAccounts.ReportCountsIff | src-tauri/src/local_usage.rs:659-691 | a report counts if and only if every directory named before it is the workspace and, with a filter, one was named; its model is the one set last, or its own, or "unknown" |
| UsageAccounts.ScopedPicks | src-tauri/src/local_usage.rs:641-766 | the reports that count are exactly those, each once and in order |
| LocalUsage.EnteredKeepsBalance | src-tauri/src/local_usage.rs:796-814 | one booking keeps models and days balanced and cached at most input |
| LocalUsage.AllEnteredKeepsBalance | src-tauri/src/local_usage.rs:796-814 | so does any number of them |
| UsageAccounts.DayBooked | src-tauri/src/local_usage.rs:800-806 | a day grows by exactly what is charged to it, and no day is added |
| UsageAccounts.ModelBooked | src-tauri/src/local_usage.rs:808-812 | a model's total grows by exactly what is charged to it on counted days |
| UsageAccounts.SnapshotExact | src-tauri/src/local_usage.rs:478-547 | whatever the files: each row of the snapshot and each model's total are what the charges of all files amount to |
| UsageAccounts.HitRateNearest | src-tauri/src/local_usage.rs:560-564 | the hit rate is the percentage rounded to the nearest tenth, and 0 without input |
| UsageAccounts.LastSevenDays | src-tauri/src/local_usage.rs:549 | the rate and the short total are taken over the last seven rows, or all if there are fewer |
| LocalUsage.BuildSnapshot | src-tauri/src/local_usage.rs:525-602 | the rows, and the totals as sums over the rows |
| LocalUsage.HitRateAtMostHundred | src-tauri/src/local_usage.rs:549-564 | rounding included, the rate stays within 100% when cached is at most input |
| LocalUsage.ScanFiles | src-tauri/src/local_usage.rs:478-523 | the Codex files one after another |
| LocalUsage.ScanLocalUsage | src-tauri/src/local_usage.rs:478-602 | whatever the files hold: the models sum to the 30-day total, no day has more cached than input, the rate is at most 100% |
| Agents.TakenAtMostSize | src-tauri/src/agents.rs:204-212 | pigeonhole: a store cannot hold more candidates than agents |
| Agents.GenerateUniqueId | src-tauri/src/agents.rs:204-212 | ends within as many rounds as agents and returns the base or the smallest free suffix |
| Agents.SanitizeIdempotent | src-tauri/src/agents.rs:178-187 | sanitizing twice is sanitizing once |
| Agents.AcceptableIff | src-tauri/src/agents.rs:153-187 | an agent is taken if and only if, trimmed, it has an id, a name of 1 to 64 characters and no prompt of more than 100,000 |
| Agents.FaultIff | src-tauri/src/agents.rs:153-176 | the first of these that fails is the error |
| Agents.AgentStore.ImportApply | src-tauri/src/agents.rs:441-500 | the import loop; a failed write leaves the store as it was |
| Agents.CountsAddUp | src-tauri/src/agents.rs:453-499 | imported + updated + skipped is the list's length, and the store grows by imported |
| Agents.TallyExact | src-tauri/src/agents.rs:453-499 | under Duplicate imported is the number of acceptable agents, under Overwrite imported + updated is; the errors are the faults of the others, in order |
| Agents.KeysExact | src-tauri/src/agents.rs:453-499 | under Skip and Overwrite the store holds the ids it held and those of the acceptable agents |
| Agents.StoredAgentsSurvive | src-tauri/src/agents.rs:453-499 | no stored agent is lost, and Skip and Duplicate leave each as it was |
| Agents.InsertedUnderOwnId | src-tauri/src/agents.rs:453-499 | an agent put or changed sits under its own id |
| Agents.DuplicateKeepsAll | src-tauri/src/agents.rs:472-480 | under Duplicate every acceptable agent is stored, trimmed and dated, under the first of its candidate ids that was free in its turn |
| Agents.OverwriteLastWins | src-tauri/src/agents.rs:468-471 | under Overwrite the last acceptable agent with an id wins; it is dated only if it is the first with that id |
| Agents.SkipFirstWins | src-tauri/src/agents.rs:464-467 | under Skip the first acceptable agent with a new id wins |
| Agents.SkipTwiceIsOnce | src-tauri/src/agents.rs:464-467 | importing a list again under Skip changes nothing |
| I18nTrees.Flattener.Flatten | scripts/i18n/extract.ts:12-26 | writes the tree's leaves under their paths and lists dotted keys in order |
| I18nTrees.LocaleBuilder.Build | scripts/i18n/build-locale.ts:35-56 | the translated tree, and what is missing, mismatched or seen on the way |
| I18nTrees.LocaleBuilder.BuildLocale | scripts/i18n/build-locale.ts:61-77 | namespace by namespace; passes if and only if the map has exactly the tree's paths and keeps every placeholder |
| I18nTrees.MissingEmptyIff | scripts/i18n/build-locale.ts:70 | nothing is missing exactly when every path has a translation |
| I18nTrees.BadPathsExact | scripts/i18n/build-locale.ts:43-45 | the mismatched paths are exactly those of texts whose translation has other placeholders |
| I18nTrees.NoneBadIff | scripts/i18n/build-locale.ts:43-45 | none is listed if and only if every text and its translation have the same placeholders, path by path |
| I18nTrees.UntranslatedStays | scripts/i18n/build-locale.ts:35-56 | without translations the tree is built as it was |
| I18nTrees.SiblingsDisjoint | scripts/i18n/extract.ts:18-22 | with non-empty dot-free keys two siblings never share a path |
| I18nTrees.FlattenElsewhere | scripts/i18n/extract.ts:12-26 | flattening touches no key but the tree's own paths |
| I18nTrees.FlatComesFromLeaves | scripts/i18n/extract.ts:12-26 | what flattening writes is a leaf of the tree under its path, flagged by its kind if it is no text |
| I18nTrees.LeafIsWritten | scripts/i18n/extract.ts:12-26 | every leaf is written, but for a path `__proto__` |
| I18nTrees.DottedIff | scripts/i18n/extract.ts:19 | dotted keys are listed if and only if there are any |
| I18nTrees.BuildUndoesFlatten | scripts/i18n/build-locale.ts:35-56 | building from a tree's own map returns the tree if and only if no key is `__proto__` |
| I18nTrees.BuiltKeepsPaths | scripts/i18n/build-locale.ts:48-54 | the built tree keeps exactly the texts not under such a key |
| I18nTrees.FlattenUndoesBuild | scripts/i18n/extract.ts:12-26 | flattening the build of any validated map returns that map less those texts |
| I18nTrees.FlattenUndoesBuildIff | scripts/i18n/extract.ts:12-26 | so the map comes back whole if and only if there are none |
| I18nTrees.OwnMapIsValid | scripts/i18n/build-locale.ts:67-77 | a tree's own map passes validation if and only if no text has the path `__proto__` |
| I18nChunks.WriteChunks | scripts/i18n/chunk.ts:17-23 | the files, and as many of them as the size demands |
| I18nChunks.MergeFiles | scripts/i18n/merge.ts:15-20 | the two loops agree with the fold over files and entries |
| I18nChunks.ChunkNamesDiffer | scripts/i18n/chunk.ts:20 | padded chunk names never collide |
| I18nChunks.EntryIsInAFile | scripts/i18n/chunk.ts:17-23 | no chunk overwrites another: every entry is in a file |
| I18nChunks.FileHoldsEntries | scripts/i18n/chunk.ts:17-23 | a file holds between one and `size` entries, none invented |
| I18nChunks.FileIsSlice | scripts/i18n/chunk.ts:18-22 | the n-th file holds the n-th `size` entries, the last one what is left |
| I18nChunks.TwoDigitNames | scripts/i18n/chunk.ts:20 | the names of up to a hundred files have two digits |
| I18nChunks.MergeLastWins | scripts/i18n/merge.ts:15-20 | of a key that occurs several times the last value in file order wins |
| I18nChunks.MergeUndoesChunk | scripts/i18n/merge.ts:15-20 | for every size and file order merging restores the map less a key `__proto__` |
| I18nChunks.MergeUndoesChunkIff | scripts/i18n/merge.ts:15-20 | so nothing is lost if and only if that is no key |

## Left out

- LspRequests.AnswerIsOwnFirstResponse: holds for runs of at most 2^64 requests, as do the other run theorems of that module; `RepeatedIdDropsSender` shows what happens past that.
- LspRequests.RunKeepsCorrelation: a call whose future is dropped while it waits is not a step of the model.
- LspRegistry.RegistryIsSafe: `Arc` identity is a number per spawned server; a `session_for` call whose future is dropped is not a step of the model, and the language server's own handshake is part of the spawn step.
- LspFraming.ReadLspMessage: the JSON codec is a pair of functions, and input is what is there before the pipe closes; waiting for more input is not modelled.
- FileUri.UriRoundTrip: platforms other than Windows, and paths that are valid UTF-8 (`to_string_lossy` changes others).
- ScanCache.ScanEntries.GetOrCompute: the evidence's cache state is modelled, its reason text and the signature it repeats are not.
- JsonlCursor.MisfitIsFullRead: the Unix compatibility test only; the other one accepts no growth.
- ClientStorage.CacheRefinesFold: a command is one step here; `ClientStorageProtocol` splits reads and writes.
- ClientStorageProtocol.CacheFollowsFoldIff: every disk write succeeds; what a failed one leaves behind is in `PatchAgreesIff`. Stale lock files, waiting for a lock and the temporary file behind an atomic write are not modelled.
- CookieCommit.StoredCookiesAreValid: a missing storage path is a write that fails; the copy kept of a record moved aside is not modelled.
- RenameClosure.GitDiffPathsForFile: git's rename detection is input.
- YamlKeys.CursorIsUnambiguous: for documents of at most 2^32 lines, past which line numbers wrap; so for `YamlLines.CursorOnKeyLine`.
- LocalUsage.UsageTables.ScanFile: token counts are mathematical integers; agent time, run counts, average, peak day, top models, cost and the sessions of the Claude scan are not modelled.
- LocalUsage.ScanLocalUsage: day keys are taken as distinct; how they are generated is not part of this model.
- Agents.AgentStore.ImportApply: parsing the strategy name, reading and writing the file; the other agent commands.
- I18nTrees.LocaleBuilder.BuildLocale: namespaces come in the order handed in (the script sorts them); the placeholder pattern is a function; the emitted files are not modelled.
- I18nChunks.WriteChunks: sizes are whole numbers of at least 1; the order of integer-like keys in an object is left open, as an object is any listing of its entries.
- The flush task's period, batch statistics and their throttling, and recovery of poisoned locks in the event sink.
- Session lifecycle states, notifications, server requests and document synchronisation of the language-server runtime.
- Settings, skills, path migration, windows and menus, process spawning, the shared runtime coordinator and the whole front end.
