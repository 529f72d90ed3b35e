# Verified models of the MicroPython debugging tools

Dafny models of the parts of this repository whose correctness is easiest to get wrong, with proofs
of what their documentation promises. One module stands for one source file or one component.

- `Framing` is the theory shared by every incremental reader: a scanner that looks at a buffer and
  either wants more, cuts one frame off, or finds a header it cannot read. `Dap` (the test suite's
  DAP client and server), `LengthFraming` (the WiFi stall reproduction) and `Handshake` (the
  extension's line scanner) are the three readers; each is a class that works on its buffer in
  place, and each is proved to deliver the same whatever the chunks are. The two framings are also
  proved against their printers. `Senders` adds the threads that share one DAP client: who counts, who
  holds the lock and how much of a frame is written are steps, under any interleaving.
- `DebugCommand` is the runner around the `mpremote debug` child, as a machine over its events.
- `Regex` and `PathGlob` are a compiler and its correctness: GitHub path filters with a meaning of
  their own, the translation to regular-expression text, and a parser and matcher for that text.
  `GatingJobs` is the CI decision taken with it.
- `ChildOwnership` is the protocol by which the extension owns the children it spawns, under any
  interleaving of launches, sessions and shutdown.
- `TargetPicker` is the cache of probed capabilities behind the status bar.
- `Launcher` is the boot script on the device: the loop that restarts the target, and the taking and
  giving back of the REPL's stream.
- `Toml`, `Manifest`, `Selection` and `ArtifactStore` follow the firmware manifest: fragments are
  validated and printed as TOML, read back, selected from, and their artifacts fetched and verified
  on disk.
- `Text` and `Wrappers` hold the string primitives and the option and result types.

State that the source updates in place is a class whose methods are proved against pure functions of
the state; what is promised over whole runs is proved about those functions. Calls out of the code
(sockets, processes, the network, JSON and YAML parsing, the digest) are parameters or are fixed
beforehand as lists of outcomes, over all of which the theorems quantify.

Some properties turn out to need a condition that the code does not check. Each has its exact
condition, or a case that shows it is needed:

- Requests of several threads are numbered in the order they are sent exactly when no call overtakes
  another between counting and taking the lock (`Senders.NumberedInOrder`); two can share a number
  (`NumberShared`) or be swapped (`NumbersSwapped`).
- Chunks do not matter to the line scanner exactly when no terminated line is over its cap
  (`Handshake.ChunkingIrrelevantExactly`); they do not matter to the handshake it finds unless such a
  line has the prefix where it can be cut (`DebugCommand.OutcomeOfRun`, `LongLineOutcomes`).
- A child is left with no owner exactly when its launch was robbed of a session it recognised, by a
  launch that recognises it by the port alone, and was not saved since (`ChildOwnership.NoChildLost`,
  `SharedPortLosesChild`).
- `deactivate` leaves no child alive exactly when no unmatched `startDebugging` call is in flight and
  no launch was robbed for good (`ChildOwnership.DeactivateKills`, `InFlightSurvives`,
  `SharedPortSurvives`).
- The compiled filter agrees with the filter under every pattern exactly for paths without a newline
  (`PathGlob.NewlinesDiffer`).
- A workflow with both `paths` and `paths-ignore` distributes over changed files exactly unless both
  lists are understood and two paths split it (`GatingJobs.DistributesExactly`).
- An empty list of unseen jobs is conclusive exactly when the jobs counted for the branch are really
  run by it (`GatingJobs.ConclusiveExactly`, `ClassHidesUnseen`).
- A reply list is as long as the client waits for exactly when no reply is under eight bytes
  (`LengthFraming.PayloadsLength`).
- The TOML reader undoes the JSON escaping exactly for strings within plane 0 of Unicode
  (`Toml.BodyReadsBack`).
- An artifact that matches can be taken away by no command exactly when no two variants clash in a
  file or in a temporary file (`ArtifactStore.ApartExactly`).
- A variant of a valid fragment can be fetched exactly when some file has its digest, which none has
  for a digest in upper case, though validation accepts it (`ArtifactStore.ValidatedIsFetchable`,
  `UpperCaseNeverMatches`).
- Tracing is left on exactly by an arming that fails and leaves its hook (`Launcher.TracingEndsOff`).
- The REPL's slot is restored exactly when `Launcher.GivesBack` says so: among other things, closing
  the DAP session must not raise, because it comes first in the same `finally`
  (`FailingCloseKeepsSlot`).

## Model

| member | source | states |
|---|---|---|
| Framing.DrainSplit | tests/dap.py:171-184 | for every incremental scanner, cutting frames off what has arrived and later off the rest delivers and keeps what cutting them off the whole does |
| Framing.ChunksIrrelevant | tests/dap.py:162-184 | a read loop fed any chunks delivers and keeps the same as one fed their concatenation |
| Framing.PrefixDelivered | tests/dap.py:173-184 | for a printer and a scanner that agree, after any number of bytes exactly the bodies complete by then are delivered, in order, and exactly the start of the next is buffered |
| Dap.ScanFrameIncremental | tests/dap.py:173-184 | bytes that arrive later never change a frame already cut off or a header already found unreadable |
| Dap.HeaderReadsBack | tests/dap.py:176-180 | the length read from a printed header, through line splitting, case folding, stripping and decimal parsing, is the length printed |
| Dap.FrameScans | tests/dap.py:49-53 | a printed message is cut off whatever follows it, also when its body contains the header separator |
| Dap.EmptyObjectOnTheWire | tests/dap.py:49-53 | a frame, character by character |
| Dap.PartialFrameScans | tests/dap.py:181-182 | no proper prefix of a printed message is taken for a frame |
| Dap.DAPClient.Send | tests/dap.py:49-53 | for one caller at a time: one whole frame goes on the wire behind those already there (for several callers see `Senders`) |
| Dap.DAPClient.SendRequest | tests/dap.py:55-61 | for one caller at a time: requests carry and return consecutive sequence numbers and are sent as one frame |
| Dap.ThreadedServer.CutFrames | tests/dap.py:172-189 | the inner loop hands on exactly the messages of the complete frames, keeps the unfinished rest, and ends |
| Dap.ThreadedServer.ReadLoop | tests/dap.py:160-190 | whatever chunks, timeouts and failures `recv` gives, the messages handed on and the bytes kept are a function of the bytes received alone; `running` is cleared unless the thread died |
| Dap.ReadSplit | tests/dap.py:171-189 | reading a stream in two pieces is reading it whole, also when a body or a header kills the reader |
| Dap.SendThenRead | tests/dap.py:160-190 | what `_send` wrote is read back: once the first n bytes are in, exactly the messages complete by then, in order, and the start of the next frame is buffered |
| Dap.BadBodyDropsOnlyItself | tests/dap.py:185-188 | a body that is not JSON drops out and changes nothing about the messages before and behind it |
| Dap.OtherJsonEndsReader | tests/dap.py:185-189 | a body that is JSON but no object ends the reader, and nothing behind it is handed on |
| Dap.InputIs | tests/dap.py:162-171 | the bytes received are those of every `recv` before the first failure, stop or empty read, time-outs passed over |
| Dap.LastLengthCounts | tests/dap.py:176-180 | of the header lines the last `Content-Length`, in any case, gives the length, whatever other fields are around it |
| Senders.WireIsMerge | tests/dap.py:49-61 | over every interleaving of senders, with partial writes: the wire is the frames of a merge that keeps the order of each sender, and behind them the written part of the lock holder's frame |
| Senders.ReadsMerge | tests/dap.py:160-189 | a reader of that wire gets the contents of the merge, all but possibly the last, and keeps the start of that one |
| Senders.ReaderSeesMerge | tests/dap.py:49-61 | both, over every history from the start |
| Senders.WireHasRequests | tests/dap.py:55-60 | what goes on the wire are requests with the numbers recorded for them, and each thread hands over one for each command it calls for, in order |
| Senders.NumberedInOrder | tests/dap.py:55-60 | once all calls are over, the messages on the wire are numbered 1, 2, 3 and so on exactly when no call overtook another, the counter being changed and read outside the lock |
| Senders.ReturnsItsNumber | tests/dap.py:60-61 | if none did, a call returns the number its message carried exactly when no other call has counted since |
| Senders.AloneIsInOrder | tests/dap.py:55-61 | a call that nobody comes between sends one frame, and its number is the next one and the one it returns |
| Senders.NumberShared | tests/dap.py:56-57 | two calls that load the counter before either stores it send the same number |
| Senders.NumbersSwapped | tests/dap.py:52-57 | two calls that count one after the other can send the other way round |
| LengthFraming.FromToBytes | planning/repro/20260813_wifi_powersave/client.py:23-25 | the four-byte big-endian length reads back, for all lengths under 2^32 |
| LengthFraming.ScanFrameIncremental | planning/repro/20260813_wifi_powersave/device.py:81-85 | bytes that arrive later never change a request already cut off |
| LengthFraming.FramesAgree | planning/repro/20260813_wifi_powersave/client.py:23-25 | a framed request is cut off whatever follows it and no proper prefix of it is |
| LengthFraming.Device.SendAll | planning/repro/20260813_wifi_powersave/device.py:37-47 | under any short writes and retryable errors the wire grows by a prefix of the data, by exactly all of it on return |
| LengthFraming.Device.SendReplies | planning/repro/20260813_wifi_powersave/device.py:94-95 | the replies to a request go out whole and in order |
| LengthFraming.Device.HandleFrames | planning/repro/20260813_wifi_powersave/device.py:81-95 | every complete request in the buffer is answered exactly once and the partial one is kept; a reply stuck on the socket leaves the earlier answers whole |
| LengthFraming.Device.Serve | planning/repro/20260813_wifi_powersave/device.py:69-102 | over any chunks and timeouts the requests counted, the bytes kept and the bytes sent are those of the received stream |
| LengthFraming.RequestsReceived | planning/repro/20260813_wifi_powersave/device.py:76-87 | of any framed requests, the device counts exactly those complete in the first n bytes and keeps the start of the next |
| LengthFraming.InputIs | planning/repro/20260813_wifi_powersave/device.py:76-98 | the bytes received are those of every `recv` before the client closes, failures passed over |
| LengthFraming.AnswersTo | planning/repro/20260813_wifi_powersave/device.py:86-95 | request k is answered from the k-th list, every later one from the last list |
| LengthFraming.PayloadsAppend | planning/repro/20260813_wifi_powersave/device.py:94-95 | the replies of a list go out in its order |
| LengthFraming.PayloadReads | planning/repro/20260813_wifi_powersave/device.py:21-23 | the first eight bytes of a reply are digits that read back as the stamp, capped at 99999999, and the others are filler |
| LengthFraming.PayloadsLength | planning/repro/20260813_wifi_powersave/device.py:21-23 | a reply list has the length of its sizes exactly when none is under the eight bytes of the stamp |
| LengthFraming.AnswersLength | planning/repro/20260813_wifi_powersave/device.py:86-95 | after k requests exactly the sum of the first k size lists has been sent, the last list repeating |
| Handshake.HandshakeScanner.ConsumeLine | extension/src/handshake.ts:188-200 | a line has the effect of `Consume` on the findings and leaves the buffer alone |
| Handshake.HandshakeScanner.Push | extension/src/handshake.ts:160-172 | a chunk is cut into lines, each consumed in order, and the rest capped |
| Handshake.HandshakeScanner.Flush | extension/src/handshake.ts:179-186 | an unterminated rest is consumed as a last line |
| Handshake.FirstAcceptedIsFirst | extension/src/handshake.ts:133-135 | the line taken for the handshake is the first one with the prefix that parses |
| Handshake.FirstReadyIsFirst | extension/src/handshake.ts:151-154 | the line taken for the failure is the first one with the prefix |
| Handshake.FindingsOf | extension/src/handshake.ts:188-200 | over any lines: the handshake of the first accepted line, the failure of an earlier first prefixed one, and in order every line except the accepted one and the prefixed ones behind it |
| Handshake.NextLine | extension/src/handshake.ts:188-200 | one more line is reported if it has no prefix, dropped if it has one behind the handshake, and otherwise is the handshake or, reported, perhaps the first failure |
| Handshake.LinesAreSplit | extension/src/handshake.ts:163-166 | the lines cut off and the rest are the pieces between the newlines |
| Handshake.EitherEnding | extension/src/handshake.ts:163-167 | lines read the same whether each ends in a newline or in a carriage return and a newline; no other carriage return is dropped |
| Handshake.RestKept | extension/src/handshake.ts:169-171 | of output without a newline the last 65536 characters are kept and none of it is a line yet |
| Handshake.RestFlushed | extension/src/handshake.ts:179-186 | at the end of the stream these are one line, as they are |
| Handshake.ChunkingIrrelevant | extension/src/handshake.ts:128-172 | when no terminated line is over the cap, any chunking leaves the findings of the lines of the text and the end of the unterminated rest, however long that is |
| Handshake.ChunkingIrrelevantExactly | extension/src/handshake.ts:159-172 | cutting a text into chunks changes nothing, whatever the chunks, exactly when no terminated line is over the cap |
| Handshake.FlushedFindings | extension/src/handshake.ts:174-186 | after the flush the findings are those of all lines of the text and of what is kept of the unterminated last one |
| Handshake.BufferBounded | extension/src/handshake.ts:123-126 | for any lines the buffer is a newline-free suffix of the unterminated text with at most 65536 characters |
| Handshake.LongLineDependsOnChunks | extension/src/handshake.ts:168-170 | in any text with a terminated line over the cap, cutting one character behind the cap makes the lines reported differ |
| Handshake.PushLike | extension/src/handshake.ts:160-172 | a chunk that ends no line over the cap with the prefix where it can be cut leaves the handshake, the failure and the buffer those of one pass |
| DebugCommand.DebugRun.PushOutput | extension/src/command.ts:144-150 | the captured output is the last 200 entries of everything offered, each clipped |
| DebugCommand.DebugRun.SettleResolve | extension/src/command.ts:205-216 | settles on the handshake once, without killing, and not at all when settled |
| DebugCommand.DebugRun.SettleReject | extension/src/command.ts:218-230 | settles on the failure with the output captured so far and one kill, and not at all when settled |
| DebugCommand.DebugRun.HandleStdoutData | extension/src/command.ts:232-237 | the lines that the scanner reports of the chunk reach the output (`HistoryIsMerge` says which) and a handshake found resolves |
| DebugCommand.DebugRun.HandleCloseEvent | extension/src/command.ts:243-254 | the decoder's tail and the unterminated line are scanned, and what they report reaches the output, before the end of the stream rejects |
| DebugCommand.DebugRun.Fire | extension/src/command.ts:272-275 | an event has the effect of its handler while that is attached, and none otherwise |
| DebugCommand.RunConsistent | extension/src/command.ts:205-230 | over any events: killed exactly once if rejected and never otherwise; listeners and timer present exactly while pending; a rejection carries the captured output |
| DebugCommand.SettledForGood | extension/src/command.ts:205-221 | no event after settling changes anything |
| DebugCommand.HistoryIsMerge | extension/src/command.ts:172-241 | over any events, up to the one that settles the run, the output is offered the stderr texts and the lines a scanner of the stdout text reports, each in their order and nothing else |
| DebugCommand.HistoryOfText | extension/src/command.ts:232-254 | without stderr, and with no line over the cap, these are exactly the lines of the text but the handshake and the prefixed ones behind it, the unterminated last one included when the stream closed |
| DebugCommand.CapturedIs | extension/src/command.ts:141-150 | a rejection shows the last 200 entries offered, in order, each whole or its first 4000 characters and a mark |
| DebugCommand.EndingsTold | extension/src/command.ts:176-268 | what each way to end makes of a lone ready line: an unterminated handshake counts only when the stream closes; a failure is told by the time-out and the end of the stream, not by an error |
| DebugCommand.OutcomeOfRun | extension/src/command.ts:152-158 | the promise settles on what one pass over the stdout text before the first close, error or timeout says, whatever the chunks, whatever stderr does in between, and however long the lines and the unterminated output are; excluded are only lines over the cap, before an accepted one, with the prefix at a place where they can be cut |
| DebugCommand.LongLineOutcomes | extension/src/command.ts:232-237 | such a line settles on itself in one chunk, and on its rest when it is cut at that place |
| DebugCommand.LongHandshakeLost | extension/src/command.ts:232-237 | so a handshake on a line over the cap resolves in one chunk and is lost when the chunk is cut behind the cap |
| PathGlob.GlobToRegex | tools/check_submodule_ci.py:55-81 | the scanning loop returns the text of the greedy token sequence |
| PathGlob.RegexParses | tools/check_submodule_ci.py:62-81 | the emitted text is a regular expression and parses as exactly the chosen tokens, whatever characters the filter has |
| PathGlob.SourcesOfTokens | tools/check_submodule_ci.py:64-80 | the scan consumes the whole filter |
| PathGlob.RegexUnambiguous | tools/check_submodule_ci.py:78-81 | two filters with the same text are the same filter |
| PathGlob.TranslationCorrect | tools/check_submodule_ci.py:55-81 | for every filter and every newline-free path, the compiled filter matches exactly when the filter admits the path |
| PathGlob.NewlinesDiffer | tools/check_submodule_ci.py:69-71 | the two agree under all filters exactly for newline-free paths |
| PathGlob.SameDepth | tools/check_submodule_ci.py:58-60 | a filter without `**` admits only paths with as many slashes as it has |
| PathGlob.OneStarAdmits | tools/check_submodule_ci.py:72-74 | a star between literals stands for exactly the runs without a slash |
| PathGlob.OneQuestionMarkAdmits | tools/check_submodule_ci.py:75-77 | a question mark between literals stands for exactly one character that is no slash |
| PathGlob.BelowDirectory | tools/check_submodule_ci.py:69-71 | a literal directory followed by `/**` admits exactly what lies below it |
| PathGlob.AnywhereByName | tools/check_submodule_ci.py:66-68 | `**/` and a literal name admit exactly the paths whose last segment is the name |
| GatingJobs.GatingJobs | tools/check_submodule_ci.py:101-139 | the loops collect exactly the ids of the jobs of the workflows that gate (which `TriggerGates` and `FilterGates` say) |
| GatingJobs.OnGoesFirst | tools/check_submodule_ci.py:114-116 | a trigger block under the key `True` gates as the same block under `on`, and one under `on` goes first |
| GatingJobs.TriggerGates | tools/check_submodule_ci.py:114-127 | a block under `True` gates every change when it is the name `pull_request`, a list that has it, or a table that has it without a body; no block that does not name it gates any; the ids are those of the jobs of a workflow that gates |
| GatingJobs.NoTriggerNoGate | tools/check_submodule_ci.py:112-127 | a document without a trigger block, or that is no table, gates nothing |
| GatingJobs.WorkflowPaths | tools/check_submodule_ci.py:106-107 | files named `.yml` and `.yaml` are workflows |
| GatingJobs.OnlyWorkflowPaths | tools/check_submodule_ci.py:106-107 | and no others are |
| GatingJobs.JobGoesByName | tools/check_submodule_ci.py:136-138 | a job goes by the last segment of its file's path and its own name |
| GatingJobs.FilterGates | tools/check_submodule_ci.py:128-135 | with a body exactly the changes gate that have a file `paths` admits and a file `paths-ignore` does not, where a list with a leading `!` or any of `+@()[]{}` does not count against the workflow |
| GatingJobs.TreesApart | tools/check_submodule_ci.py:103-139 | the jobs of a tree are those of its files |
| GatingJobs.GatesSoundly | tools/check_submodule_ci.py:84-98 | under any meaning of filters that agrees on the understood ones, a workflow that really gates is counted, and exactly those when all its filters are understood |
| GatingJobs.NoGatingJobMissed | tools/check_submodule_ci.py:84-91 | no job that really gates a change is missing from the result |
| GatingJobs.GatesUnion | tools/check_submodule_ci.py:128-135 | gating is monotone in the changed files |
| GatingJobs.JobIdsUnion | tools/check_submodule_ci.py:101-139 | the result is monotone in the changed files and distributes over their union when no workflow filters both ways |
| GatingJobs.DistributesExactly | tools/check_submodule_ci.py:128-135 | every workflow distributes over the changed files, except exactly one that filters both ways in patterns that are understood and that two paths split |
| GatingJobs.CheckBranch | tools/check_submodule_ci.py:173-196 | the jobs unseen and retired are the differences of the two results, and none for a branch that changes nothing |
| GatingJobs.ConclusiveExactly | tools/check_submodule_ci.py:177-190 | an empty list of unseen jobs means that the branch really runs every job upstream really runs, exactly when every job counted for the branch is one it really runs |
| GatingJobs.UnderstoodIsConclusive | tools/check_submodule_ci.py:84-91 | so it does when the filters of the branch are understood |
| GatingJobs.ClassHidesUnseen | tools/check_submodule_ci.py:177-181 | and not otherwise: with a character class in the branch's filter there is a meaning of the filters under which the list is empty though the branch never ran the job |
| ChildOwnership.NextKeeps | extension/src/extension.ts:39-47 | every event, whatever sessions several launches recognise, keeps the invariant on where each child can be |
| ChildOwnership.RunKeeps | extension/src/extension.ts:39-47 | so does every history |
| ChildOwnership.StraysExactly | extension/src/extension.ts:230-261 | a child is a stray behind an event exactly when the event robs its launch of a session, or it was one and the launch is neither the last to recognise a session nor fails to start |
| ChildOwnership.StraysThrough | extension/src/extension.ts:230-261 | so a child is a stray after a history exactly when its launch was robbed at some point and not saved since |
| ChildOwnership.NoChildLost | extension/src/extension.ts:43-46 | over every history each spawned child is killed, pending or with a session, except exactly when its launch is inside its own `startDebugging` call with no session seen, or was robbed and not saved since |
| ChildOwnership.HeardIs | extension/src/extension.ts:230-235 | however many listeners recognise a session, all of them are matched and the last one has its child recorded |
| ChildOwnership.HeardOwner | extension/src/extension.ts:230-235 | of those exactly the last one, and those whose child had an owner before, come out with one |
| ChildOwnership.SharedPortLosesChild | extension/src/extension.ts:80-86 | it happens: two launches on one port, a session that carries the first one's marker, and the first one's call returning leave its child to nobody |
| ChildOwnership.SharedPortSurvives | extension/src/extension.ts:307-317 | and a shutdown before that leaves it alive, although no unmatched call is in flight |
| ChildOwnership.EntryFromSession | extension/src/extension.ts:230-235 | over every history from the start the session map holds a launch's child only under the id of a session the launch recognised |
| ChildOwnership.EntryExactly | extension/src/extension.ts:230-301 | over every history the map holds a launch's child under an id exactly when a session of that id was recorded for it, and neither that session nor the extension has ended since |
| ChildOwnership.RecognisesBy | extension/src/extension.ts:80-86 | a launch in its call recognises a session by its marker, whatever else it says, and without the marker exactly a debugpy session on its port |
| ChildOwnership.KilledForCause | extension/src/extension.ts:196-317 | over every history a living child is killed exactly by: its own wait failing, its launch cancelled or resumed after shutdown, its start failing, the end of the session recorded for it, and the shutdown unless nobody owns it |
| ChildOwnership.SessionEndKills | extension/src/extension.ts:295-301 | the end of a session kills the child recorded for it and drops the entry |
| ChildOwnership.PendingAfter | extension/src/extension.ts:39-47 | a child is pending exactly from its spawn to the end of its wait, and from an unmatched return on, up to the shutdown |
| ChildOwnership.StartingAfter | extension/src/extension.ts:196-245 | a launch attaches exactly when its handshake came and it is neither cancelled nor after the shutdown, and is in its call until that returns |
| ChildOwnership.DeactivateKills | extension/src/extension.ts:307-317 | over every history `deactivate` leaves every child killed exactly when no unmatched `startDebugging` call with a live child is in flight and no launch was robbed of its session and not saved since |
| ChildOwnership.InFlightSurvives | extension/src/extension.ts:307-317 | it happens: one launch in its call at shutdown is enough |
| ChildOwnership.NoneAttachesLater | extension/src/extension.ts:196-199 | after shutdown no launch gets as far as attaching, and every launch that ends from then on without having been in its call has its child killed |
| ChildOwnership.LateReturnLeaks | extension/src/extension.ts:245-248 | a call that returns unmatched leaves its child alive until a shutdown that comes later |
| ChildOwnership.LateReturnHappens | extension/src/extension.ts:245-248 | it happens: one launch, a shutdown, and the call returning behind it |
| ChildOwnership.Extension.OnSpawn | extension/src/extension.ts:166-169 | a new child is pending |
| ChildOwnership.Extension.OnSettled | extension/src/extension.ts:157-172 | the wait ends, with the child killed when it failed |
| ChildOwnership.Extension.AfterHandshake | extension/src/extension.ts:180-199 | the child leaves the pending set, and is killed rather than attached after shutdown or cancellation |
| ChildOwnership.Extension.OnDidStartDebugSession | extension/src/extension.ts:230-235 | every listener that recognises the session takes it |
| ChildOwnership.Extension.AfterStartDebugging | extension/src/extension.ts:237-261 | a failed start kills the child, an unmatched one keeps it pending |
| ChildOwnership.Extension.OnDidTerminateDebugSession | extension/src/extension.ts:295-301 | the end of a session kills its child and drops its entry |
| ChildOwnership.Extension.DeactivateExtension | extension/src/extension.ts:307-317 | everything in the two collections is killed and they are emptied |
| Toml.BodyReadsBack | launcher/gen_manifest.py:165-172 | a TOML basic-string reader undoes the JSON escaping exactly for strings within plane 0, all ASCII among them, and refuses the others |
| Toml.StringReadsBack | launcher/gen_manifest.py:165-172 | so does the reader of values, for the quoted literal |
| Toml.ValueReadsBack | launcher/gen_manifest.py:186-192 | printed strings, truth values, arrays and inline tables read back |
| Toml.EntriesReadBack | launcher/gen_manifest.py:175-204 | the lines of a table read back, up to the next header |
| Toml.DocumentReadsBack | launcher/gen_manifest.py:207-213 | a printed list of tables reads back as those tables, in order |
| Toml.QuotesPrinted | launcher/gen_manifest.py:165-172 | the escapes printed are those of JSON |
| Toml.ScalarsPrinted | launcher/gen_manifest.py:177-179 | how texts and truth values are printed |
| Toml.ListPrinted | launcher/gen_manifest.py:186-187 | how lists are |
| Toml.InlinePrinted | launcher/gen_manifest.py:189-192 | and inline tables |
| Toml.BlocksPrinted | launcher/gen_manifest.py:175-213 | a table is printed as its header and a line for each entry, with an empty line between two tables |
| Manifest.MissingFields | launcher/gen_manifest.py:85-87 | exactly the required fields that are absent are reported |
| Manifest.ValidateFragment | launcher/gen_manifest.py:82-127 | exactly the problems a fragment has are reported, so none exactly for a valid fragment |
| Manifest.ValidHasNoProblem | launcher/gen_manifest.py:82-127 | being valid is having none of the problems |
| Manifest.ValidExactly | launcher/gen_manifest.py:47-127 | valid are exactly the fragments with all eleven fields, each as the rules spelled out one by one have it |
| Manifest.SampleIsFine | launcher/gen_manifest.py:82-127 | there are such fragments |
| Manifest.AcceptedClaims | launcher/gen_manifest.py:47-105 | a capability is claimed with a truth value, a number equal to one, or "unknown" |
| Manifest.ProblemOfField | launcher/gen_manifest.py:82-127 | each problem depends on the field it names alone |
| Manifest.RelativePaths | launcher/gen_manifest.py:111-115 | the artifact paths accepted are exactly those that are not empty, do not begin with a slash and take no step up |
| Manifest.ValidateFragments | launcher/gen_manifest.py:133-142 | the loop reports exactly the problems of the fragments and the ids that repeat, and registers their ids |
| Manifest.ValidateFragmentSet | launcher/gen_manifest.py:130-151 | exactly the problems of the fragments, the ids that repeat, and the missing and unexpected ids are reported; none exactly when all fragments are valid, no two share an id, and the ids are the expected ones |
| Manifest.IdsAccounted | launcher/gen_manifest.py:143-150 | missing are exactly the expected ids no fragment has, unexpected those not asked for |
| Manifest.IdsCompared | launcher/gen_manifest.py:136-142 | ids are compared as texts or numbers, true counting as one; what is empty, zero, false or null is no id |
| Manifest.FalsyOnes | launcher/gen_manifest.py:137 | the values that do not count as true |
| Manifest.RenderedIsPrinted | launcher/gen_manifest.py:175-204 | the lines joined are the printed form of the fragment's table |
| Manifest.RenderVariant | launcher/gen_manifest.py:175-204 | appending the lines one by one gives the printed form of the fragment's table |
| Manifest.TableGet | launcher/gen_manifest.py:175-204 | looking a key up in that table gives the fragment's field, the computed `download_url` included, and nothing for other keys |
| Manifest.TableHolds | launcher/gen_manifest.py:175-204 | every field is in the table with its own value, the notes and the toolchain exactly when they are there and not empty |
| Manifest.DownloadPath | launcher/gen_manifest.py:195 | split at its slashes, the download address is GitHub, owner, repository, `releases`, `download`, tag and asset |
| Manifest.Assemble | launcher/gen_manifest.py:207-213 | fails exactly without fragments or for an invalid set of them, with the problems; the text otherwise reads back as the tables of the fragments, in order |
| Selection.ParseNeed | launcher/firmware.py:251-272 | the keys are not empty and all known, or the error says which way they are not |
| Selection.NeedReadsBack | launcher/firmware.py:251-272 | for any comma-free pieces, joining and parsing gives the stripped non-blank pieces, or the error when there are none or an unknown one |
| Selection.PaddedNeed | launcher/firmware.py:261 | the four known keys are understood in any number, whatever white space is around each |
| Selection.BlankPieceDrops | launcher/firmware.py:261 | a blank piece changes nothing |
| Selection.SelectedFits | launcher/firmware.py:295-303 | what is selected is in the manifest, not deprecated, on the wanted port and board, and claims every needed key |
| Selection.SelectsWanted | launcher/firmware.py:295-303 | a query selects exactly the tables that are not deprecated by any value that counts as true, have the wanted port and board, and claim every key with exactly true; each once and in order |
| Selection.OneSelected | launcher/firmware.py:350 | there is one match exactly when one table alone is wanted |
| Selection.SelectsFitting | launcher/firmware.py:295-303 | from a generated manifest exactly the tables of the fragments that claim every needed key as true are selected, in order |
| Selection.GenerateAndSelect | launcher/firmware.py:275-303 | generating the text, reading it and selecting ends in exactly the fragments that fit |
| ArtifactStore.ValidatedIsInside | launcher/firmware.py:104-116 | an artifact path that validation accepts resolves to a path inside the firmware directory |
| ArtifactStore.PlainArtifact | launcher/firmware.py:112-116 | an artifact is found where its steps lead from the firmware directory |
| ArtifactStore.StepInPlace | launcher/firmware.py:112-116 | a step in place leads nowhere else |
| ArtifactStore.StepUpRefused | launcher/firmware.py:113-115 | a step up is refused unless the way comes back into the directory |
| ArtifactStore.AbsoluteArtifact | launcher/firmware.py:112-115 | an absolute path is taken as it is, and refused unless it is below the directory |
| ArtifactStore.GeneratedVariant | launcher/firmware.py:214-218 | what the tool reads of a generated table is what the fragment says |
| ArtifactStore.DownloadChanges | launcher/firmware.py:184-211 | a download replaces the artifact by one that matches or leaves it alone; nothing else changes but its temporary file |
| ArtifactStore.StepChanges | launcher/firmware.py:214-378 | the same of every command; a failing one replaces nothing, a successful fetch or selection leaves the artifact there, matching and, for unix, executable |
| ArtifactStore.StepKeeps | launcher/firmware.py:187-189 | when no variants clash, an artifact that matches its entry still does after any command |
| ArtifactStore.RunKeeps | launcher/firmware.py:187-189 | and after any run of commands with any failures |
| ArtifactStore.ApartExactly | launcher/firmware.py:184-211 | no command can take a matching artifact away exactly when no two variants clash |
| ArtifactStore.StepLeavesNothing | launcher/firmware.py:210-211 | no command leaves a new file that is no artifact |
| ArtifactStore.RunLeavesNothing | launcher/firmware.py:210-211 | no run of commands does, so no temporary file survives |
| ArtifactStore.PartIsGone | launcher/firmware.py:210-211 | once its directory is there, a download leaves no temporary file, not even one from before |
| ArtifactStore.FetchExactly | launcher/firmware.py:214-248 | the exit code of a fetch, in terms of the first table with the id: 0 exactly when the intact artifact is kept, or comes from a real address, and can be made executable where it has to be; 2 exactly for the want of an address |
| ArtifactStore.FetchUnknown | launcher/firmware.py:73-78 | an unknown id changes nothing and gives 1 |
| ArtifactStore.IntactIsKept | launcher/firmware.py:220-224 | an intact artifact is not touched unless it has to be made executable |
| ArtifactStore.SelectExactly | launcher/firmware.py:340-378 | a need that cannot be read gives 2, a query that not exactly one table meets gives 1, any other what its one table gives |
| ArtifactStore.ResolvedExactly | launcher/firmware.py:306-337 | and that is 0 exactly when the artifact is there and intact or comes, and 2 exactly for a wrong digest or the want of an address |
| ArtifactStore.VerifyNamedExactly | launcher/firmware.py:140-181 | verifying ids gives 0 exactly when for every id the first table with it has its artifact there, with the stated digest; no file changes |
| ArtifactStore.VerifyAllExactly | launcher/firmware.py:140-181 | verifying everything gives 1 exactly when some table that is not deprecated has an unsafe path, or a file that is there with another digest |
| ArtifactStore.SelectSucceeds | launcher/firmware.py:340-378 | exit code 0 means exactly one variant fits the query and its artifact is ready |
| ArtifactStore.FetchSucceeds | launcher/firmware.py:214-248 | exit code 0 means the variant's artifact is ready |
| ArtifactStore.FetchWorks | launcher/firmware.py:237-248 | a whole download that matches makes a fetch succeed, whatever is on disk |
| ArtifactStore.FetchableExactly | launcher/firmware.py:214-248 | whatever is on disk, a forced fetch can succeed exactly for a known variant with a safe path, a real address and a digest that some file has |
| ArtifactStore.ValidatedIsFetchable | launcher/firmware.py:214-248 | so a variant of a valid fragment can be fetched exactly when some file has the digest it states |
| ArtifactStore.UpperCaseNeverMatches | launcher/firmware.py:81-86 | which no file has for a digest stated in upper case, since the tool computes it in lower case and compares it as it is |
| ArtifactStore.UpperCaseIsAccepted | launcher/gen_manifest.py:107-109 | validation accepts such a digest |
| ArtifactStore.PresentIsKept | launcher/firmware.py:220-224 | an artifact that is ready is not downloaded again unless that is forced |
| ArtifactStore.FetchVerifies | launcher/firmware.py:171-181 | verifying an id right after a successful fetch of it succeeds, in every manifest |
| ArtifactStore.FetchThenVerify | launcher/firmware.py:171-181 | when no variants clash, it does after any further commands too |
| ArtifactStore.SharedFileLoses | launcher/firmware.py:184-191 | a fetch takes the file from another variant with the same path and another digest |
| ArtifactStore.SharedPartLoses | launcher/firmware.py:193-211 | a download without a response removes the artifact of a variant whose file is the temporary one |
| ArtifactStore.ClashLoses | launcher/firmware.py:184-211 | for every clash there are files and a command after which an artifact that matched does not |
| ArtifactStore.Store.EnsureExecutable | launcher/firmware.py:93-101 | the execute bit is set where it is missing for unix, and nothing else changes |
| ArtifactStore.Store.DownloadAndVerify | launcher/firmware.py:184-211 | through the temporary file and the `finally`, the artifact is replaced as a whole or not touched |
| ArtifactStore.Store.CmdFetch | launcher/firmware.py:214-248 | files and exit code of a fetch |
| ArtifactStore.Store.ResolveArtifact | launcher/firmware.py:306-337 | files, path and failure of resolving an artifact |
| ArtifactStore.Store.CmdSelect | launcher/firmware.py:340-378 | files and exit code of a selection; a path is shown exactly on success, and it is the chosen variant's |
| ArtifactStore.Store.VerifyOne | launcher/firmware.py:140-168 | named: passes exactly when the artifact is there and matches; unnamed: a deprecated or absent one is passed over |
| ArtifactStore.Store.CmdVerify | launcher/firmware.py:171-181 | exit code 0 exactly when every variant asked for verifies (`VerifyNamedExactly` and `VerifyAllExactly` say when); no file changes |
| Launcher.LoopTakesTurns | launcher/mpy_launch_debugpy.py:398-464 | over every run: runs and restart markers take turns, numbered 2, 3 and so on; each marker names what the run before left outside the baseline and the next run starts with exactly the rest; every run is traced |
| Launcher.LoopWellTraced | launcher/mpy_launch_debugpy.py:418-448 | only the target runs traced, the endpoint is not announced again, and tracing stays on only behind a failed arming that left its hook |
| Launcher.LoopStops | launcher/mpy_launch_debugpy.py:398-464 | the loop ends in the first pass that does not lead on: in a looping script one leads on exactly when it is announced, armed, and ends in a restart request or in a return after which the client asks again; the target runs once in every pass before and in the last if it arms; it raises exactly when the script is interrupted between passes, the last is not announced or armed, the target raises, or the wait does; and what is loaded, and whether tracing is on, follows from the last pass |
| Launcher.LoopNext | launcher/mpy_launch_debugpy.py:398-464 | a loop shows what its passes show, one after the other |
| Launcher.PassShows | launcher/mpy_launch_debugpy.py:400-465 | which events a pass shows, in terms of its fields, and what each of them directly follows |
| Launcher.RunTakesTurns | launcher/mpy_launch_debugpy.py:394-464 | the turns of a whole run of the script, with the modules loaded when the client is ready as the baseline |
| Launcher.EveryPassRuns | launcher/mpy_launch_debugpy.py:458-464 | as long as nothing fails and restarts are asked for, a looping script runs the target in every pass |
| Launcher.RunsOnce | launcher/mpy_launch_debugpy.py:458-459 | without the loop the target runs at most once, and there is no restart marker |
| Launcher.AnnouncedOnce | launcher/mpy_launch_debugpy.py:377-383 | `MPDBG-READY` is printed at most once and first, exactly when the channel opened and listens; `repl_dap` is true exactly when this run holds the slot |
| Launcher.AnnouncedExactly | launcher/mpy_launch_debugpy.py:340-383 | it is announced exactly when every step up to it works and a shared stream can tell that the host has gone |
| Launcher.RunRaises | launcher/mpy_launch_debugpy.py:340-464 | a run raises nothing exactly without `settrace`, or when it was announced and the client went away and was disconnected, or the loop ended without an exception |
| Launcher.TracingLeftOn | launcher/mpy_launch_debugpy.py:418-448 | the loop leaves tracing on exactly in a pass it gets to whose arming fails and leaves its hook |
| Launcher.TracingEndsOff | launcher/mpy_launch_debugpy.py:340-464 | so does a run of the script; at every other exit tracing is off |
| Launcher.Machine.ReplDapStream | launcher/mpy_launch_debugpy.py:139-191 | the stream is taken exactly when it can be shared and attaching succeeds; every refusal puts the slot back, and an interrupted attach leaves the wrapper registered |
| Launcher.Machine.ReleaseReplStream | launcher/mpy_launch_debugpy.py:194-209 | nothing stays registered, and the attached stream is back when detaching and restoring work |
| Launcher.Machine.EvictTargetModules | launcher/mpy_launch_debugpy.py:274-295 | exactly the modules outside the baseline are dropped and returned |
| Launcher.Machine.LeadIn | launcher/mpy_launch_debugpy.py:400-416 | the markers before a re-run, with tracing off again behind the probe |
| Launcher.Machine.RunTarget | launcher/mpy_launch_debugpy.py:418-464 | on every way out of the traced region tracing is off, and the loop goes on as `LoopStops` says |
| Launcher.Machine.RunLoop | launcher/mpy_launch_debugpy.py:394-464 | the loop shows, leaves and raises what `Loop` says |
| Launcher.Machine.Run | launcher/mpy_launch_debugpy.py:340-464 | the whole of `_run` likewise, and what it did with the slot |
| Launcher.Machine.RunScript | launcher/mpy_launch_debugpy.py:503-515 | whichever step fails, the slot holds what it held before exactly when `GivesBack` says so, and nothing stays registered unless closing the session raises |
| Launcher.SlotGivenBack | launcher/mpy_launch_debugpy.py:139-209 | when closing, detaching and restoring work, and no interrupt comes before the port is recorded, the slot holds what it held |
| Launcher.EachCallNeeded | launcher/mpy_launch_debugpy.py:194-209 | a stream that was taken comes back exactly then, so each of these calls is needed |
| Launcher.FailingCloseKeepsSlot | launcher/mpy_launch_debugpy.py:510-515 | it happens that the slot is not restored: the closing of the session raises, and the release behind it is not reached |
| TargetPicker.ProbeIsCurrent | extension/src/targetPicker.ts:137-170 | a name's cached probe is its latest handshake with no later start of it, and there is none exactly when there is no such handshake |
| TargetPicker.LastIsLatest | extension/src/targetPicker.ts:46-50 | the fallback is the latest handshake of all, unless a session of that name has started since |
| TargetPicker.TooltipIsHonest | extension/src/targetPicker.ts:189-217 | capabilities shown are the current ones of the name shown, the selection's if there is one; "unprobed" is shown only when there are none, and names the selection |
| TargetPicker.TooltipNext | extension/src/targetPicker.ts:137-217 | how the tooltip changes: a handshake of the selection is shown and its start shows nothing; other names change nothing; without a selection the latest handshake is shown until a session of its name starts |
| TargetPicker.SelectedIsLatest | extension/src/targetPicker.ts:73-81 | the selection is the latest pick |
| TargetPicker.BarNamesSelection | extension/src/targetPicker.ts:198-200 | the status bar names it, and nothing before the first pick |
| TargetPicker.WarnedOnce | extension/src/targetPicker.ts:160-163 | exactly the names with a handshake that does not report `save_names` as true are warned about, none twice, in order |
| TargetPicker.EarlierHandshakeHidden | extension/src/targetPicker.ts:139-146 | a start clears the fallback although an earlier handshake of another name is still current |
| TargetPicker.Picker.Render | extension/src/targetPicker.ts:198-217 | text and tooltip are those of the history |
| TargetPicker.Picker.SetSelectedTarget | extension/src/targetPicker.ts:78-81 | the cache and the status bar agree with the history after a pick |
| TargetPicker.Picker.ReportSessionStart | extension/src/targetPicker.ts:137-149 | and after a session start |
| TargetPicker.Picker.ReportHandshake | extension/src/targetPicker.ts:165-187 | and after a handshake, with the warning |

## Left out

- Manifest.RenderVariant: for fragments whose printed fields are texts within plane 0 of Unicode, because numbers are not among the values of the modelled part of TOML, and text beyond plane 0 does not read back (`Toml.BodyReadsBack`).
- Manifest.Assemble: likewise.
- Selection.GenerateAndSelect: likewise.
- The debug server and `mpremote` themselves (`debugpy`, `repl_mux`, `mpdebug_handshake`), which live in other repositories; calls into them are steps with arbitrary outcomes.
- Sockets, processes, serial ports, HTTP, git, YAML, SHA-256, JSON parsing and UTF-8 decoding: outcomes, parsed documents, an arbitrary digest, an arbitrary partial parser and decoded chunks stand for them.
- tests/dap.py: a negative `Content-Length` is treated as an unreadable header that ends the reader, where the code would slice with it; header bytes outside ASCII and the digits and separators that `int()` accepts beyond plain decimal are not modelled; a `sendall` that raises with part of a frame written, which releases the lock, is not modelled; the waiting and matching half of the client is left out.
- planning/repro: the config line (`_recv_line` drops bytes that arrive with it), the deadline, the sleeps, the chatter, and the client's `read_exactly` and `trial`; a fatal socket error in the middle of a reply is only promised a prefix.
- extension/src/handshake.ts: the validation of the payload is the parser parameter; the message texts are left out. The source counts the cap in UTF-16 units, the model in characters, which differ beyond plane 0; so do the clip lengths of extension/src/command.ts.
- extension/src/command.ts: the arguments and the message texts; a rejection keeps its cause, the parse failure and the captured output.
- extension/src/extension.ts: exceptions between the resolver's `finally` and its `startDebugging` call; launches, children and session ids are fresh.
- tools/check_submodule_ci.py: the wording of the report and the branches that cannot be found; a `pull_request` body that is no table; `?` is exactly one character that is no slash, as in the code, where GitHub's documentation makes it optional repetition of the character before.
- launcher/gen_manifest.py: the wording of the problems and the file names in them; a digest or an artifact field that is no string, on which the code raises, counts as a problem, and an id that is a list or a table as absent; numbers where the writer of a fragment should have put a text or a truth value are validated as in the code, but what is printed for them is not modelled; lone surrogates, keys that are not bare, and writing the output.
- launcher/firmware.py: `list`; a table without `id`, `artifact` or `artifact_sha256`, on which the tool raises, is read as if they were empty; capability tables that are no tables; directories and links on disk; a failing removal of the temporary file.
- launcher/mpy_launch_debugpy.py: interrupts between two statements (an interrupted attach is modelled), the guessing of the host's address, the texts printed, and changes the target makes to the slot or to `sys.modules` after its run; the list of evicted modules is a set.
- extension/src/targetPicker.ts: the quick pick and the message texts.
- `capcheck.py`, `config.ts`, `targets.ts`, the argument parsers, `compile_debugpy.py`, the device samples and the WiFi scripts: easy members or input and output.
