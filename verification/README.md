# DGX control plane: verified model

This project models the parts of the control plane whose correctness rests on state, interleaving or
arithmetic, and proves what they are for. One module stands for one component; `Utf8` (RFC 3629, with
the shortest-form and surrogate rules), `JsonText` and `Basics` are shared.

* **Host agent.** `OutputWindow` is a job's bounded output with absolute offsets, and the executor that
  polls it. `JobRecord` is the durable job record, `JobStore` its printed length, the size check and
  start-up. `JobLaunch` is the gate between agent and launcher under cancellation, failed writes and
  crashes. `Recovery` is signalling by process descriptor while pids are reused. `Redaction` is the
  redactor as a transducer of single characters, `RedactionSafety` its guarantee for known secrets and
  `RedactionLimit` how far it reaches, and `StreamingRedactor.dfy` the class with its block-wise handlers,
  proved equal to the transducer. `StepCollection` puts poller, redactor and bound together.
* **Signed protocol.** `Replay` is the nonce cache, `JsonTree` the stack-based check of a JSON value,
  `Framing` the length-prefixed frames over short reads and writes, `AgentExchange` what server and client
  make of one exchange and how large a job reply can get.
* **Gateway streams.** `Sse` splits event streams and holds the usage scanner, `SseWriting` is the round trip
  from a server that writes them, `SseRelay` the relay with keepalives, `ResponsesStream` the translation of
  chat chunks and its agreement with the buffered one.
* **Backend.** `ModelDeletion` is deletion by several tasks beside inventory scans, `SingleFlight` the keyed
  locks around the recommendation cache, `Ports` the two-stage port choice.

Where the source updates fields, the model has a class with those fields, and each method is proved
against a function of the old state; the results are lemmas about those functions and about runs of steps
built from them. `dafny verify dfyconfig.toml` checks everything.

Where the code does not keep what one might expect of it, the failing input and the exact condition are
stated as results:

* A known secret can be published, but only inside a quoted key of the input that begins with a direct
  marker; some input publishes it if and only if it fits into such a key
  (`RedactionSafety.PublishedOnlyInKeys`, `RedactionLimit.PublishableExactlyWhenItFitsAKey`,
  `RedactionLimit.KnownSecretIsPublished`).
* A message can be accepted twice. It is exactly when the cache was used in between at a clock past the
  message's expiry and the clock then went back (`Replay.AcceptedAgainExactlyWhenForgotten`,
  `Replay.ClockGoingBackAdmitsReplay`).
* How a job ended can be lost. It is when its last write failed, nothing was written after it and the agent
  restarts (`JobLaunch.RestartKeepsDurableEnd`, `JobLaunch.FailedFinalWriteLosesSuccess`).
* A record that was written can be skipped at start-up. It is exactly when it is printed longer than four
  times the window and 4096 characters, which in an ordinary record takes control characters for more than
  a third of the window (`JobStore.SkippedExactlyWhenTooLong`, `JobStore.OrdinaryOutputLoads`,
  `JobStore.EscapesOutgrowSizeCheck`); an interrupted job can get there by being marked as failed
  (`JobStore.RestoredOnlyOnce`).
* A record whose start time is an integer that no float can hold keeps the agent from starting
  (`JobStore.IntegerStartLoads`, `JobStore.EnormousTimeStopsStart`).
* A streamed tool call without arguments ends with "" where the buffered one has "{}"
  (`ResponsesStream.StreamAgreesWithBuffered`, `ResponsesStream.CallWithoutArguments`).
* The final output follows the output indices exactly when reasoning, content and calls were first sent in
  this order (`ResponsesStream.OutputFollowsIndices`, `ResponsesStream.ContentBeforeReasoning`).
* A refusal before authentication never reaches the caller with its own code
  (`AgentExchange.RefusalIsAlwaysProtocolError`).
* A row is removed with its files present when they are put back after the last look
  (`ModelDeletion.RemovedAlthoughBack`).

## Model

| member | source | states |
|---|---|---|
| Utf8.DecodeOfEncode | host_agent/dgx_ops_agent/runner.py:217-238 | strict decoding of encoded text gives the text back (section 3 of RFC 3629) |
| Utf8.EncodeOfDecode | host_agent/dgx_ops_agent/runner.py:217-238 | bytes that decode are the encoding of what they decode to: no overlong form, no surrogate, nothing above U+10FFFF is accepted |
| Utf8.ValidCut | host_agent/dgx_ops_agent/runner.py:609-621 | cutting encoded text where no continuation byte follows leaves two decodable parts whose texts join to the whole |
| OutputWindow.AppendRetains | host_agent/dgx_ops_agent/runner.py:609-621 | one append keeps the window a decodable suffix of the emitted log within the limit, with its absolute offsets, and every code-point boundary it drops would have left more than the limit |
| OutputWindow.WindowIsLongestSuffix | host_agent/dgx_ops_agent/runner.py:609-621 | in every run the job retains the longest suffix of its output that the byte limit and the code-point boundaries allow |
| OutputWindow.SkipContinuation | host_agent/dgx_ops_agent/runner.py:229-232 | the loop over continuation bytes stops at the least code-point boundary at or after its start |
| OutputWindow.JobOutput.Append | host_agent/dgx_ops_agent/runner.py:609-621 | the new window is the specified one for the old window and the appended bytes; the trim point never moves back; the invariant against the ghost log is kept |
| OutputWindow.JobOutput.Get | host_agent/dgx_ops_agent/runner.py:217-238 | a read answers as specified for the current window: offset refused, or the text from the boundary on |
| OutputWindow.AnswerIsLogSuffix | host_agent/dgx_ops_agent/runner.py:217-238 | a read never fails to decode, is refused exactly for an offset outside 0..emitted, and returns exactly the emitted bytes from the first boundary at or after both the offset and the trim point |
| OutputWindow.PollerFollowsLog | backend/app/operations/executor.py:287-346 | over every interleaving of appends, trims and polls no snapshot or offset is rejected, and the pieces the poller took tile the emitted stream up to its position, missing exactly the ranges the window had trimmed by then |
| OutputWindow.LosslessWithinLimit | backend/app/operations/executor.py:287-346 | a job whose whole output fits the limit reaches the poller byte for byte, whenever it polls |
| OutputWindow.StepOutput.AppendOutput | backend/app/operations/executor.py:537-551 | the collected text is the offered text cut at 100,000 characters |
| OutputWindow.StepOutput.AppendMarker | backend/app/operations/executor.py:495-536 | the gap marker goes in, cut to the room that is left |
| OutputWindow.StepOutput.Consume | backend/app/operations/executor.py:495-536 | offsets that went back are refused without any change; a gap finishes the redactor, inserts the marker once and starts over; the collected text never exceeds 100,000 characters |
| StepCollection.TakeSnapshot | backend/app/operations/executor.py:495-536 | one snapshot: offsets that go back are refused, a gap flushes the redactor, puts the marker in and starts a new one, and the text follows the specified one |
| StepCollection.CollectStep | backend/app/operations/executor.py:276-346 | a whole step: refused exactly when an offset goes back, and otherwise the redacted segments with one marker per gap, cut at 100,000 characters |
| StepCollection.CollectedOverRun | backend/app/operations/executor.py:287-346 | over every interleaving of appends, trims and polls no snapshot is refused; the job's output falls into segments with something lost between any two, up to its very end, and what is collected is every segment redacted as a whole with a marker between any two; a job within the window limit has one segment, everything it printed |
| StepCollection.StepKeepsSecrets | backend/app/operations/executor.py:276-346 | a known secret that a job prints inside no key, and that is not part of the marker, is nowhere in the collected text, whatever was lost between polls |
| JobRecord.IdentityRoundTrip | host_agent/dgx_ops_agent/runner.py:934-984 | a written process identity is read back unchanged when it is well formed and rejected when it is not |
| JobRecord.LaunchRoundTrip | host_agent/dgx_ops_agent/runner.py:919-932 | launch phase and recovery token are read back unchanged |
| JobRecord.PersistLoadRoundTrip | host_agent/dgx_ops_agent/runner.py:860-916 | every well-formed record is accepted again, with the same window, offsets, identity, launch phase, error and times |
| JobRecord.LoadedIsWellFormed | host_agent/dgx_ops_agent/runner.py:860-916 | every record that is accepted, a boolean time included, is well formed: window within the limit, offsets consistent, error within 512 bytes, identity valid |
| JobRecord.RunsWellFormed | host_agent/dgx_ops_agent/runner.py:727-741 | every state a job reaches is well formed |
| JobRecord.FirstEndDecides | host_agent/dgx_ops_agent/runner.py:676-691 | in every run the first change that ends a job decides status, exit code, error and end time for good, and a job without one has none of them |
| JobRecord.RunningOnceReady | host_agent/dgx_ops_agent/runner.py:461-475 | until then a job is running if and only if it was made ready, with the identity it was made ready with |
| JobStore.PrintedIsMetadata | host_agent/dgx_ops_agent/runner.py:727-768 | the entries whose length is counted, read back, are the metadata object |
| JobStore.RecordLengthIs | host_agent/dgx_ops_agent/runner.py:753-755 | the printed length of every record: 143 characters of frame and the printed lengths of its values |
| JobStore.OverheadFits | host_agent/dgx_ops_agent/runner.py:844-845 | besides its output an ordinary record (64-bit numbers, plain ids and tokens, any error text) takes at most 4096 characters |
| JobStore.WrittenLoads | host_agent/dgx_ops_agent/runner.py:837-858 | a well-formed record that was written is skipped if and only if it is longer than four times the limit plus 4096, and is otherwise restored unchanged |
| JobStore.SkippedExactlyWhenTooLong | host_agent/dgx_ops_agent/runner.py:844-845 | at every point of every job's life the record that would be written is skipped exactly when its printed output and the rest of it exceed that bound, and is restored unchanged otherwise |
| JobStore.OrdinaryOutputLoads | host_agent/dgx_ops_agent/runner.py:844-845 | in every run with ordinary values the record loads when the printed output takes at most four times the limit, and that it does when at most a third of the limit are control characters |
| JobStore.EscapesOutgrowSizeCheck | host_agent/dgx_ops_agent/runner.py:844-845 | the failing input: a window full of control characters makes a record that is skipped |
| JobStore.RecoveryGrows | host_agent/dgx_ops_agent/runner.py:851-858 | failing an interrupted job lengthens its record by its end time and 21 or 22 characters |
| JobStore.RestoredOnlyOnce | host_agent/dgx_ops_agent/runner.py:837-858 | an interrupted job is restored by one start and skipped by the next if and only if its record is within that distance of the bound |
| JobStore.IntegerStartLoads | host_agent/dgx_ops_agent/runner.py:888-905 | a record whose start time is an integer loads if and only if a float can hold the integer, and otherwise raises |
| JobStore.EnormousTimeStopsStart | host_agent/dgx_ops_agent/runner.py:837-858 | the failing input: 2^1024 as start time |
| JobStore.JobRunner.LoadJobs | host_agent/dgx_ops_agent/runner.py:837-858 | the agent starts if and only if no file named like a record is readable by others, has an integer time too large for a float, or holds an unfinished job whose new end cannot be written; then exactly the acceptable records within the size bound are loaded, every loaded job is terminal (an unfinished one failed as interrupted), exactly the files of unfinished jobs are rewritten, and a file loads to the same job again if and only if it is still within the bound |
| JobStore.Restart | host_agent/dgx_ops_agent/runner.py:152-179 | a new agent on one file: whether it starts, and whether the job is there |
| JobRecord.BoundedError | host_agent/dgx_ops_agent/runner.py:1119-1128 | the error text is a prefix of the given text within 512 UTF-8 bytes, the text itself when it fits, and at least 508 bytes long when it was cut |
| JobRecord.BoundaryWithinFour | host_agent/dgx_ops_agent/runner.py:1119-1128 | among any four consecutive bytes of an encoding one begins a code point (section 3 of RFC 3629) |
| JobLaunch.InvariantStep | host_agent/dgx_ops_agent/runner.py:391-541 | every step of worker, launcher, canceller, writes and crash keeps the launch invariant |
| JobLaunch.ExecOnlyWhenDurablyReady | host_agent/dgx_ops_agent/launcher.py:71-118 | in every interleaving the launcher becomes the command only when the durable record already holds this process with phase "ready", and the record keeps naming it while the command runs |
| JobLaunch.CancelledBeforeGoNeverRuns | host_agent/dgx_ops_agent/runner.py:391-541 | a job whose cancellation came before the GO write never runs its command and ends cancelled or failed |
| JobLaunch.SuccessMeansReleased | host_agent/dgx_ops_agent/runner.py:508-541 | a job recorded as succeeded or timed out, in memory or on disk, was released through the gate |
| JobLaunch.CrashBeforeGoNeverRuns | host_agent/dgx_ops_agent/launcher.py:71-118 | when the agent dies before GO, the command never runs, whatever follows |
| JobLaunch.GateNeverBlocksForever | host_agent/dgx_ops_agent/launcher.py:71-118 | once the agent has let go of the pipes, a waiting launcher can always take its next step |
| JobLaunch.EndStays | host_agent/dgx_ops_agent/runner.py:391-541 | no step changes a terminal durable status, and none but a restart a terminal status in memory |
| JobLaunch.EndIsFinal | host_agent/dgx_ops_agent/runner.py:676-691 | in every run a job that has ended stays as it ended: on disk for ever and so in every agent that comes up, in memory alone until the agent is restarted |
| JobLaunch.RestartKeepsDurableEnd | host_agent/dgx_ops_agent/runner.py:837-858 | an agent comes up again if and only if the end was durable or can be written; then it keeps how the job ended if and only if that was durable or it had failed, and otherwise fails it |
| JobLaunch.FailedFinalWriteLosesSuccess | host_agent/dgx_ops_agent/runner.py:591-621 | when the last write of a succeeded command fails and the agent dies, the job is reported failed, unless the output reader writes once more before |
| JobLaunch.RunsExactlyWhenReleased | host_agent/dgx_ops_agent/runner.py:391-506 | from every reachable state before the gate with a live launcher, or none yet, the remaining steps of worker and launcher end with the command running if and only if no cancellation was requested and no write, spawn, request, capture, gate or exec step fails; otherwise the job is on its way to cancelled, if that was requested and nothing failed, or ends failed |
| JobLaunch.ExecutesExactlyWhenReleased | host_agent/dgx_ops_agent/launcher.py:71-118 | in every interleaving the command runs at some point if and only if GO was written, nobody having cancelled before, and the launcher then passed the gate without an exec failure |
| JobLaunch.EndsAsObserved | host_agent/dgx_ops_agent/runner.py:508-541 | a watched job ends with the outcome the worker observed, in memory and in whatever the write leaves |
| JobLaunch.StoppedEndsAsDecided | host_agent/dgx_ops_agent/runner.py:477-506 | a job stopped before the gate ends cancelled or failed as decided there, once its process is gone |
| Recovery.InvariantHolds | host_agent/dgx_ops_agent/runner.py:1005-1117 | every run of recovery, exits, spawns and changes keeps the bond between descriptor, instance and what was seen of it |
| Recovery.OnlyMatchingInstancesSignalled | host_agent/dgx_ops_agent/runner.py:1095-1117 | with pids reused between any two steps, every process instance that is signalled was itself seen in the stored session and group (with the stored start time, for the leader) and itself seen carrying the token |
| Recovery.SeenMeansMatched | host_agent/dgx_ops_agent/runner.py:1074-1093 | an instance counts as seen only if it matched at that moment, and is signalled only by a send |
| Recovery.SignalledExactlyWhenMatched | host_agent/dgx_ops_agent/runner.py:1095-1117 | in every run an instance is signalled if and only if its pid was opened while it had it, it was what the pid named and matched at both reads that followed, and it is alive when the signal is sent |
| Recovery.OrphanIsSignalled | host_agent/dgx_ops_agent/runner.py:1005-1117 | from every reachable state between two checks, the four steps signal a live process that matches, and no other |
| Recovery.OnlyCurrentIdentitiesSignal | host_agent/dgx_ops_agent/runner.py:1040-1055 | nothing is signalled for an identity that is not that of a session leader of the running boot |
| Redaction.RunSplit | host_agent/dgx_ops_agent/redaction.py:165-361 | running over a + b is running over a and going on with b |
| Redaction.ChunkIndependent | host_agent/dgx_ops_agent/redaction.py:165-361 | once a marker is entered, feeding the text in any chunks gives the output, next mode and leftover input of one feed |
| Redaction.TokenBecomesRedacted | host_agent/dgx_ops_agent/redaction.py:214-244 | a direct token of any length becomes [REDACTED] plus its delimiter |
| Redaction.TokenAsKey | host_agent/dgx_ops_agent/redaction.py:269-304 | a quoted token used as a JSON key is shown only if preservable and within 256 characters, and the value after its colon is still redacted |
| Redaction.QuotedValueVanishes | host_agent/dgx_ops_agent/redaction.py:165-213 | a quoted value with escapes vanishes up to its closing quote, which is kept |
| Redaction.UnquotedValueBecomesRedacted | host_agent/dgx_ops_agent/redaction.py:305-334 | an unquoted value becomes [REDACTED] plus its terminator |
| Redaction.ScanHidesCredential | host_agent/dgx_ops_agent/redaction.py:108-137 | whatever match the search returns (authorization, assignment with or without a captured quote, assignment key, token or known secret), and whatever credential with its terminator or closing quote stands behind it, one scan publishes the text before it, the marker unless it is part of a token, [REDACTED] and the terminator, and goes on behind it |
| Redaction.FeedsHideCredential | host_agent/dgx_ops_agent/redaction.py:68-137 | the same when the credential arrives in any number of chunks after its marker |
| Redaction.ScanHidesOpenCredential | host_agent/dgx_ops_agent/redaction.py:78-86 | a credential that the input ends in is published as [REDACTED], without the delimiter that is missing |
| Redaction.NothingFoundNothingChanged | host_agent/dgx_ops_agent/redaction.py:68-137 | text in which the search finds nothing is published unchanged, for every chunking |
| RedactionSafety.DirectTokensMatch | host_agent/dgx_ops_agent/redaction.py:34-37 | the search for a direct token finds a marker with a letter or digit behind it |
| RedactionSafety.NextMarkerMissesNothing | host_agent/dgx_ops_agent/redaction.py:139-163 | no secret starts before the end of the marker that is chosen, and none is present when no marker is found |
| RedactionSafety.NextMarkerIsFirst | host_agent/dgx_ops_agent/redaction.py:139-163 | a known secret that begins inside a pattern's match is taken; otherwise the match that begins first, and of several that begin there a secret before a token, a token before a quoted key, and that before the others |
| RedactionSafety.CarryHoldsBack | host_agent/dgx_ops_agent/redaction.py:108-118 | with a carry at least as long as the longest secret, nothing released from a scanned buffer begins an occurrence that finishes later |
| RedactionSafety.ScanHides | host_agent/dgx_ops_agent/redaction.py:87-137 | with all four patterns at work, one scan keeps every secret that no key of the input holds out of what is published, in every mode |
| RedactionSafety.PublishedOnlyInKeys | host_agent/dgx_ops_agent/redaction.py:87-163 | for every input and every chunking, whatever the patterns match, a known secret of token characters that is not part of "REDACTED" is published only if the input has it inside a key: a quoted token of at most 256 characters that begins with a direct marker and is followed, after at most 128 spaces, by a colon |
| RedactionSafety.LongSecretsAlwaysHidden | host_agent/dgx_ops_agent/redaction.py:214-303 | a known secret of more than 256 characters is never published, whatever the input |
| RedactionLimit.KeyIsPublished | host_agent/dgx_ops_agent/redaction.py:269-303 | such a key is published as it stands when its first characters hold no secret |
| RedactionLimit.PublishableExactlyWhenItFitsAKey | host_agent/dgx_ops_agent/redaction.py:139-163 | with the source's direct pattern, some input and chunking publishes a secret if and only if some key can contain it |
| RedactionLimit.FitsKeyByLength | host_agent/dgx_ops_agent/redaction.py:214-303 | every secret of at most 252 characters fits into a key and none of more than 256 does |
| RedactionLimit.KnownSecretIsPublished | host_agent/dgx_ops_agent/redaction.py:34-37 | a concrete run: the known secret hf_abcd arrives in two chunks as a JSON key and is published whole |
| StreamingRedaction.Redact | host_agent/dgx_ops_agent/redaction.py:68-86 | one redactor over a stream, a feed per chunk and the flush, publishes what the specification says |
| StreamingRedaction.RedactSecrets | host_agent/dgx_ops_agent/redaction.py:44-86 | built for some known secrets, it keeps each of them that no key of the input holds out of its output |
| StreamingRedaction.RunKeyOverflow | host_agent/dgx_ops_agent/redaction.py:269-304 | whitespace beyond the 128-character limit gives the held key up, exactly at the limit |
| StreamingRedaction.ScanFollowsConsume | host_agent/dgx_ops_agent/redaction.py:87-137 | one block consumed by a mode handler and the scan of the rest make up the scan of the whole |
| StreamingRedaction.StreamingRedactor.Feed | host_agent/dgx_ops_agent/redaction.py:68-77 | output, mode and held-back buffer are those of the one-character transducer on the old buffer plus the chunk |
| StreamingRedaction.StreamingRedactor.Finish | host_agent/dgx_ops_agent/redaction.py:78-86 | the final flush is that of the transducer, and later calls publish nothing |
| StreamingRedaction.StreamingRedactor.Scan | host_agent/dgx_ops_agent/redaction.py:87-137 | the scanning loop ends (buffer length, then mode rank) and equals the transducer |
| StreamingRedaction.StreamingRedactor.EnterMarker | host_agent/dgx_ops_agent/redaction.py:94-137 | entering a marker, or releasing all but the carry, as the specification does |
| StreamingRedaction.StreamingRedactor.ConsumeSecret | host_agent/dgx_ops_agent/redaction.py:165-213 | each non-normal mode consumes its block as the transducer does |
| StreamingRedaction.StreamingRedactor.ConsumeDirect | host_agent/dgx_ops_agent/redaction.py:214-244 | the direct-token handler equals the transducer over the block it cuts out |
| StreamingRedaction.StreamingRedactor.ConsumeKeyColon | host_agent/dgx_ops_agent/redaction.py:245-268 | the handler between key and colon equals the transducer |
| StreamingRedaction.StreamingRedactor.ConsumeDirectKey | host_agent/dgx_ops_agent/redaction.py:269-304 | the possible-key handler equals the transducer, cut-offs included |
| StreamingRedaction.StreamingRedactor.ConsumeAssignmentValue | host_agent/dgx_ops_agent/redaction.py:305-334 | the value handler equals the transducer |
| StreamingRedaction.StreamingRedactor.ConsumeQuoted | host_agent/dgx_ops_agent/redaction.py:171-192 | the quoted-value handler equals the transducer, the carried escape flag included |
| StreamingRedaction.StreamingRedactor.ConsumeUnquoted | host_agent/dgx_ops_agent/redaction.py:193-213 | the unquoted-value handler equals the transducer |
| Replay.NonceCache.Consume | host_agent/dgx_ops_agent/protocol.py:230-250 | expired entries go, then the nonce is refused as replayed, refused for lack of room, or remembered until its timestamp leaves the window |
| Replay.NonceCache.Verify | host_agent/dgx_ops_agent/protocol.py:253-291 | outcome and new cache are the specified ones for timestamp, window and cache |
| Replay.AnswersByHistory | host_agent/dgx_ops_agent/protocol.py:230-291 | in every run, with any clock, an attempt inside its window is refused as a replay exactly when an earlier accepted message with its nonce is still remembered and unexpired, for lack of room exactly when the nonces of such messages fill the cache, and accepted otherwise; outside its window it is expired or too early, by the side it is on |
| Replay.RefusedUnlessForgotten | host_agent/dgx_ops_agent/protocol.py:230-291 | whatever the clock does, a message accepted once is refused unless an attempt in between reached the cache at a clock past its expiry |
| Replay.AcceptedAgainExactlyWhenForgotten | host_agent/dgx_ops_agent/protocol.py:230-291 | a message accepted once, with its nonce not since, that is timely and has room is accepted again if and only if such an attempt lies in between |
| Replay.NoReplay | host_agent/dgx_ops_agent/protocol.py:253-291 | while the clock does not go back and the window is fixed, no message is accepted twice although entries are evicted |
| Replay.ClockGoingBackAdmitsReplay | host_agent/dgx_ops_agent/protocol.py:230-291 | a concrete run in which the clock goes back and one message is accepted twice |
| Replay.NewRefusedOnlyWhenFull | host_agent/dgx_ops_agent/protocol.py:230-291 | in every run a timely message whose nonce was never accepted is refused only when the nonces of accepted messages still in their window fill the cache, and exactly then if the clock does not go back |
| Replay.NeverOverCapacity | host_agent/dgx_ops_agent/protocol.py:216-250 | the cache never exceeds its capacity, in any run, with any clock |
| JsonTree.ValidateTree | host_agent/dgx_ops_agent/protocol.py:75-107 | the explicit-stack check on a heap graph accepts exactly when the value unfolds to a finite tree of depth at most 256 with text keys and valid leaves |
| JsonTree.PushContainer | host_agent/dgx_ops_agent/protocol.py:86-107 | entering a container puts its leave marker and children on the stack and keeps the active set the containers whose leave marker is there |
| JsonTree.CycleNeverUnfolds | host_agent/dgx_ops_agent/protocol.py:75-107 | a container inside itself unfolds to no finite tree |
| JsonTree.MetAgainNeverUnfolds | host_agent/dgx_ops_agent/protocol.py:92-96 | meeting a container that is still active means that the root does not unfold |
| Framing.ReadExact | host_agent/dgx_ops_agent/protocol.py:331-345 | over short reads, exactly the requested bytes are taken and nothing beyond them, or the end or a failure is reported |
| Framing.ReadFrame | host_agent/dgx_ops_agent/protocol.py:367-391 | every frame that was written is read back, whatever the short reads, and a payload is returned only for exactly its frame; the rest of the stream is untouched |
| Framing.WriteFrame | host_agent/dgx_ops_agent/protocol.py:392-417 | the whole frame goes out in order over short writes, an oversized one not at all |
| Framing.LengthOfHeader | host_agent/dgx_ops_agent/protocol.py:312-316 | the four-byte header of a length reads back as that length |
| Framing.HeaderOfLength | host_agent/dgx_ops_agent/protocol.py:367-380 | four bytes are the header of the length they denote |
| AgentExchange.ValidateOutputLimit | backend/app/services/ops_agent.py:341-363 | the stack walk accepts exactly the results whose "output" values are all strings with at most the limit in UTF-8 bytes together, anywhere in the tree |
| AgentExchange.ClientGetsServersAnswer | backend/app/services/ops_agent.py:283-339 | for every authenticated request and every dispatch outcome the client returns the server's result or raises the server's own code, and a protocol error exactly when the server's timestamp, taken as the request came in, is more than 30 seconds from the client's clock, or the output is over the limit |
| AgentExchange.RefusalIsAlwaysProtocolError | host_agent/dgx_ops_agent/server.py:90-151 | a refusal before authentication carries no request id, so the client always reports a protocol error although it knows the code |
| AgentExchange.AcceptedIsAuthentic | backend/app/services/ops_agent.py:283-339 | what the client does not reject is signed with its secret over every field, answers its request, is recent and within its output limit; a result is returned exactly for such an answer that says so |
| AgentExchange.CodesOnTheWire | host_agent/dgx_ops_agent/server.py:104-151 | the code that the caller sees for each way a dispatch can fail |
| AgentExchange.RefusalsOnTheWire | host_agent/dgx_ops_agent/server.py:269-277 | the code for each refusal: a message is told "expired_request" exactly outside its window, and inside it "replay_detected" exactly when an accepted message still remembered had its nonce |
| JsonText.EscapingAtMostSixfold | host_agent/dgx_ops_agent/protocol.py:294-315 | ASCII-only JSON escaping takes at most six characters per UTF-8 byte (section 7 of RFC 8259) |
| AgentExchange.JobResultLength | host_agent/dgx_ops_agent/runner.py:217-238 | a job snapshot with a window of 64 KiB and offsets below 2^63 prints within 430,000 characters |
| AgentExchange.JobReplyFitsFrame | host_agent/dgx_ops_agent/protocol.py:294-315 | the signed job reply from the default window always fits the 1 MiB frame |
| Sse.EarliestStaysEarliest | backend/app/gateway/responses_stream.py:437-445 | the earliest delimiter found in a prefix stays the earliest in every extension |
| Sse.SplitAppend | backend/app/gateway/responses_stream.py:429-456 | splitting new bytes behind the unterminated tail gives the frames and tail of the whole |
| Sse.SplitConserves | backend/app/gateway/responses_stream.py:429-456 | frames and tail together are the input, and no delimiter is left in the tail |
| Sse.SplitOfJoin | backend/app/gateway/proxy.py:243-262 | whole frames on the wire split into the same frames |
| Sse.ChunkingDoesNotMatter | backend/app/gateway/responses_stream.py:429-456 | however the bytes are cut into chunks, the frames are those of the whole |
| Sse.FirstDelimiter | backend/app/gateway/responses_stream.py:437-443 | the smaller of the two searches is the earliest delimiter |
| Sse.ParseFrame | backend/app/gateway/responses_stream.py:446-455 | the loop over the lines of a frame yields its events in order |
| Sse.ParseChatSseFrames | backend/app/gateway/responses_stream.py:429-456 | the events of all complete frames, and the tail |
| Sse.FlushIsLastEvent | backend/app/api/gateway.py:1103-1108 | the final flush finds what one more delimiter would have ended, and skipping it for a blank tail loses no event |
| Sse.TranslatedEvents | backend/app/api/gateway.py:1092-1110 | the events fed to the translator are those of the whole byte stream with a delimiter appended, for every chunking |
| SseWriting.RoundTrip | backend/app/gateway/responses_stream.py:429-456 | whatever events a server writes (data lines with padding, comments and other fields, LF or CR LF), they are read back as the objects of their payloads in order; [DONE] adds nothing, and what is not delimited yet is left over |
| SseWriting.ReadBack | backend/app/gateway/responses_stream.py:429-456 | the same for the parsing loop |
| SseWriting.Translated | backend/app/api/gateway.py:1092-1110 | the translator is fed these objects for every chunking, even when the last delimiter never comes |
| SseWriting.RecordedUsage | backend/app/gateway/proxy.py:92-132 | the usage recorded for a stream is that of the last written object that has one, while nothing is trimmed |
| Sse.UsageScanner.Feed | backend/app/gateway/proxy.py:106-132 | one chunk: the usage becomes the last one among the completed events, the buffer the last 64 KiB of the tail |
| Sse.ScanStream | backend/app/gateway/proxy.py:92-132 | the usage after a stream is the last one among the frames the scanner saw |
| Sse.ScannerStaysInStep | backend/app/gateway/proxy.py:106-132 | for every chunking and every event length the scanner's buffer is the end of the true tail and it sees every event, whole unless longer than the limit; it sees exactly the true frames if and only if no chunk completes an event of which more than 64 KiB had arrived |
| Sse.ScannedUsageIsLastUsage | backend/app/gateway/proxy.py:92-132 | the usage is the last one among the stream's events whenever nothing was trimmed |
| Sse.ShortEventsAreNeverTrimmed | backend/app/gateway/proxy.py:92-132 | a stream of events within the limit is never trimmed, whatever its chunks |
| SseRelay.StreamBody | backend/app/gateway/proxy.py:209-262 | for every interleaving of chunks and timer firings, what is sent and the usage recorded are the specified ones |
| SseRelay.RelayChunk | backend/app/gateway/proxy.py:237-262 | one chunk sends the frames it completes and keeps the rest |
| SseRelay.SentEventsAreUpstreams | backend/app/gateway/proxy.py:209-262 | without keepalives the output is the upstream up to its last delimiter, frame by frame |
| SseRelay.ClientSeesTheSameFrames | backend/app/gateway/proxy.py:209-262 | splitting the output with the keepalives left in gives exactly the frames and comments that were sent |
| SseRelay.ClientGetsUpstreamEvents | backend/app/gateway/proxy.py:209-262 | a client that parses the output gets the events of the upstream's complete frames |
| SseRelay.BoundaryHoldsNothingBack | backend/app/gateway/proxy.py:230-236 | when the bytes so far end with a delimiter, at most a line break is held back |
| SseRelay.KeepAliveOnlyBetweenEvents | backend/app/gateway/proxy.py:222-226 | a keepalive goes out only while no part of an event is held back |
| SseRelay.KeepAliveWhenNothingIsHeldBack | backend/app/gateway/proxy.py:222-236 | the timer always sends one before the first chunk and whenever whole events have arrived and nothing else |
| ResponsesStream.ResponsesStreamTranslator.Feed | backend/app/gateway/responses_stream.py:199-294 | state and frames after one chunk are the specified ones |
| ResponsesStream.ResponsesStreamTranslator.FeedPiece | backend/app/gateway/responses_stream.py:253-289 | one tool call entry: key, first id and name, late name, appended arguments |
| ResponsesStream.ResponsesStreamTranslator.Finish | backend/app/gateway/responses_stream.py:296-422 | every open item is closed in order and the response completed with their list; a second call emits nothing |
| ResponsesStream.TranslateStream | backend/app/gateway/responses_stream.py:88-91 | the frames of a whole run carry the sequence numbers 0, 1, ... in order |
| ResponsesStream.EveryRunIsWellFormed | backend/app/gateway/responses_stream.py:105-422 | every start, feed*, finish run is accepted to its end by a client that checks the protocol: indices 0..k-1 each added once, deltas only for open items, each item closed exactly once with the concatenation of its deltas, the final output the closed items |
| ResponsesStream.OutputFollowsIndices | backend/app/gateway/responses_stream.py:166-191 | the final output lists the items by their output index if and only if, among the chunks, the first reasoning came before the first content and both before the first call piece |
| ResponsesStream.ContentBeforeReasoning | backend/app/gateway/responses_stream.py:199-252 | the failing input: content and then reasoning end as [reasoning, message] with the indices 1 and 0 |
| ResponsesStream.FinishIsAccepted | backend/app/gateway/responses_stream.py:296-422 | from any state the client is in step with, finishing closes everything it has seen |
| ResponsesStream.IterToolCalls | backend/app/gateway/responses.py:632-656 | the loop yields the named calls in order, with generated ids and "{}" for missing arguments |
| ResponsesStream.StreamAgreesWithBuffered | backend/app/gateway/responses.py:535-580 | for every way to cut a chat message into chunks the stream ends with the buffered translation's status, and with its items if and only if every tool call carried arguments |
| ResponsesStream.IncompleteExactlyOnLength | backend/app/gateway/responses_stream.py:413-422 | the last event of every run completes the response, as incomplete if and only if the last finish reason among the chunks is "length" |
| ResponsesStream.BufferedIncompleteExactlyOnLength | backend/app/gateway/responses.py:535-580 | the buffered response is incomplete if and only if its finish reason is "length" |
| ResponsesStream.CallsAddUp | backend/app/gateway/responses_stream.py:253-289 | over any pieces that name their call, in any order, a call has the id of its first piece or a generated one, the first name that is not empty, and all its arguments joined |
| ResponsesStream.NamedCallsAreKept | backend/app/gateway/responses.py:632-656 | the buffered translation keeps exactly the named calls, in order, with their own ids or ones generated from their positions |
| ResponsesStream.ClientNameDropsNamespace | backend/app/gateway/responses.py:197-199 | a tool's client name is what follows the first "__", or the whole name |
| ResponsesStream.CallWithoutArguments | backend/app/gateway/responses.py:632-656 | the failing input: one call without arguments ends with "" streamed and "{}" buffered |
| ModelDeletion.ModelStore.ClaimDeletion | backend/app/services/model_lifecycle.py:586-626 | the claiming transaction: not found, owned by another task, in use (giving a re-entry back), or claimed with owner and normalised status |
| ModelDeletion.ModelStore.RestoreDeleteState | backend/app/services/model_lifecycle.py:512-528 | the owner gives the row back with its original status; anyone else changes nothing |
| ModelDeletion.ModelStore.MarkDeleteFailed | backend/app/services/model_lifecycle.py:503-510 | the status becomes "delete_failed" and the deletion entries stay |
| ModelDeletion.ModelStore.Scan | backend/app/services/discovery.py:457-519 | a scan changes no row that is in deletion, and others as the files say |
| ModelDeletion.StepKeeps | backend/app/services/model_lifecycle.py:577-766 | every handler step, scan, crash and change of the files keeps the ownership invariant |
| ModelDeletion.RemovedOnlyWhenAbsent | backend/app/services/model_lifecycle.py:649-658 | in every run the row disappears only when its owner removes it after having seen the files gone, and the files are there then if and only if they were put back since |
| ModelDeletion.RemovedAlthoughBack | backend/app/services/model_lifecycle.py:649-658 | from every state in which a handler has seen the files gone, putting them back makes it remove the row with the files present |
| ModelDeletion.NeverRemovedWithFiles | backend/app/services/model_lifecycle.py:649-766 | if nobody puts files back, the row is never removed while they are there |
| ModelDeletion.OnlyTheOwnerProceeds | backend/app/services/model_lifecycle.py:594-597 | while the status is "deleting" no other task, scan or crash changes the row |
| ModelDeletion.OwnerReenters | backend/app/services/model_lifecycle.py:590-597 | after a crash the owning task can always take its deletion up again |
| ModelDeletion.OriginalStatusIsKept | backend/app/services/model_lifecycle.py:614-623 | through all retries, crashes, re-entries and scans the row remembers the normalised status from before the first attempt |
| ModelDeletion.GivenUpRestoresOriginal | backend/app/services/model_lifecycle.py:512-528 | a deletion given up after however many attempts restores exactly that status |
| ModelDeletion.AttemptEnds | backend/app/services/model_lifecycle.py:577-766 | an attempt on a model that is there gives back the status from before when it is cancelled before anything is removed, removes the row when all files go, and leaves it failed, with owner and status, when some stay |
| ModelDeletion.AbsentModelEnds | backend/app/services/model_lifecycle.py:628-658 | for a model whose files are gone the row is removed at once exactly when a deletion was under way or it was unavailable before |
| ModelDeletion.InUseIsNeverClaimed | backend/app/services/model_lifecycle.py:598-612 | a model in use starts no deletion, and a re-entry gives the row back |
| ModelDeletion.ScanTellsTheFiles | backend/app/services/discovery.py:457-519 | a row outside deletion is available after a scan of a readable root exactly when its files are complete, one in deletion stays as it is, and a second scan changes nothing |
| SingleFlight.AiCache.Evict | backend/app/services/deployment_recommendations.py:930-932 | the eviction loop leaves exactly the unexpired entries |
| SingleFlight.AiCache.Get | backend/app/services/deployment_recommendations.py:925-937 | what is returned is the unexpired entry, after eviction |
| SingleFlight.AiCache.Set | backend/app/services/deployment_recommendations.py:939-952 | the new entry expires one lifetime after the time read under the lock |
| SingleFlight.KeyLocks.Enter | backend/app/services/deployment_recommendations.py:910-915 | the shared entry of the key, made when there is none, with one more user |
| SingleFlight.KeyLocks.Leave | backend/app/services/deployment_recommendations.py:920-923 | one user less, and the entry leaves the table with the last one |
| SingleFlight.StepKeeps | backend/app/services/deployment_recommendations.py:1346-1364 | every step of every thread keeps sharing, counting, cache and spacing invariants |
| SingleFlight.MutualExclusion | backend/app/services/deployment_recommendations.py:908-923 | in every run at most one thread is inside the region of a key |
| SingleFlight.TableIsWhatIsUsed | backend/app/services/deployment_recommendations.py:908-923 | in every run the table has an entry for a key exactly while it has users, with their number as its count |
| SingleFlight.OneFetchPerLifetime | backend/app/services/deployment_recommendations.py:1346-1364 | with a clock that does not go back, a valid fetch without refresh comes at least one lifetime after every earlier valid fetch for its key |
| SingleFlight.HitIsLatest | backend/app/services/deployment_recommendations.py:925-937 | a request answered from the cache gets the values of the latest fetch for its key, within their lifetime |
| SingleFlight.CachedExactlyWithinLifetime | backend/app/services/deployment_recommendations.py:1346-1364 | in every run a request inside its region is answered from the cache if and only if it asks for no refresh and the latest fetch for its key is within its lifetime; otherwise it fetches |
| SingleFlight.EveryStageMovesOn | backend/app/services/deployment_recommendations.py:908-923 | a request gets its lock when that is free, stores and returns what it fetched, gives the lock back and leaves |
| Ports.SearchPort | backend/app/services/deployments.py:412-416 | the search ends, at the least free port from 8000 |
| Ports.LowestFreeIsLowest | backend/app/services/deployments.py:403-416 | that port is free and every port from 8000 below it is reserved |
| Ports.PrepareSpecPort | backend/app/services/deployments.py:418-442 | the choice by database rows, and the rejection of a requested port that a row has |
| Ports.PreflightPort | backend/app/services/deployments.py:1056-1067 | the second choice when rows or containers reserve the first, or the rejection of a requested port |
| Ports.TwoStagesFindTheLowest | backend/app/services/deployments.py:403-442 | with equal readings the two stages find the least port outside both sets, and reject a requested port exactly when it is in one |
| Ports.LowestOfOneReading | backend/app/services/deployments.py:1056-1067 | with readings that differ the port is still the least outside one of the two unions |
| Ports.DeletingReleasesPort | backend/app/services/deployments.py:403-411 | a deleted deployment's port is the next automatic one if it is the lowest |
| Ports.PortsStayDistinct | backend/app/services/deployments.py:1296-1408 | every run of creates and deletes keeps the ports of the rows distinct, whatever the containers reserve |

## Left out

- StreamingRedaction.StreamingRedactor.Feed: (and Finish) works on decoded text; the incremental UTF-8 decoder in front of it, which replaces malformed bytes, is not modelled, so a code point cut by a chunk is taken to be put together before. The executor feeds whole texts, for which this makes no difference.
- RedactionSafety.PublishedOnlyInKeys: is about secrets made of token characters; one with other characters, or that is part of the replacement text, is not covered.
- Redaction.ChunkIndependent: covers the text after a marker was entered; in normal mode the look-behinds and the captured quote depend on what is still in the buffer, and no such claim is made there.
- The credential patterns: the direct one is modelled in full; the others are any functions that return non-empty matches inside the buffer, and `RedactionLimit` takes them to find nothing in a quoted marker and one letter or digit.
- JobStore.JobRunner.LoadJobs: which files can be read and written is a parameter, and signalling the processes of an unfinished job is the `Recovery` module.
- JobStore.OrdinaryOutputLoads: takes a float to be printed in at most 24 characters; how it is printed is any function.
- JobRecord.LoadedIsWellFormed: an integer time is kept as it is, not rounded to a float, and JSON's NaN and infinities are not modelled.
- JobRecord.PersistLoadRoundTrip: works on JSON values; printing and parsing JSON, and the exact decimal form of a float, are not modelled.
- JobLaunch and Recovery: a restart finds the record (`JobStore` says when it is skipped instead); agent, launcher, kernel and disk are one value with one step per system call; file permissions, directory syncing, polling of the process group and the Windows branches are not part of this model.
- JobLaunch.GateNeverBlocksForever: a step is possible, not that the scheduler takes it.
- Replay.NonceCache.Verify: the signature and the request schema are checked before and are not part of the cache's outcome; HMAC (RFC 2104) appears only as an arbitrary keyed function in `AgentExchange`.
- Framing.ReadFrame: stops at the payload; rejecting duplicate keys and non-finite numbers belongs to the JSON parser.
- Framing.WriteFrame: the same loop with a deadline in the manager's client (`backend/app/services/ops_agent.py:251-265`) is not modelled separately.
- AgentExchange.ClientGetsServersAnswer: takes the dispatch outcome as given; policy checks, the wait for a read job and the connection are not part of this model.
- AgentExchange.JobReplyFitsFrame: a float is a text of at most 24 characters and the request id one of at most 128.
- Sse.ParseChatSseFrames: JSON parsing is a function parameter that answers None for what is not an object.
- SseRelay.StreamBody: one list of wake-ups stands for the event loop; cancelling the pending read and closing the upstream are not modelled, and an unterminated last event is dropped, as in the source.
- ResponsesStream.StreamAgreesWithBuffered: a delta's reasoning is the text already taken from one key; item ids, usage figures and the envelope are left out.
- ResponsesStream.ResponsesStreamTranslator.FeedPiece: a call id given only after the first piece is never used, because a generated one is already there, so the branch for it has no counterpart.
- ModelDeletion: the handlers of `delete_handler` are phases of a value, one step per transaction or observation; how files are removed, sizes, warnings and the orphaned-cache inspection are not modelled, and each transaction is atomic.
- SingleFlight: a thread is a value stepped through the region; what a fetch returns and how it fails are parameters, and deep copies are values.
- Ports.PortsStayDistinct: rows added by container discovery and the update handler, which keep their own rules, are outside the runs.
- The Markdown fence splitter (`backend/app/services/model_evidence.py`): disjoint spans and unchanged text outside them would only add easy members.
- Policy checks, upstream selection, runtime command builders, routes, settings, migrations and the front end: flat validation or plumbing.
