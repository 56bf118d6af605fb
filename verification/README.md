# Verified models of the streaming inference stack

A Dafny 4.11 project with models of eight parts of the repository and proofs about them.
`dafny verify dfyconfig.toml` checks all of it.

How the models are built. Pure logic is written as functions. Code that changes state is written
as classes and loops; each method is proved to compute a specification function, and the
properties are proved of that function, over all inputs or all runs. What a browser, a driver,
a clock or a scheduler decides is an input or a nondeterministic result.

* **Duplex client** (`Duplex*.dfy`, `sample/app.js`). The turn-taking voice client is a state
  machine with one transition per browser event (`DuplexModel`); events arrive in any order.
  `DuplexClient` holds the handlers as methods of a class that change its fields, and proves that
  handling a list of events reaches the state the machine reaches. Over every run: the two
  counters of the voice detector decide what the loud/quiet history says (`DuplexVad`); nothing
  from an abandoned turn is shown or scheduled, and the control messages form
  (end_of_utterance barge_in?)* (`DuplexTurns`); frame numbers only grow and an
  end_of_utterance names the last live frame (`DuplexFrames`); exactly which captured frames reach
  the server, live or from the pre-roll buffer, is told from the events alone (`DuplexPreRoll`);
  every chunk of an AI turn is played for its full length, what is heard never overlaps, is in
  order, is gapless while chunks arrive in time, and is stopped exactly when the AI is silenced
  (`DuplexPlayback`); every text of an AI turn is shown, and two texts share a bubble iff nothing
  separates them (`DuplexChat`); exactly which events take the turn from the AI and when an answer
  is awaited (`DuplexHandover`).
* **Build-time report** (`Build*.dfy`, `vllm/tools/report_build_time_ninja.py`). The sweep over
  start and stop events keeps a single running total. It is proved to give every step its exact
  share of the wall clock, to conserve time, and to crash exactly on an empty log or a step that
  ends before it starts. Reading the log is proved to keep exactly the last build.
* **Graph partitions** (`Partition*.dfy`, `vllm/vllm/env_override.py`). The backward pass over
  partitions is sound (every partition finds its inputs), exact (nothing is returned that nobody
  asks for), leak-free, and keeps the values of the graph's outputs for any kernels. What a
  partition needs is stated on the scheduler's tables, mutations of other buffers included.
* **Sleep-mode allocator** (`Alloc*.dfy`, ROCm path of `vllm/csrc/cumem_allocator.cpp`). Chunks
  tile the reservation, all but the last of the configured size rounded up; every handle is as
  large as its chunk and access to it is granted; a failed create or map call rolls back; over any session of malloc, sleep,
  wake and free every reservation, handle, mapping and handle cell has one owner, no address is
  mapped twice, and when all is freed nothing is held. For every call the books balance
  afterwards iff a stated condition holds.
* **Logprobs and output merging** (`LogprobDict.dfy`, `FlatLogprobs.dfy`, `LogprobContainer.dfy`,
  `Output*.dfy`). Six flat lists behave like a list of dictionaries; merging request outputs is
  associative, folding increments and folding the matching cumulative outputs agree, and a
  collector that merges in place what a slow consumer has not taken loses nothing and never
  changes what it has handed out.
* **Bad words** (`BadWords.dfy`). The filter blocks exactly the tokens that would complete a bad
  word, so the sequences that can be generated are exactly the clean ones.
* **Scalar types** (`Bits.dfy`, `ScalarTypes.dfy`, `ScalarMax.dfy`). The packed id is read back by
  the C++ decoder, two types share an id iff their members agree modulo the field widths, and the
  maximum that is assembled as the bits of a double is the largest finite value of the format.
  Double layout is that of section 3.4 of IEEE 754-2019.
* **Lockstep chunks** (`LockstepSizes.dfy`, `ChunkedForward.dfy`). Data-parallel ranks cut their
  tokens into chunks and run the same number of rounds; every rank stages what was announced for
  it, and chunked execution computes what unchunked execution computes.

Where the code does less than its name suggests, the model follows the code and says exactly when:

* The guard that rejects audio while the user speaks loudly (`sample/app.js:360`) never fires:
  whenever the user is speaking, the AI does not have the turn (`DuplexTurns.LoudUserGuardIsDead`).
* Frame headers are 32 bits: 2^32 is exactly the number of captured frames up to which the
  headers of every run increase (`DuplexFrames.HeadersInOrderIff`).
* The end of a response never gives the turn back. After an answer without audio, or one whose
  audio is over before the end of the response, the AI keeps the turn, and the user's next words
  are sent as a barge_in (`DuplexHandover.WaitsForInterruption`).
* The weighted total of a build equals its length iff there is no idle gap; the warning at
  `vllm/tools/report_build_time_ninja.py:259` compares the two regardless.
* The report divides by the length of the build, which is 0 iff all steps start and stop at one
  moment (`BuildReport.LengthIsZeroIff`).
* A malloc whose mapping fails restores the device but leaves the entry registered with Python and
  the error pending, so the next malloc does not start; failed host memory leaves the address
  reservation behind; a denied access is not undone; create_and_map entered with a pending error
  may leave one handle behind (`Allocator.Allocator.Malloc`, `AllocMapping.CreateAndMap`).
* Freeing a sleeping allocation, or putting it to sleep again, is an error, and takes away the
  handle of another allocation if the driver has issued one of its old handle values again, which
  happens (`Allocator.Allocator.Free`, `AllocRuns.SleeperCanHoldForeignHandle`).
* A slice of flat logprobs raises an error iff the same slice of a list would be empty
  (`FlatLogprobs.SliceIsSlice`). A missing dictionary (`None`) is read back as an empty one.
* An empty bad word makes every call fail (`BadWords.NoBadWordsLogitsProcessor.Call`).
* The computed maximum of a float type is the largest finite value iff the type does not have a
  single exponent bit together with IEEE NaNs (`ScalarMax.MaxIsLargestIff`,
  `ScalarMax.OneExponentBitOvershoots`, `ScalarMax.ThreeHalvesOvershot`); with no mantissa bits and the extended-range NaN
  convention it is an error.
* A type whose members exceed their fields shares its id with another type
  (`ScalarTypes.SameIdIffCongruent`, `ScalarTypes.OutOfRangeCollides`).
* A rank without rows fails in the first round of a chunked forward pass if any rank has tokens
  (`ChunkedForward.ForwardImplChunked`).

## Model

| member | source | states |
|---|---|---|
| DuplexVad.RunLengthIsMaximal | sample/app.js:93-113 | a run length counts the longest suffix of equal frames: all of it equal, the frame before it different |
| DuplexVad.LoudFrame | sample/app.js:93-107 | after a loud frame the user is speaking iff already speaking or the loud run fills the window, with "speaking" defined on the whole history (some loud window not followed by a quiet window) |
| DuplexVad.QuietFrame | sample/app.js:108-130 | after a quiet frame the user is speaking iff already speaking and the quiet run is below the timeout |
| DuplexVad.QuietRunBelowTimeout | sample/app.js:111-114 | while the user is speaking the quiet run has not reached the timeout |
| DuplexVad.CountersStayInStep | sample/app.js:93-114 | two counters decide activation and end exactly as the history does; an activation closes a full loud window and an end falls on the timeout-th quiet frame |
| DuplexVad.DetectVoiceKeepsVad | sample/app.js:88-134 | one frame keeps the counters in step with the history and the log in step with the changes |
| DuplexVad.StepKeepsVad | sample/app.js:73-180 | every event keeps that agreement |
| DuplexVad.RunKeepsVad | sample/app.js:73-180 | over every run the log marks exactly the frames at which speaking starts or stops, in order |
| DuplexVad.VoiceEntriesAlternate | sample/app.js:98-127 | over every run activations and ends of speech alternate, starting with an activation |
| DuplexTurns.DialogueGrows | sample/app.js:120-127 | an end_of_utterance, or a barge_in that answers one, keeps the control stream in (end_of_utterance barge_in?)* |
| DuplexTurns.NextEntry | sample/app.js:240-261 | how one log entry moves the turn, without stale output and within the dialogue |
| DuplexTurns.StepKeepsTurns | sample/app.js:73-388 | every event keeps: processing implies AI turn, active sources imply AI turn, a speaking user implies no AI turn, the log agrees on whose turn it is |
| DuplexTurns.RunKeepsTurns | sample/app.js:73-388 | those facts, and the shape of the control stream, hold after every run |
| DuplexTurns.TurnClosedUntilEndOfUtterance | sample/app.js:126-127 | once given back, the turn reopens only by an end_of_utterance |
| DuplexTurns.NothingStale | sample/app.js:240-357 | after a barge-in, a close or the end of a turn no text is shown and no chunk scheduled before the next end_of_utterance, in any interleaving |
| DuplexTurns.LoudUserGuardIsDead | sample/app.js:354-363 | in every reachable state the second guard of playAudioChunk rejects nothing the first one lets through |
| DuplexFrames.StepKeepsFrames | sample/app.js:145-179 | every event keeps the pre-roll increasing, bounded and ahead of all sent frames |
| DuplexFrames.RunKeepsFrames | sample/app.js:98-179 | over every run sent frames have strictly increasing numbers, and each end_of_utterance carries the last live frame since activation, or null, and no larger number was sent |
| DuplexFrames.Header | sample/app.js:147 | the 32-bit header is the number iff the number is below 2^32 |
| DuplexFrames.HeadersInOrder | sample/app.js:145-179 | in every run that captures at most 2^32 frames the headers of sent frames increase |
| DuplexFrames.SpeechIsSent | sample/app.js:164-168 | a user who speaks for n frames over an idle socket has every one of them sent live, in order |
| DuplexFrames.HeadersInOrderIff | sample/app.js:147 | all runs that capture at most n frames send increasing headers iff n is at most 2^32; beyond it a run sends the same header twice |
| DuplexPreRoll.OpenAfter | sample/app.js:287-305 | the socket is open iff it opened and has not started to close since; no other event changes that |
| DuplexPreRoll.KeepLatest | sample/app.js:174-177 | pushing a frame and dropping the oldest beyond the limit keeps the latest frames, also for a limit of 0 |
| DuplexPreRoll.RunFollows | sample/app.js:73-180 | after every run the frame counter, the loud/quiet history, whether the user is speaking and, while they are silent, the buffer are what the captured frames say |
| DuplexPreRoll.BufferIsLatestAudible | sample/app.js:172-179 | whenever the user is silent the buffer holds the last frames above half the threshold since they last spoke, oldest first, as many as the limit allows |
| DuplexPreRoll.AudibleIff | sample/app.js:115-178 | those frames are the ones above half the threshold at and after which the user has been silent |
| DuplexPreRoll.CountIsFlush | sample/app.js:153-159 | the flush goes up to the first buffered frame for which the socket is too full, or to the end |
| DuplexPreRoll.FrameAdds | sample/app.js:93-179 | what one frame logs: at an activation the barge-in if the AI has the turn, then the buffered frames before the first full socket, then the frame itself if there is room; at an end the last live frame and the frame's mode; nothing else |
| DuplexPreRoll.NextFrameAdds | sample/app.js:73-180 | that, for any frame after any run, in terms of the events only; a frame that comes while the socket is not open does nothing |
| DuplexPreRoll.SentExactly | sample/app.js:145-179 | over every run frame k is sent live iff the user is speaking at it and the socket has room, and late iff it was buffered when the user started to speak and there was room for it and all frames before it |
| DuplexPlayback.StopKeepsOrder | sample/app.js:340-351 | stopping keeps what was heard disjoint and in order |
| DuplexPlayback.ScheduleKeepsOrder | sample/app.js:372-380 | a new chunk starts after everything scheduled before it is over or stopped |
| DuplexPlayback.StepKeepsPlayback | sample/app.js:297-388 | every event keeps that order |
| DuplexPlayback.RunKeepsPlayback | sample/app.js:297-388 | it holds after every run with a monotone clock |
| DuplexPlayback.NeverTwoAtOnce | sample/app.js:340-380 | of two chunks, the one that arrived first is heard strictly before the other |
| DuplexPlayback.NeverInThePast | sample/app.js:372-377 | no chunk is scheduled before it arrived |
| DuplexPlayback.SilenceWithoutTurn | sample/app.js:340-388 | when the AI does not have the turn nothing is audible now or later, even if old sources still report their end |
| DuplexPlayback.RunKeepsJoins | sample/app.js:372-380 | over every run the next start time is the end of the last chunk while that chunk is due |
| DuplexPlayback.GaplessPlayback | sample/app.js:372-380 | a chunk that arrives while its predecessor is still due starts exactly where that one ends |
| DuplexPlayback.PromptPlayback | sample/app.js:340-380 | a chunk starts exactly 50 ms after its arrival, or at time 0, unless it follows directly on a predecessor that was not stopped before it arrived |
| DuplexPlayback.DurationIsExact | sample/app.js:365-368 | a chunk of n bytes lasts n / 2 samples |
| DuplexPlayback.ChunkIsPlayed | sample/app.js:353-380 | a chunk is scheduled iff it comes in the AI's turn and is not odd or empty; otherwise nothing changes |
| DuplexPlayback.EveryChunkIsPlayed | sample/app.js:353-380 | over every run source i plays the i-th such chunk, from its arrival on and for its full length |
| DuplexPlayback.ActiveIff | sample/app.js:340-388 | the active sources are those neither stopped before nor reported to have ended |
| DuplexPlayback.StoppedExactly | sample/app.js:340-351 | an event stops a source, at its own time, iff the source is unfinished and the event closes the page, is the server's interrupt, or lets the user speak in the AI's turn; nothing else touches it |
| DuplexChat.TextEntry | sample/app.js:322-330 | text goes to a fresh bubble or to the one still open, and never mixes answers |
| DuplexChat.TextKeepsChat | sample/app.js:322-330 | a token keeps bubbles unmixed |
| DuplexChat.RunKeepsChat | sample/app.js:98-351 | bubbles are unmixed after every run |
| DuplexChat.OneAnswerPerBubble | sample/app.js:98-351 | two texts with a separator between them (speech, interruption, end of answer, close) are in different bubbles |
| DuplexChat.SameBubbleIff | sample/app.js:98-351 | two texts are in the same bubble iff nothing between them separates them |
| DuplexChat.ShownAsReceived | sample/app.js:322-330 | over every run the texts shown are exactly the non-empty texts that came in the AI's turn, as they came and in order |
| DuplexModel.NonAudioStep | sample/app.js:287-388 | only microphone frames touch the voice detector, the frame buffer or their log entries |
| DuplexHandover.TurnEndsIff | sample/app.js:98-106 | in every reachable state an event takes the turn from the AI iff it activates the detector, closes the socket, or ends the last source after the end of the response |
| DuplexHandover.ProcessingIff | sample/app.js:126-388 | over every run the client waits for an answer iff its last end_of_utterance was followed by no end of response, barge-in or close |
| DuplexHandover.EndOfResponseKeepsTurn | sample/app.js:331-335 | the end of the response leaves the AI waiting with the turn iff nothing is playing |
| DuplexHandover.WaitsForInterruption | sample/app.js:381-388 | from there, without further audio, only a barge_in or a close ends the turn, in any interleaving |
| DuplexHandover.TextAnswerIsInterrupted | sample/app.js:322-335 | a run with a text-only answer after which the next loud frame sends a barge_in |
| DuplexHandover.SoundAnswerKeepsTurn | sample/app.js:331-388 | a run whose only chunk is over before the end of the response arrives, and the AI keeps the turn |
| DuplexClient.Client.StopAllPlayback | sample/app.js:340-351 | the loop cuts exactly the active sources and empties the queue |
| DuplexClient.Client.HandleUserBargeIn | sample/app.js:240-261 | refines the machine's barge-in transition |
| DuplexClient.Client.RunVad | sample/app.js:88-134 | the branches on counters and flags refine the machine's voice detection and report activation exactly |
| DuplexClient.Client.FlushBuffered | sample/app.js:150-159 | the queue loop sends, in order, exactly the frames before the first one for which the socket is too full, all of them if there is none, and keeps the rest |
| DuplexClient.Client.TransmitFrame | sample/app.js:145-179 | refines the machine's numbering, sending, buffering and dropping |
| DuplexClient.Client.OnAudioProcess | sample/app.js:73-180 | the whole handler refines one machine step |
| DuplexClient.Client.OnSocketClose | sample/app.js:297-305 | refines the machine's close |
| DuplexClient.Client.OnTextMessage | sample/app.js:322-330 | refines the machine's text step |
| DuplexClient.Client.OnInterruptMessage | sample/app.js:315-321 | refines the machine's interrupt step |
| DuplexClient.Client.OnEndOfResponse | sample/app.js:331-335 | refines the machine's end of response |
| DuplexClient.Client.PlayAudioChunk | sample/app.js:353-380 | refines the machine's scheduling |
| DuplexClient.Client.OnSourceEnded | sample/app.js:381-388 | filtering the list and giving back the turn refines the machine's step |
| DuplexClient.Client.Handle | sample/app.js:287-388 | every event refines one machine step |
| DuplexClient.HandleAll | sample/app.js:73-388 | handling any list of events from page load reaches the state of the machine's run |
| BuildEvents.SortEventsSorts | vllm/tools/report_build_time_ninja.py:223-224 | sorting gives an ordered list without repeats |
| BuildEvents.SortedEventsAreSchedule | vllm/tools/report_build_time_ninja.py:207-228 | the sorted list holds both events of every task exactly once, starts before stops at equal times |
| BuildEvents.VisitedIffNotLater | vllm/tools/report_build_time_ninja.py:225-228 | when the clock moves, exactly the events not later than the old time have been visited |
| BuildShares.ShareWithinDuration | vllm/tools/report_build_time_ninja.py:74-89 | a share, defined as the sum over intervals of length / number of covering tasks, lies between 0 and its duration |
| BuildShares.SharesAddUp | vllm/tools/report_build_time_ninja.py:249-253 | the shares of all tasks add up to the time in which some task runs |
| BuildShares.BusyAndIdle | vllm/tools/report_build_time_ninja.py:220-233 | busy and idle time add up to the span, and idle time is 0 iff no interval is uncovered |
| BuildReport.RunningCovers | vllm/tools/report_build_time_ninja.py:229-254 | between two time stamps the dictionary holds exactly those tasks that cover the interval |
| BuildReport.AdvanceCharges | vllm/tools/report_build_time_ninja.py:240-244 | moving the clock charges every running task its part of the interval and no other task |
| BuildReport.StartKeepsRunning | vllm/tools/report_build_time_ninja.py:245-247 | a start keeps every task's charge equal to its share so far |
| BuildReport.StopKeepsRunning | vllm/tools/report_build_time_ninja.py:248-254 | a stop records the share and keeps the rest |
| BuildReport.Extent | vllm/tools/report_build_time_ninja.py:209-219 | the first loop finds a least start, an upper bound of the ends that is attained or 0, and the sum of durations |
| BuildReport.Sweep | vllm/tools/report_build_time_ninja.py:229-256 | the sweep fails iff some task ends before it starts; otherwise each task's result is its exact share and the total is their sum |
| BuildReport.SummarizeEntries | vllm/tools/report_build_time_ninja.py:198-256 | crashes iff the list is empty or badly timed; otherwise exact shares, each within its duration, total equal to busy time, length equal to total plus idle time, and equal to the total iff there is no gap |
| BuildReport.ReportIsExact | vllm/tools/report_build_time_ninja.py:207-256 | exactness, bounds and conservation of the shares of any schedule |
| BuildReport.LengthIsZeroIff | vllm/tools/report_build_time_ninja.py:284-292 | the two divisions by the length fail iff all steps start and stop at one moment |
| BuildLog.LastBuildIsSuffix | vllm/tools/report_build_time_ninja.py:124-147 | what is kept is a suffix of the records |
| BuildLog.LastBuildIsOneBuild | vllm/tools/report_build_time_ninja.py:124-143 | in what is kept, end times never go back and no step has two different times |
| BuildLog.ConflictIff | vllm/tools/report_build_time_ninja.py:124-143 | a record resets the dictionary iff the build with it would no longer be one build |
| BuildLog.RecordsOfParts | vllm/tools/report_build_time_ninja.py:114-123 | well-formed lines are kept in order and malformed ones skipped, wherever the log is cut |
| BuildLog.LastBuildStartsAtConflict | vllm/tools/report_build_time_ninja.py:124-143 | it starts at the first record, or at one that cannot be part of the build before it: nothing is dropped needlessly |
| BuildLog.GroupDescribes | vllm/tools/report_build_time_ninja.py:132-147 | a step is in the dictionary iff it was recorded; its entry lists its outputs in log order and has its first record's times |
| BuildLog.GroupLosesNothing | vllm/tools/report_build_time_ninja.py:144-147 | every record is listed exactly once |
| BuildLog.ClashIffConflict | vllm/tools/report_build_time_ninja.py:133-143 | comparing with the dictionary entry finds a changed step iff some record of the build has the same hash and other times |
| BuildLog.TakeRecord | vllm/tools/report_build_time_ninja.py:120-147 | both resets together forget the build iff the record conflicts with it |
| BuildLog.ReadTargets | vllm/tools/report_build_time_ninja.py:104-148 | the loop returns the grouping of the last build, or of all records when asked to show all |
| PartitionModel.GetGraphPartitionSignature | vllm/vllm/env_override.py:102-240 | the loop gives partition i the signature determined by the demand of the partitions after it |
| PartitionScoping.NoneLayoutIff | vllm/vllm/env_override.py:119-137 | the recursion holds of a buffer iff it has no layout and, if it records a mutation, the mutated buffer has none either |
| PartitionScoping.MutationIsFollowed | vllm/vllm/env_override.py:119-170 | a partition that touches a recorded mutation takes the mutated buffer as input if that is allocated, and only then when it is its only reason to |
| PartitionScoping.InputsAreNeeds | vllm/vllm/env_override.py:149-190 | declared inputs are what the partition touches or frees from outside, by real name, with unallocated buffers left out as the tables say |
| PartitionScoping.ConstantsAreNeeded | vllm/vllm/env_override.py:219-221 | the constants of a signature are the constants it touches from outside |
| PartitionScoping.OutputsByRealName | vllm/vllm/env_override.py:147-217 | for any tables the outputs are the allocated buffers that the names passed on stand for |
| PartitionScoping.ReturnedExactly | vllm/vllm/env_override.py:197-211 | returned names are the demanded ones it made and the inputs it does not free |
| PartitionScoping.UnmetIsDemand | vllm/vllm/env_override.py:236-238 | the set carried backwards holds exactly the names that exist by then and that a later partition or the caller asks for |
| PartitionScoping.SignatureShape | vllm/vllm/env_override.py:186-232 | inputs, constants, deallocation flags, outputs and the skip flag of a signature in terms of need and demand |
| PartitionScoping.ReturnsExactlyWhatIsAskedFor | vllm/vllm/env_override.py:147-217 | a partition returns what it makes iff it is a graph output or an input of a later partition, and an input iff it does not free it |
| PartitionScoping.InputsInScope | vllm/vllm/env_override.py:186-195 | when its turn comes, all declared inputs of a partition are in scope |
| PartitionScoping.StepValues | vllm/vllm/env_override.py:186-217 | what is in scope has the value it has when nothing is ever dropped |
| PartitionScoping.RunKeepsScope | vllm/vllm/env_override.py:139-240 | both hold after any number of partitions |
| PartitionScoping.ScopingPreservesMeaning | vllm/vllm/env_override.py:139-240 | every partition finds its inputs and every graph output is in scope at the end with its unscoped value, whatever the partitions compute |
| PartitionScoping.NothingLeaks | vllm/vllm/env_override.py:172-205 | if last uses are recorded, a made buffer is in scope only while somebody will ask for it |
| AllocChunks.MemcreateChunkSize | vllm/csrc/cumem_allocator.cpp:21-42 | the setting in megabytes when it parses, is positive and does not overflow, else 256 MB; always a positive multiple of 1 MB |
| AllocChunks.RoundUpIsLeastMultiple | vllm/csrc/cumem_allocator.cpp:290-319 | rounding gives the least multiple of the granularity that is at least the size |
| AllocChunks.ChunksCover | vllm/csrc/cumem_allocator.cpp:131-150 | every address below the total lies in a chunk |
| AllocChunks.ChunksDisjoint | vllm/csrc/cumem_allocator.cpp:131-150 | and in no second one |
| AllocChunks.RoomLeft | vllm/csrc/cumem_allocator.cpp:325-340 | the subtraction for the last chunk cannot underflow |
| AllocChunks.ChunkSizes | vllm/csrc/cumem_allocator.cpp:315-340 | the loop's sizes are positive multiples of the granularity that add up to the aligned size; all but the last equal the chunk size, the last is at most that, and no fewer chunks would do |
| AllocMapping.CreateHandles | vllm/csrc/cumem_allocator.cpp:121-130 | creates for every chunk a new, distinct handle of the chunk's size, or leaves the live handles as they were; with an error pending at most one, for the first chunk |
| AllocMapping.MapHandles | vllm/csrc/cumem_allocator.cpp:131-150 | maps every chunk behind the previous one on free addresses, or restores the mappings and releases all handles |
| AllocMapping.GrantAccess | vllm/csrc/cumem_allocator.cpp:153-158 | granting access to the range reaches every chunk and changes no layout |
| AllocMapping.CreateAndMap | vllm/csrc/cumem_allocator.cpp:95-164 | entered without an error, a failed create or map call leaves handles and mappings exactly as found; success tiles the range with accessible mappings of handles of the chunks' sizes; a denied access leaves the same tiling without access; a pending error at most one handle |
| AllocMapping.UnmapAll | vllm/csrc/cumem_allocator.cpp:187-197 | takes away exactly the chunks that are mapped with their size, and reports no error iff all are |
| AllocMapping.ReleaseAll | vllm/csrc/cumem_allocator.cpp:199-204 | releases exactly the handles in the cells, and adds no error iff they are live and distinct |
| AllocMapping.UnmapAndRelease | vllm/csrc/cumem_allocator.cpp:166-210 | whatever state the chunks are in: what is left mapped and live, and that the pending error survives unchanged iff every chunk was mapped and held a live handle of its own |
| AllocLedger.WakeKeepsBooks | vllm/csrc/cumem_allocator.cpp:635-700 | waking keeps every handle, mapping and cell owned by exactly one allocation |
| AllocLedger.SleepKeepsBooks | vllm/csrc/cumem_allocator.cpp:537-633 | sleeping does, and the sleeper owns no handle and no mapping |
| AllocLedger.RegisterKeepsBooks | vllm/csrc/cumem_allocator.cpp:270-373 | a new reservation with fresh cells does |
| AllocLedger.DropKeepsBooks | vllm/csrc/cumem_allocator.cpp:485-509 | giving back a sleeping allocation does |
| AllocLedger.RollbackKeepsBooks | vllm/csrc/cumem_allocator.cpp:121-150 | a failed attempt to wake does, although the sleeper's cells may hold other values |
| AllocLedger.NothingRegisteredNothingHeld | vllm/csrc/cumem_allocator.cpp:401-509 | with no allocation registered there is no reservation, handle, mapping or cell |
| AllocLedger.AwakeRangeIsCovered | vllm/csrc/cumem_allocator.cpp:131-150 | every address of an awake allocation lies in exactly one of its mappings, and that one is accessible |
| AllocLedger.MappingsNeverOverlap | vllm/csrc/cumem_allocator.cpp:131-150 | no address is mapped twice, by one allocation or by two |
| AllocLedger.SleeperIsUnmapped | vllm/csrc/cumem_allocator.cpp:187-197 | a sleeping allocation has nothing mapped in its range, so unmapping it again touches nobody |
| AllocLedger.GrantChangesNothing | vllm/csrc/cumem_allocator.cpp:153-158 | in balanced books everything mapped is accessible, so granting access again changes nobody's mappings |
| AllocLedger.HandleHasOwner | vllm/csrc/cumem_allocator.cpp:121-130 | every live handle belongs to a chunk of an awake allocation and has its size |
| AllocLedger.HandlesDetermined | vllm/csrc/cumem_allocator.cpp:121-130 | balanced books determine the live handles and their sizes: one handle more or less and they do not balance |
| AllocRuns.MoveKeepsBooks | vllm/csrc/cumem_allocator.cpp:270-700 | registering, waking, rolling back, sleeping and dropping all keep the books |
| AllocRuns.RunKeepsBooks | vllm/csrc/cumem_allocator.cpp:270-700 | the books balance after every move of every run from an empty device |
| AllocRuns.EverythingIsGivenBack | vllm/csrc/cumem_allocator.cpp:401-509 | at the end of any run that freed everything the device holds nothing |
| AllocRuns.SleeperCanHoldForeignHandle | vllm/csrc/cumem_allocator.cpp:199-204 | a run after which a sleeping allocation still stores the handle of an awake one |
| Allocator.AllocateCells | vllm/csrc/cumem_allocator.cpp:310-340 | one fresh, distinct cell per chunk, or the heap as it was |
| Allocator.FreeCells | vllm/csrc/cumem_allocator.cpp:502-508 | frees exactly the allocation's cells, each while it is still allocated |
| Allocator.Allocator.constructor | vllm/csrc/cumem_allocator.cpp:21-42 | starts with balanced empty books and the chunk size of the setting |
| Allocator.Allocator.PlanChunks | vllm/csrc/cumem_allocator.cpp:290-340 | for the least aligned size: every chunk but the last is the least multiple of the granularity that is at least the configured size, the last at most that, and no fewer chunks would do |
| Allocator.Allocator.MapRegistered | vllm/csrc/cumem_allocator.cpp:374-381 | for an awake or sleeping allocation and any pending error: an awake one is never mapped twice, and for each outcome what changed and when the books balance |
| Allocator.Allocator.Malloc | vllm/csrc/cumem_allocator.cpp:270-398 | success is a registration and a wake, with exactly the planned chunks; the books balance iff it succeeded or never started; every other ending is described to the last handle, mapping, cell, reservation and entry |
| Allocator.Allocator.TakeBack | vllm/csrc/cumem_allocator.cpp:383-394 | the cleanup gives back exactly the new reservation and cells and keeps the pending error |
| Allocator.Allocator.Register | vllm/csrc/cumem_allocator.cpp:270-373 | reserving and registering exactly the planned chunks keeps the books; a pending error or a failed call changes nothing but the error |
| Allocator.Allocator.Sleep | vllm/csrc/cumem_allocator.cpp:537-633 | an awake allocation gives back exactly what it owns and the call raises iff an error was pending; for a sleeping one the books survive iff none of its old handles is live |
| Allocator.Allocator.Wake | vllm/csrc/cumem_allocator.cpp:635-700 | a sleeping allocation wakes, or rolls back with balanced books; denied access, a pending error and an awake allocation each have their exact effect |
| Allocator.Allocator.Free | vllm/csrc/cumem_allocator.cpp:401-509 | for any registered allocation and any size: what is given back, when an error is pending, and that the books balance iff the size is the aligned size and no foreign handle was released |
| AllocOutcomes.StaleEntry | vllm/vllm/device_allocator/cumem.py:170-199 | an entry registered for an allocation that was taken back unbalances the books |
| AllocOutcomes.LeakIsExact | vllm/csrc/cumem_allocator.cpp:153-161 | a denied access leaves behind, per chunk, exactly one new handle of its size and one mapping that nobody can use |
| AllocOutcomes.AfterFree | vllm/csrc/cumem_allocator.cpp:498-508 | when my_free leaves balanced books, for an awake and for a sleeping allocation |
| AllocSession.Carry | vllm/csrc/cumem_allocator.cpp:270-700 | each call is one or two moves of a run, and stops the session only with a failed malloc that unbalances the books or a failed wake |
| AllocSession.Serve | vllm/csrc/cumem_allocator.cpp:270-700 | any list of commands on an empty device is a run with balanced books throughout, and if nothing is registered at the end the device holds nothing |
| LogprobDict.BuildFromItems | vllm/vllm/logprobs.py:66-71 | rebuilding a dictionary from its items gives it back, order included |
| LogprobDict.PutKeepsPlace | vllm/vllm/logprobs.py:113-120 | writing to a key that is there keeps its place, and a new key goes to the end |
| LogprobDict.LookupBuild | vllm/vllm/logprobs.py:113-120 | in a dictionary built from rows the last row of a token wins |
| LogprobDict.OverwrittenFirst | vllm/vllm/logprobs.py:186-188 | a first row that is overwritten later changes no lookup |
| FlatLogprobs.AppendIsAppend | vllm/vllm/logprobs.py:63-93 | appending rows appends one dictionary to the list the container stands for |
| FlatLogprobs.ExtractPicks | vllm/vllm/logprobs.py:121-133 | shifting indices and cutting the lists selects the same positions, also when the step leaves gaps |
| FlatLogprobs.SelectedAre | vllm/vllm/logprobs.py:121-124 | a position is selected iff it is in the slice by Python's rules for missing, negative and out-of-range bounds |
| FlatLogprobs.SliceIsSlice | vllm/vllm/logprobs.py:121-133 | a positive-step slice is a proper container whose list holds, in order, the positions that Python's slicing rules select, and it fails iff they select none |
| LogprobContainer.Container.constructor | vllm/vllm/logprobs.py:51-61 | a new container stands for the empty list |
| LogprobContainer.Container.AppendDict | vllm/vllm/logprobs.py:63-72 | appends exactly the given dictionary, an empty one for None |
| LogprobContainer.Container.AppendFast | vllm/vllm/logprobs.py:74-93 | appends the dictionary that the zipped lists would build |
| LogprobContainer.Container.Extend | vllm/vllm/logprobs.py:95-98 | appends all dictionaries in order |
| LogprobContainer.Container.Get | vllm/vllm/logprobs.py:112-120 | indexing agrees with the list, for negative indices and errors too |
| LogprobContainer.Container.GetSlice | vllm/vllm/logprobs.py:121-133 | returns a new container for the positions that Python's slicing rules select, in order, to which one can go on appending; fails iff they select none |
| LogprobContainer.Container.ToList | vllm/vllm/logprobs.py:146-152 | iteration yields the list |
| LogprobContainer.AppendToList | vllm/vllm/logprobs.py:194-206 | the dictionary built row by row has, for every token, the last row written for it |
| LogprobContainer.RowsAreRanked | vllm/vllm/logprobs.py:186-192 | the first row has the sampled token's rank and row k the rank k, as many rows as tokens and requested ranks allow, all of them for -1 |
| LogprobContainer.PositionHolds | vllm/vllm/logprobs.py:175-206 | a lookup finds the row of the token's last occurrence among those rows, and nothing iff there is none |
| LogprobContainer.AppendForNextPosition | vllm/vllm/logprobs.py:175-206 | both branches leave the same list, one position longer, in which every lookup is read off the arguments: the token's last row with its rank |
| LogprobContainer.SampledTokenInTopK | vllm/vllm/logprobs.py:186-190 | a sampled token that is among the top tokens makes no difference to any lookup |
| OutputMerge.AddAllKeepsUnique | vllm/vllm/outputs.py:152-174 | completion indices stay unique |
| OutputMerge.AddAllAssociative | vllm/vllm/outputs.py:146-174 | merging is associative in both modes when logprobs are uniformly present or absent |
| OutputStream.IncrementsAddUp | vllm/vllm/outputs.py:155-168 | aggregated increments hold, per index, all text, tokens and logprobs sent for it and the reasons and cumulative logprob of the last increment |
| OutputStream.DeltaEqualsCumulative | vllm/vllm/sampling_params.py:102-108 | aggregating increments and replacing by the matching cumulative outputs give the same completions in the same order |
| OutputStream.FoldIsAddAll | vllm/vllm/outputs.py:146-174 | folding request outputs is adding all their completions one after the other |
| OutputStream.DeltaFoldEqualsCumulativeFold | vllm/vllm/sampling_params.py:102-108 | folding incremental requests with aggregation equals folding the matching cumulative requests with replacement, flags included |
| OutputStream.AddRequestAssociative | vllm/vllm/outputs.py:146-174 | so is merging whole requests, with the finished flag and transfer parameters |
| OutputStream.FoldFlags | vllm/vllm/outputs.py:149-150 | a merged request is finished iff one of its parts is, and has the transfer parameters of the last part |
| OutputStream.MergeIntoLast | vllm/vllm/v1/engine/output_processor.py:52-57 | merging an output into the last pending one, or sending it separately, folds to the same request |
| OutputObjects.CompletionOutput.ExtendWith | vllm/vllm/outputs.py:155-168 | the in-place updates extend the completion; the assertion fails iff logprobs arrive for a completion without any |
| OutputObjects.RequestOutput.AddCompletion | vllm/vllm/outputs.py:153-174 | the inner loop merges into the completion with that index, or appends, and leaves all others alone |
| OutputObjects.RequestOutput.Add | vllm/vllm/outputs.py:146-174 | the nested loops compute the merge of the two requests, flag and transfer parameters included, and fail iff one of the assertions does |
| OutputObjects.AllFitIff | vllm/vllm/outputs.py:159-163 | the assertions hold iff outputs are replaced, or every completion that brings logprobs meets a first completion of its index that has them |
| OutputObjects.UniformFits | vllm/vllm/outputs.py:161-163 | the assertion on logprobs never fails when logprobs are present everywhere or nowhere |
| OutputCollector.NothingIsLost | vllm/vllm/v1/engine/output_processor.py:47-81 | for any interleaving of puts and gets, folding what was taken and what is pending equals folding everything put |
| OutputCollector.EndIsSeen | vllm/vllm/v1/engine/output_processor.py:47-81 | for any interleaving one of the outputs taken or pending is finished iff a finished one was put, and the last has the newest transfer parameters |
| OutputCollector.PendingIff | vllm/vllm/v1/engine/output_processor.py:47-81 | an output is pending iff the last operation was a put |
| OutputCollector.GetDelivers | vllm/vllm/v1/engine/output_processor.py:63-81 | a get leaves nothing pending, and what the consumer then has taken folds to everything put |
| OutputCollector.DeltaAndCumulativeAgree | vllm/vllm/v1/engine/output_processor.py:42-81 | an incremental and a cumulative collector, under any two interleavings, leave the same request |
| OutputCollector.Collector.constructor | vllm/vllm/v1/engine/output_processor.py:42-45 | outputs are aggregated iff they are increments, and nothing is pending at first |
| OutputCollector.Collector.PutOutput | vllm/vllm/v1/engine/output_processor.py:47-57 | the pending object absorbs the new one in place as the mailbox does, fails iff an assertion on logprobs does, and owns nothing but what it was given |
| OutputCollector.Collect | vllm/vllm/v1/engine/output_processor.py:33-81 | for every kind of output, any sequence of puts and gets on the objects reaches the mailbox state without a failed assertion, and what was taken keeps its value |
| BadWords.GeneratedIffClean | vllm/vllm/logits_process.py:56-87 | sequences that never pick a blocked token are exactly those in which no bad word occurs anywhere |
| BadWords.BlocksSplits | vllm/vllm/logits_process.py:67-83 | the cached and the per-step bias together block exactly the tokens that complete a bad word |
| BadWords.PrefixMatch | vllm/vllm/logits_process.py:73-80 | comparing the prefix with the end of the history is comparing the word with the extended history |
| BadWords.NoBadWordsLogitsProcessor.CheckTokenIdsBounds | vllm/vllm/logits_process.py:106-121 | accepts iff every token of every bad word is in the vocabulary |
| BadWords.NoBadWordsLogitsProcessor.InitWordBias | vllm/vllm/logits_process.py:89-104 | caches minus infinity exactly at the one-token bad words, or fails the bounds check |
| BadWords.NoBadWordsLogitsProcessor.LastTokenBias | vllm/vllm/logits_process.py:64-83 | the loop blocks exactly the last tokens of longer words whose prefix ends the history; fails iff some word is empty |
| BadWords.NoBadWordsLogitsProcessor.Call | vllm/vllm/logits_process.py:56-87 | a logit becomes minus infinity iff its token would complete a bad word, all others are unchanged, and both errors have their exact conditions |
| BadWords.Generate | vllm/vllm/logits_process.py:56-87 | any run from an empty history is free of bad words, and ends early only on an error or when no token is left |
| ScalarTypes.ReadField | vllm/csrc/core/scalar_type.hpp:142-151 | shifting and masking reads every field of a packed id back |
| ScalarTypes.ComputeId | vllm/vllm/scalar_type.py:136-164 | or-ing shifted fields one after the other packs them side by side |
| ScalarTypes.IdIsSum | vllm/vllm/scalar_type.py:143-158 | the id is the sum of the members, each modulo the size of its field and shifted by 0, 8, 16, 17, 49 and 50 bits |
| ScalarTypes.SameIdIffCongruent | vllm/vllm/scalar_type.py:143-158 | two types have the same id iff their members agree modulo the field widths |
| ScalarTypes.CppReadsPythonId | vllm/csrc/core/scalar_type.hpp:142-157 | the C++ decoder turns an id packed in Python back into the same type, negative biases included |
| ScalarTypes.Registry.Register | vllm/vllm/scalar_type.py:136-164 | registers the type under its id and keeps the registry equal to the list of known types |
| ScalarTypes.Registry.FromId | vllm/vllm/scalar_type.py:308-312 | fails iff no known type has the id, and returns the very type the id came from when all known types fit their fields |
| ScalarTypes.RegistryHoldsLast | vllm/vllm/scalar_type.py:162-312 | an id leads back to the type iff no congruent type was registered after it |
| ScalarTypes.FromIdInvertsId | vllm/vllm/scalar_type.py:136-312 | from_id inverts id in every registry of types whose members fit |
| ScalarTypes.OutOfRangeCollides | vllm/vllm/scalar_type.py:143-162 | a bias of 2^32 takes over the id of a bias of 0 |
| ScalarMax.DoubleExponentRange | vllm/vllm/scalar_type.py:82-96 | the adjusted exponent is that of a normal finite double, and the top exponent is 0 only for one exponent bit with IEEE NaNs |
| ScalarMax.LargerExponent | vllm/vllm/scalar_type.py:76-85 | a code with a larger exponent has a larger value, whatever the mantissas |
| ScalarMax.TopCodeIsLargest | vllm/vllm/scalar_type.py:76-85 | no finite code exceeds the one with the computed exponent and mantissa, for all three NaN conventions |
| ScalarMax.DecodesTo | vllm/vllm/scalar_type.py:96-105 | the assembled bits decode as a double to the full significand at the adjusted exponent |
| ScalarMax.MaxIsLargestIff | vllm/vllm/scalar_type.py:71-105 | when a maximum is computed, and that it is attained by a finite code and exceeded by none iff not one exponent bit with IEEE NaNs |
| ScalarMax.OneExponentBitOvershoots | vllm/vllm/scalar_type.py:71-105 | for every format with one exponent bit and IEEE NaNs the result exceeds every finite code |
| ScalarMax.ThreeHalvesOvershot | vllm/vllm/scalar_type.py:71-105 | one such format, whose largest value is missed |
| ScalarMax.MinIsMinusMax | vllm/vllm/scalar_type.py:116-125 | or-ing in the sign bit negates the maximum |
| LockstepSizes.CeilDivIsLeast | vllm/vllm/forward_context.py:63-65 | the ceiling is the least number of groups that hold the tokens |
| LockstepSizes.CdivIsCeilDiv | vllm/vllm/utils/math_utils.py:6-8 | negated floor division by the negated divisor is the same ceiling |
| LockstepSizes.ShardsHoldTokens | vllm/vllm/forward_context.py:60-68 | entry i belongs to rank i/sp, and the shards of a rank hold its tokens with less than one shard each to spare |
| LockstepSizes.ComputeChunkedLocalNumTokens | vllm/vllm/forward_context.py:71-86 | the loop gives every shard its size for the round, between 1 and the maximum |
| LockstepSizes.ChunksPartition | vllm/vllm/forward_context.py:80-85 | every token is in exactly one non-dummy chunk and nothing else is in any |
| LockstepSizes.TotalIsTokensAndDummies | vllm/vllm/forward_context.py:80-86 | over K rounds a shard announces its tokens plus one dummy for every round after it is done |
| LockstepSizes.RoundsCoverEveryShard | vllm/vllm/forward_context.py:60-86 | rounds enough for the largest rank complete every shard of every rank |
| LockstepSizes.CumsumIsPrefixSum | vllm/vllm/forward_context.py:182 | cumulative entry i is the sum of the first i+1 counts |
| LockstepSizes.WindowsAreShards | vllm/vllm/forward_context.py:177-182 | the cumulative tensor is the prefix sum of the same shard counts, so windows lie side by side with the shards' lengths |
| ChunkedForward.DPMetadata.Make | vllm/vllm/forward_context.py:97-114 | fails iff one of the assertions does, else records an attained maximum |
| ChunkedForward.DPMetadata.EnterChunkedSizes | vllm/vllm/forward_context.py:143-148 | inside the context the sizes of the round are set |
| ChunkedForward.ProcessChunk | vllm/vllm/model_executor/layers/fused_moe/layer.py:1767-1852 | stores the results of exactly the chunk's rows; stale rows of the staging buffer never reach the output |
| ChunkedForward.MostTokensIsCeiling | vllm/vllm/model_executor/layers/fused_moe/layer.py:1856-1865 | the round bound agrees with the shard sizes' ceiling |
| ChunkedForward.ForwardImplChunked | vllm/vllm/model_executor/layers/fused_moe/layer.py:1749-1888 | fails iff the rank has no rows and some rank has tokens; else the number of rounds, the announced and staged sizes of each, and which rows of the output are computed |
| ChunkedForward.RanksStayInStep | vllm/vllm/model_executor/layers/fused_moe/layer.py:1867-1884 | a rank that holds its shard stages in every round what was announced for it, and ends with the unchunked result |

## Left out

- DuplexClient.Client: page elements, microphone and socket set-up, start and stop buttons, PCM conversion, the RMS loop (the loudness of a frame is an input) and rounding of times (real arithmetic).
- DuplexPreRoll.SentExactly: how full the socket is at each attempt to send is part of the event; attempts the event does not mention find room.
- BuildReport.SummarizeEntries: printing and grouping by extension are not modelled; times are reals instead of floats.
- BuildLog.ReadTargets: the header line and number parsing; a line is malformed or a record.
- PartitionModel.GetGraphPartitionSignature: sets instead of ordered sets, no symbol inputs, lists of equal length, and no KeyError for a returned name without a node, which well-formed partitions never have.
- PartitionScoping.ScopingPreservesMeaning: assumes what the scheduler guarantees (one producer per name, definition before use, no use after the last use, final renamings).
- AllocMapping.CreateAndMap: cleanup calls are assumed to succeed, and setting the device context is not modelled.
- Allocator.Allocator.Malloc: requires that sizes do not wrap at 64 bits; the non-ROCm branches, the Python C API and the lock are not modelled.
- Allocator.Allocator.Free: host allocations of the call itself are assumed to succeed.
- AllocSession.Serve: a failed call that leaves something behind ends the session, because the calls assume balanced books; the data that is copied out and back by sleep and wake is not modelled.
- FlatLogprobs.SliceIsSlice: positive steps only.
- OutputObjects.RequestOutput.Add: requires that the two requests share no completion object; token lists are values, so aliasing between lists is not modelled.
- OutputCollector.Collector.PutOutput: exceptions, pooling outputs and the event that wakes a waiting consumer.
- BadWords.NoBadWordsLogitsProcessor.Call: logits that are plus infinity or NaN, a vocabulary that changes between calls, and the tokenizer that turns words into ids.
- ScalarMax.MaxIsLargestIff: integer types and the bias of quantized types; they are single subtractions.
- ChunkedForward.ForwardImplChunked: the expert computation is a function of one row; shared and zero experts, micro-batches and the exchange between ranks are not modelled.
- Tensor wrappers, bindings, environment tables, configuration classes, schedulers and the key-value cache.
