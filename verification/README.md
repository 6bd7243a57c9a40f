# Speech pipeline: a verified model

This project models, in Dafny, the speech pipeline between streamed text and
audio on the wire, and proves properties of the model. The parts are:

- **Phrases** (`PhraseText`, `PhraseSegments`, `PhraseBoundaries`,
  `PhraseInvariance`, `PhraseFallback`, `PhraseAccumulator`): the incremental phrase parser. Whitespace, closers,
  terminals and abbreviations are the source's own sets; `isalpha`, `isdigit`,
  `strip` and `lower` are a table of functions of which only one thing is
  assumed: blank, tab, newline and carriage return are whitespace and neither
  letters nor digits.
- **Audio** (`Pcm`, `Rechunker`, `Wire` and `Envelope`, `EnvelopeAcceptance`,
  `Streaming`, `StreamingLaws`): chunking
  of PCM, the audio envelope of one response, the progressive generator with
  its initial buffer, carryover and retry loop, and the buffered path.
- **Scheduler** (`SchedulerModel`, `SchedulerSafety`, `SchedulerLaws`,
  `SchedulerOutcomes`, `SchedulerShutdown`, `ShutdownReports`, `Counters`,
  `Scheduler`): a transition system whose steps
  are the code between two suspension points. Settling a waiter's future and
  waking its task are separate steps. The class `SpeechScheduler` has one method
  per critical section; each is proved equal to its step and to keep the
  invariant, so the laws hold of the object.
- **Coordinator** (`CoordinatorModel`, `CoordinatorSafety`, `CoordinatorLaws`,
  `CoordinatorEndings`, `CoordinatorErrors`, `Coordinator`): feeding, the background loop, the
  capacity-1 queue, the consumer, cancellation and drain, interleaved
  arbitrarily, against the sequential `stream`. The class
  `StreamingCoordinator` has one method per step; each is proved equal to it
  and to keep the invariant.
- **Pipeline** (`Pipeline`): the parts in line, from the bytes of the backend's
  streams to the events on the wire.
- **Codecs** (`Utf8`, `LittleEndian`, `VoiceProfile`, `VoiceLayout`; `Search`,
  `Multipart`, `MultipartLaws`, `MultipartForm`, `MultipartBytes`): the `.s2voice` parser with a serializer for
  its documented layout, and the multipart printer with a reader that follows
  section 5.1.1 of RFC 2046 and section 4 of RFC 7578.

Each component has two kinds of results. Some say what its operations keep, undo
or have in common over all runs. Others (`PhraseBoundaries`,
`EnvelopeAcceptance`, `StreamingLaws`, `SchedulerOutcomes`, `ShutdownReports`,
`CoordinatorErrors`, `VoiceLayout`, `MultipartBytes`) fix each answer in terms of
the inputs alone: characters, events, steps of a run, or octets.

## Findings

Where a promise fails, the code is kept as it is and the exact condition under
which the promise holds is proved.

- **A closer after `!` or `?`.** The phrases of a text whose boundaries,
  lookahead included, are at most `phrase_max` apart are independent of how it
  is split into `feed` calls exactly when no closing quote or bracket directly
  follows `! ? 。 ！ ？`: such a terminal is cut at once, and a closer that
  arrives later starts the next phrase (`PhraseInvariance.ChunkingInvariance`).
- **The fallback cut.** Where boundaries are further apart the phrases can vary
  without any closer. A period whose deciding character lies beyond the limit is
  cut at if the text comes whole, and missed if the buffer passes `phrase_max`
  first: the first phrases differ exactly when the fallback is not the end of
  the phrase itself (`PhraseFallback.UndecidedPeriodShows`, shown by
  `PhraseFallback.UndecidedPeriodWitness`). Whitespace that arrives after its
  cut is still in the buffer when the fallback is chosen, and moves it
  (`PhraseFallback.ShiftShows`, shown by
  `PhraseFallback.ShiftedFallbackWitness`).
- **The settle-to-wake window.** The scheduler loses its worker for ever exactly
  when a waiter is interrupted after it was handed the worker and before its
  task wakes, or is handed the worker with its future already settled
  (`SchedulerLaws.DoomedRunsExactly`, shown by `SchedulerLaws.StuckRun`).
- **Immediate activation** takes a record from CREATED to ACTIVE, which the
  transition table of `app/speech/models.py` does not list. The model follows
  the scheduler (`SchedulerLaws.ImmediateActivationUnlisted`).
- **A drained waiter that wakes as a timeout** never signals the drain. Once
  everything admitted has left, a waiting `shutdown` can return exactly when no
  drained waiter did so, and when nothing is left that can move by itself every
  caller is done exactly then (`SchedulerShutdown.ShutdownReturnsFrom`,
  `SchedulerShutdown.ShutdownRunsExactly`, shown by
  `SchedulerShutdown.LostSignalWitness`).
- **`shutdown` returns early** when nothing is active, although its docstring
  says it waits for every cleanup: it leaves an empty scheduler exactly when no
  waiter that was cancelled with its connection or interrupted from outside is
  still in its handler (`SchedulerShutdown.EarlyReturn`,
  `SchedulerShutdown.EarlyReturnWitness`).
- **A phrase that succeeds and then raises.** When `run` raises after the
  operation (its handoff meets a settled future, `SchedulerLaws.SuccessRaises`),
  the background loop has already put the phrase's events and adds the
  failure's; `stream` drops them and yields the failure's alone. The loop's
  output is that of `stream` exactly when no phrase it took came to this with
  events to forward (`CoordinatorLaws.RefinesExactly`, shown by
  `CoordinatorLaws.LeakWitness`).
- **`drain` of the coordinator** is documented to keep later phrases from
  starting, but `feed_done` does not look at the draining flag. Whatever the
  loop is doing, no phrase can start after it exactly when the coordinator is
  done or cancelled, nothing is left to flush, or the loop is over, ending or at
  a phrase that fails (`CoordinatorLaws.DrainStopsExactly`).
- **An empty stream** shows the initial buffer: with a positive target it
  produces no events at all, with none a start and a stop
  (`Streaming.BufferingTransparent`). A response of completed streams therefore
  has its one AudioStart exactly when some stream had audio or no buffer;
  otherwise the wire carries an AudioStop alone (`Pipeline.WireConserves`, shown
  by `Pipeline.SilentWire`).
- **A stop without a start.** On failure before AudioStart
  `app/speech/envelope.py` promises only the error. A phrase that is rejected
  after its AudioStart has locked the format all the same, and the stop that
  closes the failure has no start before it. A stop comes without a start
  exactly when every phrase went well and none had a start, or the first phrase
  with one fails and its events are not forwarded
  (`CoordinatorEndings.StopWithoutStart`, shown by
  `CoordinatorEndings.OrphanWitness`).
- **Multipart contents** are recovered exactly when the delimiter does not occur
  in the content preceded by the blank line: a content that starts with
  `--boundary` is misread too (`MultipartLaws.UniqueDecodability`,
  `MultipartLaws.HiddenMeans`).
- **Two checks never fire**: the loop that enforces `retained_max`
  (`PhraseSegments.RetainedLoopIdle`) and the total-size check of `.s2voice`
  (`VoiceProfile.TotalSizeImplied`).

## Model

| member | source | states |
|---|---|---|
| PhraseText.PeriodCanResolve | app/speech/phrases.py:47-64 | the scan decides exactly whether something other than whitespace and closers follows the period; other characters need no resolution |
| PhraseText.ConfirmTerminator | app/speech/phrases.py:67-109 | the scanner decides exactly whether a phrase ends at a character: a hard terminal, or a period that something other than whitespace and closers follows and that is not between two digits, next to another period, or between a listed word and a letter |
| PhraseText.TerminatorsAreEnds | app/speech/phrases.py:67-109 | the boundaries of the specification are those characters, for every text and position |
| PhraseText.VerdictStable | app/speech/phrases.py:47-109 | once a character's verdict is decided it is the same in every extension of the text |
| PhraseText.UndecidedBlocks | app/speech/phrases.py:53-64 | while a period is undecided no later position is a boundary |
| PhraseText.FirstTerminatorStable | app/speech/phrases.py:155-162 | the first boundary of a text is the first boundary of every extension: none is retracted or overtaken |
| PhraseText.FirstTerminatorSeen | app/speech/phrases.py:155-162 | the first boundary of an extended text is already found in any prefix that reaches its deciding character |
| PhraseSegments.TurnBounds | app/speech/phrases.py:150-219 | a pass takes a non-empty prefix at most phrase_max long before its trailing closers, and every pass but the last shrinks the buffer |
| PhraseSegments.ExtractBounds | app/speech/phrases.py:146-238 | what is retained is at most phrase_max long, holds no confirmed boundary and no leading whitespace once something was emitted; every phrase is non-empty and bounded |
| PhraseSegments.RetainedLoopIdle | app/speech/phrases.py:221-235 | the retained_max loop finds nothing to do after extraction |
| PhraseSegments.EnforceBounds | app/speech/phrases.py:221-235 | from any buffer that loop would shrink to the limit in bounded phrases that show something, losing no text |
| PhraseSegments.ExtractConserves | app/speech/phrases.py:146-238 | phrases and retained text are the buffer, in order, once whitespace is deleted |
| PhraseSegments.TextConserved | app/speech/phrases.py:139-252 | over every sequence of feeds and flushes the emitted phrases and the buffer are the text handed over, in order, once whitespace is deleted |
| PhraseBoundaries.CutAtEnd | app/speech/phrases.py:154-173 | a phrase goes up to the first character that ends one and the closers after it, and parsing goes on after the whitespace that follows |
| PhraseBoundaries.CutAtFallback | app/speech/phrases.py:175-205 | an overlong text in which none ends is cut after the last whitespace within soft_max, else within phrase_max, else at phrase_max; a cut that shows nothing is skipped |
| PhraseBoundaries.Waits | app/speech/phrases.py:207-219 | anything shorter is retained, without leading whitespace once something was emitted |
| PhraseBoundaries.KeptWhole | app/speech/phrases.py:139-252 | a text within phrase_max in which no phrase ends comes out whole, however it was fed, and not at all if it is blank |
| PhraseBoundaries.SparedPeriodsKept | app/speech/phrases.py:87-109 | numbers, ellipses and titles are kept together: a text whose only terminals are such periods comes out as one phrase, however it was fed |
| PhraseInvariance.ShortTextFits | app/speech/phrases.py:155-162 | a text no longer than phrase_max never needs a fallback cut |
| PhraseInvariance.IncrementalIsWhole | app/speech/phrases.py:139-252 | feeding in any chunks and flushing yields the phrases of whole-text parsing, up to leading whitespace of each |
| PhraseInvariance.SplitAtHardDiffers | app/speech/phrases.py:79-80 | a text with a closer right after a hard terminal has a split that yields other phrases |
| PhraseInvariance.ChunkingInvariance | app/speech/phrases.py:139-252 | for texts whose boundaries are at most phrase_max apart, chunking does not matter exactly when no closer directly follows a hard terminal |
| PhraseFallback.UndecidedPeriodShows | app/speech/phrases.py:155-205 | a first period whose deciding character lies beyond phrase_max: the first phrase depends on the split just past the limit exactly when the fallback is not the end of the phrase |
| PhraseFallback.UndecidedPeriodWitness | app/speech/phrases.py:175-205 | a text without closers whose phrases vary with the split for that reason |
| PhraseFallback.ShiftShows | app/speech/phrases.py:168-219 | after a hard terminal, if leading whitespace changes the next phrase taken, the split right before that whitespace changes the phrases |
| PhraseFallback.ShiftedFallbackWitness | app/speech/phrases.py:175-219 | a text without closers whose phrases vary with the split for that reason |
| PhraseAccumulator.PhraseAccumulator.Create | app/speech/phrases.py:115-137 | null exactly for limits that the constructor refuses, otherwise a fresh accumulator |
| PhraseAccumulator.PhraseAccumulator.FeedChunk | app/speech/phrases.py:139-144 | the new buffer and the phrases are those of the specification, retained text and phrases within their bounds |
| PhraseAccumulator.PhraseAccumulator.ExtractPhrases | app/speech/phrases.py:146-238 | the extraction loop with the retained_max loop after it computes the specified phrases and rest |
| PhraseAccumulator.PhraseAccumulator.OnePass | app/speech/phrases.py:150-219 | one pass of the loop does what the specified turn does |
| PhraseAccumulator.PhraseAccumulator.EnforceRetained | app/speech/phrases.py:221-237 | the enforcement loop computes the specified phrases and rest |
| PhraseAccumulator.PhraseAccumulator.FlushResidual | app/speech/phrases.py:240-252 | the residual is emitted once, and only if it is not blank |
| Pcm.RechunkerRefinement | app/audio.py:213-242 | whatever the transport chunks, exactly the first n / chunk_bytes blocks are emitted, each stamped with the time of the frames before it; emitted and carry are the input and the carry is shorter than a chunk |
| Pcm.FlushRefinement | app/audio.py:244-267 | flush fails exactly when the input is not frame-aligned; otherwise feed and flush give the blocks of the whole input |
| Pcm.BlocksResume | app/audio.py:223-242 | cutting blocks may be interrupted anywhere and resumed with the remainder |
| Pcm.TimestampDrift | app/wyoming_server.py:86-109 | with rate * chunk_ms >= 1000 the buffered stamp of chunk k is ahead of the streamed one by at least 0 and less than 1000 k / rate + 1, and equal if rate * chunk_ms is a multiple of 1000 |
| Pcm.TimestampDriftShortChunks | app/audio.py:202-203 | with rate * chunk_ms below 1000 the buffered stamp never exceeds the streamed one |
| Rechunker.StreamingPCMRechunker.Create | app/audio.py:183-206 | null exactly for the arguments the constructor refuses, otherwise idle with the computed shape |
| Rechunker.StreamingPCMRechunker.Feed | app/audio.py:213-242 | carry, frame count and results are those of the specification |
| Rechunker.StreamingPCMRechunker.Flush | app/audio.py:244-267 | the remaining frames, or the partial-frame failure with the state unchanged |
| Rechunker.ChunkPcm | app/audio.py:270-294 | the whole blocks of the payload in order and then its non-empty remainder |
| Envelope.Continuity | app/speech/envelope.py:79-122 | accepted phrases come out as one continuous stream (one start, stamps by the frames before, no stop) carrying exactly their audio bytes |
| Envelope.FlowFacts | app/speech/envelope.py:124-178 | a continuous stream has one AudioStart for the locked format, no stop, and counts its audio bytes in frames |
| Envelope.StampsMonotone | app/speech/envelope.py:153-178 | stamps never go back and the closing stop is not before any of them |
| Envelope.OneResponse | app/speech/envelope.py:79-228 | a response whose phrases were all accepted forwards one start and all audio, and its closing stop carries the total |
| Envelope.RechunkedPhraseUnchanged | app/speech/envelope.py:79-178 | the output of one rechunker run passes unchanged but for its stop |
| Envelope.AudioEnvelope.Process | app/speech/envelope.py:79-122 | output, failure and new state of every event list are those of the specification, a rejected phrase keeping what it advanced |
| Envelope.AudioEnvelope.StartOnce | app/speech/envelope.py:124-151 | the first start locks the format, a later one is suppressed or rejected for drift |
| Envelope.AudioEnvelope.Restamp | app/speech/envelope.py:153-178 | an aligned chunk is restamped and counted, an empty one dropped, a misaligned one rejected |
| Envelope.AudioEnvelope.Shut | app/speech/envelope.py:182-228 | closing once yields the stop or the failure's events, a second time it is refused |
| EnvelopeAcceptance.AcceptedExactly | app/speech/envelope.py:79-178 | a phrase is accepted exactly when the envelope is open and the phrase is only stops, or has exactly one start, with no chunk before it, in the locked format if there is one, and whole frames of it at a positive rate |
| EnvelopeAcceptance.OneFormat | app/speech/envelope.py:136-148 | all starts of an accepted response have the format that is locked |
| EnvelopeAcceptance.NothingLost | app/speech/envelope.py:95-122 | an accepted phrase loses nothing but starts, stops and empty chunks: audio and other events come out in order |
| EnvelopeAcceptance.RejectedKeeps | app/speech/envelope.py:95-122 | a rejected phrase leaves the envelope as its longest prefix that could be scanned does |
| EnvelopeAcceptance.ClosedForGood | app/speech/envelope.py:90-198 | once closed it refuses every phrase and every further closing, unchanged |
| EnvelopeAcceptance.ClosesWith | app/speech/envelope.py:195-228 | success closes with a stop at the time of the audio, failure with that stop exactly if a format is locked |
| Streaming.TargetWithinCap | app/wyoming_server.py:547-579 | the initial-buffer target never exceeds the cap, and the cap is whole frames |
| Streaming.FillBuffer | app/wyoming_server.py:591-655 | buffered and carryover are the bytes read so far, the buffer stays within the cap, and it ends on the target, the end of the stream or its failure |
| Streaming.RunStream | app/wyoming_server.py:540-808 | events and outcome of one stream depend on its bytes and its end alone |
| Streaming.BufferingTransparent | app/wyoming_server.py:547-808 | the output is that of the unbuffered run exactly when playback starts, as it does for every stream that reaches EOF with audio |
| Streaming.BufferSettingsInvisible | app/wyoming_server.py:547-808 | two streams with the same non-empty audio that reach EOF look the same for all transport chunks, buffer settings and text lengths |
| Streaming.StartFirstAndOnce | app/wyoming_server.py:591-692 | a run's events begin with its only AudioStart, or there are none |
| Streaming.CompletedStreamConserves | app/wyoming_server.py:765-808 | a stream completes exactly on whole frames, and then its events carry exactly the bytes received |
| Streaming.RunAttempt | app/wyoming_server.py:506-875 | one attempt's events and outcome, and whether it may be retried |
| Streaming.Synthesize | app/wyoming_server.py:501-875 | the events of all attempts together are those of the last stream, all in the latest format declared by a stream opened up to then, else the configured one; every earlier attempt was retryable, and the attempts are bounded |
| Streaming.RetriedSilently | app/wyoming_server.py:841-875 | an attempt that was retried had shown nothing |
| StreamingLaws.SynthesisPlays | app/wyoming_server.py:518-808 | what is yielded is nothing, or a start, chunks of the size and time the format in force gives, and on completion a stop with the time of all bytes |
| StreamingLaws.EndsExactly | app/wyoming_server.py:506-890 | the outcome is that of the opening, the format or the end of the stream, and nothing is shown exactly when it did not play or ended before the initial buffer was full |
| StreamingLaws.RetriedExactly | app/wyoming_server.py:842-868 | an attempt is retryable exactly when it ended busy, showed nothing and had received nothing |
| StreamingLaws.TargetExactly | app/wyoming_server.py:547-579 | the initial buffer is the most whole frames within the long-form or the ordinary time, by the length of the text, and within the maximum |
| Streaming.PcmToAudioEvents | app/wyoming_server.py:71-112 | start, the payload's blocks stamped one chunk length apart, and the stop after them |
| StreamingLaws.BufferedPlays | app/wyoming_server.py:71-112 | a start, all bytes in whole chunks but perhaps the last, stamped one chunk length apart, and a stop after the last |
| Pipeline.CompletedStream | app/wyoming_server.py:540-808 | a completed stream is start, the blocks of its audio and a stop with the total, or nothing if it is empty and was to be buffered |
| Pipeline.PathsAgree | app/wyoming_server.py:86-109 | both paths play the same chunks, the short last one included; the stamps of chunk k differ by less than 1000 k / rate + 1 and agree when a chunk is whole frames |
| Pipeline.StreamedPhraseUnchanged | app/speech/envelope.py:79-178 | the envelope passes a first completed stream unchanged but for its stop; an empty one leaves no trace |
| Pipeline.ResponseConserves | app/speech/envelope.py:79-228 | the completed streams of any number of phrases are all accepted and forwarded as every byte received and a closing stop with the total, with one start exactly when some stream had audio or no buffer |
| Pipeline.OutputIsEnvelope | app/speech/stream_coordinator.py:129-161 | the output of answered phrases, from stream and from the loop, is what the envelope makes of their events, and the closing events |
| Pipeline.WireConserves | app/speech/stream_coordinator.py:312-374 | end to end: a run whose phrases were answered by completed streams puts exactly the bytes streamed, the total stop and one sentinel on the wire, with one start exactly when some stream had audio or no buffer |
| Pipeline.SilentWire | app/wyoming_server.py:599-660 | a complete run whose one stream was empty and to be buffered: the wire is an AudioStop at 0 and the sentinel |
| SchedulerSafety.StepInv | app/speech/scheduler.py:98-411 | every step of every interleaving keeps the scheduler's invariant |
| SchedulerSafety.RunInv | app/speech/scheduler.py:98-411 | the invariant holds after every run |
| SchedulerLaws.SafetyOfRuns | app/speech/scheduler.py:98-280 | in every reachable state at most the active entry operates, activation is FIFO, no waiters exist without an active entry, quiescence is depth 0 and the counters account for every call |
| SchedulerLaws.MutualExclusion | app/speech/scheduler.py:148-271 | at most one operation is in progress and it is the active entry's |
| SchedulerLaws.ActivationsGrow | app/speech/scheduler.py:264-271 | entries become active in strictly increasing admission order, a handoff going to the oldest waiter |
| SchedulerLaws.ActiveIsNewest | app/speech/scheduler.py:148-160 | the active entry is the newest of the activated and older than every waiter; without one there are no waiters |
| SchedulerLaws.StatesFollowTable | app/speech/models.py:43-66 | a step changes a record's state only along the table, and a record that is over never changes |
| SchedulerLaws.ImmediateActivationUnlisted | app/speech/scheduler.py:148-160 | a new record is WAITING, which the table allows, or at once ACTIVE, which it does not |
| SchedulerLaws.Conservation | app/speech/scheduler.py:428-448 | depth equals pending within max_size; calls are admitted or rejected; admitted are in flight or counted under exactly one outcome |
| SchedulerLaws.TallyCounts | app/counters.py:74-93 | each counter is the number of runs that ended for its reasons |
| SchedulerLaws.DoomedExactly | app/speech/scheduler.py:162-271 | a step loses the worker exactly when it falls in the settle-to-wake window |
| SchedulerLaws.DoomedRunsExactly | app/speech/scheduler.py:162-280 | a run loses the worker exactly when one of its steps falls in the window |
| SchedulerLaws.DoomedForever | app/speech/scheduler.py:162-280 | once lost, nothing ever operates or becomes active again |
| SchedulerLaws.HealthyHandover | app/speech/scheduler.py:264-271 | outside the window the end of an operation hands over to the oldest waiter, which is live and can resume |
| SchedulerLaws.MeasureDecreases | app/speech/scheduler.py:162-280 | without arrivals every advance of a run lowers the measure |
| SchedulerLaws.SomethingAdvances | app/speech/scheduler.py:162-280 | while anything is admitted and the worker is not lost, some run can advance without help and outside the window |
| SchedulerLaws.Progress | app/speech/scheduler.py:162-280 | without arrivals a state that is not doomed can be driven to depth 0 and every admitted run to one terminal state, within the measure |
| SchedulerLaws.AdvancesBounded | app/speech/scheduler.py:98-411 | a run that admits nothing has at most as many advances as the measure, whatever drains and cancellations come between |
| SchedulerLaws.RestIsEmpty | app/speech/scheduler.py:162-280 | every window-free run from a state that is not doomed, whatever it admits, drains and cancels, comes to rest exactly at depth 0, and then every admitted run is in one terminal state |
| SchedulerLaws.SuccessRaises | app/speech/scheduler.py:264-271 | a reachable state in which an operation that succeeds raises at the handoff |
| SchedulerLaws.StuckRun | app/speech/scheduler.py:162-271 | a concrete run after which the queue is empty and quiescent, yet a request admitted later waits behind an entry that is gone and can never operate |
| SchedulerOutcomes.OutcomesExactly | app/speech/scheduler.py:176-262 | in every reachable state a call is over exactly when a step of the run ended it, and COMPLETED, FAILED, TIMED_OUT or CANCELLED, with that reason, exactly as the operation or the wait ended |
| SchedulerOutcomes.CountersExactly | app/counters.py:62-93 | each counter is the number of steps of the run with that ending, and every call was admitted or rejected |
| SchedulerOutcomes.AdmissionExactly | app/speech/scheduler.py:115-160 | a call is refused, without further effect, exactly when a drain came before or max_size calls are still there; any other runs at once or joins the queue last |
| SchedulerOutcomes.DrainExactly | app/speech/scheduler.py:284-314 | the first drain marks and wakes exactly the queued calls, and a second one changes nothing |
| SchedulerOutcomes.CancelConnectionExactly | app/speech/scheduler.py:377-389 | exactly the calls of the connection leave the queue and are woken, the others keep their order, nothing else changes |
| SchedulerOutcomes.CancelActiveExactly | app/speech/scheduler.py:391-411 | cancelling by synthesis id or connection hits exactly when the operation in progress has it, and interrupts its task alone |
| SchedulerShutdown.DrainingStable | app/speech/scheduler.py:115-120 | after drain depth never rises and quiescence, the drain signal and an empty active slot persist |
| SchedulerShutdown.DrainAccount | app/speech/scheduler.py:303-308 | once draining, the counter is the drained waiters not yet cleaned up unless a signal was lost, and the drain event is set exactly when none is left and none was lost |
| SchedulerShutdown.LostExactly | app/speech/scheduler.py:451-460 | a signal is lost by exactly one step, a drained waiter waking as a timeout |
| SchedulerShutdown.LostRunsExactly | app/speech/scheduler.py:451-460 | over a whole run of scheduler and callers no signal is lost exactly when no drained waiter woke as a timeout |
| SchedulerShutdown.SysStepInv | app/speech/scheduler.py:316-373 | every step of scheduler and shutdown callers keeps the joint invariant |
| SchedulerShutdown.ShutdownIsFinal | app/speech/scheduler.py:316-373 | once a shutdown that found an active entry has returned, depth and pending are 0 and stay 0 |
| SchedulerShutdown.EarlyReturn | app/speech/scheduler.py:337-342 | shutdown returns at once exactly when nothing is active, leaving depth 0 exactly when no waiter cancelled with its connection or interrupted from outside is in cleanup |
| SchedulerShutdown.EarlyReturnWitness | app/speech/scheduler.py:337-342 | a run in which it returns with depth 1 |
| SchedulerShutdown.LostSignalHangs | app/speech/scheduler.py:334-335 | after a lost signal a caller waiting for the drain waits for ever |
| SchedulerShutdown.ShutdownReturnsExactly | app/speech/scheduler.py:316-373 | with everything gone, a waiting shutdown can return exactly when no signal was lost |
| SchedulerShutdown.ShutdownReturnsFrom | app/speech/scheduler.py:316-373 | in every reachable state with everything gone, a waiting shutdown can return exactly when no drained waiter woke as a timeout |
| SchedulerShutdown.ShutdownAtRest | app/speech/scheduler.py:316-373 | when no one can move without help, doomed or not, depth is 0, and every caller has returned or raised if no signal was lost, every caller waits for the drain if one was |
| SchedulerShutdown.ShutdownRunsExactly | app/speech/scheduler.py:316-373 | at rest after any run, all callers are done exactly when no drained waiter woke as a timeout |
| SchedulerShutdown.LostSignalWitness | app/speech/scheduler.py:176-199 | a run after which a shutdown can never return |
| ShutdownReports.ToldExactly | app/speech/scheduler.py:344-373 | in every reachable state a caller was told "clean" exactly when its grace period did not run out, and waited for an active entry exactly when it found one |
| ShutdownReports.CountsOwnDrain | app/speech/scheduler.py:330-342 | the number a caller is told is that of the waiters its own call drained |
| ShutdownReports.KeepsCount | app/speech/scheduler.py:330-373 | that number stays the same until the caller returns |
| ShutdownReports.GraceExactly | app/speech/scheduler.py:350-367 | when the grace period runs out the operation in progress, if any, is interrupted and nothing else changes |
| Counters.CumulativeCounters.RecordAdmitted | app/counters.py:62-66 | one more admitted, nothing else |
| Counters.CumulativeCounters.RecordRejected | app/counters.py:68-72 | one more rejected, nothing else |
| Counters.CumulativeCounters.RecordOutcome | app/counters.py:74-93 | one more under the counter of the reason, nothing else |
| Scheduler.SpeechScheduler.Create | app/speech/scheduler.py:40-67 | null exactly for a non-positive size, otherwise idle, and valid if the counters are at zero |
| Scheduler.SpeechScheduler.Enter | app/speech/scheduler.py:115-160 | the admission section is the admission step and keeps the invariant: refused when draining or full, else active at once or queued last |
| Scheduler.SpeechScheduler.Wake | app/speech/scheduler.py:162-175 | a woken waiter takes the worker it was handed; the invariant is kept |
| Scheduler.SpeechScheduler.Interrupted | app/speech/scheduler.py:162-164 | a timer or a cancellation from outside cancels a pending future with its waiting task; the invariant is kept |
| Scheduler.SpeechScheduler.WaitTimedOut | app/speech/scheduler.py:176-199 | the timeout handler is the leave step with reason queue_wait_timeout and keeps the invariant |
| Scheduler.SpeechScheduler.WaitCancelled | app/speech/scheduler.py:200-220 | the cancellation handler is the leave step that keeps an existing reason, and keeps the invariant |
| Scheduler.SpeechScheduler.OperationEnded | app/speech/scheduler.py:225-280 | outcome, counting and handoff are the finish step and keep the invariant; it raises exactly when the oldest waiter's future is settled |
| Scheduler.SpeechScheduler.RecordTerminalOnce | app/speech/scheduler.py:428-448 | an entry is counted once, under its reason |
| Scheduler.SpeechScheduler.SignalDrainDone | app/speech/scheduler.py:451-460 | only a drained entry counts down, and the last one sets the event |
| Scheduler.SpeechScheduler.DrainQueue | app/speech/scheduler.py:284-314 | every waiter is marked and its future cancelled, the queue emptied, once; the invariant is kept |
| Scheduler.SpeechScheduler.CancelWaiting | app/speech/scheduler.py:377-389 | the connection's waiters are cancelled and removed, the others keep their order; the invariant is kept |
| Scheduler.SpeechScheduler.CancelSynthesis | app/speech/scheduler.py:391-400 | the active task is cancelled exactly when the active entry has that synthesis id and a task; the invariant is kept |
| Scheduler.SpeechScheduler.CancelActiveForConnection | app/speech/scheduler.py:402-411 | the same by connection |
| CoordinatorSafety.CoordStepInv | app/speech/stream_coordinator.py:180-374 | every step of feeding, loop, consumer, cancellation and drain keeps the coordinator's invariant |
| CoordinatorLaws.DeliversLoopOutput | app/speech/stream_coordinator.py:312-374 | in every reachable state what was delivered is a prefix of what the loop puts for the phrases accepted; an uncancelled finished loop emitted all of it and one sentinel |
| CoordinatorLaws.SameOutputExactly | app/speech/stream_coordinator.py:108-161 | the loop puts for a phrase list what stream yields for it exactly when no phrase is spoken with events to forward and then raises |
| CoordinatorLaws.Refinement | app/speech/stream_coordinator.py:312-374 | in every reachable state in which no accepted phrase does so, what was delivered is a prefix of what stream yields, cancelled or not |
| CoordinatorLaws.RefinesExactly | app/speech/stream_coordinator.py:312-374 | a loop that finished uncancelled has emitted what stream yields and one sentinel exactly when no phrase it took did so |
| CoordinatorLaws.LeakWitness | app/speech/stream_coordinator.py:342-365 | a reachable state in which the consumer has an AudioStart that stream never yields |
| CoordinatorEndings.StopWithoutStart | app/speech/envelope.py:13-14 | the output has a stop with no start before it exactly when every phrase went well and none had a start, or the first with one fails without its events being forwarded |
| CoordinatorEndings.OrphansDelivered | app/speech/stream_coordinator.py:312-374 | in every reachable state such a stop was delivered only in those two cases, and a loop that finished uncancelled emitted one exactly then |
| CoordinatorEndings.OrphanWitness | app/speech/envelope.py:98-104 | a complete run whose one phrase is rejected after its start: stop, error, sentinel |
| CoordinatorErrors.FailureReported | app/speech/stream_coordinator.py:129-161 | for both interfaces the error occurs exactly when a phrase fails, then once and last, after a stop exactly if a start was locked by then; otherwise the output ends in its one stop |
| CoordinatorErrors.FailuresDelivered | app/speech/stream_coordinator.py:312-365 | over runs the error was delivered only if a phrase taken failed, and a loop that finished uncancelled has emitted it exactly then |
| CoordinatorErrors.CancelledReportsNothing | app/speech/stream_coordinator.py:352-365 | a cancelled coordinator with no error on its way never reports one |
| CoordinatorLaws.AcceptedPhrases | app/speech/stream_coordinator.py:180-208 | phrases taken and pending are those of the accumulator for the chunks fed |
| CoordinatorLaws.WholeText | app/speech/stream_coordinator.py:120-124 | a fresh stream speaks the phrases of its text as one chunk |
| CoordinatorLaws.ProgressiveIsStream | app/speech/stream_coordinator.py:108-208 | regular text fed in any chunks comes out as stream on the whole text and one sentinel, for replies that ignore leading whitespace, exactly when no phrase was spoken with events to forward and then raised |
| CoordinatorLaws.ParkedIsIdle | app/speech/stream_coordinator.py:323-336 | a loop parked on a clear ready event has nothing pending, is not done and not cancelled, and has put all it had |
| CoordinatorLaws.UnattendedCloser | app/speech/stream_coordinator.py:312-374 | once done, every step of loop or consumer, in any order, lowers a well-founded measure |
| CoordinatorLaws.RestIsComplete | app/speech/stream_coordinator.py:312-374 | once done, loop and consumer are at rest exactly when the loop is finished and the queue empty, and then exactly the loop's output and one sentinel were delivered |
| CoordinatorLaws.Completes | app/speech/stream_coordinator.py:312-374 | once done, in whatever order loop and consumer take their steps, they come to the end with exactly the loop's output and one sentinel delivered |
| CoordinatorLaws.DrainStopsExactly | app/speech/stream_coordinator.py:300-308 | after drain, whatever the loop is doing, no phrase can start exactly when the coordinator is done or cancelled, nothing is left to flush, or the loop is over, ending or at a phrase that fails |
| CoordinatorLaws.CancelledStartsNothing | app/speech/stream_coordinator.py:257-266 | once cancelled no phrase is taken any more |
| CoordinatorLaws.CancelSilences | app/speech/stream_coordinator.py:286-298 | after cancel the sentinel is next, no further event is received and the envelope is closed |
| Coordinator.StreamingCoordinator.Stream | app/speech/stream_coordinator.py:108-161 | refused after a start; else the events of every phrase in turn and the closing events, or those up to the first failure and the failure's, whether it raises on a closed envelope, and the whole state left behind |
| Coordinator.SoundDelivers | app/speech/stream_coordinator.py:312-374 | of the object: what its consumer has is a prefix of the loop's output, its queue holds at most one item, and its loop sleeps only with nothing to do |
| Coordinator.StreamingCoordinator.FeedChunk | app/speech/stream_coordinator.py:180-194 | the feed step: refused when done, cancelled or draining, else new phrases are queued and wake the loop; the invariant is kept |
| Coordinator.StreamingCoordinator.NoMoreText | app/speech/stream_coordinator.py:196-208 | the feed-done step: the residual is queued and the loop woken, once; the invariant is kept |
| Coordinator.StreamingCoordinator.Take | app/speech/stream_coordinator.py:244-253 | the oldest item of the queue; the invariant is kept |
| Coordinator.StreamingCoordinator.BeginCancel | app/speech/stream_coordinator.py:257-266 | nothing pending, the loop woken; the invariant is kept |
| Coordinator.StreamingCoordinator.EndCancel | app/speech/stream_coordinator.py:286-298 | envelope closed, the queue holds the sentinel alone; the invariant is kept |
| Coordinator.StreamingCoordinator.TaskCancelled | app/speech/stream_coordinator.py:367-374 | the handler marks the coordinator cancelled and closes the envelope; the invariant is kept |
| Coordinator.StreamingCoordinator.Drain | app/speech/stream_coordinator.py:300-308 | nothing pending and draining; the invariant is kept |
| Coordinator.StreamingCoordinator.LookForWork | app/speech/stream_coordinator.py:319-340 | the loop's check: leave, park, close or take the oldest phrase |
| Coordinator.StreamingCoordinator.PhraseReturned | app/speech/stream_coordinator.py:342-365 | a phrase's events are to be put, before the failure's if run raised after them, or the failure is handled at once |
| Coordinator.StreamingCoordinator.RunRaised | app/speech/stream_coordinator.py:354-365 | what run raised closes the envelope and puts the failure's events and the sentinel, unless cancelled |
| Coordinator.StreamingCoordinator.Advance | app/speech/stream_coordinator.py:312-374 | one run of the loop between suspensions is the loop step; the invariant is kept |
| Utf8.Utf8Bijection | app/voice_profile.py:195-201 | strict UTF-8 decoding accepts exactly the encodings, and undoes them |
| Utf8.OctetsExactly | app/voice_profile.py:195-201 | the octets of a character are those of the table in section 3 of RFC 3629 |
| LittleEndian.IntBijection | app/voice_profile.py:119-129 | 32-bit fields are a bijection, two's complement |
| LittleEndian.IntsBijection | app/voice_profile.py:203-214 | so are arrays of them |
| VoiceProfile.ReadWritten | app/voice_profile.py:119-129 | a written header is read back |
| VoiceProfile.ProfileBijection | app/voice_profile.py:100-223 | parsing a byte string gives a profile exactly when the profile is within the bounds and the bytes are its serialization |
| VoiceProfile.SurvivesExactly | app/voice_profile.py:100-223 | a profile survives storage exactly when it is within the bounds |
| VoiceProfile.NoTrailingNoTruncated | app/voice_profile.py:172-185 | an accepted file is refused with anything appended or cut off anywhere |
| VoiceProfile.TotalSizeImplied | app/voice_profile.py:157-177 | the total-size check never fires |
| VoiceLayout.LayoutExactly | app/voice_profile.py:112-223 | an accepted file is magic, version 1, four signed fields, two lengths, transcript and zero octet, and codes, at fixed offsets and little-endian |
| VoiceLayout.StorableExactly | app/voice_profile.py:144-177 | the bounds of a profile, in numbers |
| VoiceLayout.RefusedExactly | app/voice_profile.py:100-223 | a file is refused for the first check it fails, in the order of the parser, and accepted exactly if it fails none |
| Multipart.QuoteRoundTrip | app/s2_client.py:46-48 | quoting is undone for every value, whatever follows the closing quote |
| Search.NoOverlap | app/s2_client.py:66-87 | a delimiter whose first octet occurs nowhere else in it cannot overlap itself |
| MultipartLaws.EntityRead | app/s2_client.py:65-85 | header parameters and content of a part are read back |
| MultipartLaws.UniqueDecodability | app/s2_client.py:51-89 | the printed parts are recovered in order exactly when no content hides the delimiter |
| MultipartLaws.HiddenMeans | app/s2_client.py:66-87 | hiding means: no CRLF--boundary inside and no --boundary at the start |
| MultipartForm.QuoteCommutes | app/s2_client.py:46-48 | quoting text and quoting its UTF-8 octets is the same |
| MultipartForm.EncodeForm | app/s2_client.py:51-89 | the content type names the given or the generated boundary, and the two loops print the body of the form's parts in order under it |
| MultipartBytes.BodyBytes | app/s2_client.py:36-89 | that body, literal by literal: delimiter lines, header lines with quoted names, "true" and "false" for booleans, contents and the closing line |
| MultipartForm.FormDecodability | app/s2_client.py:51-89 | the fields' and files' parts are recovered exactly when no value and no file content hides the delimiter |
| MultipartForm.BodyDeterminesForm | app/s2_client.py:51-89 | undelimited forms with the same body are the same form, up to how a value came to be shown |

## Left out

- Sockets, HTTP, threads and the s2.cpp backend: the backend is a script of transport chunks and ways to end, the synthesis function a script of replies.
- Clocks: every deadline and timer is a step or an ending that may happen at any time.
- PhraseInvariance.ChunkingInvariance: exact for texts whose boundaries are at most phrase_max apart; for longer gaps `PhraseFallback` gives the two ways in which the fallback cut depends on the chunks, each with its input, but no single condition on the text, because how much whitespace can be left in the buffer after a cut depends on how the cut itself came about.
- Float rounding: chunk sizes, buffer sizes and time stamps are exact rational floors.
- Logging, metrics, text fingerprints and snapshots: they change none of the modelled state.
- Scheduler entries and futures are values in one list indexed by admission number, not shared objects; each future belongs to one call of `run`, so no aliasing is lost.
- Operations ending in KeyboardInterrupt, SystemExit or the like: they leave the terminal reason unset and fall outside the counters.
- A shutdown caller that is itself cancelled while waiting.
- The repeated call of `start` or `output_events`, and `run_progressive`: thin wrappers around the modelled loop.
- A `cancel` that overlaps `stream`: the sequential interface is modelled as running alone.
- A background task cancelled before its first step: the model lets the CancelledError handler act there as well.
- A consumer that abandons the audio generator early, and the sleep between retries.
- Declared-format header parsing, negative rates, widths and channels in envelope events, and the envelope's record of its final stop.
- Constructor refusals of `chunk_pcm_s16le`: the buffered path is modelled for positive formats only.
- Strings that UTF-8 cannot encode (lone surrogates), for which the multipart printer raises.
- Case-insensitive header names, other parameters and other header encodings in the multipart reader, which reads what the printer can print and skips unknown header lines.
- Multipart field names are a list; that a Python dict holds each name once plays no part.
- `FakeTtsEventHandler`, the service lifecycle, voice discovery, the admin server, environment parsing and hashing: not part of the speech pipeline modelled here.
