# Verified model of the SkyWalking Go agent core

This project models the concurrent and algorithmic core of the SkyWalking Go agent in Dafny and
proves what its comments, tests and documentation promise. `dafny verify dfyconfig.toml` checks
all of it.

## What is modelled

- **The segment collector protocol** (`SegmentProtocol`, `SegmentInvariant`, `SegmentTheorems`,
  `SegmentHistory`).
  Spans of one segment are created, written, reused and ended by any number of goroutines. They
  share an atomic reference count and an atomic span id generator, and a collector goroutine
  decides from counts alone when the segment is complete. The model is a transition system: one
  step is one atomic load, compare-and-swap, add or swap, one critical section of a span, one
  rendezvous on an unbuffered channel, or one step of a collector. The invariant uses history
  variables (which spans registered, which value the swap took) and a pigeonhole step from equal
  counts to equal sets. A snapshot that continues in another goroutine is a parent like any
  other: creation under a span is allowed at any time, also after that span has ended.
  `SegmentHistory` looks at runs together with the steps taken: what the goroutines called for
  alone decides the state of every span that is sent.
- **The span lifecycle** (`DefaultSpans`, `SpanHistory`). Each section guarded by `opLock` is a function on the
  guarded state, which the protocol takes as a step, and a method of a class that holds the fields.
  The laws are about whole runs of sections in any order.
- **The ignore-path matcher** (`PathMatcher`). Mutually recursive backtracking loops, proved equal
  to a declarative pattern language (a name is accepted when it can be cut into pieces, one for
  each token of the pattern).
- **Context propagation** (`Base64`, `HeaderText`, `SpanContexts`). Printing and parsing of the
  `sw8` and `sw8-correlation` headers over base64 (section 4 of RFC 4648).
- **Trace profiling** (`EventManager`, `ProfilingWriter`, `ProfilePipeline`, `ProfileHistory`). The rule engine, the
  chunking writer with the backing array that it shares with sent chunks, and the whole pipeline
  as a transition system: timers, profiler, monitor, writer lock, raw channel and labelling
  goroutine.
- **Connections** (`ConnectionManager`, `ConnectionHistory`, `FirstFrameReader`). Reference-counted
  sharing with a
  dial between two critical sections, and the detector of the first HTTP/2 frame (section 4.1 of
  RFC 9113).
- **Metrics** (`Histogram`, `Counter`, `CounterHistory`, `CounterHandOver`). Both builders of bucket bounds, the
  bucket search, the hand-over of live bucket cells, the two-part lock-free counter, and the
  hand-over of a counter while others go on counting.
- **Labels and ids** (`LabelSet`, `IdContext`).

Clocks, the iteration order of maps, the bytes a connection delivers, the outcome of a dial or of
starting the profiler, and the capacity chosen when a slice grows are parameters or free choices
of the model. Errors and panics are results (`Result`, `Option`, `Outcome`).

## Where the code does less than one may expect

- `SpanContexts.SW8RoundTrip`: the header round trip holds exactly for a non-negative sample flag
  and parent span id, because the minus sign is also the separator; the receiver then gets an
  error. The agent itself only sends non-negative values (`plugins/core/tracing.go:152-155`).
- `Histogram.BuildersAgree`: the toolkit's builder compares a step only with the greatest one
  before it, so `1, 3, 1` passes (`Histogram.ToolkitMissesARepetition`); the agent's builder panics
  on every repetition. The two agree exactly when the steps are distinct or one of them repeats the
  greatest before it. `Histogram.BoundsIncreaseIff` says exactly when the bounds increase strictly.
- `ProfilePipeline.FailedStartBlocksForGood`: another profile can start after a moment of a run
  exactly if no start has failed before it. If the CPU profiler cannot be started, the current task
  is never cleared; the test of its end time before a new task is set makes no difference, because
  the flag still forbids setting one. `ProfilePipeline.ProfilesAgainIffNotBlocked` states the same
  on the state alone, and `ProfilePipeline.StartCanFail` gives a run into such a state.
- `PathMatcher.AcceptsTheLanguageIff`: the end of a string is read as a NUL byte. The loops accept
  exactly the language, on all names, exactly if no NUL byte of the pattern stands directly after a
  star, and none is followed by NUL bytes and stars that still match past the end of the name
  (`NulSafe`). A pattern without stars is harmless; a NUL byte and a final star are not, they
  accept the empty name. The loops never miss a name of the language (`PathMatcher.MatcherMissesNothing`).
  Names may contain NUL bytes; the language says what they do.
- `ConnectionManager.StaysOpenIff`: nothing checks that a client releases only what it holds. Over
  a whole run, a connection is never closed while it is held exactly if it is not closed at all or
  was hit by no release that did not give back one of its own handles. At any moment, a release by
  someone without a handle closes a held connection exactly if its holders outnumber such earlier
  releases by one (`ConnectionManager.UnheldReleaseClosesHeldConnection`).
- `CounterHandOver.LostIffAddedAfterTheCopy`: after a counter has been handed over, it is short of
  exactly the increments that reached the toolkit's counter after its value was copied.
- `IdContext.UniqueIff`: ids are unique exactly when no two calls a multiple of 10000 apart see the
  same time; which time a call sees is given by the readings of the clock, also of one that goes
  back. With a clock that never goes back that means at most 10000 calls in a millisecond
  (`IdContext.UniqueIffNotTooFast`).

## Model

| member | source | states |
|---|---|---|
| `SegmentTheorems.SentOnceAndComplete` | plugins/core/span_tracing.go:386-428 | In every interleaving a segment is sent at most once, and what is sent is exactly the spans admitted to it, each once, the root last, all frozen with an end time |
| `SegmentTheorems.SentIsATree` | plugins/core/span_tracing.go:224-251 | Span ids of a sent segment are distinct, the root has 0, every other span names the strictly smaller id of its parent in the same report, and all share one trace id |
| `SegmentTheorems.ReportsAreFinal` | plugins/core/span_tracing.go:144-154 | A report is never altered later, no span joins its segment any more, and the data it carries is what the spans keep |
| `SegmentTheorems.DropsAreUnreachable` | plugins/core/span_tracing.go:127-138 | The `collectorDone` branches of both end0 functions are never enabled |
| `SegmentTheorems.EndedSpanIsNotLost` | plugins/core/span_tracing.go:278-287 | A frozen span has been received, or a goroutine is handing it to a collector that still receives |
| `SegmentTheorems.StoppedMeansNoSender` | plugins/core/span_tracing.go:413-426 | Once the collector has stopped receiving, no goroutine sends to it, now or at any later state |
| `SegmentTheorems.SwappedSegmentIsClosed` | plugins/core/span_tracing.go:212-222 | After the root has swapped refNum to -1, no span joins the segment |
| `SegmentTheorems.CreationJoinsOrStartsAfresh` | plugins/core/span_tracing.go:32-51 | Whatever a creation publishes is a child in its parent's segment, or, after the swap, the root of a fresh segment with the parent's trace id and a reference to the parent's segment |
| `SegmentHistory.UndisturbedCreation` | plugins/core/span_tracing.go:212-222 | A load of a segment not yet swapped, directly followed by the compare-and-swap, publishes exactly one span, a child with the drawn id, and the goroutine is done; after the swap the load alone publishes the root of a fresh segment |
| `SegmentHistory.RegistersIffUnchanged` | plugins/core/span_tracing.go:212-222 | In every run a compare-and-swap publishes its span if and only if refNum has had one value since the load of the same goroutine; otherwise the goroutine goes back to the load with its id |
| `SegmentHistory.CreatedAsAsked` | plugins/core/span_tracing.go:224-299 | A published span has the parent that its goroutine was last given, or none and the given trace id, and the given initial state |
| `SegmentHistory.TraceIsThatOfTheOrigin` | plugins/core/span_tracing.go:224-299 | Every span carries the trace id given to the creation at which its chain of parents begins |
| `SegmentHistory.IdsAreDrawnInOrder` | plugins/core/span_tracing.go:241-241 | The n-th creation under a segment draws the id n |
| `SegmentHistory.AnyCallAnyTime` | plugins/core/tracing.go:57-66 | An idle goroutine may create under, write to, reuse, prepare, finish or end any span at any time, ended or not |
| `SegmentHistory.SpanIsWhatWasAsked` | plugins/core/span_default.go:86-384 | The state of every span at any time is that after the sections which the goroutines called for on it, in order: what is proved of runs of sections holds of the spans of the protocol |
| `SegmentHistory.SectionsKeepProgramOrder` | plugins/core/span_tracing.go:119-125 | The freeze of a finisher comes after its own stamp, in every interleaving |
| `SegmentHistory.FinishGoesOnIff` | plugins/core/span_default.go:367-384 | AsyncFinish goes on to stamp and freeze if and only if the span is frozen, or prepared and not finished; otherwise it panics and does no more |
| `SegmentHistory.WritesAreReported` | plugins/core/span_tracing.go:386-428 | A write before the freeze is in the data that is sent, unless a later write of its kind replaced it |
| `SegmentTheorems.NextOwnStep` | plugins/core/span_tracing.go:413-427 | When all spans of a segment have ended, one of its own hand-over or collector steps is enabled and brings it closer to its report |
| `SegmentTheorems.FinishedSegmentCanBeSent` | plugins/core/span_tracing.go:374-430 | From any reachable state in which all spans of a segment have ended, a run of those steps reaches its report: no deadlock |
| `SegmentTheorems.ReachableInv` | plugins/core/span_tracing.go:32-51 | The invariant holds in every reachable state |
| `SegmentInvariant.InvKept` | plugins/core/span_tracing.go:212-287 | Every step of every goroutine keeps the whole invariant |
| `SegmentInvariant.StoppedHasAll` | plugins/core/span_tracing.go:420-422 | Equal counts mean that every registered span has been received |
| `SegmentInvariant.SenderHasReceiver` | plugins/core/span_tracing.go:127-138 | A pending hand-over finds its collector receiving |
| `SegmentInvariant.KeepSenders` | plugins/core/span_tracing.go:113-125 | No two goroutines ever run end0 for the same span |
| `SegmentInvariant.KeepDrawn` | plugins/core/span_tracing.go:241-241 | Two creations in progress never hold the same id of a segment |
| `SegmentProtocol.Collect` | plugins/core/span_tracing.go:386-423 | The collector's loop stops at the first message where count and number of spans agree, with the spans in order of arrival, in the state of the transition system |
| `DefaultSpans.FrozenDataIsFixed` | plugins/core/span_default.go:247-261 | Once frozen, a span stays frozen and all reported fields keep their values through any sections |
| `DefaultSpans.AtMostOneFreeze` | plugins/core/span_default.go:287-329 | However finishers race, at most one is told to hand the span over |
| `DefaultSpans.EndedIffHandedOver` | plugins/core/span_default.go:253-261 | A span is frozen exactly when some finisher was told to hand it over |
| `DefaultSpans.EndedHasEndTime` | plugins/core/span_tracing.go:119-125 | A frozen span has an end time |
| `DefaultSpans.SyncCount` | plugins/core/span_default.go:275-310 | Before the freeze of a synchronous span the counter is reuses minus Ends and never negative |
| `DefaultSpans.SyncFreezesAtLastOwner` | plugins/core/span_default.go:68-72 | A synchronous span is handed over exactly at the first End whose ordinal is reuses-so-far plus one |
| `SpanHistory.FreezesExactly` | plugins/core/span_default.go:253-329 | For every run of sections, async or not: an action freezes the span if and only if it is open and the action is a finisher's freeze, or the End of the last owner of a span never prepared for async nor stamped |
| `SpanHistory.AsyncIsFrozenByItsFinisher` | plugins/core/span_default.go:311-329 | No End freezes a span in async mode |
| `SpanHistory.AsyncFromPrepareOn` | plugins/core/span_default.go:351-384 | Until the freeze, async mode lasts from the first PrepareAsync on, and is finished from the first AsyncFinish after that on |
| `SpanHistory.PanicsExactly` | plugins/core/span_default.go:351-384 | A call panics if and only if the span is open and it prepares a second time, or finishes without preparing or a second time |
| `SpanHistory.OwnersAreCounted` | plugins/core/span_default.go:275-310 | In every run the counter of an open span is reuses minus Ends, until the last owner gives it up |
| `SpanHistory.LastStampWins` | plugins/core/span_default.go:232-245 | The end time is that of the last stamp before the freeze |
| `SpanHistory.OwnerStamps` | plugins/core/span_default.go:294-329 | Without a stamp, the end time is that of the End by which the last owner gave the span up |
| `SpanHistory.WritesBeforeTheFreezeShow` | plugins/core/span_default.go:86-212 | A write before the freeze shows in its own field, tag, log or reference, unless a later write of its kind replaced it |
| `SpanHistory.ListsAreWhatWasWritten` | plugins/core/span_default.go:168-273 | Logs and references of an open span are exactly those written, in order, and the error flag is set exactly if it was raised |
| `SpanHistory.UntaggedKeyStays` | plugins/core/span_default.go:150-164 | Only a tag with its key changes the value of a key |
| `SpanHistory.DropsAreNoted` | plugins/core/span_default.go:86-94 | The note of a dropped call is made if and only if a call that it covers came after the freeze |
| `DefaultSpans.TaggedAt` | plugins/core/span_default.go:157-163 | A tag overwrites the first entry with its key, or is appended |
| `DefaultSpans.PairedGrows` | plugins/core/span_default.go:168-181 | One more log argument opens a pair at an even position and completes the last pair at an odd one |
| `DefaultSpans.DefaultSpan.SetOperationName` | plugins/core/span_default.go:86-94 | Writes the name, or drops the write and notes it after the freeze; nothing else changes |
| `DefaultSpans.DefaultSpan.SetPeer` | plugins/core/span_default.go:102-110 | The same for the peer |
| `DefaultSpans.DefaultSpan.SetSpanLayer` | plugins/core/span_default.go:118-126 | The same for the layer |
| `DefaultSpans.DefaultSpan.SetComponent` | plugins/core/span_default.go:134-142 | The same for the component |
| `DefaultSpans.DefaultSpan.Tag` | plugins/core/span_default.go:150-164 | The same for a tag |
| `DefaultSpans.DefaultSpan.PutTag` | plugins/core/span_default.go:157-163 | The loop over the tags finds the first entry with the key |
| `DefaultSpans.DefaultSpan.AppendLog` | plugins/core/span_default.go:168-181 | The loop over the arguments builds the pairs of one log entry |
| `DefaultSpans.DefaultSpan.Log` | plugins/core/span_default.go:183-191 | Appends one log entry unless frozen |
| `DefaultSpans.DefaultSpan.Error` | plugins/core/span_default.go:193-202 | Sets the error flag and appends one log entry unless frozen |
| `DefaultSpans.DefaultSpan.ErrorOccured` | plugins/core/span_default.go:204-212 | Sets the error flag unless frozen |
| `DefaultSpans.DefaultSpan.AppendRef` | plugins/core/span_default.go:265-273 | Appends a reference unless frozen |
| `DefaultSpans.DefaultSpan.EnterReuse` | plugins/core/span_default.go:279-285 | Counts one more owner unless frozen |
| `DefaultSpans.DefaultSpan.PrepareAsync` | plugins/core/span_default.go:351-365 | Enters async mode; dropped when frozen, a panic when already in it |
| `DefaultSpans.DefaultSpan.AsyncFinish` | plugins/core/span_default.go:367-384 | Marks the async part finished; dropped when frozen, a panic when not in async mode or already finished |
| `DefaultSpans.DefaultSpan.EndSyncAndFreeze` | plugins/core/span_default.go:294-329 | One End: gives back a reuse, or stamps the end time once and freezes unless async |
| `DefaultSpans.DefaultSpan.End` | plugins/core/span_default.go:232-245 | Stamps the end time unless frozen |
| `DefaultSpans.DefaultSpan.EndAndFreeze` | plugins/core/span_default.go:253-261 | Freezes, and says whether this call did it |
| `DefaultSpans.DefaultSpan.FinishAsync` | plugins/core/span_tracing.go:119-125 | The three sections of AsyncFinish: freeze with the end time set, a no-op on a frozen span, or a panic that changes nothing |
| `PathMatcher.MatcherAcceptsTheLanguage` | plugins/core/tracer_ignore.go:56-134 | For a pattern without NUL bytes, or whose NUL bytes do no harm, and any name, the loops accept exactly the declared language; the early returns at a slash lose no match |
| `PathMatcher.AcceptsTheLanguageIff` | plugins/core/tracer_ignore.go:56-141 | The loops accept exactly the language on all names if and only if the NUL bytes of the pattern do no harm |
| `PathMatcher.MatcherMissesNothing` | plugins/core/tracer_ignore.go:56-134 | For any pattern and name, NUL bytes included, the loops accept every name of the language |
| `PathMatcher.PlainPrefix` | plugins/core/tracer_ignore.go:75-77 | All other bytes match themselves only |
| `PathMatcher.PlainPattern` | plugins/core/tracer_ignore.go:75-77 | A pattern without wildcards accepts itself only |
| `PathMatcher.FinalWildcards` | plugins/core/tracer_ignore.go:75-96 | At the end `?` is one byte other than a slash, `*` has no slash but a closing one, `**` is anything |
| `PathMatcher.InnerWildcards` | plugins/core/tracer_ignore.go:98-134 | Before a plain rest `*` is a run without slash and `**` anything, with the slash right after it |
| `PathMatcher.NormalIffMatch` | plugins/core/tracer_ignore.go:58-80 | The same from any position in pattern and name |
| `PathMatcher.WildEndMeansFinalRun` | plugins/core/tracer_ignore.go:85-96 | A final `*` takes a slash-free run and at most one closing slash |
| `PathMatcher.RunMatch` | plugins/core/tracer_ignore.go:98-114 | A `*` inside the pattern takes any slash-free run |
| `PathMatcher.DeepMatch` | plugins/core/tracer_ignore.go:117-134 | `**` takes any string and absorbs the slash right after it |
| `PathMatcher.NulPatternMatchesTooMuch` | plugins/core/tracer_ignore.go:136-141 | For every pattern whose NUL bytes do harm there is a name that the loops accept outside the language |
| `PathMatcher.NormalPastEnd` | plugins/core/tracer_ignore.go:58-80 | Past the end of the name, what the loops accept depends on the rest of the pattern alone |
| `PathMatcher.NulExamples` | plugins/core/tracer_ignore.go:136-141 | Without a star NUL bytes do no harm; a NUL byte and a final star accept the empty name |
| `PathMatcher.NormalMatch` | plugins/core/tracer_ignore.go:58-80 | The loop terminates and computes the position predicate, for all strings |
| `PathMatcher.WildcardMatch` | plugins/core/tracer_ignore.go:82-115 | The same after a single star |
| `PathMatcher.MultiWildcardMatch` | plugins/core/tracer_ignore.go:117-134 | The same after a double star |
| `PathMatcher.TraceIgnorePath` | plugins/core/tracer_ignore.go:44-54 | A name is ignored whenever some pattern stands for it, and for harmless patterns only then |
| `Base64.DecodeEncode` | plugins/core/propagating.go:225-235 | Decoding an encoding gives back any byte string |
| `Base64.EncodeEmitsNoSeparator` | plugins/core/propagating.go:233-235 | An encoding contains no header separator and no line break |
| `Base64.EncodingOfGroup` | plugins/core/propagating.go:233-235 | The definition in section 4 of RFC 4648: each three bytes as one number in four digits of the alphabet, most significant first, with padding for missing bytes |
| `Base64.LettersAreTheAlphabet` | plugins/core/propagating.go:233-235 | The letters are Table 1 of RFC 4648 |
| `Base64.AnyQuad` | plugins/core/propagating.go:225-231 | Four letters written by anyone decode to the three bytes of their number |
| `Base64.AnyPaddedQuad` | plugins/core/propagating.go:225-231 | A padded group decodes to one or two bytes, whatever the unused bits |
| `Base64.LineBreaksAreSkipped` | plugins/core/propagating.go:225-231 | Line breaks are skipped wherever they stand |
| `HeaderText.SplitJoin` | plugins/core/propagating.go:125-125 | Parts without the separator survive joining and splitting |
| `HeaderText.JoinSplit` | plugins/core/propagating.go:125-125 | Splitting cuts at every separator and drops nothing else |
| `HeaderText.ParseItoa` | plugins/core/propagating.go:220-223 | A non-negative number in range survives printing and parsing, with base 10 and with base detection |
| `HeaderText.ParseAnyNumber` | plugins/core/propagating.go:220-223 | Any number, with its sign, is parsed if and only if it fits the type |
| `HeaderText.NumberExamples` | plugins/core/propagating.go:169-172 | Decimal notation, most significant digit first |
| `SpanContexts.SW8RoundTrip` | plugins/core/propagating.go:121-178 | For arbitrary byte strings the header restores all eight fields exactly when sample and parent span id are not negative, and fails to parse otherwise |
| `SpanContexts.HeaderOnTheWire` | plugins/core/propagating.go:167-178 | The header has eight parts: sample, trace id, parent segment id, parent span id, service, instance, endpoint, address, in this order |
| `SpanContexts.AnyHeader` | plugins/core/propagating.go:121-164 | A header joined by anyone from such parts yields exactly these fields, and yields some only if all eight parts are well formed; further parts are ignored |
| `SpanContexts.CorrelationRoundTrip` | plugins/core/propagating.go:181-218 | For every map and every iteration order the correlation header gives back the map, empty keys, values and maps included |
| `SpanContexts.CorrelationOnTheWire` | plugins/core/propagating.go:208-218 | One entry for each key in iteration order, the key before the value |
| `SpanContexts.AnyCorrelation` | plugins/core/propagating.go:181-205 | Entries joined by anyone yield, for each key that some entry shows, the value of the last one, and no other key |
| `SpanContexts.CollectedEntries` | plugins/core/propagating.go:187-203 | Reading the printed entries collects exactly the visited keys with their values |
| `SpanContexts.SpanContext.Header` | plugins/core/propagating.go:167-178 | Prints the eight fields |
| `SpanContexts.SpanContext.CorrelationHeader` | plugins/core/propagating.go:208-218 | The loop prints the entries in iteration order |
| `SpanContexts.SpanContext.DecodeSW8` | plugins/core/propagating.go:121-164 | Fills all fields and sets valid, or reports the first malformed field and leaves valid as it was |
| `SpanContexts.SpanContext.DecodeSW8Correlation` | plugins/core/propagating.go:181-205 | The loop collects the well-formed entries and skips the others |
| `SpanContexts.SpanContext.DecodeFrom` | plugins/core/propagating.go:89-103 | Both headers with their missing and failing cases |
| `SpanContexts.Propagate` | plugins/core/propagating.go:89-118 | From one process to the next everything arrives, or the receiver has an error and no valid context |
| `EventManager.EvalDefined` | plugins/core/trace_profiling_event_manager.go:118-149 | An expression has a value exactly when it has rules, all events are registered and all operators after the first are AND or OR |
| `EventManager.EvalMeans` | plugins/core/trace_profiling_event_manager.go:130-148 | Its value is true exactly when a rule that starts it or is OR-ed in holds and so do all AND-ed rules after that |
| `EventManager.ProfileRulesMean` | plugins/core/profile_event_manager.go:28-58 | What CouldProfile and CouldSetCurTask say about the two flags |
| `EventManager.Manager.EvalExpr` | plugins/core/trace_profiling_event_manager.go:118-149 | The loop computes the value or the first error |
| `EventManager.Manager.ExecuteComplexEvent` | plugins/core/trace_profiling_event_manager.go:107-115 | Evaluates the registered expression, or reports a missing one |
| `EventManager.Manager.UpdateBaseEventStatus` | plugins/core/trace_profiling_event_manager.go:84-93 | Changes a registered flag only |
| `EventManager.Manager.RegisterProfileEvents` | plugins/core/profile_event_manager.go:28-58 | Registers the two flags as false and the two rules |
| `ProfilingWriter.AllChunksConserve` | plugins/core/profile_writer.go:45-83 | The chunks of a flushed profile carry exactly the written bytes, all but the last are full, and only the last is isLast |
| `ProfilingWriter.ChunksConserve` | plugins/core/profile_writer.go:51-61 | Sent chunks plus the buffer are the written bytes, and the buffer stays shorter than a chunk |
| `ProfilingWriter.ChunksOfConcat` | plugins/core/profile_writer.go:46-64 | How the bytes are split over Write calls does not matter |
| `ProfilingWriter.Writer.Write` | plugins/core/profile_writer.go:46-64 | Sends the chunks that filled up, keeps the rest, and leaves the bytes of all chunks sent earlier alone though they share the array |
| `ProfilingWriter.Writer.Append` | plugins/core/profile_writer.go:49-49 | Appending, in place or into a larger array, alters no chunk already sent |
| `ProfilingWriter.Writer.Flush` | plugins/core/profile_writer.go:67-83 | Sends the rest as the last chunk and starts a new buffer |
| `ProfilingWriter.WriteAll` | plugins/core/profile_writer.go:36-83 | Any Write calls and a Flush send the chunks of all the bytes |
| `ProfilePipeline.ResultsAreAttributed` | plugins/core/profile.go:67-123 | At every moment the results are the complete blocks of all earlier sessions under their own tasks and a beginning of the last one's; the "no task" branch is never taken |
| `ProfileHistory.ResultsAreTheTimers` | plugins/core/profile.go:67-123 | When no task is current, the results are, for each start of the profiler, the block of the bytes written since that start under the task whose timer was the last to go on; at any other time a beginning of that |
| `ProfileHistory.SessionsAreAsAsked` | plugins/core/profile.go:205-243 | Each session has the task of the timer and the bytes of the writes that were asked for |
| `ProfileHistory.SessionIsOfItsTimer` | plugins/core/profile.go:205-243 | A session starts for the task whose timer took the lock, which has not been free since |
| `ProfileHistory.FiredTaskIsProfiled` | plugins/core/profile.go:205-299 | A timer that fires with the lock free, no current task and no installed task has its own task profiled |
| `ProfileHistory.OneTaskAtATime` | plugins/core/profile.go:214-218 | Between two timers that go on, the task of the first has been removed |
| `ProfilePipeline.FinishedSessionsAreComplete` | plugins/core/profile.go:96-112 | When no task is current, the results are exactly the blocks of all sessions |
| `ProfilePipeline.BlockIsOneProfile` | plugins/core/profile.go:97-119 | A block has one task id, ends in its only isLast, and its payloads add up to what the profiler wrote |
| `ProfilePipeline.FlagsMean` | plugins/core/profile.go:223-299 | IfProfiling implies CurTaskExist, CurTaskExist tells whether a task is current, and a running profiler belongs to the current task |
| `ProfilePipeline.FailedStartBlocksForGood` | plugins/core/profile.go:223-275 | Another profile can start after a moment of a run if and only if no start has failed before it |
| `ProfilePipeline.ProfilesAgainIffNotBlocked` | plugins/core/profile.go:263-275 | From a reachable state another profile can start if and only if it is not the case that a task is current without a session and the timer is not about to start it; with the lock free and no session, if and only if no task is current |
| `ProfilePipeline.BlockedIffAStartFailed` | plugins/core/profile.go:223-243 | A pipeline is blocked in this way exactly if some start has failed |
| `ProfilePipeline.BlockedStays` | plugins/core/profile.go:263-275 | From a blocked state the task stays current and sessions and results stay as they are, whatever happens |
| `ProfilePipeline.StartCanFail` | plugins/core/profile.go:231-235 | A run into a blocked state |
| `ProfilePipeline.SessionCanFinish` | plugins/core/profile.go:67-123 | From every reachable state with a session in progress, some continuation delivers its whole block and clears the task: no deadlock |
| `ProfilePipeline.InvKept` | plugins/core/profile.go:309-319 | Every step of timers, profiler, monitors, writer and labelling goroutine keeps the invariant |
| `ConnectionManager.RefCountIsHolders` | plugins/core/reporter/conn_manager.go:160-192 | In every interleaving in which clients release only what they hold, the reference count of an address is the number of its holders, and an address without connection has none |
| `ConnectionManager.RefCountIsHoldersLessStray` | plugins/core/reporter/conn_manager.go:160-192 | In every run whatsoever the count of an installed connection is positive, and is the number of its holders less the stray releases that hit it |
| `ConnectionManager.ClosedWithHoldersIffStray` | plugins/core/reporter/conn_manager.go:516-531 | Once a connection is closed, the handles still out and those given back late add up to the stray releases that hit it |
| `ConnectionManager.StaysOpenIff` | plugins/core/reporter/conn_manager.go:516-531 | Over a whole run a connection is never closed while held if and only if it is not closed or no stray release has hit it |
| `ConnectionManager.HeldConnectionIsOpen` | plugins/core/reporter/conn_manager.go:516-531 | While clients release only what they hold, or at least no stray release has hit this connection, a held connection is the installed one and has not been closed |
| `ConnectionManager.EveryConnectionIsInOnePlace` | plugins/core/reporter/conn_manager.go:171-192 | Every dialled connection is installed, closed or with the goroutine that dialled it, and never two of these, whatever clients release |
| `ConnectionManager.AllReleasedMeansAllClosed` | plugins/core/reporter/conn_manager.go:516-531 | When all handles are back and nobody is acquiring, the table is empty and every connection closed |
| `ConnectionHistory.HandleIsWhatWasAskedFor` | plugins/core/reporter/conn_manager.go:160-192 | What an acquisition gives out is the connection installed for the address that the same goroutine asked for |
| `ConnectionHistory.EveryCallIsAnswered` | plugins/core/reporter/conn_manager.go:160-192 | Every call has given out a handle, has failed to dial, or is under way |
| `ConnectionManager.UnheldReleaseClosesHeldConnection` | plugins/core/reporter/conn_manager.go:516-531 | In any reachable state a release without a handle closes the connection of the address, while it is held, if and only if its holders outnumber earlier stray releases by one; without misuse before, if and only if there is one holder |
| `ConnectionManager.HeldConnectionCanBeClosed` | plugins/core/reporter/conn_manager.go:516-531 | A run in which this happens |
| `ConnectionManager.Manager.TryAcquire` | plugins/core/reporter/conn_manager.go:162-169 | The first critical section of GetConnection |
| `ConnectionManager.Manager.InstallOrJoin` | plugins/core/reporter/conn_manager.go:176-191 | The second one: joins a connection installed meanwhile, or installs the dialled one |
| `ConnectionManager.Manager.ReleaseConnection` | plugins/core/reporter/conn_manager.go:516-531 | Counts down, and closes and removes the connection at zero |
| `FirstFrameReader.Reader.Read` | plugins/core/reporter/conn_manager.go:317-333 | Passes the bytes on and removes the deadline exactly at the read that completes the first frame |
| `FirstFrameReader.ThresholdIsFixed` | plugins/core/reporter/conn_manager.go:324-326 | The frame is complete exactly from 9 plus the 24-bit length on |
| `FirstFrameReader.CompleteMeans` | plugins/core/reporter/conn_manager.go:324-326 | The frame is complete from nine bytes and the big-endian number in the first three on |
| `FirstFrameReader.FragmentationDoesNotMatter` | plugins/core/reporter/conn_manager.go:306-316 | Two fragmentations of the same bytes agree on when the frame is complete |
| `FirstFrameReader.ReadAll` | plugins/core/reporter/conn_manager.go:317-333 | Over any reads the deadline is removed once, at the first read that completes the frame, or never |
| `Histogram.InitBuckets` | plugins/core/metrics/bridge.go:177-200 | The in-place insertion sort yields the sorted steps with the least bound in front, and panics exactly on a step equal to the greatest before it, or without steps |
| `Histogram.InsertionSort` | plugins/core/metrics/bridge.go:178-190 | The sorting loop with its check against the element before |
| `Histogram.InsertKey` | plugins/core/metrics/bridge.go:185-189 | The inner loop inserts the key after the elements not above it |
| `Histogram.RepeatsMaximumMeans` | plugins/core/metrics/bridge.go:182-184 | A step repeats the greatest before it exactly if it equals the last of those before it when they are sorted, which is what the check looks at |
| `Histogram.BoundsFromSteps` | plugins/core/metrics.go:337-357 | The agent's builder panics exactly on a repetition, or without steps |
| `Histogram.EqualNeighbours` | plugins/core/metrics.go:345-352 | Equal neighbours in the sorted steps are found exactly when the steps do not increase strictly |
| `Histogram.SortedIsUnique` | plugins/core/metrics.go:344-344 | There is only one sorted permutation of the steps |
| `Histogram.BuildersAgree` | plugins/core/metrics/bridge.go:177-200 | Both builders give the same bounds or the same panic if and only if the steps are distinct or one repeats the greatest before it |
| `Histogram.BoundsIncreaseIff` | plugins/core/metrics.go:343-355 | The bounds increase strictly exactly for distinct steps and a least value not above any of them |
| `Histogram.ToolkitMissesARepetition` | plugins/core/metrics/bridge.go:182-184 | Steps such as 1, 3, 1 pass the toolkit's check |
| `Histogram.MissedRepetitionShows` | plugins/core/metrics/bridge.go:177-200 | The buckets built from such steps have bounds that do not increase strictly |
| `Histogram.BucketIsGreatestNotAbove` | plugins/core/metrics.go:292-312 | Over increasing bounds the bucket is that of the greatest bound not above the value, and there is none exactly below the first |
| `Histogram.FindBucket` | plugins/core/metrics.go:292-312 | The binary-search loop, on any bounds |
| `Histogram.AgentHistogram.ObserveWithCount` | plugins/core/metrics.go:286-290 | Adds the count to the cell of the bucket and to no other |
| `Histogram.AgentHistogram.FromExisting` | plugins/core/metrics.go:319-335 | The new histogram shares bounds and cells with the existing one |
| `Histogram.ToolkitHistogram.ObserveWithCount` | plugins/core/metrics/bridge.go:138-153 | The same through the replaceable function |
| `Histogram.ObserveAcrossHandOver` | plugins/core/metrics.go:77-80 | Observations before and after the hand-over, through either object, leave the counts of one reference histogram, and for increasing bounds in each bucket those of the observations that belong to it |
| `Histogram.ReferenceCounts` | plugins/core/metrics.go:286-312 | For increasing bounds each bucket counts exactly the observations from its bound up to the next one |
| `Histogram.CountsAddUp` | plugins/core/metrics/bridge.go:132-144 | The buckets add up to the observations not below the first bound |
| `Counter.NoIncrementIsLost` | plugins/core/metrics.go:207-225 | Under any interleaving the value is the start value plus all finished increments |
| `Counter.GetIsBetween` | plugins/core/metrics.go:201-205 | A Get returns a value between the totals at its start and its end |
| `Counter.LaterGetStartsHigher` | plugins/core/metrics.go:201-205 | A Get that follows another starts at no less than what the other returned |
| `Counter.TotalNeverDecreases` | plugins/core/metrics.go:207-225 | The value never goes down |
| `Counter.StartKeepsValue` | plugins/core/metrics.go:172-187 | Taking over a counter keeps its value |
| `CounterHistory.AskedIsCountedOrPending` | plugins/core/metrics.go:207-225 | Every increment asked for is in the value or still in its retry loop |
| `CounterHistory.AskedIsCounted` | plugins/core/metrics.go:207-225 | When no Inc is under way the value is the start value plus all increments asked for |
| `CounterHistory.GetReturnsBetween` | plugins/core/metrics.go:201-205 | A Get returns a value between the total when it was called and the total when it returns |
| `CounterHandOver.LostIffAddedAfterTheCopy` | plugins/core/metrics.go:69-72 | In every interleaving of increments with the hand-over, the counter ends short of exactly the increments added to the toolkit's counter after the copy; positive increments are all counted if and only if there is none of these |
| `CounterHandOver.AskedIsAddedOrPending` | plugins/core/metrics.go:69-72 | Every increment asked for has reached one of the two counters or is about to |
| `CounterHandOver.IncrementCanBeLost` | plugins/core/metrics/bridge.go:67-74 | A run that loses an increment which had loaded the toolkit's function before the hand-over |
| `LabelSet.UpdateTraceLabels` | plugins/core/prof_labels.go:149-176 | The result is strictly sorted by key and denotes the labels overridden by the arguments, the last occurrence winning; an odd number of arguments panics |
| `LabelSet.PairsAt` | plugins/core/prof_labels.go:154-157 | Keys are the arguments at even positions, each with the value after it |
| `LabelSet.MapMeans` | plugins/core/prof_labels.go:164-173 | In what a list denotes the last label of each key counts |
| `LabelSet.LessMeans` | plugins/core/prof_labels.go:159-162 | The order of keys is that of the first byte in which they differ, a proper prefix first |
| `LabelSet.SliceStable` | plugins/core/prof_labels.go:159-162 | The sort is stable: sorted by key, and the labels of each key keep their order |
| `LabelSet.Dedupe` | plugins/core/prof_labels.go:164-173 | The loop keeps the last label of each key and the meaning of the list |
| `LabelSet.SameKeysSameMap` | plugins/core/prof_labels.go:159-162 | Only the order within each key matters for what a list denotes, which is why stability is needed |
| `LabelSet.StrictlySortedIsCanonical` | plugins/core/prof_labels.go:164-175 | The result is determined by what it denotes |
| `IdContext.EqualIdsIff` | plugins/core/id.go:75-98 | For any clock two ids are equal exactly when their timestamps are equal and the calls lie a multiple of 10000 apart |
| `IdContext.IdShows` | plugins/core/id.go:75-98 | An id is 10000 times its timestamp plus the number of the call, from 1 to 10000 and round again |
| `IdContext.ConsecutiveIdsAreDistinct` | plugins/core/id.go:75-98 | Any 10000 consecutive ids are distinct |
| `IdContext.UniqueIff` | plugins/core/id.go:75-98 | For any clock, ids are unique if and only if no two calls a multiple of 10000 apart see the same time, in terms of the readings alone |
| `IdContext.TimeFromReadings` | plugins/core/id.go:79-90 | The timestamp of a call: the reading, or, when that is behind an earlier one, how often the reading has changed between calls behind |
| `IdContext.SameShiftIff` | plugins/core/id.go:81-87 | Two calls behind get the same timestamp exactly if all calls behind between them see the same reading |
| `IdContext.UniqueWithDistantEpoch` | plugins/core/id.go:31-36 | With readings above the number of calls only equal readings clash |
| `IdContext.UniqueIffNotTooFast` | plugins/core/id.go:79-90 | With a clock that never goes back, ids are unique exactly when no millisecond sees more than 10000 calls |
| `IdContext.IDContext.NextID` | plugins/core/id.go:75-77 | One id from the timestamp and the sequence number |
| `IdContext.IDContext.ReadTimestamp` | plugins/core/id.go:79-90 | The clock, or the shift counter while the clock is behind |
| `IdContext.IDContext.ReadSeq` | plugins/core/id.go:92-98 | The sequence number, from 1 to 10000 and round again |
| `IdContext.Generate` | plugins/core/id.go:75-98 | The ids of a whole run of calls |

## Left out

- Liveness of segments: a span that never ends keeps its segment open; the segment claims are safety claims, with `FinishedSegmentCanBeSent` for the absence of deadlock.
- Overflow of reference counts, span ids, counters and bucket cells, and rounding of floats: unbounded integers and reals are used instead.
- Operation names, correlation stores, FirstSpan and sampling in the segment protocol: they do not influence what is collected. Segment and trace ids are opaque there.
- Goroutine-local bookkeeping: the active span and the So11y counters.
- The log output of dropped writes; only the flag that limits it is modelled.
- SpanContexts.SpanContext.DecodeSW8: the values of the fields after a failed parse are not stated, because every caller drops the context then.
- DefaultSpans.DefaultSpan.FinishAsync: its three sections run without interference here; interleavings with other sections are part of the transition system.
- Failing injectors of Encode: network plumbing, the error is passed on.
- The suffix list of the ignore rule: a plain search.
- The status field of a profile task, the overlap test of queued tasks and the removal of reported ones: a start may fail for any reason in the model, and a task may be removed at any time.
- ProfilePipeline: accesses to the flags are atomic steps; that one of them is made without the event manager's own lock (`plugins/core/profile.go:111`) is a matter of Go maps that the model does not capture.
- Sequential consistency is taken for the atomics, as the Go memory model gives it.
- The growth policy of slices: any sufficient capacity is allowed.
- The connection status watcher, Close, dialing, TLS, resolvers and reporters: network plumbing.
- The toolkit's counter before its hand-over adds without synchronization; here each of its additions is one step.
- Concurrency of histogram observations: the hand-over is proved for observations one after another, in any order and through either object.
- Gauges, runtime metrics, samplers, log reporting, CDS and pprof tasks: easy members or library calls.
- Goroutine labels and the conversion of label sets for old Go versions.
