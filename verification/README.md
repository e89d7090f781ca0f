# Streaming text-to-speech: a verified model

A Dafny model of a streaming text-to-speech service: the chunked decoder (Python and the C++
backend), the batched front half, incremental clause synthesis with its cache, the gateway's
admission, endpoint pool and handlers, and playback accounting on both sides of the socket.

`dafny verify dfyconfig.toml` checks the whole project.

## What is proved

- **Chunked decoding is the single pass.** `Nets` and `Locality` build decoders from dilated and
  upsampling convolutions, residual sums and gates, and prove that an output frame depends only
  on the frames within a radius that adds up along a stack. `Decoding` turns this into slice
  locality, `Streaming` proves the stream equal to the single pass for every cut of the utterance
  into consecutive spans (if and only if the fades are neutral where they are heard), `Planner`
  and `Chunked` instantiate it with the planning loop. Without a crossfade, streaming is invisible
  for all decoders of radius `R` if and only if `R` is at most the overlap, whatever the first
  size, the maximum and the growth.
- **The C++ backend** (`Backend`, `TtsStream`): strided upload, zero padding, trimming and PCM
  conversion on real arrays with every access in bounds; what is sent is characterised exactly for
  long and for short utterances, and so is the set of engine minima that leave long utterances
  alone. In `Protocol` the calls that fail, sends included, decide the whole run of a request;
  `Client` composes it with the receive loop and says what is delivered, and when a truncated reply
  passes for a complete one.
- **Batching is invisible** (`Alignment`, `Frontend`, `Hygiene`, `Debatch`, `Serving`): the tensor
  form of alignment is run-length expansion; a ragged batch gives each item what it gets alone; two
  layers of token padding and the de-batching compose with it.
- **Online is offline** (`TextSplit`, `Clauses`, `Words`, `Fragments`, `Incremental`, `Lru`): the units
  of any text are characterised on its characters; fragments of
  single-spaced text emit the clauses of splitting it at once if and only if no fragment starts
  inside a word; the cache is the last distinct keys in recency order.
- **Gateway state** (`Admission`, `Pool`, `Gateway`, `Service`): interleaved atomic steps of any
  number of callers; conservation, an exact overshoot bound, cooldown safety, health as history,
  balance, and handlers and controller in step, which bounds leases by the admission ceiling.
- **Underruns** (`Underruns`): both counters against a player that stalls.

## What the proofs found

- `push` puts a blank at a cut inside a word, so the emitted text always differs there
  (`Fragments.FragmentationIsInvisibleIff`).
- The backend does not look at what its sends return. A single failing send drops one chunk from
  the middle of a reply, the later chunks and the final mark still arrive, and the client reports
  success (`Client.AnyChunkCanGoMissing`). What is delivered is a prefix if and only if no send
  before a delivered chunk failed (`Client.PrefixIffNoGap`).
- An aborted stream whose error response cannot be made or sent leaves the client with a prefix;
  when the server then ends the stream normally, the client reports success
  (`Client.TruncatedSuccess`, `Client.AnyPrefixCanPassForAll`). A response made for a chunk whose
  output or buffer call fails is never sent (`Protocol.ReleasedExactlyOnce`).
- A reply that is silent throughout has a different length in a batch than alone
  (`Debatch.TrimRecoversItem`); a request of several rows gets its own row only behind single-row
  requests (`Debatch.OwnRowIffSingleRows`).
- An engine minimum above `overlap + 1` pads the planned last chunk of some utterance beyond every
  length (`Backend.LargerMinimumPadsLongUtterances`), and then the PCM sent is wrong for some decoder
  of every radius from one to the overlap (`Backend.LongStreamsInvisiblyIff`).
- The underrun count never misses a stall but can go on counting after a single one; it is the
  number of stalls if and only if every flagged chunk is later than all before it
  (`Underruns.CountIsStallsIff`, `Underruns.OneStallManyFlags`).

## Model

| member | source | states |
|---|---|---|
| Nets.RadiiAdd | streaming/chunked.py:18-30 | the receptive radius of a stack of convolutions is the sum of the layers' radii |
| Locality.OutputDependsOnRadius | streaming/chunked.py:27-30 | what a decoder emits for a frame is decided by the frames (and utterance ends) within its radius, through any composition of convolutions, upsampling, residuals and gates |
| Decoding.ConvDecoderIsLocal | streaming/chunked.py:199-203 | a convolutional decoder has a fixed number of samples per frame and decodes windows slice-locally at its radius |
| Decoding.WindowSamples | streaming/chunked.py:234-251 | frames with context inside a window decode to the samples the whole utterance gives them |
| Planner.PlanIsPartition | streaming/chunked.py:217-223 | the planned spans are nonempty, consecutive and cover the utterance |
| Planner.PlanSizes | streaming/chunked.py:217-223 | every chunk but the last has the size the growth schedule has reached |
| Planner.SizesRise | streaming/chunked.py:218-223 | sizes rise strictly to the maximum and then stay there |
| Planner.PlanGrows | streaming/chunked.py:217-223 | on the spans: the first takes the first size, each later one the maximum once the length before it plus one, or the whole part of that length times the growth, reaches it, else the larger of the two |
| Planner.WarmSizesGrow | backends/tts_stream/src/tts_stream.cc:284-293 | the warm-up sizes start at the first size, grow by the same arithmetic and end at the maximum |
| Planner.EverySizeIsWarmed | backends/tts_stream/src/tts_stream.cc:284-293 | the warm-up loop visits every size the planner can reach |
| Planner.OverlapTax | streaming/chunked.py:229-243 | n chunks decode between T and T + 2P(n-1) frames |
| Streaming.StreamedLength | streaming/chunked.py:247-259 | any chunks of any crossfade yield exactly the samples of the frames they cover |
| Streaming.ChunkIsGain | streaming/chunked.py:247-260 | with enough context a chunk is the single-pass audio times the gain of the fade pair over the carried samples, shortened tails included |
| Streaming.ChunkIsSinglePass | streaming/chunked.py:247-260 | a chunk equals its part of the single pass iff at each blended sample the fades add to one or the audio is silent |
| Streaming.StreamIsSinglePass | streaming/chunked.py:229-260 | the same for the concatenated stream of any consecutive spans |
| Streaming.EqualGainIsNeutral | streaming/chunked.py:254-259 | fade pairs that add to one leave the stream equal to the single pass when R + ceil(xf/hop) <= P |
| Streaming.ShorterOverlapClicks | streaming/chunked.py:27-29 | for every P < R and every first chunk of m frames some decoder of radius R and some utterance give a wrong sample in frame m - 1 |
| Chunked.QuantiseIsFaithful | streaming/chunked.py:262-263 | PCM fits 16 bits, is monotone and odd, and falls short of the sample by less than one step inside the clip range, never beyond it |
| Chunked.LinearIsEqualGain | streaming/chunked.py:163-171 | the linear fade pair adds to one at every length |
| Chunked.LinearMovesOver | streaming/chunked.py:163-171 | the linear pair fades the carried side from one to zero and the new side from zero to one in equal steps |
| Chunked.LinearBlendIsBetween | streaming/chunked.py:255-258 | a linear seam starts with the carried sample, ends with the chunk's own and lies between them throughout |
| Chunked.RoundIsNearest | streaming/chunked.py:143-145 | frame counts are rounded to nearest, ties to even |
| Chunked.ProductIs | streaming/chunked.py:136-138 | the hop multiplies over the stages, from one |
| Chunked.WastedIs | streaming/chunked.py:285-288 | the share reported wasted is that of the frames decoded and not kept |
| Chunked.EqualPowerAmplifies | streaming/chunked.py:167-169 | a cos/sin pair makes a sample common to both sides louder |
| Chunked.ChunkedSynthesizer.constructor | streaming/chunked.py:131-156 | derived frame counts satisfy 1 <= first <= max and the crossfade is capped by the decoded context |
| Chunked.ChunkedSynthesizer.Create | streaming/chunked.py:136-141 | set-up yields a synthesizer exactly when the upsample rates multiply to more than one |
| Chunked.ChunkedSynthesizer.PlanChunks | streaming/chunked.py:217-223 | the planning loop terminates and produces the plan |
| Chunked.ChunkedSynthesizer.StreamLatents | streaming/chunked.py:205-288 | chunks in plan order with index, finality, PCM and samples of the specification; total length T * hop; stats add up |
| Chunked.ChunkedSynthesizer.DecodeChunk | streaming/chunked.py:229-277 | one turn: decode with clamped context, trim, blend the carried tail, hand on the next |
| Chunked.ChunkedSynthesizer.Mixed | streaming/chunked.py:255-258 | the in-place blend changes exactly the carried head |
| Chunked.ChunkedSynthesizer.StreamIsDecodeFull | streaming/chunked.py:199-259 | without crossfade or with the linear one the stream is `decode_full`, for every utterance and every plan |
| Chunked.ChunkedSynthesizer.InvisibleIffOverlapCovers | streaming/chunked.py:27-30 | without a crossfade, the stream is the single pass for all decoders of radius R and all utterances iff R is at most the overlap |
| Chunked.ChunkedSynthesizer.ConvolutionsStreamInvisibly | streaming/chunked.py:18-30 | the same for a convolutional decoder whose radius plus fade fits the overlap |
| Chunked.ChunkedSynthesizer.SeamPositions | streaming/chunked.py:305-314 | the seams are the interior chunk boundaries in samples |
| Backend.PaddedExactlyWhenShort | backends/tts_stream/src/tts_stream.cc:328-334 | with min_window <= P+1 a window is zero-padded exactly when T < min_window, and is then the whole utterance |
| Backend.LargerMinimumPadsLongUtterances | backends/tts_stream/src/tts_stream.cc:328-334 | above P+1, beyond every length there is an utterance whose planned last chunk, of one frame, is padded |
| Backend.OnlyShortArePaddedIff | backends/tts_stream/src/tts_stream.cc:328-334 | no planned window of an utterance of at least min_window frames is padded iff min_window <= P+1 |
| Backend.LongStreamsInvisiblyIff | backends/tts_stream/src/tts_stream.cc:328-380 | for a radius R <= P, all long utterances are sent as their single pass by all decoders iff R == 0 or min_window <= P+1 |
| Backend.LongChunk | backends/tts_stream/src/tts_stream.cc:372-380 | for T >= min_window a chunk is the quantised single-pass audio of its frames |
| Backend.ShortChunk | backends/tts_stream/src/tts_stream.cc:345-350 | for T < min_window it is that of the zero-extended utterance |
| Backend.SentIsSinglePass | backends/tts_stream/src/tts_stream.cc:450-475 | all PCM sent for a request, both cases, for the planner's chunks |
| Backend.WindowsFitAndAreWarm | backends/tts_stream/src/tts_stream.cc:266-293 | every planned window fits the buffers; non-final chunks with full context have a warmed shape |
| TtsStream.RowsAreWindow | backends/tts_stream/src/tts_stream.cc:336-351 | the channel-by-channel strided copy is the latent window followed by zero frames |
| TtsStream.ModelInstanceState.Create | backends/tts_stream/src/tts_stream.cc:254-310 | an instance comes about iff every checked set-up call succeeds; a refused shape is passed over |
| TtsStream.ModelInstanceState.Init | backends/tts_stream/src/tts_stream.cc:254-310 | buffers sized for the largest window, every shape the engine takes warmed |
| TtsStream.TakenIsWarmed | backends/tts_stream/src/tts_stream.cc:294-301 | a planner shape whose set-up call succeeds is among the warmed ones |
| TtsStream.ModelInstanceState.WarmUp | backends/tts_stream/src/tts_stream.cc:284-293 | the warm-up loop ends and lists the shapes |
| TtsStream.ModelInstanceState.DecodeWindow | backends/tts_stream/src/tts_stream.cc:319-382 | returns the PCM of the kept frames of the padded window, all accesses in bounds |
| TtsStream.ModelInstanceState.ProcessRequest | backends/tts_stream/src/tts_stream.cc:387-549 | log and number of calls are those the outcomes of the calls decide, sends included; with no failing call a tensor of the wrong type or shape leaves exactly one final error response, any other all its chunks |
| TtsStream.ModelInstanceState.StreamChunks | backends/tts_stream/src/tts_stream.cc:448-549 | the same for the chunk loop: a failed send goes unnoticed, any other failure ends the request |
| TtsStream.ModelInstanceState.ProcessRequests | backends/tts_stream/src/tts_stream.cc:384-551 | every request of a group leaves a log of its own, starting where the calls of the one before end |
| Protocol.ServeIsPossible | backends/tts_stream/src/tts_stream.cc:387-549 | whichever calls fail, chunks are handed over in plan order with their own index and finality, all of them iff complete |
| Protocol.WholeIffAllSucceed | backends/tts_stream/src/tts_stream.cc:387-549 | every chunk goes out whole and arrives iff the request is acceptable and none of its 4 + 9n calls fails |
| Protocol.SilentAbort | backends/tts_stream/src/tts_stream.cc:397-409 | decode and error response failing after k chunks leave exactly those k and no word |
| Protocol.LostChunk | backends/tts_stream/src/tts_stream.cc:539-544 | when only the send of chunk k fails the request completes without it |
| Protocol.BreakAt | backends/tts_stream/src/tts_stream.cc:473-508 | the first failing call among the four that ready chunk k leaves the k chunks before it; the next call makes the error response and the one after decides whether it arrives |
| Protocol.BreakEarly | backends/tts_stream/src/tts_stream.cc:412-443 | the same for input, properties, a refused tensor and the buffer, with no chunk out |
| Protocol.BareChunk | backends/tts_stream/src/tts_stream.cc:513-537 | a failing call while index or mark is attached costs chunk k just that scalar |
| Protocol.ReleasedExactlyOnce | backends/tts_stream/src/tts_stream.cc:393-409 | request released once and last, factory made and deleted equally often, every response handed to one send but the orphan |
| Protocol.FinalityIsOrdered | backends/tts_stream/src/tts_stream.cc:539-544 | nothing is sent after a final response, so at most one is |
| Protocol.OneFinalCall | backends/tts_stream/src/tts_stream.cc:401-406 | exactly one send is flagged final unless the request never started or its error response could not be made |
| Protocol.LogOnWire | backends/tts_stream/src/tts_stream.cc:467-549 | what reaches the client is the chunks whose send succeeded, in order, then at most one failure |
| Client.StreamAudio | gateway/internal/tritonclient/client.go:265-325 | the receive loop delivers chunks until an error, a refusal, the final mark or the end |
| Client.DeliveredIsHeard | gateway/internal/tritonclient/client.go:291-324 | backend and client composed: delivered PCM is the chunks whose send succeeded, in plan order; when success is reported |
| Client.PrefixIffNoGap | gateway/internal/tritonclient/client.go:291-324 | what is delivered is a chunk-aligned prefix iff no send before a delivered chunk failed |
| Client.AllDeliveredIff | gateway/internal/tritonclient/client.go:291-324 | all audio is delivered iff the request completes and every send succeeds |
| Client.TruncatedSuccess | gateway/internal/tritonclient/client.go:293-295 | exactly when success is reported on truncated audio |
| Client.TruncatedSuccessOfCalls | gateway/internal/tritonclient/client.go:293-295 | the same condition on the run the outcomes of the calls decide |
| Client.AnyPrefixCanPassForAll | gateway/internal/tritonclient/client.go:293-295 | for every k some failing calls have exactly the first k chunks delivered and success reported |
| Client.AnyChunkCanGoMissing | gateway/internal/tritonclient/client.go:291-324 | for every k one failing call drops chunk k alone and success is reported |
| Client.BrokenChunkIsReported | gateway/internal/tritonclient/client.go:291-324 | when a call breaks chunk k off the client has the first k chunks and fails, unless the error response is not received and the stream ends normally |
| Client.RefusalIsReported | gateway/internal/tritonclient/client.go:291-324 | a request given up before its stream delivers nothing and fails, with the same exception |
| Client.BareChunkIsHeard | gateway/internal/tritonclient/client.go:304-324 | a scalar that could not be attached costs no audio |
| Client.RefusedChunkEndsIt | gateway/internal/tritonclient/client.go:318-320 | a consumer that refuses chunk k has exactly the chunks before it, and the call fails |
| Client.EmptyResponsesAreSkipped | gateway/internal/tritonclient/client.go:299-302 | responses without a payload change nothing |
| Client.PieceIsOwn | gateway/internal/tritonclient/client.go:304-316 | a delivered chunk has its own audio, its own index where attached, and the mark only if it is the last |
| Client.CompleteReplyIsSinglePass | gateway/internal/tritonclient/client.go:291-324 | what a completed request delivers is the quantised single-pass decode of its latents iff every send succeeds |
| Tokens.PadVals | gateway/internal/tritonclient/client.go:202-209 | the input in front and the number 0 at every later index, in a new buffer; longer input returned as is |
| Tokens.BucketTokens | gateway/internal/tritonclient/client.go:211-231 | ids and mask in front and 0 after them, up to the least multiple of 16 that holds them |
| Tokens.PadTwice | model_repo/vits_frontend/1/model.py:123-128 | padding a bucket to the batch is padding once |
| Alignment.ExpandAt | streaming/trt_frontend.py:79-84 | each token owns the frames between its running totals |
| Alignment.ExpandCount | streaming/trt_frontend.py:79-84 | each token gets exactly its duration in frames |
| Alignment.ExpandMonotone | streaming/trt_frontend.py:79-84 | selection is monotone in time |
| Alignment.AttentionIsExpansion | streaming/trt_frontend.py:83-95 | cumulative sum, comparison, shifted difference and masks select exactly the token of run-length expansion, with weight one |
| Alignment.MatMulSelects | streaming/trt_frontend.py:96-97 | the product with such a row is that token's vector |
| Frontend.DurationsFollowMask | streaming/trt_frontend.py:65-73 | a token has frames exactly when it is not masked |
| Frontend.DurationIsLeast | streaming/trt_frontend.py:65-73 | a token's frames are the least whole number not below its scaled duration |
| Frontend.PredictedIs | streaming/trt_frontend.py:74-77 | an item has its tokens' frames, at least one and at most the cap |
| Frontend.BatchIsLongest | streaming/trt_frontend.py:74-77 | the batch is as long as one of its items |
| Frontend.PriorCoordinate | streaming/trt_frontend.py:93-100 | each coordinate is the expanded token's mean plus the noise times the exponential of its log-deviation times the noise scale |
| Frontend.FlowInputFits | streaming/trt_frontend.py:111-120 | the flow is given at least the engine's minimum of frames |
| Frontend.PriorIsExpansion | streaming/trt_frontend.py:93-100 | the prior frame is sampled around the expanded token's mean, in a tensor of any length |
| Frontend.SelectionIsPrefix | streaming/trt_frontend.py:74-85 | under the frame cap the selection is exactly the prefix of the full expansion |
| Hygiene.PaddingIsInvisible | streaming/trt_frontend.py:101-131 | through any network whose convolutions read silent padding, an item in a longer tensor keeps its frames |
| Hygiene.MaskedStackIsHygienic | streaming/trt_frontend.py:101-109 | a stack of masked dilated convolutions is such a network |
| Frontend.ItemLatentsAre | streaming/trt_frontend.py:111-134 | latents of an item in any tensor are its own frames through the flow alone, then silence; min-frame padding included |
| Frontend.BatchingIsInvisible | streaming/trt_frontend.py:80-134 | in every ragged batch an item's frames are what it gets alone, all later frames are silent |
| Frontend.WithoutPriorMaskBatchingLeaks | streaming/trt_frontend.py:101-109 | without the mask on the prior a played frame changes |
| Debatch.Batched | model_repo/vits_frontend/1/model.py:105-154 | pad, concatenate, run, detect lengths and split: response i is the trimmed row i; nothing comes back iff a mask is wider than the batch, the model raises or rows are missing |
| Debatch.Pad | model_repo/vits_frontend/1/model.py:123-128 | each row in front and the number 0 at every later index |
| Debatch.LongestIsReached | model_repo/vits_frontend/1/model.py:121 | the fused width is that of some request |
| Debatch.AbsentMaskCountsAll | model_repo/vits_frontend/1/model.py:114-115 | a request without a mask counts every token |
| Debatch.ScanLoud | model_repo/vits_frontend/1/model.py:142-145 | finds the last frame that is not silent |
| Debatch.TrimIsLossless | model_repo/vits_frontend/1/model.py:139-154 | the response followed by silent frames is the row |
| Debatch.TrimRecoversItem | model_repo/vits_frontend/1/model.py:139-154 | the response is the one the item gets alone iff it has a sounding frame or fills the row |
| Debatch.FusedRowIs | model_repo/vits_frontend/1/model.py:130-131 | where each request's rows end up in the fused tensors |
| Debatch.OwnRowIffSingleRows | model_repo/vits_frontend/1/model.py:147-154 | row i is request i's own first row iff all earlier requests have one row |
| Serving.TokenPaddingIsInvisible | gateway/internal/tritonclient/client.go:226-231 | mask-0 tokens change neither frame count nor any expanded mean or deviation |
| Serving.GroupIsInvisible | model_repo/vits_frontend/1/model.py:85-154 | bucketed, padded, batched and taken apart, a request gets the response its bare tokens get alone, iff it has a sounding frame or is as long as the batch |
| TextSplit.SplitForStreaming | streaming/text_norm.py:239-254 | the merge loop computes the greedy merge of the stripped pieces |
| Clauses.PiecesAreUnbroken | streaming/text_norm.py:236 | in any text, no piece has white space right after one of `. ! ? ; :` and every piece but the last ends in one |
| Clauses.PiecesWeave | streaming/text_norm.py:236 | the text is its pieces with nonempty white space between them |
| Clauses.StripIs | streaming/text_norm.py:245 | stripping takes exactly the white space off both ends |
| Clauses.UnitsAre | streaming/text_norm.py:239-254 | for any text: the units are its trimmed parts grouped in order, every unit but the last has at least min_chars characters, none could have been closed at an earlier break, and no character but white space is lost |
| Words.PiecesAreWords | streaming/text_norm.py:236-246 | splitting single-spaced text groups its words after those that end in a terminator |
| Words.MergeIsFold | streaming/text_norm.py:249-254 | merging pieces is folding words one at a time |
| Words.SplitIsFold | streaming/text_norm.py:239-254 | splitting single-spaced text, blank at the end or not, is that fold |
| Fragments.LastClause | streaming/incremental.py:84-85 | the re-buffered tail splits to itself |
| Fragments.ClausesAfter | streaming/incremental.py:80-91 | new words touch only the clause still growing |
| Fragments.SessionIsSplit | streaming/incremental.py:73-101 | however single-spaced text is fragmented, pushes then flush emit the split of the assembled text |
| Fragments.FragmentationIsInvisibleIff | streaming/incremental.py:73-101 | they emit the split of the text itself iff no fragment starts inside a word |
| Fragments.SplitLosesNothing | streaming/text_norm.py:239-254 | the clauses joined by blanks are the text |
| Lru.RecencyIs | streaming/incremental.py:47-50 | recency order lists the keys used, once each, by last use |
| Lru.CacheIsRecent | streaming/incremental.py:52-63 | after any history the cache is the last cache_size distinct keys in recency order |
| Lru.LargerCacheContains | streaming/incremental.py:52-63 | a larger cache holds what a smaller one holds |
| Lru.LargerCacheHitsMore | streaming/incremental.py:52-63 | and never has fewer hits |
| Incremental.IncrementalSynthesizer.Synth | streaming/incremental.py:52-63 | a hit is a key among the last distinct ones; the value is that of the uncached call if latents respect normalization |
| Incremental.IncrementalSynthesizer.Push | streaming/incremental.py:65-90 | emits the completed clauses numbered on, holds back the last part, keeps hits + misses = emitted = next index; a result is marked cached exactly when its key is among the last distinct ones, and the hits are those results |
| Incremental.IncrementalSynthesizer.Flush | streaming/incremental.py:92-101 | emits the stripped rest and empties the buffer |
| Incremental.Synthesize | streaming/incremental.py:65-101 | a whole session on a fresh synthesizer is the split of the text |
| Admission.InFlightIsConserved | gateway/internal/admission/admission.go:61-87 | in every interleaving inFlight is the sessions admitted and not released, and the clamp never acts |
| Admission.OvershootIsBounded | gateway/internal/admission/admission.go:70-80 | with n callers inside at once inFlight never exceeds MaxInFlight - 1 + n |
| Admission.OvershootIsAttained | gateway/internal/admission/admission.go:70-80 | and an interleaving reaches that bound, for every ceiling and n |
| Admission.OnlyEarlierCallersGetIn | gateway/internal/admission/admission.go:62-94 | during a cooldown only callers past the gate at the trip are admitted, each once |
| Admission.GateReopensExactly | gateway/internal/admission/admission.go:62-94 | without another threshold trip the gate opens exactly at trip + cooldown |
| Admission.Controller.TryAdmit | gateway/internal/admission/admission.go:61-81 | decision, counter and trip of one undisturbed call; admitted iff the cooldown is over, there is room, and the queue is below its ceiling or the ceiling is not positive |
| Admission.RefusalReasons | gateway/internal/admission/admission.go:61-81 | which of the three refusals applies, in that order |
| Admission.StepsRefuse | gateway/internal/admission/admission.go:70-80 | in any interleaving a caller goes on past each threshold exactly when it is not reached at that moment |
| Admission.Controller.Release | gateway/internal/admission/admission.go:83-87 | one less, never below zero |
| Admission.StepsRefineTryAdmit | gateway/internal/admission/admission.go:61-94 | the atomic steps run in a row are that call |
| Pool.PickIsLeastLoaded | gateway/internal/tritonclient/pool.go:104-131 | a lease goes to a least-loaded healthy endpoint, or to a least-loaded one when none is healthy |
| Pool.EndpointPool.Acquire | gateway/internal/tritonclient/pool.go:104-135 | both scans compute that choice and count one lease on it |
| Pool.Lease.Release | gateway/internal/tritonclient/pool.go:83-98 | gives the lease back and updates streak and health |
| Pool.EndpointPool.Ready | gateway/internal/tritonclient/pool.go:138-158 | every endpoint is probed, the answering ones counted |
| Pool.StateIsHistory | gateway/internal/tritonclient/pool.go:83-98 | leases out, failure streak and health are functions of the endpoint's history; healthy iff the streak is under three and no probe has failed since |
| Pool.LeasesAreSpread | gateway/internal/tritonclient/pool.go:104-134 | after n acquisitions endpoint i of k carries (n+k-1-i)/k leases |
| Gateway.CountersBalance | gateway/cmd/gateway/main.go:281-523 | over all runs and error paths leases never exceed admitted sessions plus batch calls, and all counters return to zero |
| Service.LeasesAreAdmitted | gateway/cmd/gateway/main.go:281-523 | with n callers inside TryAdmit at once, total leases never exceed MaxInFlight - 1 + n plus batch calls; handlers and controller count the same sessions |
| Service.InitialIsCoupled | gateway/cmd/gateway/main.go:281-296 | the service starts in a state those runs can begin in |
| Gateway.LeasesAreCovered | gateway/cmd/gateway/main.go:350-356 | total leases are bounded by sessions plus batch calls |
| Underruns.GatewayUnderruns | gateway/cmd/gateway/main.go:391-420 | the slack rule counts the chunks that land after their due time |
| Underruns.LoadgenUnderruns | loadgen/cmd/loadgen/main.go:176-184 | the load generator counts the same chunks |
| Underruns.PlayerLagsByWorst | gateway/cmd/gateway/main.go:398-406 | a stalling player lags by the worst lateness so far, which is its total silence |
| Underruns.StallIsRecordLateness | gateway/cmd/gateway/main.go:398-406 | a real stall is a flagged chunk later than every one before it |
| Underruns.ZeroIffNeverStalls | gateway/cmd/gateway/main.go:403-405 | zero underruns iff the player never stalls |
| Underruns.SameUntilFirst | gateway/cmd/gateway/main.go:403-405 | the first flagged chunk is the first stall |
| Underruns.NeverCountsFewer | gateway/cmd/gateway/main.go:403-405 | stalls never outnumber underruns |
| Underruns.CountIsStallsIff | gateway/cmd/gateway/main.go:403-405 | the count is the number of stalls iff every flagged chunk is later than all before it |
| Underruns.OneStallManyFlags | loadgen/cmd/loadgen/main.go:179-183 | one late chunk can flag every later one |

## Left out

- IEEE rounding, half precision, NaN handling and the exponential: samples are reals, the
  exponential of a log-duration is a positive input, other exponentials an arbitrary function.
- Network weights, attention encoders and the real engines: decoders are any function with the
  stated locality, with convolutional networks as instances; encoder and duration engines are any
  function that honours the mask.
- Timing of calls, tracing, metrics, gRPC, WebSocket and HTTP plumbing, configuration parsing.
- `normalize` is an arbitrary function; it is not assumed idempotent.
- The sine and cosine tables of the equal-power fade are inputs.
- Text with runs of white space or with a blank at the start: the fragmentation theorems are about
  single-spaced text.
- Generators that are abandoned half-way: emitted clauses are taken to be consumed.
- Batch tensors are sequences of rows; reshapes between rows and flat tensors are not modelled.
- Chunked.ChunkedSynthesizer.constructor: does not cover a crossfade of minus one sample or less, for
  which Python slices wrap around, or a sampling rate of zero, by which durations are divided.
- Chunked.ChunkedSynthesizer.Create: the same two inputs are excluded.
- TtsStream.ModelInstanceState.DecodeWindow: the CUDA and TensorRT calls of one window count as one
  call that fails if any of them does.
- TtsStream.ModelInstanceState.ProcessRequest: the input is one contiguous buffer that holds at least
  the declared `[1, C, T]` values; the source looks at neither the buffer count nor the byte size.
- Client.TruncatedSuccess: how the server ends a stream whose request never sent a final response is a
  hypothesis (a normal end of stream), because the server is not part of the repository. A send that
  returns an error is taken to deliver nothing.
- Debatch.Batched: a group without a single token column is excluded.
- Debatch.FusedRowIs: says where mask rows end up only when each mask has as many rows as its ids.
- Backend.WindowsFitAndAreWarm: says nothing about warmed shapes of first, edge and final chunks,
  which the warm-up does not list.
- Pool.StateIsHistory: takes lease and probe operations as atomic; the finer interleaving is covered
  for lease counts only, by Gateway.CountersBalance.
- Admission.GateReopensExactly: says nothing about a queue depth that the poller leaves stale after
  a trip.
- Underruns.GatewayUnderruns: does not model a failed socket write, which ends the run early.
- Message decoding and byte codecs, WAV output, percentile reporting, the load generator's pacing.
