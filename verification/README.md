# Verification of the on-device inference engines

Dafny models of five components of the engines, with proofs about them. Each `.dfy` file is one module;
`dafny verify dfyconfig.toml` checks them all.

**Streaming text (llama.cpp engine).** `StopSequences` holds the word combinatorics: truncating a text at
its earliest stop, what a bounded window may forget, and when an early cut is final. `Utf8` is the 400-entry
recogniser table and section 4 of RFC 3629. `DecodeLoop` is `run_decode_loop`: pieces of any size, for any
sampler, sink, interruption and decoder, come out as the generated text truncated at its first stop, while
after each token all but the longest stop plus three bytes are out. `CallerStops` and `VlmStream` are the two
caller-facing streams with their own stop windows, token accounting and terminal markers. `KvSession` is the
bookkeeping of KV-cache positions across operations.

**Cancellation protocols.** `MlxSession` is the MLX interrupt protocol as a step relation over any number of
threads: two mutexes, a condition variable with spurious wake-ups, a counter. `RequestCancellation` is the
QHexRT latch: three atomics, requests serialized by a mutex, cancellers that take no lock. Every access to an
atomic and every critical section of the state mutex is one step. `MlxCalls` states what the calls of a session
achieve: which interrupts are admitted, which operations run, and that a destroy destroys.

**Speaker diarization (ONNX engine).** `Fft` is the in-place radix-2 transform over exact complex numbers.
`SpeakerCache` is the streaming state (FIFO, speaker cache, silence profile) with arbitrary graph outputs,
`CacheCompression` the lossy compression of the cache with exact scores and two infinities; `CacheOrder` is what its
boosts do to the order of the frames, ties included.
`DiarizationFeed` is how audio is cut into windows, offline and in a stream, `DiarizationWindows` what each
window holds and what a run over them is. `Segments` turns
probabilities into segments (median, runs, merging), `DiarizationReport` these into the result (clipping,
renumbering) and states what a result says about the predictions.

**Tokenizer (ONNX engine).** `BasicTokenizer` (three loops over bytes, one of them on 16 lanes), `WordPiece`,
and `TokenCache` (the tokenizer object with its least-recently-used cache). Two facts about the tokenizer class
do not concern the provider, which loads the vocabulary once before the first text
(`engines/onnx/onnx_embedding_provider.cpp:529`) and always encodes up to 512 tokens (line 869): a load keeps the
cache (`TokenCache.LoadKeepsCacheIff`), and encodings fit `max_length` only from 2 on (`TokenCache.EncodingFitsIff`).

**Resampling (ONNX engine).** `Resample` is the fixed-point bilinear resampler with exact weights before
rounding. `TriangleFilter` is the real-valued separable filter it approximates, and by how much; `FilterCenter` says
where that filter puts the center of mass.

`Sequences`, `Sorting`, `Arithmetic` and `Wrappers` hold what several modules need. The library sort is
specified only as a sorted permutation, so no result depends on where equal elements end up.

## Where the code does less than one might expect

Each of these is stated with a concrete input, or with the exact condition under which the property holds, or
both.

- A first stop of a prefix is the first stop of the whole text only if no stop lies strictly inside another
  minimal one (`StopSequences.EarlyCutIsRightIff`, `CallerStops.StreamingIsBufferingIff`); touching an end
  of the other stop is harmless. The built-in lists satisfy this.
- After an ill-formed byte the decode loop holds everything back until the final flush, which is not scanned
  for stops (`DecodeLoop.IllFormedByteHidesStop`, `DecodeLoop.LawIsTruncationIff`).
- `generate_stream` starts decoding at the size of the last prompt chunk, so positions repeat as soon as a
  prompt needs more than one batch (`KvSession.StreamPositionsDistinctIff`).
- Overlapping calls of `cancel_active` can overwrite a recorded cancel with an older request's id
  (`RequestCancellation.OverlappingCancelsLoseOne`, `RequestCancellation.CancelCanBeLostIff`).
- A diarization stream loses the last 80 ms frame if at least 158720 samples are left for the flush
  (`DiarizationFeed.StreamCanLoseAFrame`, `DiarizationFeed.StreamLosesAFrameIff`).
- With four speakers the low-score filter of the cache compression never drops a frame: no score of probabilities is
  positive (`CacheOrder.LowScoresAreNeverDropped`).
- Frames of one speaker with equal scores are separated when a boost quota ends among them (`CacheOrder.TieCanLose`,
  `CacheOrder.NeverBehindIff`).
- When an image is reduced by a factor that is not whole, a pixel can be off its place in the source by a fraction of a
  pixel (`FilterCenter.SixToFourIsOff`, `FilterCenter.CenterOfMassIff`).
- Greedy word pieces can miss a spelling that exists (`WordPiece.GreedyCanMissASpelling`,
  `WordPiece.PiecesAreLongestMatches`).

## Model

| member | source | states |
|---|---|---|
| `StopSequences.FindFirstStopSequence` | engines/llamacpp/llamacpp_stop_helpers.h:29-39 | The running minimum over all stops is the earliest offset at which any stop starts; not found means no stop occurs anywhere. |
| `StopSequences.MaxStopLength` | engines/llamacpp/llamacpp_stop_helpers.h:45-53 | The result bounds every stop length and is attained. |
| `StopSequences.WindowSeesFirstStop` | engines/llamacpp/llamacpp_backend.cpp:1050-1069 | A window that kept at least the longest stop forgets nothing: after it grows, its earliest stop is the earliest stop of everything seen. |
| `StopSequences.TruncationUnique` | engines/llamacpp/rac_llm_llamacpp.cpp:325-334 | There is only one truncation of a text at its first stop. |
| `StopSequences.TruncationIsStopFree` | engines/llamacpp/rac_llm_llamacpp.cpp:325-334 | A truncated text contains no stop. |
| `StopSequences.FirstStopIsFinal` | engines/llamacpp/llamacpp_backend.cpp:1029-1048 | If no stop lies strictly inside another, the first stop of a prefix is the first stop of every continuation. |
| `StopSequences.InnerStopCutsTooLate` | engines/llamacpp/rac_llm_llamacpp.cpp:491-507 | A stop strictly inside another one gives a prefix whose cut is wrong for the whole. |
| `StopSequences.EarlyCutIsRightIff` | engines/llamacpp/rac_llm_llamacpp.cpp:432-541 | Cutting at the first hit is right for every text and continuation if and only if no stop lies strictly inside a minimal one. |
| `Utf8.TableIsNext` | engines/llamacpp/llamacpp_backend.cpp:91-136 | The lookup in the 400-entry table is the successor function of the byte ranges of the grammar, for every state and byte. |
| `Utf8.Utf8State.Process` | engines/llamacpp/llamacpp_backend.cpp:90-138 | One byte moves the persistent state to its grammar successor; the answer says whether a character boundary is reached. |
| `Utf8.AcceptsExactlyWellFormed` | engines/llamacpp/llamacpp_backend.cpp:86-141 | The recogniser accepts exactly the sequences of well-formed characters of section 4 of RFC 3629. |
| `Utf8.RejectIsAbsorbing` | engines/llamacpp/llamacpp_backend.cpp:86-141 | After an ill-formed byte no further byte is ever accepted. |
| `Utf8.CutAtLeadingByte` | engines/llamacpp/llamacpp_backend.cpp:1052-1059 | Accepted text may be cut in front of any byte that is not a continuation byte. |
| `Utf8.LeadingByteNearby` | engines/llamacpp/llamacpp_backend.cpp:1052-1059 | Backing up from any offset of accepted text finds a leading byte within three steps. |
| `Utf8.UnfinishedIsShort` | engines/llamacpp/llamacpp_backend.cpp:1009-1028 | An unfinished, not rejected character holds at most three bytes. |
| `DecodeLoop.ActiveStopsAreSound` | engines/llamacpp/llamacpp_backend.cpp:150-168 | The built-in stops, with and without the fallback ones, are non-empty ASCII and none lies strictly inside another. |
| `DecodeLoop.WhichStopsAreActive` | engines/llamacpp/llamacpp_backend.cpp:143-168 | The fallback turn markers are stops exactly if the prompt used the fallback format; otherwise they pass as text. |
| `DecodeLoop.ScanPiece` | engines/llamacpp/llamacpp_backend.cpp:1009-1028 | Scanning only the new bytes with the persistent state finds the last character boundary of the whole partial buffer. |
| `DecodeLoop.SafeLength` | engines/llamacpp/llamacpp_backend.cpp:1050-1059 | The cut that keeps the longest stop, backed up to a character boundary. |
| `DecodeLoop.ScanWindow` | engines/llamacpp/llamacpp_backend.cpp:1029-1069 | Cut at the first stop, or release a well-formed prefix and keep between the longest stop and three bytes more. |
| `DecodeLoop.TakePiece` | engines/llamacpp/llamacpp_backend.cpp:1009-1070 | A piece of any size keeps: released, held and unfinished bytes are the generated text, and no stop was missed. |
| `DecodeLoop.DecodeTokens` | engines/llamacpp/llamacpp_backend.cpp:996-1083 | The loop proper: which tokens are read and decoded and at which positions, when their text comes out, why the loop ends (budget, end token, cancel flag, first stop, refused chunk, failed decode), and that nothing is lost of what is out, held and unfinished. |
| `DecodeLoop.Flush` | engines/llamacpp/llamacpp_backend.cpp:1083-1095 | Unless cancelled or stopped, what is still held goes out as one chunk; the output is a prefix of the lawful output and all of it unless the run is cancelled. |
| `DecodeLoop.DecodeAndFlush` | engines/llamacpp/llamacpp_backend.cpp:996-1095 | Loop and flush together, for any sound stop list: the token-level account of the loop and the lawful output. |
| `DecodeLoop.RunDecodeLoop` | engines/llamacpp/llamacpp_backend.cpp:952-1096 | Over every sampler, sink, cancel flag and decoder: tokens are read in order up to the exact cause that ends the run and decoded at consecutive positions; after each token all but the longest stop plus 3 bytes of its text are out; chunks in the loop are well-formed; the output of a not cancelled run is the generated text truncated at its first stop unless an ill-formed byte came. |
| `DecodeLoop.LawIsTruncationIff` | engines/llamacpp/llamacpp_backend.cpp:1085-1093 | The output is the plain truncation exactly if the text has no stop, or one before the first byte the recogniser holds back. |
| `DecodeLoop.IllFormedByteHidesStop` | engines/llamacpp/llamacpp_backend.cpp:1085-1093 | A text with an ill-formed byte before a stop that is put out uncut. |
| `DecodeLoop.LawfulCutIsFinal` | engines/llamacpp/llamacpp_backend.cpp:1039-1048 | After a stop hit the output is the truncation of every continuation as well. |
| `CallerStops.CollectUserStops` | engines/llamacpp/rac_llm_llamacpp.cpp:60-74 | The stops of the caller without the empty ones. |
| `CallerStops.StopFilter.PopBytes` | engines/llamacpp/rac_llm_llamacpp.cpp:436-461 | Takes exactly the asked bytes off the queue of pieces, counting every piece once, on its first byte. |
| `CallerStops.StopFilter.EmitBytes` | engines/llamacpp/rac_llm_llamacpp.cpp:432-462 | The first bytes of the window become one delta; the rest stays; nothing is lost and the counts stay right. |
| `CallerStops.StopFilter.PendingIsWindow` | engines/llamacpp/rac_llm_llamacpp.cpp:418-431 | The pending pieces always concatenate to the stop window. |
| `CallerStops.CountedIsStarted` | engines/llamacpp/rac_llm_llamacpp.cpp:436-461 | The tokens counted are the pieces with at least one byte out. |
| `CallerStops.StopFilter.HitStop` | engines/llamacpp/rac_llm_llamacpp.cpp:494-502 | On a hit, what is out is the delivered text truncated at its first stop. |
| `CallerStops.StopFilter.OnToken` | engines/llamacpp/rac_llm_llamacpp.cpp:491-507 | One piece keeps the scanning invariant, or ends with the truncation out. |
| `CallerStops.StopFilter.OnTokenDirect` | engines/llamacpp/rac_llm_llamacpp.cpp:486-490 | Without caller stops every piece is one delta and one token. |
| `CallerStops.GenerateStream` | engines/llamacpp/rac_llm_llamacpp.cpp:418-548 | Exactly one terminal marker, last, on every path; token counts add up to the pieces started; success or failure by the backend and the first stop; no chunk is taken after the first one at which a stop appears; the text is stop-free and, on success, what was delivered truncated at its first stop. |
| `CallerStops.TruncateBuffered` | engines/llamacpp/rac_llm_llamacpp.cpp:328-334 | The non-streaming call returns the truncation of the buffered text. |
| `CallerStops.SomeStream` | engines/llamacpp/rac_llm_llamacpp.cpp:418-541 | Every list of chunks has a stream: an end at the first chunk with a stop, and a text. |
| `CallerStops.StreamingIsBufferingIff` | engines/llamacpp/rac_llm_llamacpp.cpp:325-541 | Streaming equals truncating the buffered text on every list of chunks if and only if no stop lies strictly inside another; if one does, there are chunks on which no stream does. |
| `VlmStream.Guard` | engines/llamacpp/rac_vlm_llamacpp.cpp:1564-1580 | The repetition guard fires exactly on five equal tokens in a row. |
| `VlmStream.EmitCut` | engines/llamacpp/rac_vlm_llamacpp.cpp:1612-1625 | A matched stop puts out the text before it and one terminal marker. |
| `VlmStream.TakePiece` | engines/llamacpp/rac_vlm_llamacpp.cpp:1588-1650 | A piece is put out or held so that nothing is lost, and no stop is missed. |
| `VlmStream.Close` | engines/llamacpp/rac_vlm_llamacpp.cpp:1674-1685 | The exit after the loop sends the terminal marker with what is held, unless decoding failed. |
| `VlmStream.ProcessStream` | engines/llamacpp/rac_vlm_llamacpp.cpp:1541-1687 | Over every sampler, callback, cancel flag and decoder: exactly one terminal marker, on the last event; tokens are read in order up to the exact cause of the exit; the text is the generated text truncated at its first stop except after the guard or a decode failure, and then a stop-free prefix. |
| `KvSession.PosMaxOfRange` | engines/llamacpp/llamacpp_backend.cpp:1376-1377 | Of the positions 0..n-1 the largest is n-1, so the next operation continues without a gap. |
| `KvSession.PrefilledIff` | engines/llamacpp/llamacpp_backend.cpp:1345-1360 | Everything is stored if and only if every chunk decodes; otherwise the whole chunks before the first one that fails. |
| `KvSession.Session.Prefill` | engines/llamacpp/llamacpp_backend.cpp:1345-1360 | Succeeds exactly if every chunk decodes; stores the positions from its start on, up to the first failing chunk. |
| `KvSession.Session.InjectSystemPrompt` | engines/llamacpp/llamacpp_backend.cpp:1314-1366 | Clears; succeeds exactly if the prompt is not empty, fits and every chunk decodes, and then fills 0..n-1. |
| `KvSession.Session.AppendContext` | engines/llamacpp/llamacpp_backend.cpp:1368-1416 | Keeps what was stored; succeeds exactly if there is nothing to append or it fits and every chunk decodes, and then continues without a gap. |
| `KvSession.Session.GenerateFromContext` | engines/llamacpp/llamacpp_backend.cpp:1418-1525 | Generates exactly if the prompt is not empty, leaves room and every chunk decodes; the run is one of the decode loop with its budget, its positions continue the occupied ones and stay below the context size. |
| `KvSession.Session.GenerateStream` | engines/llamacpp/llamacpp_backend.cpp:1194-1304 | Generates exactly if there is room and every chunk decodes; stored positions are distinct if and only if the prompt fits one batch or nothing was decoded; the cache is empty afterwards. |
| `KvSession.StreamPositionsDistinctIff` | engines/llamacpp/llamacpp_backend.cpp:1280-1282 | Decoding from the size of the last chunk repeats a position exactly if the prompt needs several batches and something is decoded. |
| `KvSession.RunSession` | engines/llamacpp/llamacpp_backend.cpp:1314-1540 | Over every sequence of operations in every environment the occupied positions are 0..k-1 with k below the context size, and every operation changes k from what it was by what it stored, starting from 0. |
| `KvSession.SizeSinceClear` | engines/llamacpp/llamacpp_backend.cpp:1194-1540 | In every session the occupied positions are as many as the operations since the last clearing one stored, each of them its prefilled and generated tokens. |
| `Fft.ReverseBits` | engines/onnx/onnx_diarization_provider.cpp:190-197 | The loop that sets single bits computes the bit reversal. |
| `Fft.RevInvolution` | engines/onnx/onnx_diarization_provider.cpp:185-198 | Bit reversal is an involution, so the swap loop is a permutation. |
| `Fft.FftTables.Permute` | engines/onnx/onnx_diarization_provider.cpp:209-215 | The in-place swap loop is exactly the bit-reversal permutation. |
| `Fft.FftTables.Butterfly` | engines/onnx/onnx_diarization_provider.cpp:220-232 | Two entries become sum and difference, one of them turned by the power of the root. |
| `Fft.SplitEvenOdd` | engines/onnx/onnx_diarization_provider.cpp:216-233 | The transform of a sequence is that of its even samples plus the turned one of its odd samples. |
| `Fft.ButterflyIsSplit` | engines/onnx/onnx_diarization_provider.cpp:220-232 | The two halves of a block from the two half-size transforms, by the half-turn of the root. |
| `Fft.FourPointTables` | engines/onnx/onnx_diarization_provider.cpp:198-204 | The laws asked of the tables can be met: the tables of the four-point transform. |
| `Fft.FftTables.Stage` | engines/onnx/onnx_diarization_provider.cpp:216-234 | One pass of butterflies doubles the size of the transforms held in blocks. |
| `Fft.FftTables.Forward` | engines/onnx/onnx_diarization_provider.cpp:208-235 | The in-place loops compute the discrete Fourier transform, for every input and every power-of-two size. |
| `MlxSession.InvStep` | engines/mlx/rac_mlx_engine.cpp:68-181 | Every step of every thread keeps the invariant that ties positions, mutex, counter, flag and handle together. |
| `MlxSession.RunInv` | engines/mlx/rac_mlx_engine.cpp:68-181 | The invariant holds in every state of every run, with spurious wake-ups. |
| `MlxSession.PublishStep` | engines/mlx/rac_mlx_engine.cpp:104-117 | An operation is published only when none is in progress and the Swift cancel flag is clear. |
| `MlxSession.SetStep` | engines/mlx/rac_mlx_engine.cpp:148-181 | Only a step of an interrupt admitted to the operation in progress sets the flag. |
| `MlxSession.ClearStep` | engines/mlx/rac_mlx_engine.cpp:120-134 | Only the final clear of the operation, by its own thread, resets the flag. |
| `MlxSession.CancelComesFromItsOperation` | engines/mlx/rac_mlx_engine.cpp:87-181 | In every run a set flag traces back to an interrupt admitted to the very operation in progress; it never reaches a successor. |
| `MlxSession.CancelStaysWithItsOperation` | engines/mlx/rac_mlx_engine.cpp:87-181 | In every run a set flag stays set until its operation ends. |
| `MlxSession.TeardownIsSafe` | engines/mlx/rac_mlx_engine.cpp:287-313 | In every run the handle is destroyed at most once, and only when no operation is in progress, no interrupt in flight and nobody can use it any more. |
| `MlxSession.NeverStuck` | engines/mlx/rac_mlx_engine.cpp:68-181 | In every reachable state with an unfinished call some thread inside a call can go on, without spurious wake-ups. |
| `MlxSession.EveryCallFinishes` | engines/mlx/rac_mlx_engine.cpp:68-181 | In every run of n threads: when no call starts any more and nobody wakes up for no reason, at most n(n+9) steps are left, and nobody can go on exactly when all calls are finished. |
| `MlxCalls.InterruptIsAdmittedIff` | engines/mlx/rac_mlx_engine.cpp:148-181 | In every run an interrupt is admitted, and to the published operation, if and only if the session is open and an inference is under way; otherwise it is over and changes nothing. |
| `MlxCalls.CallbackReachesItsOperation` | engines/mlx/rac_mlx_engine.cpp:148-181 | In every run the callback of an admitted interrupt meets the operation it was admitted to still in progress, can set the flag, and returns. |
| `MlxCalls.InterruptCancels` | engines/mlx/rac_mlx_engine.cpp:148-181 | From every reachable state with a running inference in an open session, two steps of an interrupt can cancel exactly this inference. |
| `MlxCalls.OperationIsPublished` | engines/mlx/rac_mlx_engine.cpp:87-118 | In every run an operation called in a session that stays open runs its inference under the next number before the call is over. |
| `MlxCalls.PlainCallRuns` | engines/mlx/rac_mlx_engine.cpp:68-85 | In every run a plain call in a session that stays open makes its callback. |
| `MlxCalls.ClosedByDestroy` | engines/mlx/rac_mlx_engine.cpp:287-313 | In every run only a destroy closes the session. |
| `MlxCalls.ClosedAdmitsNothing` | engines/mlx/rac_mlx_engine.cpp:87-181 | In every run a closed session publishes no operation and admits no interrupt. |
| `MlxCalls.DestroyDestroys` | engines/mlx/rac_mlx_engine.cpp:287-313 | In every run the handle has been destroyed exactly once when all calls are finished after a destroy. |
| `RequestCancellation.RequestCancellation.Begin` | engines/qhexrt/qhexrt_request_cancellation.h:24-28 | A request gets a fresh id, is announced, and is not cancelled. |
| `RequestCancellation.RequestCancellation.Finish` | engines/qhexrt/qhexrt_request_cancellation.h:30-33 | Afterwards this request is not announced; another announced request stays, and so do the ids given out and recorded. |
| `RequestCancellation.RequestCancellation.CancelActive` | engines/qhexrt/qhexrt_request_cancellation.h:35-40 | Without interference exactly the announced request becomes cancelled. |
| `RequestCancellation.IdsIncrease` | engines/qhexrt/qhexrt_request_cancellation.h:24-28 | In every interleaving later requests get strictly larger ids. |
| `RequestCancellation.NewRequestIsNotCancelled` | engines/qhexrt/qhexrt_diffusion_ops.cpp:170-187 | In every interleaving a request is not cancelled when it is announced. |
| `RequestCancellation.CancelHasACause` | engines/qhexrt/qhexrt_diffusion_ops.cpp:426-435 | In every interleaving a cancelled request was read by some cancel while it was announced. |
| `RequestCancellation.CancelReachesAnnounced` | engines/qhexrt/qhexrt_request_cancellation.h:35-40 | From every reachable state two steps of a cancel that meets an announced request cancel this request. |
| `RequestCancellation.LostIffStaleStore` | engines/qhexrt/qhexrt_request_cancellation.h:35-44 | The next step can lose a recorded cancel exactly if another canceller is about to store an older id. |
| `RequestCancellation.CancelCanBeLostIff` | engines/qhexrt/qhexrt_request_cancellation.h:35-44 | Some continuation loses a recorded cancel while its request is still announced exactly if a canceller is about to store an older id already. |
| `RequestCancellation.CancelPersists` | engines/qhexrt/qhexrt_request_cancellation.h:18-44 | In every run whose cancels do not overlap, a recorded cancel lasts as long as its request is announced. |
| `RequestCancellation.OverlappingCancelsLoseOne` | engines/qhexrt/qhexrt_request_cancellation.h:35-40 | A run in which two overlapping cancels lose one. |
| `SpeakerCache.AddToMean` | engines/onnx/onnx_diarization_provider.cpp:711-718 | The incremental update yields the exact mean with one more row. |
| `SpeakerCache.StreamState.UpdateSilenceProfile` | engines/onnx/onnx_diarization_provider.cpp:701-721 | The profile becomes the exact mean of all silent frames popped so far. |
| `SpeakerCache.SilentRowsAre` | engines/onnx/onnx_diarization_provider.cpp:701-710 | The silent rows are, in order, the embeddings of the frames in which all four speakers add up to less than 0.2. |
| `SpeakerCache.StreamState.PopOut` | engines/onnx/onnx_diarization_provider.cpp:661-685 | Frames move from the FIFO to the cache in order, embeddings and predictions together. |
| `SpeakerCache.StreamState.Shrink` | engines/onnx/onnx_diarization_provider.cpp:687-696 | An overfull cache is compressed to exactly its length; the first time its predictions come from this step. |
| `SpeakerCache.StreamState.StreamingUpdate` | engines/onnx/onnx_diarization_provider.cpp:609-700 | A step keeps all limits and alignments, its new state is given by the graph outputs; a failed step changes nothing and happens exactly if the session fails or returns too few predictions. |
| `SpeakerCache.RunSteps` | engines/onnx/onnx_diarization_provider.cpp:609-700 | Over every run: consecutive states follow from the graph outputs of their step, up to the first step that fails and for the exact cause; in each of them FIFO and cache are within limits and aligned, cache ++ FIFO is what was kept until the first compression, and the silence mean is exact. |
| `SpeakerCache.RunKeeps` | engines/onnx/onnx_diarization_provider.cpp:609-700 | In every run there is one prediction row for every embedding ever kept. |
| `CacheCompression.ScoreMeans` | engines/onnx/onnx_diarization_provider.cpp:743-762 | For every logarithm: a score is positive exactly if the speaker alone is more likely than not, that is p_s times the complements of the others, kept off zero, exceeds one half; one score is above another exactly if its product is. |
| `CacheCompression.DisableLowScores` | engines/onnx/onnx_diarization_provider.cpp:764-782 | Frames without speech, and low ones of a speaker with enough others, are disabled. |
| `CacheCompression.Boost` | engines/onnx/onnx_diarization_provider.cpp:785-807 | Exactly the best frames of a speaker are raised, no better one is passed over. |
| `CacheCompression.EnabledIff` | engines/onnx/onnx_diarization_provider.cpp:748-809 | After both boosts a frame still counts for a speaker exactly if the speaker speaks in it and the frame was not dropped as low. |
| `CacheCompression.EnabledMeans` | engines/onnx/onnx_diarization_provider.cpp:743-809 | In terms of the predictions: a frame counts for a speaker exactly if the speaker speaks in it and is more likely alone than not, or is so in too few frames. |
| `CacheCompression.SelectTop` | engines/onnx/onnx_diarization_provider.cpp:813-829 | Exactly kSpkcacheLen places in ascending order; nothing left out scores above anything picked. |
| `CacheCompression.Compress` | engines/onnx/onnx_diarization_provider.cpp:725-866 | Exactly kSpkcacheLen rows, gathered from a best selection of the scored frames. |
| `CacheCompression.RowsAreSilenceOrSpeech` | engines/onnx/onnx_diarization_provider.cpp:831-862 | Every row is the silence mean without predictions, or embedding and predictions of one old frame in which somebody is above 0.5. |
| `CacheCompression.SilenceIsKept` | engines/onnx/onnx_diarization_provider.cpp:808-845 | At least kNumSpeakers times kSpkcacheSilFramesPerSpk rows are silence. |
| `CacheCompression.AllKeptIfTheyFit` | engines/onnx/onnx_diarization_provider.cpp:813-829 | If no more entries count than there are places, none is lost. |
| `CacheOrder.BetterFramesStayAhead` | engines/onnx/onnx_diarization_provider.cpp:784-807 | For every logarithm: of two frames that count for a speaker, the one with the higher raw score has the higher final score. |
| `CacheOrder.BestFramesAreRaised` | engines/onnx/onnx_diarization_provider.cpp:784-807 | For every logarithm: a final score lies between the raw one and three times ln 2 more; all three if the strong quota reaches the frame, one if only the weak one does, none behind both. |
| `CacheOrder.NeverBehindIff` | engines/onnx/onnx_diarization_provider.cpp:784-807 | A frame never falls behind another one of its speaker, whatever the sort does with ties, if and only if its raw score is higher, or as high and neither quota ends there. |
| `CacheOrder.TieCanLose` | engines/onnx/onnx_diarization_provider.cpp:784-807 | One frame more than the strong quota, all alike: any of them can fall behind any other. |
| `CacheOrder.BetterFramesAreKept` | engines/onnx/onnx_diarization_provider.cpp:725-866 | If the compressed cache holds a frame for the sake of a speaker, it holds every frame in which the same speaker is more likely alone. |
| `CacheOrder.LowScoresAreNeverDropped` | engines/onnx/onnx_diarization_provider.cpp:743-782 | With four speakers no score of probabilities is positive, so a frame counts exactly if its speaker is above 0.5 in it. |
| `DiarizationFeed.DiarizationStream.FeedAudioChunk` | engines/onnx/onnx_diarization_provider.cpp:1033-1106 | One call drains all full windows, and on a flush the rest; a failing step keeps its window. |
| `DiarizationFeed.DrainedThenMore` | engines/onnx/onnx_diarization_provider.cpp:1060-1082 | Draining between two pieces of audio makes no difference, even if a step fails. |
| `DiarizationFeed.SessionRunsWindows` | engines/onnx/onnx_diarization_provider.cpp:1047-1106 | Any non-empty feed sizes followed by a flush run the same windows: state, predictions and outcome depend on the audio only. |
| `DiarizationFeed.RunStream` | engines/onnx/onnx_diarization_provider.cpp:1033-1106 | A session on a stream object computes the run over the windows of the whole audio. |
| `DiarizationFeed.Diarize` | engines/onnx/onnx_diarization_provider.cpp:937-984 | Offline, the run over the overlapping windows of the features; empty audio is rejected, a failing step ends it. |
| `DiarizationFeed.OfflineFramesCoverAudio` | engines/onnx/onnx_diarization_provider.cpp:959-983 | Offline, exactly ceil(mel frames / 8) frames; their timeline covers the audio and the last one starts within it. |
| `DiarizationFeed.StreamLosesAFrameIff` | engines/onnx/onnx_diarization_provider.cpp:1083-1106 | A stream yields the offline number of frames exactly if fewer than 158720 samples are left for the flush, else one less. |
| `DiarizationFeed.StreamCanLoseAFrame` | engines/onnx/onnx_diarization_provider.cpp:1083-1106 | For 158720 samples a stream yields 124 frames, offline 125. |
| `DiarizationFeed.OfflineStateFrames` | engines/onnx/onnx_diarization_provider.cpp:609-700 | When the graph returns enough, the runs of the streaming state over the offline windows yield ceil(mel frames / 8) rows. |
| `DiarizationFeed.StreamStateFrames` | engines/onnx/onnx_diarization_provider.cpp:609-700 | Over the windows of a stream they yield as many, or one less exactly if 158720 samples are left for the flush. |
| `DiarizationWindows.OfflineWindowsHold` | engines/onnx/onnx_diarization_provider.cpp:959-974 | Offline, the k-th window holds the mel frames from 992 k on, up to 1000 of them, and zeros behind. |
| `DiarizationWindows.OfflineReadsEverything` | engines/onnx/onnx_diarization_provider.cpp:959-974 | The parts of the offline windows that no later one repeats are all mel frames of the audio, in order. |
| `DiarizationWindows.StreamWindowsHold` | engines/onnx/onnx_diarization_provider.cpp:1055-1095 | In a stream the k-th window is made of the samples from 158720 k on: of a full feed, or of all that is left in the last one. |
| `DiarizationWindows.RunAllSteps` | engines/onnx/onnx_diarization_provider.cpp:963-983 | A run goes from state to state over its windows up to the first failure; its predictions are those of the steps in a row. |
| `Segments.MedianFilter` | engines/onnx/onnx_diarization_provider.cpp:318-338 | For every threshold: a speaker reaches it in a frame afterwards exactly if the speaker was below it in at most half of the frames up to five before or behind. |
| `Segments.SpeakerRuns` | engines/onnx/onnx_diarization_provider.cpp:351-375 | Before merging: exactly the maximal runs at or above the threshold that last long enough, in order. |
| `Segments.Merge` | engines/onnx/onnx_diarization_provider.cpp:376-388 | Merged segments are the blocks between exactly those gaps that are at least the merge gap. |
| `Segments.MergedAreApart` | engines/onnx/onnx_diarization_provider.cpp:376-388 | Merged segments are disjoint, ordered and at least the merge gap apart. |
| `Segments.MergedCover` | engines/onnx/onnx_diarization_provider.cpp:376-388 | Every original segment lies inside a merged one of its speaker. |
| `Segments.Binarize` | engines/onnx/onnx_diarization_provider.cpp:341-394 | All speakers, sorted by start, as a permutation of their merged runs. |
| `Segments.SpeechIsReported` | engines/onnx/onnx_diarization_provider.cpp:341-394 | Every long enough stretch of speech is covered by a reported segment of its speaker. |
| `DiarizationReport.Clip` | engines/onnx/onnx_diarization_provider.cpp:989-995 | In their order and number the segments that do not become empty, cut at the end of the audio. |
| `DiarizationReport.Renumber` | engines/onnx/onnx_diarization_provider.cpp:889-926 | The occurring speaker slots are mapped onto 0..count-1 without holes and in order. |
| `DiarizationReport.Report` | engines/onnx/onnx_diarization_provider.cpp:985-999 | From the predictions to the result: every long enough stretch of speech in the smoothed predictions is covered up to the end of the audio; reported segments hold nothing but such speech and short pauses, are sorted by start, those of one speaker at least the merge gap apart; the slots that speak before the end of the audio are numbered 0..count-1 in their order. |
| `BasicTokenizer.TokenizeScalarAscii` | engines/onnx/onnx_embedding_provider.cpp:173-194 | The scalar loop computes Tokens. |
| `BasicTokenizer.TokenizeScalarMixed` | engines/onnx/onnx_embedding_provider.cpp:196-226 | The loop for mixed text computes the same tokens, for every byte string. |
| `BasicTokenizer.TokenizeBlocks` | engines/onnx/onnx_embedding_provider.cpp:229-303 | The 16-lane loop computes the same tokens, for every byte string. |
| `BasicTokenizer.BlockTest` | engines/onnx/onnx_embedding_provider.cpp:250-270 | The lane comparisons and masks are the byte tests, and the masked addition is lower-casing. |
| `BasicTokenizer.Tokenize` | engines/onnx/onnx_embedding_provider.cpp:158-171 | The dispatcher gives the same tokens with and without lanes. |
| `BasicTokenizer.WordIsToken` | engines/onnx/onnx_embedding_provider.cpp:173-194 | A run of letters and digits is one token in lower case. |
| `BasicTokenizer.SeparatorSplits` | engines/onnx/onnx_embedding_provider.cpp:173-226 | Any other byte separates. |
| `BasicTokenizer.LawsDetermineTokens` | engines/onnx/onnx_embedding_provider.cpp:173-226 | These two laws determine the tokens of every text. |
| `WordPiece.LongestPiece` | engines/onnx/onnx_embedding_provider.cpp:317-332 | The inner loop finds the longest known piece. |
| `WordPiece.Tokenize` | engines/onnx/onnx_embedding_provider.cpp:306-345 | The loops compute Pieces for every vocabulary and word, loaded or not. |
| `WordPiece.PiecesAreLongestMatches` | engines/onnx/onnx_embedding_provider.cpp:306-345 | The pieces are longest matches one after the other; the word is unknown exactly if these get stuck before its end. |
| `WordPiece.PiecesSpellTheWord` | engines/onnx/onnx_embedding_provider.cpp:306-345 | Pieces other than the unknown token are all in the vocabulary and spell the word. |
| `WordPiece.GreedyCanMissASpelling` | engines/onnx/onnx_embedding_provider.cpp:314-341 | A word that has a spelling but becomes unknown. |
| `TokenCache.LookedUp` | engines/onnx/onnx_embedding_provider.cpp:394-407 | What a lookup does to the list of the most recent words. |
| `TokenCache.SimpleTokenizer.ValidMeans` | engines/onnx/onnx_embedding_provider.cpp:394-407 | List and map hold the same words without duplicates, at most the limit. |
| `TokenCache.SimpleTokenizer.TouchCacheEntry` | engines/onnx/onnx_embedding_provider.cpp:394-396 | Moving an entry to the front keeps the list in recency order. |
| `TokenCache.SimpleTokenizer.InsertCacheEntry` | engines/onnx/onnx_embedding_provider.cpp:398-407 | Inserting evicts the least recently used word exactly if the cache is full. |
| `TokenCache.SimpleTokenizer.WordToTokenIds` | engines/onnx/onnx_embedding_provider.cpp:347-363 | The ids are the uncached ones, hit or miss. |
| `TokenCache.SimpleTokenizer.EncodeUnpadded` | engines/onnx/onnx_embedding_provider.cpp:87-109 | CLS, the first max_length - 2 ids, SEP, whatever is cached. |
| `TokenCache.EncodingFitsIff` | engines/onnx/onnx_embedding_provider.cpp:87-109 | Encodings fit max_length for every text exactly if max_length is at least 2, as with the 512 of the provider. |
| `TokenCache.ReadVocab` | engines/onnx/onnx_embedding_provider.cpp:63-70 | Every line, without a trailing carriage return, has the number of its last occurrence. |
| `TokenCache.SimpleTokenizer.LoadVocab` | engines/onnx/onnx_embedding_provider.cpp:55-85 | Special ids are refreshed, a missing file changes nothing; cached ids stay, which is right if there are none. |
| `TokenCache.LoadKeepsCacheIff` | engines/onnx/onnx_embedding_provider.cpp:55-85 | Whatever vocabulary is loaded next, the cached ids are right after it: exactly if the cache is empty. |
| `TokenCache.LookupAcrossLoad` | engines/onnx/onnx_embedding_provider.cpp:55-85 | A run of the tokenizer object: a word looked up before a load keeps its old ids after it. |
| `TokenCache.CacheGoesStaleOnLoad` | engines/onnx/onnx_embedding_provider.cpp:55-85 | A vocabulary and a word for which these ids are wrong, for every hash. |
| `TokenCache.EncodeTexts` | engines/onnx/onnx_embedding_provider.cpp:87-109 | With the vocabulary loaded before the first use, as the provider does, all encodings of any list of texts are the uncached ones. |
| `TokenCache.KnownTextIsNumbered` | engines/onnx/onnx_embedding_provider.cpp:55-109 | A text of known words that fits is encoded as [CLS], the line numbers of the words in order, and [SEP], with 101 and 102 where the vocabulary has none. |
| `Resample.WindowInside` | engines/onnx/onnx_segmentation_provider.cpp:225-234 | The window of every output position is not empty and inside the source and its stride row. |
| `Resample.WeightSumPositive` | engines/onnx/onnx_segmentation_provider.cpp:238-248 | The weights sum to at least one half, so the guard against zero never fires. |
| `Resample.TotalNearShare` | engines/onnx/onnx_segmentation_provider.cpp:245-250 | Rounding moves the total by at most half a unit per weight. |
| `Resample.CoefficientsNearUnit` | engines/onnx/onnx_segmentation_provider.cpp:219-253 | Rounded weights are not negative and their total is within half their number of 2^22. |
| `Resample.MakeBilinearCoefficients` | engines/onnx/onnx_segmentation_provider.cpp:219-253 | The table filled row by row holds these weights. |
| `Resample.PassInRange` | engines/onnx/onnx_segmentation_provider.cpp:272-287 | For sources up to 4096, a pass stays between the least and greatest value of its window, before the clamp already. |
| `Resample.ResizeRgb` | engines/onnx/onnx_segmentation_provider.cpp:264-304 | The two pass loops compute columns first, then rows. |
| `Resample.ResizeStaysInRange` | engines/onnx/onnx_segmentation_provider.cpp:264-304 | Both passes stay inside the range of the source rectangle, for every target size. |
| `Resample.ConstantImageStays` | engines/onnx/onnx_segmentation_provider.cpp:264-304 | A constant image is reproduced exactly. |
| `TriangleFilter.WindowsMoveOn` | engines/onnx/onnx_segmentation_provider.cpp:230-234 | First and last pixel of the window do not decrease with the output position. |
| `TriangleFilter.PassIsNearMean` | engines/onnx/onnx_segmentation_provider.cpp:219-287 | The value of a pass is within 5/8 of the mean of all source pixels under a triangle around the middle of the output pixel. |
| `TriangleFilter.ResizedIsFiltered` | engines/onnx/onnx_segmentation_provider.cpp:219-304 | The resized image is within 5/4 of the separable triangle filter of the source, for sources up to 4096 by 4096 and every target size. |
| `TriangleFilter.SameSizeIsIdentity` | engines/onnx/onnx_segmentation_provider.cpp:219-304 | At its own size an image is reproduced exactly, pixel by pixel. |
| `FilterCenter.CenterOfMassIff` | engines/onnx/onnx_segmentation_provider.cpp:229-247 | Where the triangle lies inside the source, the weighted mean position of its pixels is its center exactly if they are balanced under it: the scale is whole, or the center meets the middle or the edge of a pixel, or the two sides happen to cancel. |
| `FilterCenter.WholeScaleIsCentered` | engines/onnx/onnx_segmentation_provider.cpp:229-247 | It is the center everywhere inside when an image is enlarged, or reduced by a whole factor. |
| `FilterCenter.SixToFourIsOff` | engines/onnx/onnx_segmentation_provider.cpp:229-247 | From six pixels to four the second one is off its place. |

## Left out

- llama.cpp, mtmd, ONNX Runtime, QNN and Swift: samplers, decoders, tokenizers, graph outputs and callbacks are arbitrary functions or nondeterministic steps.
- Floating-point rounding, NaN and the numerics of `log`, `cos` and `sin`: exact reals, an arbitrary logarithm, and FFT tables that satisfy the root-of-unity laws; float storage is not modelled.
- Integer width: request ids, counters and positions are unbounded, except for the `max_length - 1` wrap-around in `encode_unpadded`; 64-bit wrap-around of request ids would need 2^64 requests.
- NUL bytes inside pieces: C string callbacks cut a delta at a NUL byte, the model hands over all bytes.
- Fft.FftTables.Forward: is exact arithmetic, the source computes in 32-bit floats.
- SpeakerCache.StreamState.StreamingUpdate: takes rows that the graph returned with the expected width; the shape checks of the graph call are left out.
- KvSession.RunSession: assumes that a failed decode stores nothing and that the context has a memory.
- CallerStops.GenerateStream: starts after the argument and handle checks; the texts of exceptions and error details are not modelled.
- VlmStream.ProcessStream: starts after the image was prepared; a token spelled by more than 255 bytes, which the source skips, counts as a token without bytes.
- MlxSession.TeardownIsSafe: speaks of the Swift handle, not of the memory of the session struct; `delete session` is left out because nothing in this code keeps new callers from entering during destroy.
- MlxSession.EveryCallFinishes: speaks of runs in which calls stop coming; that a single call finishes while others keep coming would need a fair scheduler, which is not modelled. Callbacks into Swift are taken to return.
- Flat row-major buffers of embeddings, predictions and pixels are sequences of rows; the size checks on tensor shapes and the byte-wise copies out of ONNX Runtime are not modelled.
- Pixel formats and strides of the source image: `Resample` takes the value of a channel at a column and a row.
- The branch of `compress_spkcache` for a cache smaller than 16 frames: constants make it unreachable.
- Mel filterbank, Hann window and pre-emphasis: the mel frontend is an arbitrary function of the audio and the frame number; only its frame count is modelled.
- Sessions where several threads feed one diarization stream: the provider's mutex serializes them, the model starts from the serialized calls.
- The loss of history when a prompt does not fit the context, sampler caching and LoRA handling in `generate_stream`, and the case of a context without memory.
- Non-streaming stop scanning in the vision engine and the window that its repetition guard does not flush: neither satisfies the truncation specification.
- `encode` padding, attention masks, pooling, reranking, segmentation histograms, cloud speech recognition, configuration parsing, file scanning, logging and timing: they would only add easy members.
