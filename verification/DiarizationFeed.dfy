/** How audio reaches the diarization graph: offline in one call, or in a stream fed with chunks of any
    size. One graph step is an arbitrary function `update` of the streaming state, a window of mel
    frames and its length; the mel frontend is an arbitrary function `frame` of audio and frame number. */
module DiarizationFeed {
  import opened CacheCompression
  import opened Sequences
  import opened SpeakerCache

  const RIGHT_CONTEXT: nat := 1
  const HOP: nat := 160
  const MELS: nat := 128
  const FEED_SIZE: nat := (CHUNK_LEN + RIGHT_CONTEXT) * SUBSAMPLING
  const FEED_SAMPLES: nat := FEED_SIZE * HOP
  const CHUNK_STRIDE: nat := CHUNK_LEN * SUBSAMPLING
  const STRIDE_SAMPLES: nat := CHUNK_STRIDE * HOP
  const SAMPLES_PER_FRAME: nat := SUBSAMPLING * HOP

  type Audio = seq<real>
  type Feature = seq<real>

  datatype Outcome<S> = Done(state: S, preds: seq<Preds>) | Failed

  /** Zero-padded mel frames and how many of them are audio. */
  datatype Window = Window(features: seq<Feature>, len: nat)

  type Update<!S> = (S, Window) -> Outcome<S>
  type Frontend = (Audio, nat) -> Feature

  function MelFrames(samples: nat): nat {
    if samples == 0 then 0 else samples / HOP + 1
  }

  function Mel(frame: Frontend, audio: Audio): (r: seq<Feature>)
    ensures |r| == MelFrames(|audio|)
  {
    seq(MelFrames(|audio|), f requires 0 <= f < MelFrames(|audio|) => frame(audio, f))
  }

  function PaddedWindow(features: seq<Feature>): (w: Window)
    requires |features| <= FEED_SIZE
    ensures |w.features| == FEED_SIZE && w.len == |features| && w.features[..w.len] == features
  {
    Window(features + seq(FEED_SIZE - |features|, i => seq(MELS, k => 0.0)), |features|)
  }

  // ---------------------------------------------------------------------------
  // Windows and steps
  // ---------------------------------------------------------------------------

  datatype Run<S> = Run(state: S, preds: seq<Preds>, ok: bool)

  /** The steps for the given windows, up to the first failure. */
  function RunAll<S>(update: Update<S>, state: S, windows: seq<Window>): Run<S> {
    if windows == [] then Run(state, [], true)
    else
      match update(state, windows[0])
      case Failed => Run(state, [], false)
      case Done(state', preds) =>
        var rest := RunAll(update, state', windows[1..]);
        rest.(preds := preds + rest.preds)
  }

  lemma {:induction false} RunAllSnoc<S>(update: Update<S>, state: S, windows: seq<Window>, w: Window)
    ensures var r := RunAll(update, state, windows);
            RunAll(update, state, windows + [w]) ==
              if !r.ok then r
              else match update(r.state, w)
                   case Failed => r.(ok := false)
                   case Done(state', preds) => Run(state', r.preds + preds, true)
  {
    if windows == [] {
      assert windows + [w] == [w] && [w][1..] == [];
    } else {
      assert (windows + [w])[1..] == windows[1..] + [w];
      match update(state, windows[0])
      case Failed =>
      case Done(state', preds) =>
        RunAllSnoc(update, state', windows[1..], w);
    }
  }

  /** What a stream makes of the whole audio, in one look. */
  function StreamWindows(frame: Frontend, audio: Audio): seq<Window>
    decreases |audio|
  {
    if |audio| >= FEED_SAMPLES then
      [PaddedWindow(Mel(frame, audio[..FEED_SAMPLES])[..FEED_SIZE])] + StreamWindows(frame, audio[STRIDE_SAMPLES..])
    else if audio == [] then []
    else [PaddedWindow(Mel(frame, audio))]
  }

  // ---------------------------------------------------------------------------
  // The stream
  // ---------------------------------------------------------------------------

  datatype Stream<S> = Stream(state: S, allPreds: seq<Preds>, totalFrames: nat, audioBuffer: Audio, totalSamples: nat)

  datatype Fed<S> = Fed(stream: Stream<S>, ok: bool)

  /** One step on a stream whose buffer has been set to `rest`. */
  function Stepped<S>(update: Update<S>, v: Stream<S>, w: Window, ifFailed: Audio, ifDone: Audio): Fed<S> {
    match update(v.state, w)
    case Failed => Fed(v.(audioBuffer := ifFailed), false)
    case Done(state', preds) =>
      Fed(Stream(state', v.allPreds + preds, v.totalFrames + |preds|, ifDone, v.totalSamples), true)
  }

  function FullWindow(frame: Frontend, audio: Audio): Window
    requires |audio| >= FEED_SAMPLES
  {
    PaddedWindow(Mel(frame, audio[..FEED_SAMPLES])[..FEED_SIZE])
  }

  function Drained<S>(update: Update<S>, frame: Frontend, v: Stream<S>): Fed<S>
    decreases |v.audioBuffer|
  {
    if |v.audioBuffer| < FEED_SAMPLES then Fed(v, true)
    else
      var f := Stepped(update, v, FullWindow(frame, v.audioBuffer), v.audioBuffer, v.audioBuffer[STRIDE_SAMPLES..]);
      if f.ok then Drained(update, frame, f.stream) else f
  }

  function Appended<S>(v: Stream<S>, samples: Audio): Stream<S> {
    v.(audioBuffer := v.audioBuffer + samples, totalSamples := v.totalSamples + |samples|)
  }

  function Flushed<S>(update: Update<S>, frame: Frontend, v: Stream<S>): Fed<S> {
    var d := Drained(update, frame, v);
    var v' := d.stream;
    if !d.ok || v'.audioBuffer == [] then d
    else
      var frames := Min(MelFrames(|v'.audioBuffer|), FEED_SIZE);
      Stepped(update, v', PaddedWindow(Mel(frame, v'.audioBuffer)[..frames]), [], [])
  }

  /** A call without samples is a flush. */
  function Feed<S>(update: Update<S>, frame: Frontend, v: Stream<S>, samples: Audio): Fed<S> {
    if samples == [] then Flushed(update, frame, v) else Drained(update, frame, Appended(v, samples))
  }

  class DiarizationStream<S> {
    var state: S
    var allPreds: seq<Preds>
    var totalFrames: nat
    var audioBuffer: Audio
    var totalSamples: nat

    function Value(): Stream<S>
      reads this
    {
      Stream(state, allPreds, totalFrames, audioBuffer, totalSamples)
    }

    constructor (initial: S)
      ensures Value() == Stream(initial, [], 0, [], 0)
    {
      state, allPreds, totalFrames, audioBuffer, totalSamples := initial, [], 0, [], 0;
    }

    method Step(update: Update<S>, w: Window) returns (ok: bool)
      modifies this
      ensures Fed(Value(), ok) == Stepped(update, old(Value()), w, old(audioBuffer), old(audioBuffer))
    {
      match update(state, w)
      case Failed => return false;
      case Done(state', preds) =>
        state := state';
        allPreds := allPreds + preds;
        totalFrames := totalFrames + |preds|;
        return true;
    }

    method FeedAudioChunk(update: Update<S>, frame: Frontend, samples: Audio) returns (ok: bool)
      modifies this
      ensures Fed(Value(), ok) == Feed(update, frame, old(Value()), samples)
    {
      hide Mel, PaddedWindow;
      var flush := samples == [];
      if !flush {
        audioBuffer := audioBuffer + samples;
        totalSamples := totalSamples + |samples|;
      }
      ghost var start := Value();
      while |audioBuffer| >= FEED_SAMPLES
        invariant Drained(update, frame, Value()) == Drained(update, frame, start)
        decreases |audioBuffer|
      {
        var features := Mel(frame, audioBuffer[..FEED_SAMPLES]);
        ok := Step(update, PaddedWindow(features[..Min(FEED_SIZE, |features|)]));
        if !ok {
          return;
        }
        audioBuffer := audioBuffer[STRIDE_SAMPLES..];
      }
      if flush && audioBuffer != [] {
        var remaining := audioBuffer;
        audioBuffer := [];
        var features := Mel(frame, remaining);
        ok := Step(update, PaddedWindow(features[..Min(|features|, FEED_SIZE)]));
        return;
      }
      ok := true;
    }
  }

  // ---------------------------------------------------------------------------
  // How the audio is split does not matter
  // ---------------------------------------------------------------------------

  /** Draining, then more audio, then draining again, is draining once with all of it; so it is when a
      step fails in between. */
  lemma {:induction false} DrainedThenMore<S>(update: Update<S>, frame: Frontend, v: Stream<S>, more: Audio)
    ensures Drained(update, frame, Appended(Drained(update, frame, v).stream, more))
            == Drained(update, frame, Appended(v, more))
    decreases |v.audioBuffer|
  {
    if |v.audioBuffer| >= FEED_SAMPLES {
      var b := v.audioBuffer;
      assert (b + more)[..FEED_SAMPLES] == b[..FEED_SAMPLES];
      assert (b + more)[STRIDE_SAMPLES..] == b[STRIDE_SAMPLES..] + more;
      var f := Stepped(update, v, FullWindow(frame, b), b, b[STRIDE_SAMPLES..]);
      hide FullWindow;
      if f.ok {
        DrainedThenMore(update, frame, f.stream, more);
      }
    }
  }

  function Start<S>(initial: S, audio: Audio): Stream<S> {
    Stream(initial, [], 0, audio, |audio|)
  }

  /** The stream after the given feeds, whether or not some of them failed. */
  function FeedAll<S>(update: Update<S>, frame: Frontend, initial: S, chunks: seq<Audio>): Stream<S> {
    if chunks == [] then Start(initial, [])
    else
      var n := |chunks| - 1;
      Feed(update, frame, FeedAll(update, frame, initial, chunks[..n]), chunks[n]).stream
  }

  lemma {:induction false} FeedAllIsDrained<S>(update: Update<S>, frame: Frontend, initial: S, chunks: seq<Audio>)
    requires forall i :: 0 <= i < |chunks| ==> chunks[i] != []
    ensures FeedAll(update, frame, initial, chunks) == Drained(update, frame, Start(initial, Concat(chunks))).stream
  {
    if chunks != [] {
      var n := |chunks| - 1;
      var before := Start(initial, Concat(chunks[..n]));
      FeedAllIsDrained(update, frame, initial, chunks[..n]);
      DrainedThenMore(update, frame, before, chunks[n]);
      assert Appended(before, chunks[n]) == Start(initial, Concat(chunks));
    }
  }

  /** Draining and a flush process the windows of the buffer. */
  lemma {:induction false} FlushedRunsWindows<S>(update: Update<S>, frame: Frontend, v: Stream<S>)
    ensures var f, r := Flushed(update, frame, v), RunAll(update, v.state, StreamWindows(frame, v.audioBuffer));
            && f.ok == r.ok && f.stream.allPreds == v.allPreds + r.preds
            && f.stream.totalFrames == v.totalFrames + |r.preds|
            && f.stream.state == r.state && f.stream.totalSamples == v.totalSamples
    decreases |v.audioBuffer|
  {
    var b := v.audioBuffer;
    var windows := StreamWindows(frame, b);
    hide Mel, PaddedWindow;
    if |b| >= FEED_SAMPLES {
      var w := FullWindow(frame, b);
      assert windows == [w] + StreamWindows(frame, b[STRIDE_SAMPLES..]);
      assert windows[1..] == StreamWindows(frame, b[STRIDE_SAMPLES..]);
      var f := Stepped(update, v, w, b, b[STRIDE_SAMPLES..]);
      if f.ok {
        FlushedRunsWindows(update, frame, f.stream);
      }
    } else if b != [] {
      assert Mel(frame, b)[..Min(MelFrames(|b|), FEED_SIZE)] == Mel(frame, b);
      assert windows[1..] == [];
    }
  }

  lemma FlushedTwice<S>(update: Update<S>, frame: Frontend, v: Stream<S>)
    ensures Flushed(update, frame, Drained(update, frame, v).stream) == Flushed(update, frame, v)
  {
    hide Drained;
    DrainedThenMore(update, frame, v, []);
    var d := Drained(update, frame, v).stream;
    assert Appended(d, []) == d && Appended(v, []) == v;
  }

  /** Feeding the audio in any non-empty pieces and flushing runs exactly the steps of StreamWindows, so
      the predictions, the state and the outcome depend on the audio alone. */
  lemma SessionRunsWindows<S>(update: Update<S>, frame: Frontend, initial: S, chunks: seq<Audio>)
    requires forall i :: 0 <= i < |chunks| ==> chunks[i] != []
    ensures var f := Feed(update, frame, FeedAll(update, frame, initial, chunks), []);
            var r := RunAll(update, initial, StreamWindows(frame, Concat(chunks)));
            && f.ok == r.ok && f.stream.allPreds == r.preds && f.stream.totalFrames == |r.preds|
            && f.stream.state == r.state && f.stream.totalSamples == |Concat(chunks)|
  {
    var v := Start(initial, Concat(chunks));
    FeedAllIsDrained(update, frame, initial, chunks);
    FlushedTwice(update, frame, v);
    FlushedRunsWindows(update, frame, v);
  }

  /** A whole session on a stream object. */
  method RunStream<S>(update: Update<S>, frame: Frontend, initial: S, chunks: seq<Audio>)
    returns (preds: seq<Preds>, totalFrames: nat, totalSamples: nat, ok: bool)
    requires forall i :: 0 <= i < |chunks| ==> chunks[i] != []
    ensures var r := RunAll(update, initial, StreamWindows(frame, Concat(chunks)));
            preds == r.preds && totalFrames == |preds| && ok == r.ok && totalSamples == |Concat(chunks)|
  {
    hide Drained, Flushed, StreamWindows;
    var stream := new DiarizationStream<S>(initial);
    for i := 0 to |chunks|
      invariant stream.Value() == FeedAll(update, frame, initial, chunks[..i])
    {
      assert chunks[..i + 1][..i] == chunks[..i];
      var fed := stream.FeedAudioChunk(update, frame, chunks[i]);
    }
    assert chunks[..|chunks|] == chunks;
    SessionRunsWindows(update, frame, initial, chunks);
    ok := stream.FeedAudioChunk(update, frame, []);
    preds, totalFrames, totalSamples := stream.allPreds, stream.totalFrames, stream.totalSamples;
  }

  // ---------------------------------------------------------------------------
  // Offline
  // ---------------------------------------------------------------------------

  function ChunkWindow(features: seq<Feature>, ci: nat): Window
    requires ci * CHUNK_STRIDE < |features|
  {
    var start := ci * CHUNK_STRIDE;
    PaddedWindow(features[start..Min(start + FEED_SIZE, |features|)])
  }

  function OfflineWindows(features: seq<Feature>, chunks: nat): (r: seq<Window>)
    requires chunks > 0 ==> (chunks - 1) * CHUNK_STRIDE < |features|
    ensures |r| == chunks
  {
    if chunks == 0 then [] else OfflineWindows(features, chunks - 1) + [ChunkWindow(features, chunks - 1)]
  }

  datatype Offline<S> = InvalidArgument | StepFailed | Diarized(preds: seq<Preds>)

  lemma NoChunksYet<S>(update: Update<S>, initial: S, features: seq<Feature>)
    ensures RunAll(update, initial, OfflineWindows(features, 0)) == Run(initial, [], true)
  {
  }

  lemma OneMoreChunk<S>(update: Update<S>, initial: S, features: seq<Feature>, ci: nat)
    requires ci * CHUNK_STRIDE < |features|
    ensures var r := RunAll(update, initial, OfflineWindows(features, ci));
            RunAll(update, initial, OfflineWindows(features, ci + 1)) ==
              if !r.ok then r
              else match update(r.state, ChunkWindow(features, ci))
                   case Failed => r.(ok := false)
                   case Done(state', preds) => Run(state', r.preds + preds, true)
  {
    RunAllSnoc(update, initial, OfflineWindows(features, ci), ChunkWindow(features, ci));
  }

  lemma ChunkStarts(total: nat)
    ensures forall ci: nat :: ci < Ceil(total, CHUNK_STRIDE) ==> ci * CHUNK_STRIDE < total
  {
  }

  method Diarize<S>(update: Update<S>, frame: Frontend, initial: S, samples: Audio) returns (r: Offline<S>)
    ensures r.InvalidArgument? <==> samples == []
    ensures samples != [] ==>
              var features := Mel(frame, samples);
              var run := RunAll(update, initial, OfflineWindows(features, Ceil(|features|, CHUNK_STRIDE)));
              r == if run.ok then Diarized(run.preds) else StepFailed
  {
    if samples == [] {
      return InvalidArgument;
    }
    hide PaddedWindow, Mel, RunAll, OfflineWindows, Ceil;
    var features := Mel(frame, samples);
    ChunkStarts(|features|);
    NoChunksYet(update, initial, features);
    var totalFrames := |features|;
    var numChunks := Ceil(totalFrames, CHUNK_STRIDE);
    var state, allPreds := initial, [];
    for ci := 0 to numChunks
      invariant RunAll(update, initial, OfflineWindows(features, ci)) == Run(state, allPreds, true)
    {
      var start := ci * CHUNK_STRIDE;
      var end := Min(start + FEED_SIZE, totalFrames);
      OneMoreChunk(update, initial, features, ci);
      match update(state, PaddedWindow(features[start..end]))
      case Failed =>
        FailureStays(update, initial, features, ci + 1, numChunks);
        return StepFailed;
      case Done(state', preds) =>
        state, allPreds := state', allPreds + preds;
    }
    r := Diarized(allPreds);
  }

  lemma {:induction false} FailureStays<S>(update: Update<S>, initial: S, features: seq<Feature>, a: nat, b: nat)
    requires a <= b && (b > 0 ==> (b - 1) * CHUNK_STRIDE < |features|)
    requires !RunAll(update, initial, OfflineWindows(features, a)).ok
    ensures !RunAll(update, initial, OfflineWindows(features, b)).ok
    decreases b
  {
    if a < b {
      FailureStays(update, initial, features, a, b - 1);
      OneMoreChunk(update, initial, features, b - 1);
    }
  }

  // ---------------------------------------------------------------------------
  // Frame counts
  // ---------------------------------------------------------------------------

  /** Every step yields as many frames as its window is worth. */
  ghost predicate Enough<S(!new)>(update: Update<S>) {
    forall state, w :: update(state, w).Done? && |update(state, w).preds| == Keep(w.len)
  }

  function KeepSum(windows: seq<Window>): nat {
    if windows == [] then 0 else Keep(windows[0].len) + KeepSum(windows[1..])
  }

  lemma {:induction false} RunFrames<S(!new)>(update: Update<S>, state: S, windows: seq<Window>)
    requires Enough(update)
    ensures var r := RunAll(update, state, windows); r.ok && |r.preds| == KeepSum(windows)
  {
    if windows != [] {
      RunFrames(update, update(state, windows[0]).state, windows[1..]);
    }
  }

  lemma {:induction false} KeepSumSnoc(windows: seq<Window>, w: Window)
    ensures KeepSum(windows + [w]) == KeepSum(windows) + Keep(w.len)
  {
    if windows == [] {
      assert (windows + [w])[1..] == [];
    } else {
      assert (windows + [w])[1..] == windows[1..] + [w];
      KeepSumSnoc(windows[1..], w);
    }
  }

  lemma OneMoreKeep(chunks: nat, mel: nat)
    requires chunks * CHUNK_STRIDE < mel
    ensures var len := Min(chunks * CHUNK_STRIDE + FEED_SIZE, mel) - chunks * CHUNK_STRIDE;
            Min(chunks * CHUNK_LEN, Ceil(mel, SUBSAMPLING)) + Keep(len)
            == Min((chunks + 1) * CHUNK_LEN, Ceil(mel, SUBSAMPLING))
  {
  }

  /** All chunks but the last are full. */
  lemma {:induction false} OfflineKeepSum(features: seq<Feature>, chunks: nat)
    requires chunks > 0 ==> (chunks - 1) * CHUNK_STRIDE < |features|
    ensures KeepSum(OfflineWindows(features, chunks)) == Min(chunks * CHUNK_LEN, Ceil(|features|, SUBSAMPLING))
  {
    hide PaddedWindow, Ceil, Keep;
    if chunks > 0 {
      OneMoreKeep(chunks - 1, |features|);
      OfflineKeepSum(features, chunks - 1);
      KeepSumSnoc(OfflineWindows(features, chunks - 1), ChunkWindow(features, chunks - 1));
    }
  }

  /** Offline, one frame for every eight mel frames, rounded up; their timeline covers the audio and the
      last frame starts within it. */
  lemma OfflineFramesCoverAudio<S(!new)>(update: Update<S>, frame: Frontend, initial: S, samples: Audio)
    requires Enough(update) && samples != []
    ensures var features := Mel(frame, samples);
            var r := RunAll(update, initial, OfflineWindows(features, Ceil(|features|, CHUNK_STRIDE)));
            && r.ok && |r.preds| == Ceil(MelFrames(|samples|), SUBSAMPLING)
            && (|r.preds| - 1) * SAMPLES_PER_FRAME <= |samples| < |r.preds| * SAMPLES_PER_FRAME
  {
    hide Mel;
    var features := Mel(frame, samples);
    var chunks := Ceil(|features|, CHUNK_STRIDE);
    RunFrames(update, initial, OfflineWindows(features, chunks));
    OfflineKeepSum(features, chunks);
    hide Ceil, RunAll, OfflineWindows;
    FramesCover(|samples|);
  }

  lemma FramesCover(n: nat)
    requires n > 0
    ensures var mel := MelFrames(n);
            var frames := Ceil(mel, SUBSAMPLING);
            && Min(Ceil(mel, CHUNK_STRIDE) * CHUNK_LEN, frames) == frames
            && (frames - 1) * SAMPLES_PER_FRAME <= n < frames * SAMPLES_PER_FRAME
  {
    var mel := n / HOP + 1;
    var frames := Ceil(mel, SUBSAMPLING);
    assert HOP * (mel - 1) <= n < HOP * mel;
    assert SUBSAMPLING * (frames - 1) < mel <= SUBSAMPLING * frames;
    assert mel <= CHUNK_STRIDE * Ceil(mel, CHUNK_STRIDE);
  }

  /** What is left of the audio when all full windows of a stream are drained. */
  function Tail(samples: nat): nat {
    if samples >= FEED_SAMPLES then Tail(samples - STRIDE_SAMPLES) else samples
  }

  lemma {:induction false} StreamKeepSum(frame: Frontend, audio: Audio)
    ensures KeepSum(StreamWindows(frame, audio)) + (if Tail(|audio|) >= STRIDE_SAMPLES then 1 else 0)
            == Ceil(MelFrames(|audio|), SUBSAMPLING)
    decreases |audio|
  {
    hide Mel;
    if |audio| >= FEED_SAMPLES {
      var rest := audio[STRIDE_SAMPLES..];
      StreamKeepSum(frame, rest);
      assert StreamWindows(frame, audio)[1..] == StreamWindows(frame, rest);
      assert MelFrames(|audio|) == MelFrames(|rest|) + CHUNK_STRIDE;
    } else if audio != [] {
      assert StreamWindows(frame, audio)[1..] == [];
    }
  }

  /** A stream yields the offline number of frames exactly if fewer than STRIDE_SAMPLES samples are left
      for the flush; otherwise it loses the last frame, since the flush keeps no more than CHUNK_LEN. */
  lemma StreamLosesAFrameIff<S(!new)>(update: Update<S>, frame: Frontend, initial: S, audio: Audio)
    requires Enough(update)
    ensures var r := RunAll(update, initial, StreamWindows(frame, audio));
            var offline := Ceil(MelFrames(|audio|), SUBSAMPLING);
            && (|r.preds| == offline <==> Tail(|audio|) < STRIDE_SAMPLES)
            && (|r.preds| == offline || |r.preds| == offline - 1)
  {
    RunFrames(update, initial, StreamWindows(frame, audio));
    StreamKeepSum(frame, audio);
  }

  /** 9.92 s of audio: 125 frames offline, 124 in a stream. */
  lemma StreamCanLoseAFrame<S(!new)>(update: Update<S>, frame: Frontend, initial: S, audio: Audio)
    requires Enough(update) && |audio| == 158720
    ensures |RunAll(update, initial, StreamWindows(frame, audio)).preds| == 124
    ensures Ceil(MelFrames(|audio|), SUBSAMPLING) == 125
  {
    StreamLosesAFrameIff(update, frame, initial, audio);
  }

  // ---------------------------------------------------------------------------
  // Frame counts of the streaming state
  // ---------------------------------------------------------------------------

  /** A run of the streaming state, one step per window, in which the graph always returns enough. */
  ghost predicate Serves(ln: real -> real, windows: seq<Window>, steps: seq<(nat, Graph)>, states: seq<State>,
      chunks: seq<seq<Preds>>) {
    && IsRun(ln, steps, states, chunks) && |chunks| == |steps| == |windows|
    && forall k :: 0 <= k < |windows| ==>
         steps[k].0 == windows[k].len && Generous(states[k], steps[k].0, steps[k].1)
  }

  lemma {:induction false} ServedFrames(ln: real -> real, windows: seq<Window>, steps: seq<(nat, Graph)>,
      states: seq<State>, chunks: seq<seq<Preds>>)
    requires Serves(ln, windows, steps, states, chunks)
    ensures Total(chunks) == KeepSum(windows)
    decreases |chunks|
  {
    hide Moved, Keep, Generous;
    if chunks != [] {
      var n := |chunks| - 1;
      ServedFrames(ln, windows[..n], steps[..n], states[..n + 1], chunks[..n]);
      GenerousKeeps(states[n], states[n + 1], ln, steps[n].0, steps[n].1, chunks[n]);
      assert windows == windows[..n] + [windows[n]];
      KeepSumSnoc(windows[..n], windows[n]);
    }
  }

  /** There are enough chunks for every frame. */
  lemma ChunksSuffice(mel: nat)
    ensures Ceil(mel, SUBSAMPLING) <= Ceil(mel, CHUNK_STRIDE) * CHUNK_LEN
  {
    var frames := Ceil(mel, SUBSAMPLING);
    assert frames > 0 ==> SUBSAMPLING * (frames - 1) < mel;
    assert mel <= CHUNK_STRIDE * Ceil(mel, CHUNK_STRIDE);
  }

  /** Offline, the streaming state yields a row for every eight mel frames, rounded up. */
  lemma OfflineStateFrames(ln: real -> real, features: seq<Feature>, steps: seq<(nat, Graph)>, states: seq<State>,
      chunks: seq<seq<Preds>>)
    requires Serves(ln, OfflineWindows(features, Ceil(|features|, CHUNK_STRIDE)), steps, states, chunks)
    ensures Total(chunks) == Ceil(|features|, SUBSAMPLING)
  {
    hide Serves, Ceil, OfflineWindows, KeepSum, Total;
    ChunkStarts(|features|);
    ChunksSuffice(|features|);
    var n := Ceil(|features|, CHUNK_STRIDE);
    ServedFrames(ln, OfflineWindows(features, n), steps, states, chunks);
    OfflineKeepSum(features, n);
  }

  /** In a stream it yields as many, or one less: exactly if STRIDE_SAMPLES samples are left for the flush. */
  lemma StreamStateFrames(ln: real -> real, frame: Frontend, audio: Audio, steps: seq<(nat, Graph)>,
      states: seq<State>, chunks: seq<seq<Preds>>)
    requires Serves(ln, StreamWindows(frame, audio), steps, states, chunks)
    ensures Total(chunks) == Ceil(MelFrames(|audio|), SUBSAMPLING) - if Tail(|audio|) < STRIDE_SAMPLES then 0 else 1
  {
    hide Serves, Ceil, StreamWindows, KeepSum, Total;
    ServedFrames(ln, StreamWindows(frame, audio), steps, states, chunks);
    StreamKeepSum(frame, audio);
  }
}
