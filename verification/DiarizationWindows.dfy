/** What the windows of a diarization hold, and what a run over them is, sample by sample and step by step. */
module DiarizationWindows {
  import opened CacheCompression
  import opened DiarizationFeed
  import opened Sequences
  import opened SpeakerCache

  /** One mel frame for every HOP samples begun, and one more if they are complete. */
  predicate IsMelCount(mel: nat, samples: nat) {
    if samples == 0 then mel == 0 else (mel - 1) * HOP <= samples < mel * HOP
  }

  predicate IsSilentFeature(feature: Feature) {
    |feature| == MELS && forall k :: 0 <= k < MELS ==> feature[k] == 0.0
  }

  /** The window holds `len` mel frames of the audio from frame `first` on, and zeros behind them. */
  ghost predicate IsWindowOf(w: Window, frame: Frontend, audio: Audio, first: nat, len: nat) {
    && w.len == len <= FEED_SIZE && |w.features| == FEED_SIZE
    && (forall i :: 0 <= i < len ==> w.features[i] == frame(audio, first + i))
    && (forall i :: len <= i < FEED_SIZE ==> IsSilentFeature(w.features[i]))
  }

  lemma MelOf(frame: Frontend, audio: Audio)
    ensures IsMelCount(|Mel(frame, audio)|, |audio|)
    ensures forall i :: 0 <= i < |Mel(frame, audio)| ==> Mel(frame, audio)[i] == frame(audio, i)
  {
  }

  /** Padding a part of the mel frames gives a window of them. */
  lemma PaddedIsWindow(frame: Frontend, audio: Audio, first: nat, last: nat)
    requires first <= last <= |Mel(frame, audio)| && last - first <= FEED_SIZE
    ensures IsWindowOf(PaddedWindow(Mel(frame, audio)[first..last]), frame, audio, first, last - first)
  {
    MelOf(frame, audio);
    var part := Mel(frame, audio)[first..last];
    hide Mel;
    assert forall i :: 0 <= i < |part| ==> part[i] == frame(audio, first + i);
  }

  // ---------------------------------------------------------------------------
  // Offline
  // ---------------------------------------------------------------------------

  lemma {:induction false} OfflineAt(features: seq<Feature>, chunks: nat, k: nat)
    requires k < chunks && (chunks - 1) * CHUNK_STRIDE < |features|
    ensures k * CHUNK_STRIDE < |features|
    ensures OfflineWindows(features, chunks)[k] == ChunkWindow(features, k)
  {
    if k < chunks - 1 {
      OfflineAt(features, chunks - 1, k);
    }
  }


  lemma StridesCover(mel: nat)
    ensures var n := Ceil(mel, CHUNK_STRIDE); mel <= n * CHUNK_STRIDE && (n > 0 ==> (n - 1) * CHUNK_STRIDE < mel)
  {
  }

  lemma OfflineAtHolds(frame: Frontend, audio: Audio, n: nat, k: nat)
    requires k < n && (n - 1) * CHUNK_STRIDE < |Mel(frame, audio)|
    ensures var mel := |Mel(frame, audio)|;
            && k * CHUNK_STRIDE < mel
            && IsWindowOf(OfflineWindows(Mel(frame, audio), n)[k], frame, audio, k * CHUNK_STRIDE,
                          if mel - k * CHUNK_STRIDE < FEED_SIZE then mel - k * CHUNK_STRIDE else FEED_SIZE)
  {
    hide Mel, PaddedWindow, IsWindowOf, OfflineWindows;
    var features := Mel(frame, audio);
    OfflineAt(features, n, k);
    var first := k * CHUNK_STRIDE;
    PaddedIsWindow(frame, audio, first, Min(first + FEED_SIZE, |features|));
  }

  /** Offline, the k-th window holds the mel frames from k * CHUNK_STRIDE on, as many as it can; there are as
      many windows as it takes to start one in every stride. */
  lemma OfflineWindowsHold(frame: Frontend, audio: Audio)
    ensures var mel := |Mel(frame, audio)|;
            var windows := OfflineWindows(Mel(frame, audio), Ceil(mel, CHUNK_STRIDE));
            && IsMelCount(mel, |audio|)
            && mel <= |windows| * CHUNK_STRIDE && (windows != [] ==> (|windows| - 1) * CHUNK_STRIDE < mel)
            && forall k: nat :: k < |windows| ==>
                 && k * CHUNK_STRIDE < mel
                 && IsWindowOf(windows[k], frame, audio, k * CHUNK_STRIDE,
                               if mel - k * CHUNK_STRIDE < FEED_SIZE then mel - k * CHUNK_STRIDE else FEED_SIZE)
  {
    hide Mel, PaddedWindow, IsWindowOf, Ceil, OfflineWindows, IsMelCount;
    var mel := |Mel(frame, audio)|;
    MelOf(frame, audio);
    StridesCover(mel);
    var n := Ceil(mel, CHUNK_STRIDE);
    forall k: nat | k < n
      ensures k * CHUNK_STRIDE < mel
      ensures IsWindowOf(OfflineWindows(Mel(frame, audio), n)[k], frame, audio, k * CHUNK_STRIDE,
                         if mel - k * CHUNK_STRIDE < FEED_SIZE then mel - k * CHUNK_STRIDE else FEED_SIZE)
    {
      OfflineAtHolds(frame, audio, n, k);
    }
  }

  /** The part of each window that no later one repeats. */
  function Fresh(windows: seq<Window>): (parts: seq<seq<Feature>>)
    requires forall k :: 0 <= k < |windows| ==> windows[k].len <= |windows[k].features|
    ensures |parts| == |windows|
    ensures forall k :: 0 <= k < |windows| ==> parts[k] == windows[k].features[..Min(windows[k].len, CHUNK_STRIDE)]
  {
    seq(|windows|, k requires 0 <= k < |windows| => windows[k].features[..Min(windows[k].len, CHUNK_STRIDE)])
  }

  lemma FreshSnoc(windows: seq<Window>, w: Window)
    requires forall k :: 0 <= k < |windows| ==> windows[k].len <= |windows[k].features|
    requires w.len <= |w.features|
    ensures forall k :: 0 <= k < |windows + [w]| ==> (windows + [w])[k].len <= |(windows + [w])[k].features|
    ensures Concat(Fresh(windows + [w])) == Concat(Fresh(windows)) + w.features[..Min(w.len, CHUNK_STRIDE)]
  {
    var part := w.features[..Min(w.len, CHUNK_STRIDE)];
    assert Fresh(windows + [w]) == Fresh(windows) + [part];
    ConcatSnoc(Fresh(windows), part);
  }

  lemma OfflineSnoc(features: seq<Feature>, chunks: nat)
    requires chunks > 0 && (chunks - 1) * CHUNK_STRIDE < |features|
    ensures OfflineWindows(features, chunks)
            == OfflineWindows(features, chunks - 1) + [ChunkWindow(features, chunks - 1)]
  {
  }

  lemma PartsJoin(features: seq<Feature>, chunks: nat)
    requires chunks > 0 && (chunks - 1) * CHUNK_STRIDE < |features|
    ensures var first, last := (chunks - 1) * CHUNK_STRIDE, Min(chunks * CHUNK_STRIDE, |features|);
            && Min(first, |features|) == first <= last <= |features|
            && features[..first] + features[first..last] == features[..last]
  {
  }

  lemma FreshPart(features: seq<Feature>, k: nat)
    requires k * CHUNK_STRIDE < |features|
    ensures var w := ChunkWindow(features, k);
            w.len <= |w.features|
            && w.features[..Min(w.len, CHUNK_STRIDE)]
               == features[k * CHUNK_STRIDE..Min((k + 1) * CHUNK_STRIDE, |features|)]
  {
    var start, w := k * CHUNK_STRIDE, ChunkWindow(features, k);
    var slice := features[start..Min(start + FEED_SIZE, |features|)];
    assert w.features[..w.len] == slice;
    hide PaddedWindow, ChunkWindow;
    var n := Min(w.len, CHUNK_STRIDE);
    assert w.features[..n] == w.features[..w.len][..n];
    assert slice[..n] == features[start..start + n];
  }

  lemma {:induction false} FreshFrames(features: seq<Feature>, chunks: nat)
    requires chunks > 0 ==> (chunks - 1) * CHUNK_STRIDE < |features|
    ensures forall k :: 0 <= k < chunks ==>
              OfflineWindows(features, chunks)[k].len <= |OfflineWindows(features, chunks)[k].features|
    ensures Concat(Fresh(OfflineWindows(features, chunks))) == features[..Min(chunks * CHUNK_STRIDE, |features|)]
  {
    if chunks == 0 {
      assert OfflineWindows(features, 0) == [];
    } else {
      hide *;
      FreshFrames(features, chunks - 1);
      OfflineSnoc(features, chunks);
      FreshPart(features, chunks - 1);
      FreshSnoc(OfflineWindows(features, chunks - 1), ChunkWindow(features, chunks - 1));
      PartsJoin(features, chunks);
    }
  }

  /** Offline, no mel frame is lost or repeated where it counts: the fresh parts of the windows are the mel
      frames of the audio. */
  lemma OfflineReadsEverything(frame: Frontend, audio: Audio)
    ensures var features := Mel(frame, audio);
            var windows := OfflineWindows(features, Ceil(|features|, CHUNK_STRIDE));
            (forall k :: 0 <= k < |windows| ==> windows[k].len <= |windows[k].features|)
            && Concat(Fresh(windows)) == features
  {
    hide Mel, Ceil, OfflineWindows, Fresh;
    var features := Mel(frame, audio);
    var n := Ceil(|features|, CHUNK_STRIDE);
    StridesCover(|features|);
    FreshFrames(features, n);
    assert features[..|features|] == features;
  }

  // ---------------------------------------------------------------------------
  // In a stream
  // ---------------------------------------------------------------------------

  /** The window made of the audio `rest`: of a full feed if it is as long, else of all of it. */
  ghost predicate IsStreamWindow(w: Window, frame: Frontend, rest: Audio) {
    if |rest| >= FEED_SAMPLES then IsWindowOf(w, frame, rest[..FEED_SAMPLES], 0, FEED_SIZE)
    else IsWindowOf(w, frame, rest, 0, w.len) && IsMelCount(w.len, |rest|)
  }

  /** In a stream the k-th window is made of the samples from k * STRIDE_SAMPLES on, as long as there are any;
      the last one is the first that is not full. */
  lemma {:induction false} StreamWindowsHold(frame: Frontend, audio: Audio)
    ensures var windows := StreamWindows(frame, audio);
            && (windows == [] <==> audio == [])
            && forall k: nat :: k < |windows| ==>
                 && k * STRIDE_SAMPLES < |audio|
                 && IsStreamWindow(windows[k], frame, audio[k * STRIDE_SAMPLES..])
                 && (k + 1 == |windows| <==> |audio| - k * STRIDE_SAMPLES < FEED_SAMPLES)
    decreases |audio|
  {
    hide Mel, PaddedWindow, IsStreamWindow;
    var windows := StreamWindows(frame, audio);
    if |audio| >= FEED_SAMPLES {
      var rest := audio[STRIDE_SAMPLES..];
      StreamWindowsHold(frame, rest);
      FullIsStreamWindow(frame, audio);
      var more := StreamWindows(frame, rest);
      assert audio[0..] == audio;
      forall k: nat | k < |windows|
        ensures k * STRIDE_SAMPLES < |audio| && IsStreamWindow(windows[k], frame, audio[k * STRIDE_SAMPLES..])
        ensures k + 1 == |windows| <==> |audio| - k * STRIDE_SAMPLES < FEED_SAMPLES
      {
        if k > 0 {
          var j: nat := k - 1;
          assert windows[k] == more[j];
          assert rest[j * STRIDE_SAMPLES..] == audio[k * STRIDE_SAMPLES..];
        }
      }
    } else if audio != [] {
      TailIsStreamWindow(frame, audio);
      assert audio[0..] == audio;
    }
  }

  lemma FullIsStreamWindow(frame: Frontend, audio: Audio)
    requires |audio| >= FEED_SAMPLES
    ensures |Mel(frame, audio[..FEED_SAMPLES])| >= FEED_SIZE
    ensures IsStreamWindow(PaddedWindow(Mel(frame, audio[..FEED_SAMPLES])[..FEED_SIZE]), frame, audio)
  {
    var feed := audio[..FEED_SAMPLES];
    PaddedIsWindow(frame, feed, 0, FEED_SIZE);
    hide PaddedWindow, IsWindowOf;
    assert Mel(frame, feed)[0..FEED_SIZE] == Mel(frame, feed)[..FEED_SIZE];
  }

  lemma TailIsStreamWindow(frame: Frontend, audio: Audio)
    requires 0 < |audio| < FEED_SAMPLES
    ensures |Mel(frame, audio)| <= FEED_SIZE && IsStreamWindow(PaddedWindow(Mel(frame, audio)), frame, audio)
  {
    var mel := |Mel(frame, audio)|;
    MelOf(frame, audio);
    PaddedIsWindow(frame, audio, 0, mel);
    hide IsWindowOf;
    assert Mel(frame, audio)[0..mel] == Mel(frame, audio);
  }

  // ---------------------------------------------------------------------------
  // Runs
  // ---------------------------------------------------------------------------

  /** The steps of a run: each goes on from the state before it on the next window; it ends with the windows or
      before the first that fails, and the predictions are those of the steps in a row. */
  ghost predicate AreSteps<S>(update: Update<S>, initial: S, windows: seq<Window>, states: seq<S>,
      outs: seq<seq<Preds>>, r: Run<S>)
  {
    && |states| == |outs| + 1 && |outs| <= |windows| && states[0] == initial && r.state == states[|outs|]
    && (forall k :: 0 <= k < |outs| ==> update(states[k], windows[k]) == Done(states[k + 1], outs[k]))
    && (r.ok <==> |outs| == |windows|) && (!r.ok ==> update(r.state, windows[|outs|]).Failed?)
    && r.preds == Concat(outs)
  }

  lemma {:induction false} RunAllSteps<S>(update: Update<S>, initial: S, windows: seq<Window>)
    returns (states: seq<S>, outs: seq<seq<Preds>>)
    ensures AreSteps(update, initial, windows, states, outs, RunAll(update, initial, windows))
  {
    if windows == [] {
      states, outs := [initial], [];
    } else {
      match update(initial, windows[0])
      case Failed =>
        states, outs := [initial], [];
      case Done(state', preds) =>
        var laterStates, laterOuts := RunAllSteps(update, state', windows[1..]);
        states, outs := [initial] + laterStates, [preds] + laterOuts;
        ConcatCons(preds, laterOuts);
    }
  }
}
