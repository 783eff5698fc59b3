/** What a diarization reports: the segments of the smoothed predictions, clipped to the audio, with the
    speaker slots renumbered. */
module DiarizationReport {
  import opened CacheCompression
  import opened Segments
  import opened Sequences
  import opened Sorting

  // ---------------------------------------------------------------------------
  // Clipping
  // ---------------------------------------------------------------------------

  function Cut(segment: Segment, audioMs: int): Segment {
    segment.(endMs := Earlier(segment.endMs, audioMs))
  }

  function Earlier(a: int, b: int): int { if a < b then a else b }

  /** `r` are, in order, the segments at the places `from`, cut; these are exactly the ones that do not
      become empty. */
  ghost predicate IsClipped(segments: seq<Segment>, audioMs: int, r: seq<Segment>, from: seq<nat>) {
    && |from| == |r|
    && (forall k :: 0 <= k < |r| ==> from[k] < |segments| && r[k] == Cut(segments[from[k]], audioMs))
    && (forall k, l :: 0 <= k < l < |from| ==> from[k] < from[l])
    && (forall i :: 0 <= i < |segments| ==> (i in from <==> segments[i].startMs < Cut(segments[i], audioMs).endMs))
  }

  ghost predicate IsClipOf(segments: seq<Segment>, audioMs: int, r: seq<Segment>) {
    exists from :: IsClipped(segments, audioMs, r, from)
  }

  /** Segments end with the audio; those that start at or after its end disappear. */
  method Clip(segments: seq<Segment>, audioMs: int) returns (r: seq<Segment>)
    ensures IsClipOf(segments, audioMs, r)
  {
    ghost var from: seq<nat> := [];
    r := [];
    for i := 0 to |segments|
      invariant IsClipped(segments[..i], audioMs, r, from)
    {
      var x := Cut(segments[i], audioMs);
      ghost var before := from;
      if !(x.endMs <= x.startMs) {
        r := r + [x];
        from := from + [i];
      }
      forall j | 0 <= j < i ensures j in from <==> j in before {
      }
    }
    assert segments[..|segments|] == segments;
  }

  lemma PlacesOf(segments: seq<Segment>, audioMs: int, r: seq<Segment>) returns (from: seq<nat>)
    requires IsClipOf(segments, audioMs, r)
    ensures IsClipped(segments, audioMs, r, from)
  {
    from :| IsClipped(segments, audioMs, r, from);
  }

  // ---------------------------------------------------------------------------
  // Dense speaker numbers
  // ---------------------------------------------------------------------------

  predicate Present(segments: seq<Segment>, s: int) {
    exists i :: 0 <= i < |segments| && segments[i].speaker == s
  }

  ghost predicate IsNumberOf(segments: seq<Segment>, dense: seq<int>, upTo: nat, k: int)
    requires |dense| == SPEAKERS && upTo <= SPEAKERS
  {
    exists s :: 0 <= s < upTo && Present(segments, s) && dense[s] == k
  }

  /** `dense` maps the speakers that occur, in order, onto 0..count - 1. */
  ghost predicate IsDense(segments: seq<Segment>, dense: seq<int>, upTo: nat, count: nat)
    requires |dense| == SPEAKERS && upTo <= SPEAKERS
  {
    && (forall s :: 0 <= s < upTo ==> if Present(segments, s) then 0 <= dense[s] < count else dense[s] == -1)
    && (forall a, b :: 0 <= a < b < upTo && Present(segments, a) && Present(segments, b) ==> dense[a] < dense[b])
    && (forall k :: 0 <= k < count ==> IsNumberOf(segments, dense, upTo, k))
  }

  ghost predicate IsRenumbered(segments: seq<Segment>, dense: seq<int>, out: seq<Segment>)
    requires |dense| == SPEAKERS
  {
    && |out| == |segments|
    && forall i :: 0 <= i < |out| ==>
         var raw := segments[i].speaker;
         out[i] == segments[i].(speaker := if 0 <= raw < SPEAKERS then dense[raw] else raw)
  }

  method PresentSpeakers(segments: seq<Segment>) returns (present: seq<bool>)
    ensures |present| == SPEAKERS && forall s :: 0 <= s < SPEAKERS ==> present[s] == Present(segments, s)
  {
    present := [false, false, false, false];
    for i := 0 to |segments|
      invariant |present| == SPEAKERS && forall s :: 0 <= s < SPEAKERS ==> present[s] == Present(segments[..i], s)
    {
      var raw := segments[i].speaker;
      ghost var was := present;
      if 0 <= raw < SPEAKERS {
        present := present[raw := true];
      }
      forall s | 0 <= s < SPEAKERS ensures present[s] == Present(segments[..i + 1], s) {
        assert segments[..i + 1] == segments[..i] + [segments[i]];
        PresentSnoc(segments[..i], segments[i], s);
      }
    }
    assert segments[..|segments|] == segments;
  }

  lemma PresentSnoc(segments: seq<Segment>, x: Segment, s: int)
    ensures Present(segments + [x], s) <==> Present(segments, s) || x.speaker == s
  {
    var longer := segments + [x];
    assert longer[|segments|] == x;
    if Present(segments, s) {
      var i :| 0 <= i < |segments| && segments[i].speaker == s;
      assert longer[i].speaker == s;
    }
  }

  /** The speaker slots that occur are renumbered without holes; the order of the slots stays. */
  method Renumber(segments: seq<Segment>) returns (out: seq<Segment>, dense: seq<int>, count: nat)
    ensures |dense| == SPEAKERS && IsDense(segments, dense, SPEAKERS, count) && IsRenumbered(segments, dense, out)
  {
    var present := PresentSpeakers(segments);
    dense, count := [-1, -1, -1, -1], 0;
    hide Present, IsNumberOf;
    assert IsDense(segments, dense, 0, 0);
    for s := 0 to SPEAKERS
      invariant |dense| == SPEAKERS && IsDense(segments, dense, s, count)
      invariant forall k :: s <= k < SPEAKERS ==> dense[k] == -1
    {
      NextDense(segments, dense, s, count);
      if present[s] {
        dense := dense[s := count];
        count := count + 1;
      }
    }
    out := [];
    for i := 0 to |segments|
      invariant |out| == i
      invariant forall k :: 0 <= k < i ==>
                  var raw := segments[k].speaker;
                  out[k] == segments[k].(speaker := if 0 <= raw < SPEAKERS then dense[raw] else raw)
    {
      var raw := segments[i].speaker;
      out := out + [segments[i].(speaker := if 0 <= raw < SPEAKERS then dense[raw] else raw)];
    }
  }

  lemma NextDense(segments: seq<Segment>, dense: seq<int>, s: nat, count: nat)
    requires |dense| == SPEAKERS && s < SPEAKERS && IsDense(segments, dense, s, count) && dense[s] == -1
    ensures if Present(segments, s) then IsDense(segments, dense[s := count], s + 1, count + 1)
            else IsDense(segments, dense, s + 1, count)
  {
    hide Present;
    var dense' := if Present(segments, s) then dense[s := count] else dense;
    var next := s + 1;
    forall k | 0 <= k < count ensures IsNumberOf(segments, dense', next, k) {
      assert IsNumberOf(segments, dense, s, k);
      var u :| 0 <= u < s && Present(segments, u) && dense[u] == k;
      assert dense'[u] == k;
    }
  }

  /** Every reported speaker index is below the speaker count, and equal exactly for equal speakers. */
  lemma RenumberingIsFaithful(segments: seq<Segment>, out: seq<Segment>, dense: seq<int>, count: nat, i: nat, j: nat)
    requires |dense| == SPEAKERS && IsDense(segments, dense, SPEAKERS, count) && IsRenumbered(segments, dense, out)
    requires forall k :: 0 <= k < |segments| ==> 0 <= segments[k].speaker < SPEAKERS
    requires i < |out| && j < |out|
    ensures 0 <= out[i].speaker < count
    ensures out[i].speaker < out[j].speaker <==> segments[i].speaker < segments[j].speaker
  {
    assert Present(segments, segments[i].speaker) && Present(segments, segments[j].speaker);
  }

  // ---------------------------------------------------------------------------
  // The report
  // ---------------------------------------------------------------------------

  /** Slot `s` speaks in frame `t`: it reaches the threshold of the options, or 0.5 if they have none. */
  predicate SpeaksIn(filtered: seq<Preds>, options: Options, s: nat, t: nat)
    requires s < SPEAKERS && t < |filtered|
  {
    filtered[t][s] >= if options.threshold > 0.0 then options.threshold else 0.5
  }

  /** A stretch of speech of slot `s`: frames in a row, none more on either side, lasting long enough. */
  ghost predicate IsSpeech(filtered: seq<Preds>, options: Options, s: nat, run: Run) {
    && s < SPEAKERS && run.first < run.end <= |filtered|
    && (forall t :: run.first <= t < run.end ==> SpeaksIn(filtered, options, s, t))
    && (run.first > 0 ==> !SpeaksIn(filtered, options, s, run.first - 1))
    && (run.end < |filtered| ==> !SpeaksIn(filtered, options, s, run.end))
    && (run.end - run.first) * 80 >= options.minimumDurationMs
  }

  lemma SpeechIsRun(filtered: seq<Preds>, options: Options, s: nat, run: Run)
    ensures IsSpeech(filtered, options, s, run) <==>
              && s < SPEAKERS && IsRun(Active(filtered, s, Threshold(options)), run.first, run.end)
              && Long(run.first, run.end, options.minimumDurationMs)
  {
    if s < SPEAKERS {
      var active := Active(filtered, s, Threshold(options));
      assert forall t :: 0 <= t < |filtered| ==> active[t] == SpeaksIn(filtered, options, s, t);
    }
  }

  ghost predicate Covers(out: seq<Segment>, speaker: int, startMs: int, endMs: int) {
    exists i :: 0 <= i < |out| && out[i].speaker == speaker && out[i].startMs <= startMs && endMs <= out[i].endMs
  }

  /** Speech before the end of the audio is covered up to that end. */
  ghost predicate IsComplete(filtered: seq<Preds>, options: Options, audioMs: int, dense: seq<int>, count: nat,
      out: seq<Segment>)
    requires |dense| == SPEAKERS
  {
    forall s: nat, run :: IsSpeech(filtered, options, s, run) && run.first * FRAME_MS < audioMs ==>
      0 <= dense[s] < count && Covers(out, dense[s], run.first * FRAME_MS, Earlier(run.end * FRAME_MS, audioMs))
  }

  /** Time `t` is in a stretch of speech of slot `s`, or in a pause short enough to be bridged. */
  ghost predicate SpeechOrPause(filtered: seq<Preds>, options: Options, s: nat, t: int) {
    || (exists run :: IsSpeech(filtered, options, s, run) && run.first * FRAME_MS <= t < run.end * FRAME_MS)
    || (exists before, after ::
          && IsSpeech(filtered, options, s, before) && IsSpeech(filtered, options, s, after)
          && before.end * FRAME_MS <= t < after.first * FRAME_MS
          && after.first * FRAME_MS - before.end * FRAME_MS < options.mergeGapMs)
  }

  /** The segment starts with speech of a slot and ends with speech of the same slot, or with the audio;
      in between there are no long pauses. */
  ghost predicate IsSpoken(filtered: seq<Preds>, options: Options, audioMs: int, dense: seq<int>, segment: Segment)
    requires |dense| == SPEAKERS
  {
    exists s: nat, first, last ::
      && IsSpeech(filtered, options, s, first) && IsSpeech(filtered, options, s, last) && dense[s] == segment.speaker
      && segment.startMs == first.first * FRAME_MS && segment.endMs == Earlier(last.end * FRAME_MS, audioMs)
      && forall t :: segment.startMs <= t < segment.endMs ==> SpeechOrPause(filtered, options, s, t)
  }

  ghost predicate IsSound(filtered: seq<Preds>, options: Options, audioMs: int, dense: seq<int>, count: nat,
      out: seq<Segment>)
    requires |dense| == SPEAKERS
  {
    forall i :: 0 <= i < |out| ==>
      && 0 <= out[i].speaker < count && out[i].startMs < out[i].endMs <= audioMs
      && IsSpoken(filtered, options, audioMs, dense, out[i])
  }

  ghost predicate Speaks(filtered: seq<Preds>, options: Options, audioMs: int, s: nat) {
    exists run :: IsSpeech(filtered, options, s, run) && run.first * FRAME_MS < audioMs
  }

  /** The slots that speak before the end of the audio have numbers, in their order. */
  ghost predicate IsNumbering(filtered: seq<Preds>, options: Options, audioMs: int, dense: seq<int>, count: nat)
    requires |dense| == SPEAKERS
  {
    && (forall s: nat :: s < SPEAKERS ==>
          if Speaks(filtered, options, audioMs, s) then 0 <= dense[s] < count else dense[s] == -1)
    && forall a: nat, b: nat ::
         a < b < SPEAKERS && Speaks(filtered, options, audioMs, a) && Speaks(filtered, options, audioMs, b) ==>
         dense[a] < dense[b]
  }

  /** Segments of one speaker are in order, at least the merge gap apart, and never overlap. */
  ghost predicate AreApart(options: Options, out: seq<Segment>) {
    forall i, j :: 0 <= i < j < |out| && out[i].speaker == out[j].speaker ==>
      out[j].startMs - out[i].endMs >= options.mergeGapMs && out[i].endMs < out[j].startMs
  }

  lemma {:induction false} FromConcat(lists: seq<seq<Segment>>, segment: Segment) returns (k: nat)
    requires segment in Concat(lists)
    ensures k < |lists| && segment in lists[k]
  {
    var n := |lists| - 1;
    if segment in lists[n] {
      k := n;
    } else {
      k := FromConcat(lists[..n], segment);
    }
  }

  /** A merged segment starts where one run does and ends where another does. */
  lemma MergedIsSpeech(filtered: seq<Preds>, options: Options, s: nat, merged: seq<Segment>, i: nat)
    returns (first: Run, last: Run)
    requires s < SPEAKERS && AreSpeakers(filtered, s, options, merged) && i < |merged|
    ensures IsSpeech(filtered, options, s, first) && IsSpeech(filtered, options, s, last)
    ensures merged[i] == Segment(first.first * FRAME_MS, last.end * FRAME_MS, s)
  {
    hide AreRunSegments, Active, IsRun, Long, IsSpeech;
    var active, minMs := Active(filtered, s, Threshold(options)), options.minimumDurationMs;
    var runs: seq<Segment> :| AreRunSegments(active, minMs, s, runs) && IsMergeOf(runs, merged, options.mergeGapMs);
    var cuts :| IsMerged(runs, merged, cuts, options.mergeGapMs);
    assert cuts[i] < cuts[i + 1] <= |runs|;
    first := SegmentIsRun(active, minMs, s, runs, cuts[i]);
    last := SegmentIsRun(active, minMs, s, runs, cuts[i + 1] - 1);
    SpeechIsRun(filtered, options, s, first);
    SpeechIsRun(filtered, options, s, last);
  }

  /** The last of the segments lo..hi - 1 that starts by time `t`. */
  lemma {:induction false} LastBefore(segments: seq<Segment>, lo: nat, hi: nat, t: int) returns (k: nat)
    requires lo < hi <= |segments| && segments[lo].startMs <= t
    ensures lo <= k < hi && segments[k].startMs <= t
    ensures k + 1 < hi ==> t < segments[k + 1].startMs
    decreases hi
  {
    if segments[hi - 1].startMs <= t {
      k := hi - 1;
    } else {
      k := LastBefore(segments, lo, hi - 1, t);
    }
  }

  lemma MergedHasNoLongPause(filtered: seq<Preds>, options: Options, s: nat, merged: seq<Segment>, i: nat, t: int)
    requires s < SPEAKERS && AreSpeakers(filtered, s, options, merged) && i < |merged|
    requires merged[i].startMs <= t < merged[i].endMs
    ensures SpeechOrPause(filtered, options, s, t)
  {
    hide AreRunSegments, Active, IsRun, Long, IsSpeech;
    var active, minMs := Active(filtered, s, Threshold(options)), options.minimumDurationMs;
    var runs: seq<Segment> :| AreRunSegments(active, minMs, s, runs) && IsMergeOf(runs, merged, options.mergeGapMs);
    var cuts :| IsMerged(runs, merged, cuts, options.mergeGapMs);
    assert cuts[i] < cuts[i + 1] <= |runs|;
    var k := LastBefore(runs, cuts[i], cuts[i + 1], t);
    var run := SegmentIsRun(active, minMs, s, runs, k);
    SpeechIsRun(filtered, options, s, run);
    if runs[k].endMs <= t {
      var after := SegmentIsRun(active, minMs, s, runs, k + 1);
      SpeechIsRun(filtered, options, s, after);
      assert k + 1 !in cuts by {
        NoCutInside(cuts, i, k + 1);
      }
      assert Gap(runs, k + 1) < options.mergeGapMs;
    }
  }

  lemma NoCutInside(cuts: seq<nat>, i: nat, k: nat)
    requires i + 1 < |cuts| && cuts[i] < k < cuts[i + 1]
    requires forall i, j :: 0 <= i < j < |cuts| ==> cuts[i] < cuts[j]
    ensures k !in cuts
  {
  }

  lemma MergedApart(filtered: seq<Preds>, options: Options, s: nat, merged: seq<Segment>)
    requires s < SPEAKERS && AreSpeakers(filtered, s, options, merged)
    ensures forall i :: 0 <= i < |merged| ==> merged[i].speaker == s && merged[i].startMs < merged[i].endMs
    ensures AreApart(options, merged) && Distinct(merged)
  {
    hide AreRunSegments, Active, IsRun, Long, IsMerged;
    var active, minMs := Active(filtered, s, Threshold(options)), options.minimumDurationMs;
    var runs: seq<Segment> :| AreRunSegments(active, minMs, s, runs) && IsMergeOf(runs, merged, options.mergeGapMs);
    RunsAreApart(active, minMs, s, runs);
    forall i, j | 0 <= i < j < |merged|
      ensures merged[j].startMs - merged[i].endMs >= options.mergeGapMs && merged[i].endMs < merged[j].startMs
    {
      MergedAreApart(runs, merged, options.mergeGapMs, i);
      assert i + 1 < j ==> merged[i + 1].startMs < merged[i + 1].endMs < merged[j].startMs;
    }
    forall i | 0 <= i < |merged| ensures merged[i].speaker == s && merged[i].startMs < merged[i].endMs {
      MergedAreApart(runs, merged, options.mergeGapMs, i);
      var first, last := MergedIsSpeech(filtered, options, s, merged, i);
    }
  }

  lemma {:induction false} AllDistinct(filtered: seq<Preds>, options: Options, speakers: seq<seq<Segment>>, n: nat)
    requires AllSpeakers(filtered, options, speakers) && n <= SPEAKERS
    ensures Distinct(Concat(speakers[..n]))
    ensures forall i :: 0 <= i < |Concat(speakers[..n])| ==> Concat(speakers[..n])[i].speaker < n
  {
    hide AreSpeakers;
    if n > 0 {
      AllDistinct(filtered, options, speakers, n - 1);
      MergedApart(filtered, options, n - 1, speakers[n - 1]);
      assert speakers[..n] == speakers[..n - 1] + [speakers[n - 1]];
      ConcatSnoc(speakers[..n - 1], speakers[n - 1]);
    }
  }

  /** Segments of one speaker stay apart among those of the others. */
  lemma BinarizedApart(filtered: seq<Preds>, options: Options, segments: seq<Segment>, speakers: seq<seq<Segment>>)
    requires AllSpeakers(filtered, options, speakers) && multiset(segments) == multiset(Concat(speakers))
    requires Sorted(segments, StartsFirst())
    ensures AreApart(options, segments)
  {
    hide AreSpeakers;
    AllDistinct(filtered, options, speakers, SPEAKERS);
    assert speakers[..SPEAKERS] == speakers;
    DistinctPermuted(Concat(speakers), segments);
    forall i, j | 0 <= i < j < |segments| && segments[i].speaker == segments[j].speaker
      ensures segments[j].startMs - segments[i].endMs >= options.mergeGapMs
      ensures segments[i].endMs < segments[j].startMs
    {
      var s, p := PlaceOf(filtered, options, segments, speakers, i);
      var s', q := PlaceOf(filtered, options, segments, speakers, j);
      MergedApart(filtered, options, s, speakers[s]);
      assert !StartsFirst()(segments[j], segments[i]);
      assert p != q;
    }
  }

  lemma PlaceOf(filtered: seq<Preds>, options: Options, segments: seq<Segment>, speakers: seq<seq<Segment>>, i: nat)
    returns (s: nat, p: nat)
    requires AllSpeakers(filtered, options, speakers) && multiset(segments) == multiset(Concat(speakers))
    requires i < |segments|
    ensures s < SPEAKERS && segments[i].speaker == s && p < |speakers[s]| && speakers[s][p] == segments[i]
  {
    hide AreSpeakers;
    assert segments[i] in multiset(segments);
    s := FromConcat(speakers, segments[i]);
    p :| 0 <= p < |speakers[s]| && speakers[s][p] == segments[i];
    MergedApart(filtered, options, s, speakers[s]);
  }

  lemma SlotsInRange(filtered: seq<Preds>, options: Options, segments: seq<Segment>, speakers: seq<seq<Segment>>)
    requires AllSpeakers(filtered, options, speakers) && multiset(segments) == multiset(Concat(speakers))
    ensures forall i :: 0 <= i < |segments| ==> 0 <= segments[i].speaker < SPEAKERS
  {
    hide AllSpeakers;
    forall i | 0 <= i < |segments| ensures 0 <= segments[i].speaker < SPEAKERS {
      var s, p := PlaceOf(filtered, options, segments, speakers, i);
    }
  }

  lemma ReportIsApart(options: Options, audioMs: int, segments: seq<Segment>, clipped: seq<Segment>, from: seq<nat>,
      dense: seq<int>, count: nat, out: seq<Segment>)
    requires AreApart(options, segments) && IsClipped(segments, audioMs, clipped, from)
    requires forall i :: 0 <= i < |segments| ==> 0 <= segments[i].speaker < SPEAKERS
    requires |dense| == SPEAKERS && IsDense(clipped, dense, SPEAKERS, count) && IsRenumbered(clipped, dense, out)
    ensures AreApart(options, out)
  {
    hide IsDense;
    forall i, j | 0 <= i < j < |out| && out[i].speaker == out[j].speaker
      ensures out[j].startMs - out[i].endMs >= options.mergeGapMs && out[i].endMs < out[j].startMs
    {
      RenumberingIsFaithful(clipped, out, dense, count, i, j);
      RenumberingIsFaithful(clipped, out, dense, count, j, i);
      assert from[i] < from[j];
    }
  }

  /** Where a segment of Binarize comes from. */
  lemma BinarizedIsSpeech(filtered: seq<Preds>, options: Options, segments: seq<Segment>,
      speakers: seq<seq<Segment>>, i: nat) returns (s: nat, first: Run, last: Run)
    requires AllSpeakers(filtered, options, speakers) && multiset(segments) == multiset(Concat(speakers))
    requires i < |segments|
    ensures IsSpeech(filtered, options, s, first) && IsSpeech(filtered, options, s, last)
    ensures segments[i] == Segment(first.first * FRAME_MS, last.end * FRAME_MS, s)
    ensures forall t :: segments[i].startMs <= t < segments[i].endMs ==> SpeechOrPause(filtered, options, s, t)
  {
    hide AreSpeakers, IsSpeech, SpeechOrPause;
    var k;
    s, k := PlaceOf(filtered, options, segments, speakers, i);
    first, last := MergedIsSpeech(filtered, options, s, speakers[s], k);
    forall t | segments[i].startMs <= t < segments[i].endMs ensures SpeechOrPause(filtered, options, s, t) {
      MergedHasNoLongPause(filtered, options, s, speakers[s], k, t);
    }
  }

  /** Where speech of slot `s` is after clipping. */
  lemma PlaceInClipped(filtered: seq<Preds>, options: Options, audioMs: int, segments: seq<Segment>,
      speakers: seq<seq<Segment>>, clipped: seq<Segment>, from: seq<nat>, s: nat, run: Run) returns (k: nat)
    requires AllSpeakers(filtered, options, speakers) && multiset(segments) == multiset(Concat(speakers))
    requires IsClipped(segments, audioMs, clipped, from)
    requires IsSpeech(filtered, options, s, run) && run.first * FRAME_MS < audioMs
    ensures k < |clipped| && clipped[k].speaker == s
    ensures clipped[k].startMs <= run.first * FRAME_MS
    ensures Earlier(run.end * FRAME_MS, audioMs) <= clipped[k].endMs
  {
    hide AllSpeakers, IsRun, Long, Active;
    SpeechIsRun(filtered, options, s, run);
    var segment := SpeechIsReported(filtered, options, segments, speakers, s, run.first, run.end);
    var i :| 0 <= i < |segments| && segments[i] == segment;
    assert i in from;
    k :| 0 <= k < |from| && from[k] == i;
  }

  /** The slots that are left after clipping are those that speak. */
  lemma PresentIffSpeaks(filtered: seq<Preds>, options: Options, audioMs: int, segments: seq<Segment>,
      speakers: seq<seq<Segment>>, clipped: seq<Segment>, from: seq<nat>, s: nat)
    requires AllSpeakers(filtered, options, speakers) && multiset(segments) == multiset(Concat(speakers))
    requires IsClipped(segments, audioMs, clipped, from)
    ensures Present(clipped, s) <==> Speaks(filtered, options, audioMs, s)
  {
    hide AllSpeakers, IsSpeech;
    if Present(clipped, s) {
      var k :| 0 <= k < |clipped| && clipped[k].speaker == s;
      assert from[k] in from;
      var u, first, last := BinarizedIsSpeech(filtered, options, segments, speakers, from[k]);
      assert u == s;
    }
    if Speaks(filtered, options, audioMs, s) {
      var run :| IsSpeech(filtered, options, s, run) && run.first * FRAME_MS < audioMs;
      var k := PlaceInClipped(filtered, options, audioMs, segments, speakers, clipped, from, s, run);
    }
  }

  lemma ReportIsNumbered(filtered: seq<Preds>, options: Options, audioMs: int, segments: seq<Segment>,
      speakers: seq<seq<Segment>>, clipped: seq<Segment>, from: seq<nat>, dense: seq<int>, count: nat)
    requires AllSpeakers(filtered, options, speakers) && multiset(segments) == multiset(Concat(speakers))
    requires IsClipped(segments, audioMs, clipped, from)
    requires |dense| == SPEAKERS && IsDense(clipped, dense, SPEAKERS, count)
    ensures IsNumbering(filtered, options, audioMs, dense, count)
  {
    hide AllSpeakers, Speaks, Present, IsClipped;
    forall s: nat ensures Present(clipped, s) <==> Speaks(filtered, options, audioMs, s) {
      PresentIffSpeaks(filtered, options, audioMs, segments, speakers, clipped, from, s);
    }
  }

  lemma SlotInRange(filtered: seq<Preds>, options: Options, s: nat, run: Run)
    requires IsSpeech(filtered, options, s, run)
    ensures s < SPEAKERS
  {
  }

  lemma ReportIsComplete(filtered: seq<Preds>, options: Options, audioMs: int, segments: seq<Segment>,
      speakers: seq<seq<Segment>>, clipped: seq<Segment>, from: seq<nat>, dense: seq<int>, count: nat,
      out: seq<Segment>)
    requires AllSpeakers(filtered, options, speakers) && multiset(segments) == multiset(Concat(speakers))
    requires IsClipped(segments, audioMs, clipped, from)
    requires |dense| == SPEAKERS && IsDense(clipped, dense, SPEAKERS, count) && IsRenumbered(clipped, dense, out)
    ensures IsComplete(filtered, options, audioMs, dense, count, out)
  {
    hide AllSpeakers, IsClipped;
    forall s: nat, run | IsSpeech(filtered, options, s, run) && run.first * FRAME_MS < audioMs
      ensures 0 <= dense[s] < count
      ensures Covers(out, dense[s], run.first * FRAME_MS, Earlier(run.end * FRAME_MS, audioMs))
    {
      var k := PlaceInClipped(filtered, options, audioMs, segments, speakers, clipped, from, s, run);
      SlotInRange(filtered, options, s, run);
      assert Present(clipped, s);
      assert out[k].speaker == dense[s];
    }
  }

  lemma ReportIsSound(filtered: seq<Preds>, options: Options, audioMs: int, segments: seq<Segment>,
      speakers: seq<seq<Segment>>, clipped: seq<Segment>, from: seq<nat>, dense: seq<int>, count: nat,
      out: seq<Segment>)
    requires AllSpeakers(filtered, options, speakers) && multiset(segments) == multiset(Concat(speakers))
    requires IsClipped(segments, audioMs, clipped, from)
    requires |dense| == SPEAKERS && IsDense(clipped, dense, SPEAKERS, count) && IsRenumbered(clipped, dense, out)
    ensures IsSound(filtered, options, audioMs, dense, count, out)
  {
    hide AllSpeakers, IsSpeech, SpeechOrPause;
    forall k | 0 <= k < |out|
      ensures 0 <= out[k].speaker < count && out[k].startMs < out[k].endMs <= audioMs
      ensures IsSpoken(filtered, options, audioMs, dense, out[k])
    {
      assert from[k] in from;
      var s, first, last := BinarizedIsSpeech(filtered, options, segments, speakers, from[k]);
      SlotInRange(filtered, options, s, first);
      assert Present(clipped, clipped[k].speaker);
    }
  }

  /** Every number below the count is somebody's. */
  lemma NumbersAreUsed(clipped: seq<Segment>, dense: seq<int>, count: nat, out: seq<Segment>, k: nat)
    requires |dense| == SPEAKERS && IsDense(clipped, dense, SPEAKERS, count) && IsRenumbered(clipped, dense, out)
    requires k < count
    ensures Present(out, k)
  {
    assert IsNumberOf(clipped, dense, SPEAKERS, k);
    var s :| 0 <= s < SPEAKERS && Present(clipped, s) && dense[s] == k;
    var i :| 0 <= i < |clipped| && clipped[i].speaker == s;
    assert out[i].speaker == k;
  }

  lemma OrderStays(segments: seq<Segment>, audioMs: int, clipped: seq<Segment>, from: seq<nat>, dense: seq<int>,
      out: seq<Segment>)
    requires Sorted(segments, StartsFirst()) && IsClipped(segments, audioMs, clipped, from)
    requires |dense| == SPEAKERS && IsRenumbered(clipped, dense, out)
    ensures Sorted(out, StartsFirst())
  {
    forall i, j | 0 <= i < j < |out| ensures !StartsFirst()(out[j], out[i]) {
      assert from[i] < from[j] && !StartsFirst()(segments[from[j]], segments[from[i]]);
    }
  }

  /** From the predictions of a whole audio to the reported segments, in the order of their starts: what
      is spoken for long enough in the smoothed predictions is reported, and nothing else but short pauses. */
  method Report(preds: seq<Preds>, options: Options, audioMs: int)
    returns (out: seq<Segment>, count: nat, ghost filtered: seq<Preds>, ghost dense: seq<int>)
    ensures IsSmoothed(preds, filtered)
    ensures |dense| == SPEAKERS && IsNumbering(filtered, options, audioMs, dense, count)
    ensures IsComplete(filtered, options, audioMs, dense, count, out)
    ensures IsSound(filtered, options, audioMs, dense, count, out)
    ensures Sorted(out, StartsFirst()) && AreApart(options, out)
    ensures forall k: nat :: k < count ==> Present(out, k)
  {
    hide *;
    var smoothed := MedianFilter(preds);
    var segments, speakers := Binarize(smoothed, options);
    var clipped := Clip(segments, audioMs);
    ghost var from := PlacesOf(segments, audioMs, clipped);
    var numbers;
    out, numbers, count := Renumber(clipped);
    filtered, dense := smoothed, numbers;
    ReportIsComplete(smoothed, options, audioMs, segments, speakers, clipped, from, dense, count, out);
    ReportIsSound(smoothed, options, audioMs, segments, speakers, clipped, from, dense, count, out);
    ReportIsNumbered(smoothed, options, audioMs, segments, speakers, clipped, from, dense, count);
    OrderStays(segments, audioMs, clipped, from, dense, out);
    BinarizedApart(smoothed, options, segments, speakers);
    SlotsInRange(smoothed, options, segments, speakers);
    ReportIsApart(options, audioMs, segments, clipped, from, dense, count, out);
    forall k: nat | k < count ensures Present(out, k) {
      NumbersAreUsed(clipped, dense, count, out, k);
    }
  }
}
