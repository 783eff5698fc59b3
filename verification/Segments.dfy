/** From per-frame speaker probabilities to speaker segments: median smoothing, thresholding into runs,
    and merging of close runs. */
module Segments {
  import opened CacheCompression
  import opened Sequences
  import opened Sorting

  const FRAME_MS: nat := 80
  const MEDIAN_WINDOW: nat := 11

  datatype Segment = Segment(startMs: int, endMs: int, speaker: int)

  /** Frames first..end - 1. */
  datatype Run = Run(first: nat, end: nat)

  // ---------------------------------------------------------------------------
  // Median smoothing
  // ---------------------------------------------------------------------------

  function LessReal(): (real, real) -> bool {
    (a: real, b: real) => a < b
  }

  /** The probabilities of speaker `s` in the frames around `t`, clamped at the edges. */
  function Around(preds: seq<Preds>, s: nat, t: nat): (r: seq<real>)
    requires s < SPEAKERS && t < |preds|
    ensures 0 < |r| <= MEDIAN_WINDOW
  {
    var half := MEDIAN_WINDOW / 2;
    var start, end := if t > half then t - half else 0, Min(t + half + 1, |preds|);
    seq(end - start, i requires 0 <= i < end - start => preds[start + i][s])
  }

  function CountBelow(s: seq<real>, threshold: real): nat {
    if s == [] then 0
    else CountBelow(s[..|s| - 1], threshold) + if s[|s| - 1] < threshold then 1 else 0
  }

  /** After smoothing the frame is below the threshold if and only if more than half of the frames around it are. */
  ghost predicate IsMajority(window: seq<real>, threshold: real, value: real) {
    value < threshold <==> CountBelow(window, threshold) > |window| / 2
  }

  lemma {:induction false} CountAppend(a: seq<real>, b: seq<real>, threshold: real)
    ensures CountBelow(a + b, threshold) == CountBelow(a, threshold) + CountBelow(b, threshold)
  {
    if b == [] {
      assert a + b == a;
    } else {
      assert (a + b)[..|a + b| - 1] == a + b[..|b| - 1];
      CountAppend(a, b[..|b| - 1], threshold);
    }
  }

  lemma WithoutOne(r: seq<real>, j: nat, threshold: real)
    requires j < |r|
    ensures var rest := r[..j] + r[j + 1..];
            && multiset(rest) == multiset(r) - multiset{r[j]}
            && CountBelow(r, threshold) == CountBelow(rest, threshold) + if r[j] < threshold then 1 else 0
  {
    var front, x, back := r[..j], [r[j]], r[j + 1..];
    assert r == front + x + back;
    CountAppend(front, back, threshold);
    CountAppend(front + x, back, threshold);
    CountAppend(front, x, threshold);
    assert CountBelow(x, threshold) == if r[j] < threshold then 1 else 0 by {
      assert x[..0] == [];
    }
  }

  lemma {:induction false} CountPermuted(s: seq<real>, r: seq<real>, threshold: real)
    requires multiset(s) == multiset(r)
    ensures CountBelow(s, threshold) == CountBelow(r, threshold)
  {
    assert |multiset(s)| == |multiset(r)|;
    if s != [] {
      hide CountBelow;
      assert s[0] in multiset(r);
      var j :| 0 <= j < |r| && r[j] == s[0];
      WithoutOne(s, 0, threshold);
      WithoutOne(r, j, threshold);
      CountPermuted(s[..0] + s[1..], r[..j] + r[j + 1..], threshold);
    }
  }

  lemma {:induction false} CountBounds(s: seq<real>, threshold: real, k: nat)
    requires k <= |s|
    ensures (forall i :: 0 <= i < k ==> s[i] < threshold) ==> CountBelow(s, threshold) >= k
    ensures (forall i :: k <= i < |s| ==> s[i] >= threshold) ==> CountBelow(s, threshold) <= k
  {
    if |s| > k {
      CountBounds(s[..|s| - 1], threshold, k);
    } else if k > 0 {
      CountBounds(s[..k - 1], threshold, k - 1);
    }
  }

  lemma MiddleIsMajority(window: seq<real>, sorted: seq<real>, threshold: real)
    requires 0 < |window| == |sorted| && multiset(sorted) == multiset(window) && Sorted(sorted, LessReal())
    ensures IsMajority(window, threshold, sorted[|sorted| / 2])
  {
    var m := |sorted| / 2;
    CountPermuted(sorted, window, threshold);
    forall i | 0 <= i < |sorted| ensures (i < m ==> sorted[i] <= sorted[m]) && (i > m ==> sorted[i] >= sorted[m]) {
      if i < m {
        assert !LessReal()(sorted[m], sorted[i]);
      } else if i > m {
        assert !LessReal()(sorted[i], sorted[m]);
      }
    }
    CountBounds(sorted, threshold, m);
    CountBounds(sorted, threshold, m + 1);
  }

  lemma LessRealIsOrder()
    ensures StrictWeakOrder(LessReal())
  {
  }

  predicate IsNear(t: nat, u: nat) { t - 5 <= u <= t + 5 }

  /** The frames, out of `n`, that lie up to five frames before or behind frame `t`. */
  ghost function Near(n: nat, t: nat): set<nat> {
    set u: nat | u < n && IsNear(t, u)
  }

  /** Those of them in which speaker `s` is below the threshold. */
  ghost function NearBelow(preds: seq<Preds>, s: nat, t: nat, threshold: real): set<nat>
    requires s < SPEAKERS
  {
    set u: nat | u < |preds| && IsNear(t, u) && preds[u][s] < threshold
  }

  /** Smoothing commutes with every threshold: a speaker is at or above it in a frame afterwards exactly if
      it was below it in at most half of the frames near that frame. */
  ghost predicate IsSmoothed(preds: seq<Preds>, out: seq<Preds>) {
    && |out| == |preds|
    && forall t: nat, s: nat, threshold :: t < |preds| && s < SPEAKERS ==>
         (out[t][s] >= threshold <==> 2 * |NearBelow(preds, s, t, threshold)| <= |Near(|preds|, t)|)
  }

  /** What the loops establish: a majority vote over the window of every frame. */
  ghost predicate IsVoted(preds: seq<Preds>, out: seq<Preds>) {
    && |out| == |preds|
    && forall t, s, threshold :: 0 <= t < |preds| && 0 <= s < SPEAKERS ==>
         IsMajority(Around(preds, s, t), threshold, out[t][s])
  }

  /** The values of speaker `s` in frames a..b - 1. */
  function Slice(preds: seq<Preds>, s: nat, a: nat, b: nat): (r: seq<real>)
    requires s < SPEAKERS && a <= b <= |preds|
    ensures |r| == b - a
  {
    seq(b - a, i requires 0 <= i < b - a => preds[a + i][s])
  }

  ghost function Below(preds: seq<Preds>, s: nat, a: nat, b: nat, threshold: real): set<nat>
    requires s < SPEAKERS && b <= |preds|
  {
    set u: nat | a <= u < b && preds[u][s] < threshold
  }

  lemma {:induction false} CountIsSize(preds: seq<Preds>, s: nat, a: nat, b: nat, threshold: real)
    requires s < SPEAKERS && a <= b <= |preds|
    ensures CountBelow(Slice(preds, s, a, b), threshold) == |Below(preds, s, a, b, threshold)|
    decreases b
  {
    if a < b {
      var last := b - 1;
      CountIsSize(preds, s, a, last, threshold);
      var slice := Slice(preds, s, a, b);
      assert slice[..|slice| - 1] == Slice(preds, s, a, last);
      var below := Below(preds, s, a, last, threshold);
      assert Below(preds, s, a, b, threshold) == below + if preds[last][s] < threshold then {last} else {};
      assert last !in below;
    } else {
      assert Below(preds, s, a, b, threshold) == {};
    }
  }

  ghost function Interval(a: nat, b: nat): (r: set<nat>)
    requires a <= b
    ensures |r| == b - a && forall u :: u in r <==> a <= u < b
    decreases b
  {
    if a == b then {} else Interval(a, b - 1) + {b - 1}
  }

  /** The vote over the window is the one over the frames near by. */
  lemma WindowIsNear(preds: seq<Preds>, s: nat, t: nat, threshold: real)
    requires s < SPEAKERS && t < |preds|
    ensures |Around(preds, s, t)| == |Near(|preds|, t)|
    ensures CountBelow(Around(preds, s, t), threshold) == |NearBelow(preds, s, t, threshold)|
  {
    var a, b := if t > 5 then t - 5 else 0, Min(t + 6, |preds|);
    assert Around(preds, s, t) == Slice(preds, s, a, b);
    CountIsSize(preds, s, a, b, threshold);
    assert Near(|preds|, t) == Interval(a, b);
    assert NearBelow(preds, s, t, threshold) == Below(preds, s, a, b, threshold);
  }

  lemma VotedIsSmoothed(preds: seq<Preds>, out: seq<Preds>)
    requires IsVoted(preds, out)
    ensures IsSmoothed(preds, out)
  {
    forall t: nat, s: nat, threshold | t < |preds| && s < SPEAKERS
      ensures out[t][s] >= threshold <==> 2 * |NearBelow(preds, s, t, threshold)| <= |Near(|preds|, t)|
    {
      WindowIsNear(preds, s, t, threshold);
      assert IsMajority(Around(preds, s, t), threshold, out[t][s]);
    }
  }

  method Median(window: seq<real>) returns (m: real)
    requires window != []
    ensures forall threshold :: IsMajority(window, threshold, m)
  {
    LessRealIsOrder();
    var sorted := Sort(window, LessReal());
    m := sorted[|sorted| / 2];
    forall threshold ensures IsMajority(window, threshold, m) {
      MiddleIsMajority(window, sorted, threshold);
    }
  }

  method MedianFilter(preds: seq<Preds>) returns (out: seq<Preds>)
    ensures IsSmoothed(preds, out)
  {
    hide IsMajority, Around;
    out := preds;
    for s := 0 to SPEAKERS
      invariant |out| == |preds|
      invariant forall t, k, threshold :: 0 <= t < |preds| && 0 <= k < s ==>
              IsMajority(Around(preds, k, t), threshold, out[t][k])
    {
      for t := 0 to |preds|
        invariant |out| == |preds|
        invariant forall u, k, threshold :: 0 <= u < |preds| && 0 <= k < s ==>
                IsMajority(Around(preds, k, u), threshold, out[u][k])
        invariant forall u, threshold :: 0 <= u < t ==> IsMajority(Around(preds, s, u), threshold, out[u][s])
      {
        var m := Median(Around(preds, s, t));
        out := out[t := out[t][s := m]];
      }
    }
    assert IsVoted(preds, out);
    VotedIsSmoothed(preds, out);
  }

  // ---------------------------------------------------------------------------
  // Runs
  // ---------------------------------------------------------------------------

  function Active(preds: seq<Preds>, s: nat, threshold: real): (r: seq<bool>)
    requires s < SPEAKERS
    ensures |r| == |preds|
  {
    seq(|preds|, t requires 0 <= t < |preds| => preds[t][s] >= threshold)
  }

  /** [a, b) is a maximal stretch of active frames. */
  ghost predicate IsRun(active: seq<bool>, a: nat, b: nat) {
    && a < b <= |active| && (forall t :: a <= t < b ==> active[t])
    && (a > 0 ==> !active[a - 1]) && (b < |active| ==> !active[b])
  }

  predicate Long(a: nat, b: nat, minMs: int) {
    b * FRAME_MS - a * FRAME_MS >= minMs
  }

  /** `runs` are, in order, all maximal runs that end before frame `t` and last long enough. */
  ghost predicate AreRuns(active: seq<bool>, minMs: int, t: nat, runs: seq<Run>) {
    && (forall i :: 0 <= i < |runs| ==> IsRun(active, runs[i].first, runs[i].end))
    && (forall i :: 0 <= i < |runs| ==> runs[i].end < t && Long(runs[i].first, runs[i].end, minMs))
    && (forall a: nat, b: nat :: IsRun(active, a, b) && b < t && Long(a, b, minMs) ==> Run(a, b) in runs)
    && (forall i, j :: 0 <= i < j < |runs| ==> runs[i].end < runs[j].first)
  }

  function RunSegments(runs: seq<Run>, s: int): (r: seq<Segment>)
    ensures |r| == |runs|
    ensures forall i :: 0 <= i < |r| ==> r[i] == Segment(runs[i].first * FRAME_MS, runs[i].end * FRAME_MS, s)
  {
    seq(|runs|, i requires 0 <= i < |runs| => Segment(runs[i].first * FRAME_MS, runs[i].end * FRAME_MS, s))
  }

  function Closed(minMs: int, start: nat, t: nat, runs: seq<Run>): seq<Run> {
    if Long(start, t, minMs) then runs + [Run(start, t)] else runs
  }

  /** A run has one beginning. */
  lemma SameStart(active: seq<bool>, a: nat, a': nat, b: nat)
    requires IsRun(active, a, b) && IsRun(active, a', b)
    ensures a == a'
  {
  }

  /** A run that ends at `t` is appended if it is long enough. */
  lemma CloseRun(active: seq<bool>, minMs: int, start: nat, t: nat, runs: seq<Run>)
    requires AreRuns(active, minMs, t, runs) && IsRun(active, start, t)
    ensures AreRuns(active, minMs, t + 1, Closed(minMs, start, t, runs))
  {
    var runs' := Closed(minMs, start, t, runs);
    hide Long;
    forall a: nat, b: nat | IsRun(active, a, b) && b < t + 1 && Long(a, b, minMs) ensures Run(a, b) in runs' {
      if b == t {
        SameStart(active, a, start, t);
        assert runs'[|runs|] == Run(a, b);
      } else {
        assert Run(a, b) in runs;
      }
    }
    forall i | 0 <= i < |runs| ensures runs[i].end < start {
      EndsBefore(active, runs[i], start, t);
    }
  }

  lemma EndsBefore(active: seq<bool>, run: Run, start: nat, t: nat)
    requires IsRun(active, run.first, run.end) && run.end < t && IsRun(active, start, t)
    ensures run.end < start
  {
    assert !active[run.end];
  }

  /** No run ends at an inactive frame after an inactive one, or at an active one. */
  lemma NoRunCloses(active: seq<bool>, minMs: int, t: nat, runs: seq<Run>)
    requires AreRuns(active, minMs, t, runs)
    requires t == 0 || t > |active| || !active[t - 1] || (t < |active| && active[t])
    ensures AreRuns(active, minMs, t + 1, runs)
  {
  }

  /** The scan has seen the frames before `t`; `start` is where the open run began. */
  ghost predicate Scanned(active: seq<bool>, minMs: int, t: nat, open: bool, start: nat, runs: seq<Run>) {
    && t <= |active| && AreRuns(active, minMs, t, runs)
    && if open then start < t && (forall u :: start <= u < t ==> active[u]) && (start > 0 ==> !active[start - 1])
       else t == 0 || !active[t - 1]
  }

  lemma ScanStep(active: seq<bool>, minMs: int, t: nat, open: bool, start: nat, runs: seq<Run>)
    requires Scanned(active, minMs, t, open, start, runs) && t < |active|
    ensures if active[t] then Scanned(active, minMs, t + 1, true, if open then start else t, runs)
            else Scanned(active, minMs, t + 1, false, start, if open then Closed(minMs, start, t, runs) else runs)
  {
    if !active[t] && open {
      CloseRun(active, minMs, start, t, runs);
    } else {
      NoRunCloses(active, minMs, t, runs);
    }
  }

  lemma ScanEnd(active: seq<bool>, minMs: int, open: bool, start: nat, runs: seq<Run>)
    requires Scanned(active, minMs, |active|, open, start, runs)
    ensures AreRuns(active, minMs, |active| + 1, if open then Closed(minMs, start, |active|, runs) else runs)
  {
    if open {
      CloseRun(active, minMs, start, |active|, runs);
    } else {
      NoRunCloses(active, minMs, |active|, runs);
    }
  }

  lemma ScanStart(active: seq<bool>, minMs: int)
    ensures Scanned(active, minMs, 0, false, 0, [])
  {
  }

  /** Appends the run [start, end) if it lasts long enough. */
  method CloseSegment(segments: seq<Segment>, start: nat, end: nat, s: nat, minMs: int, ghost runs: seq<Run>)
    returns (r: seq<Segment>)
    requires segments == RunSegments(runs, s)
    ensures r == RunSegments(Closed(minMs, start, end, runs), s)
  {
    var startMs, endMs := start * FRAME_MS, end * FRAME_MS;
    r := segments;
    if endMs - startMs >= minMs {
      r := r + [Segment(startMs, endMs, s)];
    }
  }

  /** What the loop does with frame `t`, whose probability is `p`. */
  method ScanFrame(ghost active: seq<bool>, p: real, threshold: real, t: nat, s: nat, minMs: int,
                   inSegment: bool, start: nat, segments: seq<Segment>, ghost runs: seq<Run>)
    returns (inSegment': bool, start': nat, segments': seq<Segment>, ghost runs': seq<Run>)
    requires t < |active| && active[t] == (p >= threshold)
    requires Scanned(active, minMs, t, inSegment, start, runs) && segments == RunSegments(runs, s)
    ensures Scanned(active, minMs, t + 1, inSegment', start', runs') && segments' == RunSegments(runs', s)
  {
    hide *;
    inSegment', start', segments', runs' := inSegment, start, segments, runs;
    ScanStep(active, minMs, t, inSegment, start, runs);
    if p >= threshold && !inSegment {
      inSegment', start' := true, t;
    } else if p < threshold && inSegment {
      inSegment' := false;
      segments' := CloseSegment(segments, start, t, s, minMs, runs);
      runs' := Closed(minMs, start, t, runs);
    }
  }

  /** Exactly the long enough maximal runs of the active frames, in order. */
  ghost predicate AreRunSegments(active: seq<bool>, minMs: int, s: int, segments: seq<Segment>) {
    exists runs :: AreRuns(active, minMs, |active| + 1, runs) && segments == RunSegments(runs, s)
  }

  method SpeakerRuns(preds: seq<Preds>, s: nat, threshold: real, minMs: int) returns (segments: seq<Segment>)
    requires s < SPEAKERS
    ensures AreRunSegments(Active(preds, s, threshold), minMs, s, segments)
  {
    ghost var active := Active(preds, s, threshold);
    var inSegment, start := false, 0;
    ghost var runs: seq<Run> := [];
    segments := [];
    ScanStart(active, minMs);
    assert segments == RunSegments(runs, s);
    hide AreRuns, Scanned, Closed, RunSegments;
    for t := 0 to |preds|
      invariant Scanned(active, minMs, t, inSegment, start, runs) && segments == RunSegments(runs, s)
    {
      inSegment, start, segments, runs :=
        ScanFrame(active, preds[t][s], threshold, t, s, minMs, inSegment, start, segments, runs);
    }
    ScanEnd(active, minMs, inSegment, start, runs);
    if inSegment {
      segments := CloseSegment(segments, start, |preds|, s, minMs, runs);
      runs := Closed(minMs, start, |preds|, runs);
    }
  }

  // ---------------------------------------------------------------------------
  // Merging
  // ---------------------------------------------------------------------------

  /** Non-empty, in order, not touching. */
  ghost predicate Apart(segments: seq<Segment>) {
    && (forall i :: 0 <= i < |segments| ==> segments[i].startMs < segments[i].endMs)
    && (forall i, j :: 0 <= i < j < |segments| ==> segments[i].endMs < segments[j].startMs)
  }

  function Gap(segments: seq<Segment>, k: nat): int
    requires 0 < k < |segments|
  {
    segments[k].startMs - segments[k - 1].endMs
  }

  /** The merged segments are the blocks between the cuts; the cuts are exactly the gaps that are wide
      enough. */
  ghost predicate IsMerged(segments: seq<Segment>, merged: seq<Segment>, cuts: seq<nat>, mergeGapMs: int) {
    && |cuts| == |merged| + 1 && cuts[0] == 0 && cuts[|merged|] == |segments|
    && (forall i, j :: 0 <= i < j < |cuts| ==> cuts[i] < cuts[j] <= |segments|)
    && (forall i :: 0 <= i < |merged| ==>
          merged[i] == Segment(segments[cuts[i]].startMs, segments[cuts[i + 1] - 1].endMs, segments[cuts[i]].speaker))
    && (forall k :: 0 < k < |segments| ==> (Gap(segments, k) >= mergeGapMs <==> k in cuts))
  }

  /** A narrow gap: the last block grows. */
  lemma MergeInto(segments: seq<Segment>, k: nat, merged: seq<Segment>, cuts: seq<nat>, mergeGapMs: int)
    requires 0 < k < |segments| && merged != [] && IsMerged(segments[..k], merged, cuts, mergeGapMs)
    requires Gap(segments, k) < mergeGapMs
    ensures var m, last := |merged|, merged[|merged| - 1];
            var merged' := merged[m - 1 := last.(endMs := segments[k].endMs)];
            IsMerged(segments[..k + 1], merged', cuts[m := k + 1], mergeGapMs)
  {
    var m, longer := |merged|, segments[..k + 1];
    var cuts' := cuts[m := k + 1];
    assert forall i :: 0 <= i < m ==> cuts'[i] == cuts[i];
    forall j | 0 < j < |longer| ensures Gap(longer, j) >= mergeGapMs <==> j in cuts' {
      if j < k {
        assert Gap(longer, j) == Gap(segments[..k], j);
        if j in cuts {
          var i :| 0 <= i < |cuts| && cuts[i] == j;
          assert cuts'[i] == j;
        }
      }
    }
  }

  /** A wide gap: a new block starts. */
  lemma MergeNext(segments: seq<Segment>, k: nat, merged: seq<Segment>, cuts: seq<nat>, mergeGapMs: int)
    requires 0 < k < |segments| && merged != [] && IsMerged(segments[..k], merged, cuts, mergeGapMs)
    requires Gap(segments, k) >= mergeGapMs
    ensures IsMerged(segments[..k + 1], merged + [segments[k]], cuts + [k + 1], mergeGapMs)
  {
    var m, longer := |merged|, segments[..k + 1];
    var cuts' := cuts + [k + 1];
    assert cuts'[m] == k;
    forall j | 0 < j < |longer| ensures Gap(longer, j) >= mergeGapMs <==> j in cuts' {
      if j < k {
        assert Gap(longer, j) == Gap(segments[..k], j);
      }
    }
  }

  ghost predicate IsMergeOf(segments: seq<Segment>, merged: seq<Segment>, mergeGapMs: int) {
    exists cuts :: IsMerged(segments, merged, cuts, mergeGapMs)
  }

  method Merge(segments: seq<Segment>, mergeGapMs: int) returns (merged: seq<Segment>)
    requires Apart(segments)
    ensures IsMergeOf(segments, merged, mergeGapMs)
  {
    if |segments| > 1 && mergeGapMs > 0 {
      ghost var cuts: seq<nat> := [0, 1];
      merged := [segments[0]];
      hide IsMerged;
      assert IsMerged(segments[..1], merged, cuts, mergeGapMs) by {
        MergedAlone(segments[..1], mergeGapMs);
        assert segments[..1] == [segments[0]];
      }
      for k := 1 to |segments|
        invariant merged != [] && |cuts| == |merged| + 1 && IsMerged(segments[..k], merged, cuts, mergeGapMs)
        invariant merged[|merged| - 1].endMs == segments[k - 1].endMs
      {
        var last := merged[|merged| - 1];
        if segments[k].startMs - last.endMs < mergeGapMs {
          MergeInto(segments, k, merged, cuts, mergeGapMs);
          merged, cuts := merged[|merged| - 1 := last.(endMs := segments[k].endMs)], cuts[|merged| := k + 1];
        } else {
          MergeNext(segments, k, merged, cuts, mergeGapMs);
          merged, cuts := merged + [segments[k]], cuts + [k + 1];
        }
      }
      assert segments[..|segments|] == segments;
    } else {
      merged := segments;
      NothingMerged(segments, mergeGapMs);
    }
  }

  lemma MergedAlone(segments: seq<Segment>, mergeGapMs: int)
    requires |segments| == 1
    ensures IsMerged(segments, segments, [0, 1], mergeGapMs)
  {
  }

  lemma NothingMerged(segments: seq<Segment>, mergeGapMs: int)
    requires Apart(segments) && (|segments| <= 1 || mergeGapMs <= 0)
    ensures IsMerged(segments, segments, seq(|segments| + 1, i => i), mergeGapMs)
  {
    var cuts: seq<nat> := seq(|segments| + 1, i => i);
    forall k | 0 < k < |segments| ensures Gap(segments, k) >= mergeGapMs && k in cuts {
      assert cuts[k] == k;
    }
  }

  lemma {:induction false} BlockOf(cuts: seq<nat>, k: nat, m: nat) returns (i: nat)
    requires m < |cuts| && cuts[0] == 0 && (forall i, j :: 0 <= i < j < |cuts| ==> cuts[i] < cuts[j])
    requires k < cuts[m]
    ensures i < m && cuts[i] <= k < cuts[i + 1]
    decreases m
  {
    if cuts[m - 1] <= k {
      i := m - 1;
    } else {
      i := BlockOf(cuts, k, m - 1);
    }
  }

  /** Merged segments are disjoint, in order, at least the merge gap apart; each of them starts and ends
      where an original segment does. */
  lemma MergedAreApart(segments: seq<Segment>, merged: seq<Segment>, mergeGapMs: int, i: nat)
    requires Apart(segments) && IsMergeOf(segments, merged, mergeGapMs)
    ensures Apart(merged)
    ensures i + 1 < |merged| ==> merged[i + 1].startMs - merged[i].endMs >= mergeGapMs
  {
    var cuts :| IsMerged(segments, merged, cuts, mergeGapMs);
    forall i | 0 <= i < |merged| ensures merged[i].startMs < merged[i].endMs {
      assert cuts[i] <= cuts[i + 1] - 1;
    }
    forall i, j | 0 <= i < j < |merged| ensures merged[i].endMs < merged[j].startMs {
      assert i + 1 < j ==> cuts[i + 1] < cuts[j];
      var p, q := cuts[i + 1] - 1, cuts[j];
      assert cuts[i] <= p < q < cuts[j + 1] <= |segments|;
      assert segments[p].endMs < segments[q].startMs;
    }
    if i + 1 < |merged| {
      assert cuts[i] < cuts[i + 1] < cuts[i + 2];
      assert Gap(segments, cuts[i + 1]) >= mergeGapMs;
    }
  }

  /** Every original segment lies inside a merged one of the same speaker. */
  lemma MergedCover(segments: seq<Segment>, merged: seq<Segment>, mergeGapMs: int, k: nat) returns (i: nat)
    requires Apart(segments) && IsMergeOf(segments, merged, mergeGapMs) && k < |segments|
    requires forall j :: 0 <= j < |segments| ==> segments[j].speaker == segments[0].speaker
    ensures i < |merged| && merged[i].speaker == segments[k].speaker
    ensures merged[i].startMs <= segments[k].startMs && segments[k].endMs <= merged[i].endMs
  {
    var cuts :| IsMerged(segments, merged, cuts, mergeGapMs);
    i := BlockOf(cuts, k, |merged|);
    assert cuts[i] <= k <= cuts[i + 1] - 1;
    assert cuts[i] < k ==> segments[cuts[i]].startMs < segments[cuts[i]].endMs < segments[k].startMs;
    assert k < cuts[i + 1] - 1 ==>
      segments[k].endMs < segments[cuts[i + 1] - 1].startMs < segments[cuts[i + 1] - 1].endMs;
  }

  // ---------------------------------------------------------------------------
  // All speakers
  // ---------------------------------------------------------------------------

  datatype Options = Options(threshold: real, minimumDurationMs: int, mergeGapMs: int)

  function Threshold(options: Options): real {
    if options.threshold > 0.0 then options.threshold else 0.5
  }

  lemma RunsAreApart(active: seq<bool>, minMs: int, s: int, segments: seq<Segment>)
    requires AreRunSegments(active, minMs, s, segments)
    ensures Apart(segments) && forall i :: 0 <= i < |segments| ==> segments[i].speaker == s
  {
    var runs: seq<Run> :| AreRuns(active, minMs, |active| + 1, runs) && segments == RunSegments(runs, s);
    forall i | 0 <= i < |runs| ensures runs[i].first < runs[i].end {
      assert IsRun(active, runs[i].first, runs[i].end);
    }
  }

  /** Every long enough run is one of the segments. */
  lemma RunIsSegment(active: seq<bool>, minMs: int, s: int, segments: seq<Segment>, a: nat, b: nat) returns (k: nat)
    requires AreRunSegments(active, minMs, s, segments) && IsRun(active, a, b) && Long(a, b, minMs)
    ensures k < |segments| && segments[k] == Segment(a * FRAME_MS, b * FRAME_MS, s)
  {
    var runs: seq<Run> :| AreRuns(active, minMs, |active| + 1, runs) && segments == RunSegments(runs, s);
    assert Run(a, b) in runs;
    k :| 0 <= k < |runs| && runs[k] == Run(a, b);
  }

  /** Every segment is a long enough run. */
  lemma SegmentIsRun(active: seq<bool>, minMs: int, s: int, segments: seq<Segment>, k: nat) returns (run: Run)
    requires AreRunSegments(active, minMs, s, segments) && k < |segments|
    ensures IsRun(active, run.first, run.end) && Long(run.first, run.end, minMs)
    ensures segments[k] == Segment(run.first * FRAME_MS, run.end * FRAME_MS, s)
  {
    var runs: seq<Run> :| AreRuns(active, minMs, |active| + 1, runs) && segments == RunSegments(runs, s);
    run := runs[k];
  }

  /** The merged runs of speaker `s`. */
  ghost predicate AreSpeakers(preds: seq<Preds>, s: nat, options: Options, merged: seq<Segment>)
    requires s < SPEAKERS
  {
    exists segments ::
      && AreRunSegments(Active(preds, s, Threshold(options)), options.minimumDurationMs, s, segments)
      && IsMergeOf(segments, merged, options.mergeGapMs)
  }

  method SpeakerSegments(preds: seq<Preds>, s: nat, options: Options) returns (merged: seq<Segment>)
    requires s < SPEAKERS
    ensures AreSpeakers(preds, s, options, merged)
  {
    var segments := SpeakerRuns(preds, s, Threshold(options), options.minimumDurationMs);
    RunsAreApart(Active(preds, s, Threshold(options)), options.minimumDurationMs, s, segments);
    merged := Merge(segments, options.mergeGapMs);
  }

  function StartsFirst(): (Segment, Segment) -> bool {
    (a: Segment, b: Segment) => a.startMs < b.startMs
  }

  lemma StartsFirstIsOrder()
    ensures StrictWeakOrder(StartsFirst())
  {
  }

  ghost predicate AllSpeakers(preds: seq<Preds>, options: Options, speakers: seq<seq<Segment>>) {
    && |speakers| == SPEAKERS
    && forall s :: 0 <= s < SPEAKERS ==> AreSpeakers(preds, s, options, speakers[s])
  }

  /** The segments of all speakers, sorted by their start. */
  method Binarize(preds: seq<Preds>, options: Options)
      returns (segments: seq<Segment>, ghost speakers: seq<seq<Segment>>)
    ensures AllSpeakers(preds, options, speakers) && multiset(segments) == multiset(Concat(speakers))
    ensures Sorted(segments, StartsFirst())
  {
    hide AreSpeakers;
    segments, speakers := [], [];
    for s := 0 to SPEAKERS
      invariant |speakers| == s && segments == Concat(speakers)
      invariant forall k :: 0 <= k < s ==> AreSpeakers(preds, k, options, speakers[k])
    {
      var merged := SpeakerSegments(preds, s, options);
      assert (speakers + [merged])[..s] == speakers;
      segments, speakers := segments + merged, speakers + [merged];
    }
    StartsFirstIsOrder();
    segments := Sort(segments, StartsFirst());
  }

  lemma {:induction false} InConcat(lists: seq<seq<Segment>>, k: nat, segment: Segment)
    requires k < |lists| && segment in lists[k]
    ensures segment in Concat(lists)
  {
    if k < |lists| - 1 {
      InConcat(lists[..|lists| - 1], k, segment);
    }
  }

  /** No stretch of speech that lasts long enough is lost: some reported segment of its speaker covers it. */
  lemma SpeechIsReported(preds: seq<Preds>, options: Options, segments: seq<Segment>, speakers: seq<seq<Segment>>,
                         s: nat, a: nat, b: nat) returns (segment: Segment)
    requires AllSpeakers(preds, options, speakers) && multiset(segments) == multiset(Concat(speakers))
    requires s < SPEAKERS && IsRun(Active(preds, s, Threshold(options)), a, b) && Long(a, b, options.minimumDurationMs)
    ensures segment in segments && segment.speaker == s
    ensures segment.startMs <= a * FRAME_MS && b * FRAME_MS <= segment.endMs
  {
    hide AreRunSegments, IsMergeOf, IsRun, Long, Active;
    var active, merged, minMs := Active(preds, s, Threshold(options)), speakers[s], options.minimumDurationMs;
    assert AreSpeakers(preds, s, options, merged);
    var runs :| AreRunSegments(active, minMs, s, runs) && IsMergeOf(runs, merged, options.mergeGapMs);
    RunsAreApart(active, minMs, s, runs);
    var k := RunIsSegment(active, minMs, s, runs, a, b);
    var i := MergedCover(runs, merged, options.mergeGapMs, k);
    segment := merged[i];
    InConcat(speakers, s, segment);
    assert segment in multiset(segments);
  }
}
