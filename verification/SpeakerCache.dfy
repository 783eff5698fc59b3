/** The streaming state of the Sortformer driver: a FIFO of recent frames, a speaker cache of older
    ones, and the silence profile. The graph's outputs of each step are arbitrary. */
module SpeakerCache {
  import opened CacheCompression

  const CHUNK_LEN: nat := 124
  const FIFO_LEN: nat := 124
  const SUBSAMPLING: nat := 8
  const SILENCE_THRESHOLD: real := 0.2

  function Max(a: nat, b: nat): nat { if a < b then b else a }

  // ---------------------------------------------------------------------------
  // The silence profile
  // ---------------------------------------------------------------------------

  function RowSum(row: Preds): real { row[0] + row[1] + row[2] + row[3] }

  /** The embeddings of the frames in which nobody speaks. */
  function SilentRows(embs: seq<Embedding>, preds: seq<Preds>): (r: seq<Embedding>)
    requires |embs| == |preds|
  {
    if embs == [] then []
    else
      var n := |embs| - 1;
      SilentRows(embs[..n], preds[..n]) + if RowSum(preds[n]) < SILENCE_THRESHOLD then [embs[n]] else []
  }

  predicate IsQuiet(row: Preds) {
    row[0] + row[1] + row[2] + row[3] < 0.2
  }

  /** In order, the frames in which the four speakers add up to less than 0.2. */
  ghost predicate AreQuiet(preds: seq<Preds>, frames: seq<nat>) {
    && (forall k, l :: 0 <= k < l < |frames| ==> frames[k] < frames[l])
    && (forall k :: 0 <= k < |frames| ==> frames[k] < |preds|)
    && forall t :: 0 <= t < |preds| ==> (t in frames <==> IsQuiet(preds[t]))
  }

  lemma OneMoreFrame(preds: seq<Preds>, row: Preds, before: seq<nat>)
    requires AreQuiet(preds, before)
    ensures AreQuiet(preds + [row], if IsQuiet(row) then before + [|preds|] else before)
  {
    hide IsQuiet;
    var longer, frames := preds + [row], if IsQuiet(row) then before + [|preds|] else before;
    assert |preds| !in before;
    forall t | 0 <= t < |longer| ensures t in frames <==> IsQuiet(longer[t]) {
      assert t < |preds| ==> (t in frames <==> t in before);
    }
  }

  /** The rows are those of the given frames, in this order. */
  ghost predicate AreRowsOf(rows: seq<Embedding>, embs: seq<Embedding>, frames: seq<nat>) {
    && |rows| == |frames|
    && forall k :: 0 <= k < |frames| ==> frames[k] < |embs| && rows[k] == embs[frames[k]]
  }

  lemma OneMoreRow(rows: seq<Embedding>, embs: seq<Embedding>, frames: seq<nat>, row: Embedding)
    requires AreRowsOf(rows, embs, frames)
    ensures AreRowsOf(rows, embs + [row], frames) && AreRowsOf(rows + [row], embs + [row], frames + [|embs|])
  {
  }

  lemma SilentRowsStep(embs: seq<Embedding>, preds: seq<Preds>, emb: Embedding, pred: Preds)
    requires |embs| == |preds|
    ensures SilentRows(embs + [emb], preds + [pred])
            == if IsQuiet(pred) then SilentRows(embs, preds) + [emb] else SilentRows(embs, preds)
  {
    assert (embs + [emb])[..|embs|] == embs && (preds + [pred])[..|preds|] == preds;
  }

  /** The silent rows are the embeddings of the quiet frames. */
  lemma {:induction false} SilentRowsAre(embs: seq<Embedding>, preds: seq<Preds>) returns (frames: seq<nat>)
    requires |embs| == |preds|
    ensures AreQuiet(preds, frames) && AreRowsOf(SilentRows(embs, preds), embs, frames)
  {
    if embs == [] {
      frames := [];
    } else {
      hide *;
      var n := |embs| - 1;
      var front, before := embs[..n], preds[..n];
      assert embs == front + [embs[n]] && preds == before + [preds[n]];
      frames := SilentRowsAre(front, before);
      OneMoreFrame(before, preds[n], frames);
      OneMoreRow(SilentRows(front, before), front, frames, embs[n]);
      SilentRowsStep(front, before, embs[n], preds[n]);
      frames := if IsQuiet(preds[n]) then frames + [n] else frames;
    }
  }

  lemma {:induction false} SilentRowsAppend(embs: seq<Embedding>, preds: seq<Preds>, embs': seq<Embedding>,
      preds': seq<Preds>)
    requires |embs| == |preds| && |embs'| == |preds'|
    ensures SilentRows(embs + embs', preds + preds') == SilentRows(embs, preds) + SilentRows(embs', preds')
  {
    hide RowSum;
    if embs' == [] {
      assert embs + embs' == embs && preds + preds' == preds;
    } else {
      var n := |embs'| - 1;
      SilentRowsAppend(embs, preds, embs'[..n], preds'[..n]);
      assert (embs + embs')[..|embs| + n] == embs + embs'[..n];
      assert (preds + preds')[..|embs| + n] == preds + preds'[..n];
    }
  }

  function ColumnSum(rows: seq<Embedding>, i: nat): real
    requires i < EMB_DIM
  {
    if rows == [] then 0.0 else ColumnSum(rows[..|rows| - 1], i) + rows[|rows| - 1][i]
  }

  predicate MeanOf(mean: real, count: nat, sum: real) {
    mean * (count as real) == sum
  }

  predicate AllZero(mean: Embedding) {
    forall i :: 0 <= i < EMB_DIM ==> mean[i] == 0.0
  }

  /** The exact mean: `count` times the mean is the sum; zeros as long as there is nothing to take it of. */
  ghost predicate IsMean(mean: Embedding, rows: seq<Embedding>) {
    && (rows == [] ==> AllZero(mean))
    && forall i :: 0 <= i < EMB_DIM ==> MeanOf(mean[i], |rows|, ColumnSum(rows, i))
  }

  function NextMean(mean: real, nOld: nat, x: real): real {
    (mean * (nOld as real) + x) / ((nOld + 1) as real)
  }

  lemma MeanOfOneMore(mean: real, n: nat, sum: real, x: real)
    requires MeanOf(mean, n, sum)
    ensures MeanOf(NextMean(mean, n, x), n + 1, sum + x)
  {
    var total, count := mean * (n as real) + x, (n + 1) as real;
    assert total / count * count == total;
  }

  lemma ColumnSumSnoc(rows: seq<Embedding>, row: Embedding, i: nat)
    requires i < EMB_DIM
    ensures ColumnSum(rows + [row], i) == ColumnSum(rows, i) + row[i]
  {
    assert (rows + [row])[..|rows|] == rows;
  }

  /** The in-place update of the mean by one more row. */
  method AddToMean(mean: Embedding, nOld: nat, row: Embedding, ghost rows: seq<Embedding>) returns (mean': Embedding)
    requires nOld == |rows| && IsMean(mean, rows)
    ensures IsMean(mean', rows + [row])
  {
    hide MeanOf, NextMean, ColumnSum;
    mean' := mean;
    for i := 0 to EMB_DIM
      invariant forall k :: i <= k < EMB_DIM ==> mean'[k] == mean[k]
      invariant forall k :: 0 <= k < i ==> MeanOf(mean'[k], nOld + 1, ColumnSum(rows + [row], k))
    {
      MeanOfOneMore(mean[i], nOld, ColumnSum(rows, i), row[i]);
      ColumnSumSnoc(rows, row, i);
      mean' := mean'[i := NextMean(mean'[i], nOld, row[i])];
    }
  }

  // ---------------------------------------------------------------------------
  // One step
  // ---------------------------------------------------------------------------

  /** What the ONNX session returns for a step. */
  datatype Graph = Failed | Outputs(preds: seq<Preds>, embs: seq<Embedding>)

  datatype Step = Kept(chunkPreds: seq<Preds>) | InferenceFailed | ValidationFailed

  function Ceil(a: nat, b: nat): nat
    requires b > 0
  {
    (a + b - 1) / b
  }

  /** The frames a window of `len` mel frames is worth: no lookahead, none beyond the audio. */
  function Keep(len: nat): nat {
    Min(CHUNK_LEN, Ceil(len, SUBSAMPLING))
  }

  /** The chunk frames that are kept: no lookahead, none beyond the audio, none the graph did not return. */
  function KeepFrames(currentLen: nat, embsFrames: nat, predsFrames: nat, before: nat): nat
    requires before <= predsFrames
  {
    Min(Min(Keep(currentLen), embsFrames), predsFrames - before)
  }

  class StreamState {
    var spkcache: seq<Embedding>
    var spkcacheFrames: nat
    var hasSpkcachePreds: bool
    var spkcachePreds: seq<Preds>
    var fifo: seq<Embedding>
    var fifoFrames: nat
    var fifoPreds: seq<Preds>
    var meanSilEmb: Embedding
    var nSilFrames: nat

    /** Every embedding ever kept, and the rows that left the FIFO. */
    ghost var kept: seq<Embedding>
    ghost var popped: seq<Embedding>
    ghost var poppedPreds: seq<Preds>

    ghost predicate Aligned()
      reads this
    {
      && |spkcache| == spkcacheFrames && |fifo| == |fifoPreds| == fifoFrames
      && |spkcachePreds| == (if hasSpkcachePreds then spkcacheFrames else 0)
      && |popped| == |poppedPreds|
    }

    ghost predicate SilenceOk()
      reads this
    {
      && |popped| == |poppedPreds|
      && nSilFrames == |SilentRows(popped, poppedPreds)|
      && IsMean(meanSilEmb, SilentRows(popped, poppedPreds))
    }

    ghost predicate Valid()
      reads this
    {
      && Aligned()
      && fifoFrames <= FIFO_LEN && spkcacheFrames <= CACHE_LEN
      // nothing is lost or reordered on the way through the FIFO
      && popped + fifo == kept
      // nothing is lost in the cache until the first compression, after which it is always full
      && (if hasSpkcachePreds then spkcacheFrames == CACHE_LEN else spkcache == popped)
      && SilenceOk()
    }

    constructor ()
      ensures Valid() && IsStart(Value())
    {
      spkcache, spkcacheFrames, hasSpkcachePreds, spkcachePreds := [], 0, false, [];
      fifo, fifoFrames, fifoPreds := [], 0, [];
      meanSilEmb, nSilFrames := seq(EMB_DIM, i => 0.0), 0;
      kept, popped, poppedPreds := [], [], [];
    }

    lemma ValidIsOk()
      requires Valid()
      ensures StateOk(Value())
    {
      hide IsMean, SilentRows;
    }

    method UpdateSilenceProfile(embs: seq<Embedding>, preds: seq<Preds>)
      requires |embs| == |preds| && SilenceOk()
      modifies `meanSilEmb, `nSilFrames, `popped, `poppedPreds
      ensures popped == old(popped) + embs && poppedPreds == old(poppedPreds) + preds && SilenceOk()
    {
      ghost var before := SilentRows(popped, poppedPreds);
      assert before + SilentRows(embs[..0], preds[..0]) == before;
      for t := 0 to |embs|
        invariant popped == old(popped) && poppedPreds == old(poppedPreds)
        invariant nSilFrames == |before + SilentRows(embs[..t], preds[..t])|
        invariant IsMean(meanSilEmb, before + SilentRows(embs[..t], preds[..t]))
      {
        hide IsMean, RowSum, ColumnSum, MeanOf;
        assert embs[..t + 1][..t] == embs[..t] && preds[..t + 1][..t] == preds[..t];
        ghost var rows := before + SilentRows(embs[..t], preds[..t]);
        if RowSum(preds[t]) < SILENCE_THRESHOLD {
          assert before + SilentRows(embs[..t + 1], preds[..t + 1]) == rows + [embs[t]];
          meanSilEmb := AddToMean(meanSilEmb, nSilFrames, embs[t], rows);
          nSilFrames := nSilFrames + 1;
        } else {
          assert before + SilentRows(embs[..t + 1], preds[..t + 1]) == rows;
        }
      }
      assert embs[..|embs|] == embs && preds[..|embs|] == preds;
      SilentRowsAppend(popped, poppedPreds, embs, preds);
      popped, poppedPreds := popped + embs, poppedPreds + preds;
    }

    /** The first frames of the FIFO move to the cache. */
    method PopOut(count: nat)
      requires Aligned() && SilenceOk() && count <= fifoFrames
      modifies this
      ensures Aligned() && SilenceOk()
      ensures fifo == old(fifo[count..]) && fifoPreds == old(fifoPreds[count..]) && kept == old(kept)
      ensures popped == old(popped) + old(fifo[..count]) && poppedPreds == old(poppedPreds) + old(fifoPreds[..count])
      ensures spkcache == old(spkcache) + old(fifo[..count]) && hasSpkcachePreds == old(hasSpkcachePreds)
      ensures hasSpkcachePreds ==> spkcachePreds == old(spkcachePreds) + old(fifoPreds[..count])
    {
      hide IsMean, SilentRows;
      var popEmbs, popPreds := fifo[..count], fifoPreds[..count];
      UpdateSilenceProfile(popEmbs, popPreds);
      fifo, fifoPreds, fifoFrames := fifo[count..], fifoPreds[count..], fifoFrames - count;
      spkcache, spkcacheFrames := spkcache + popEmbs, spkcacheFrames + count;
      if hasSpkcachePreds {
        spkcachePreds := spkcachePreds + popPreds;
      }
      assert SilenceOk();
    }

    /** Back to CACHE_LEN frames; `first` are the predictions for the cache if it has none yet. */
    method Shrink(ln: real -> real, first: seq<Preds>) returns (ghost cols: seq<seq<Score>>, ghost picks: seq<nat>)
      requires Aligned() && SilenceOk() && CACHE_LEN < spkcacheFrames <= CACHE_LEN + CHUNK_LEN
      requires |first| == spkcacheFrames
      modifies `spkcache, `spkcacheFrames, `spkcachePreds, `hasSpkcachePreds
      ensures Aligned() && SilenceOk() && hasSpkcachePreds && spkcacheFrames == CACHE_LEN
      ensures var preds := if old(hasSpkcachePreds) then old(spkcachePreds) else first;
              IsCompression(ln, old(spkcache), preds, meanSilEmb, cols, picks, spkcache, spkcachePreds)
    {
      hide IsMean, SilentRows, IsCompression;
      if !hasSpkcachePreds {
        spkcachePreds, hasSpkcachePreds := first, true;
      }
      spkcache, spkcachePreds, cols, picks := Compress(ln, spkcache, spkcachePreds, meanSilEmb);
      spkcacheFrames := CACHE_LEN;
      assert SilenceOk();
    }

    ghost function Value(): State
      reads this
    {
      State(spkcache, hasSpkcachePreds, spkcachePreds, fifo, fifoPreds, meanSilEmb, nSilFrames,
            kept, popped, poppedPreds)
    }

    /** Valid except that the FIFO may be too long. */
    ghost predicate Appendable()
      reads this
    {
      && Aligned() && SilenceOk()
      && fifoFrames <= FIFO_LEN + CHUNK_LEN && spkcacheFrames <= CACHE_LEN
      && popped + fifo == kept
      && (if hasSpkcachePreds then spkcacheFrames == CACHE_LEN else spkcache == popped)
    }

    /** Appends the kept frames; predictions of older frames are replaced by this step's. */
    method Append(chunkEmbs: seq<Embedding>, allPreds: seq<Preds>)
      requires Valid() && |allPreds| == fifoFrames + |chunkEmbs| && |chunkEmbs| <= CHUNK_LEN
      modifies `fifo, `fifoFrames, `fifoPreds, `kept
      ensures Appendable() && Value() == Appended(old(Value()), chunkEmbs, allPreds)
    {
      hide IsMean, SilentRows;
      fifo, fifoPreds := fifo + chunkEmbs, allPreds;
      fifoFrames := fifoFrames + |chunkEmbs|;
      kept := kept + chunkEmbs;
      assert popped + (old(fifo) + chunkEmbs) == (popped + old(fifo)) + chunkEmbs;
      assert SilenceOk();
    }

    /** The FIFO is too long: `keep` frames were appended to `f0`. */
    method Overflow(ln: real -> real, cacheRegion: seq<Preds>, keep: nat, f0: nat)
      requires Appendable() && fifoFrames == f0 + keep > FIFO_LEN && keep <= CHUNK_LEN && f0 <= FIFO_LEN
      requires |cacheRegion| == spkcacheFrames
      modifies this
      ensures Valid() && Overflowed(old(Value()), Value(), ln, cacheRegion)
    {
      hide IsMean, SilentRows, IsCompression;
      var extra := if keep > FIFO_LEN then keep - FIFO_LEN else 0;
      var popOutLen := Min(Max(CHUNK_LEN, extra + f0), fifoFrames);
      var first := cacheRegion + fifoPreds[..popOutLen];
      PopOut(popOutLen);
      assert popped + fifo == kept by {
        assert old(fifo) == old(fifo)[..popOutLen] + old(fifo)[popOutLen..];
      }
      if spkcacheFrames > CACHE_LEN {
        ghost var cols, picks := Shrink(ln, first);
      }
    }

    /** One streaming step. A failed step changes nothing. */
    method StreamingUpdate(ln: real -> real, currentLen: nat, graph: Graph) returns (r: Step)
      requires Valid()
      modifies this
      ensures Valid()
      ensures r.InferenceFailed? <==> graph.Failed?
      ensures r.ValidationFailed? <==> graph.Outputs? && |graph.preds| < old(spkcacheFrames + fifoFrames)
      ensures !r.Kept? ==> Value() == old(Value())
      ensures r.Kept? ==> Moved(old(Value()), Value(), ln, currentLen, graph, r.chunkPreds)
    {
      hide SilenceOk, Overflowed, KeepFrames, Moved;
      if graph.Failed? {
        return InferenceFailed;
      }
      var s0, f0 := spkcacheFrames, fifoFrames;
      if |graph.preds| < s0 + f0 {
        return ValidationFailed;
      }
      KeepIsShort(currentLen, |graph.embs|, |graph.preds|, s0 + f0);
      var keep := KeepFrames(currentLen, |graph.embs|, |graph.preds|, s0 + f0);
      var chunkPreds := graph.preds[s0 + f0..s0 + f0 + keep];
      var allPreds := graph.preds[s0..s0 + f0] + chunkPreds;
      SlicesJoin(graph.preds, s0, s0 + f0, s0 + f0 + keep);
      Append(graph.embs[..keep], allPreds);
      if fifoFrames > FIFO_LEN {
        Overflow(ln, graph.preds[..s0], keep, f0);
      }
      MovedFrom(old(Value()), Value(), ln, currentLen, graph, keep);
      r := Kept(chunkPreds);
    }
  }

  lemma MovedFrom(was: State, now: State, ln: real -> real, currentLen: nat, graph: Graph, keep: nat)
    requires graph.Outputs? && |was.spkcache| + |was.fifo| <= |graph.preds|
    requires keep == KeepFrames(currentLen, |graph.embs|, |graph.preds|, |was.spkcache| + |was.fifo|)
    requires keep <= |graph.embs| && |was.spkcache| + |was.fifo| + keep <= |graph.preds|
    requires var s0, f0 := |was.spkcache|, |was.fifo|;
             var longer := Appended(was, graph.embs[..keep], graph.preds[s0..s0 + f0 + keep]);
             if f0 + keep <= FIFO_LEN then now == longer else Overflowed(longer, now, ln, graph.preds[..s0])
    ensures var b := |was.spkcache| + |was.fifo|; Moved(was, now, ln, currentLen, graph, graph.preds[b..b + keep])
  {
    hide Overflowed, KeepFrames;
  }

  datatype State = State(
    spkcache: seq<Embedding>, hasSpkcachePreds: bool, spkcachePreds: seq<Preds>,
    fifo: seq<Embedding>, fifoPreds: seq<Preds>, meanSilEmb: Embedding, nSilFrames: nat,
    kept: seq<Embedding>, popped: seq<Embedding>, poppedPreds: seq<Preds>)

  ghost function Appended(was: State, chunkEmbs: seq<Embedding>, allPreds: seq<Preds>): State {
    was.(fifo := was.fifo + chunkEmbs, fifoPreds := allPreds, kept := was.kept + chunkEmbs)
  }

  /** The oldest CHUNK_LEN frames of the FIFO move to the cache, which is compressed if it gets too long. */
  ghost predicate Overflowed(was: State, now: State, ln: real -> real, cacheRegion: seq<Preds>) {
    && |was.fifo| == |was.fifoPreds| >= CHUNK_LEN
    && now.fifo == was.fifo[CHUNK_LEN..] && now.fifoPreds == was.fifoPreds[CHUNK_LEN..] && now.kept == was.kept
    && now.popped == was.popped + was.fifo[..CHUNK_LEN]
    && now.poppedPreds == was.poppedPreds + was.fifoPreds[..CHUNK_LEN]
    && var longer := was.spkcache + was.fifo[..CHUNK_LEN];
    var preds := (if was.hasSpkcachePreds then was.spkcachePreds else cacheRegion) + was.fifoPreds[..CHUNK_LEN];
    if |longer| <= CACHE_LEN then
      && now.spkcache == longer && now.hasSpkcachePreds == was.hasSpkcachePreds
      && (was.hasSpkcachePreds ==> now.spkcachePreds == preds)
    else
      && now.hasSpkcachePreds
      && exists cols, picks ::
           IsCompression(ln, longer, preds, now.meanSilEmb, cols, picks, now.spkcache, now.spkcachePreds)
  }

  /** What a step makes of the state `was`, in terms of its inputs. */
  ghost predicate Moved(was: State, now: State, ln: real -> real, currentLen: nat, graph: Graph,
      chunkPreds: seq<Preds>) {
    var s0, f0 := |was.spkcache|, |was.fifo|;
    && graph.Outputs? && s0 + f0 <= |graph.preds|
    && var keep := KeepFrames(currentLen, |graph.embs|, |graph.preds|, s0 + f0);
    && keep <= |graph.embs| && s0 + f0 + keep <= |graph.preds|
    && chunkPreds == graph.preds[s0 + f0..s0 + f0 + keep]
    && var longer := Appended(was, graph.embs[..keep], graph.preds[s0..s0 + f0 + keep]);
    if |longer.fifo| <= FIFO_LEN then now == longer
    else Overflowed(longer, now, ln, graph.preds[..s0])
  }

  lemma SlicesJoin(s: seq<Preds>, a: nat, b: nat, c: nat)
    requires a <= b <= c <= |s|
    ensures s[a..b] + s[b..c] == s[a..c]
  {
  }

  lemma KeepIsShort(currentLen: nat, embsFrames: nat, predsFrames: nat, before: nat)
    requires before <= predsFrames
    ensures var keep := KeepFrames(currentLen, embsFrames, predsFrames, before);
            keep <= CHUNK_LEN && keep <= embsFrames && keep <= predsFrames - before
  {
  }

  /** What holds in every state of every run: buffers within their limits and row-aligned, nothing lost or
      reordered before the first compression, and the silence profile the exact mean of all silent frames
      that left the FIFO. */
  ghost predicate StateOk(s: State) {
    && |s.fifo| == |s.fifoPreds| <= FIFO_LEN && |s.spkcache| <= CACHE_LEN
    && |s.spkcachePreds| == (if s.hasSpkcachePreds then |s.spkcache| else 0)
    && |s.popped| == |s.poppedPreds| && s.popped + s.fifo == s.kept
    && (if s.hasSpkcachePreds then |s.spkcache| == CACHE_LEN else s.spkcache + s.fifo == s.kept)
    && s.nSilFrames == |SilentRows(s.popped, s.poppedPreds)|
    && IsMean(s.meanSilEmb, SilentRows(s.popped, s.poppedPreds))
  }

  /** Everything is empty; the mean of no silent frame is zero. */
  ghost predicate IsStart(s: State) {
    s == State([], false, [], [], [], s.meanSilEmb, 0, [], [], []) && AllZero(s.meanSilEmb)
  }

  /** A step fails exactly if the session does, or returns fewer predictions than frames went in. */
  predicate Fails(s: State, graph: Graph) {
    graph.Failed? || |graph.preds| < |s.spkcache| + |s.fifo|
  }

  /** The states of a stream from its start on, one step per chunk. */
  ghost predicate IsRun(ln: real -> real, steps: seq<(nat, Graph)>, states: seq<State>, chunks: seq<seq<Preds>>) {
    && |states| == |chunks| + 1 && |chunks| <= |steps| && IsStart(states[0])
    && forall k :: 0 <= k < |chunks| ==> Moved(states[k], states[k + 1], ln, steps[k].0, steps[k].1, chunks[k])
  }

  /** A stream from its start, up to the first step that fails. Whatever the graph returns, every state on
      the way is as `StateOk` says, and follows from the one before it and the outputs of its step. */
  method RunSteps(ln: real -> real, steps: seq<(nat, Graph)>)
    returns (chunks: seq<seq<Preds>>, failed: bool, cache: seq<Embedding>, compressed: bool, fifo: seq<Embedding>,
             mean: Embedding, silent: nat, ghost states: seq<State>)
    ensures IsRun(ln, steps, states, chunks) && forall k :: 0 <= k < |states| ==> StateOk(states[k])
    ensures failed <==> |chunks| < |steps|
    ensures failed ==> Fails(states[|chunks|], steps[|chunks|].1)
    ensures var last := states[|chunks|];
            && cache == last.spkcache && compressed == last.hasSpkcachePreds && fifo == last.fifo
            && mean == last.meanSilEmb && silent == last.nSilFrames
  {
    hide IsMean, SilentRows, Overflowed, KeepFrames, Moved;
    var state := new StreamState();
    state.ValidIsOk();
    chunks, failed, states := [], false, [state.Value()];
    while |chunks| < |steps| && !failed
      invariant state.Valid() && fresh(state) && |chunks| <= |steps|
      invariant IsRun(ln, steps, states, chunks) && states[|chunks|] == state.Value()
      invariant forall k :: 0 <= k < |states| ==> StateOk(states[k])
      invariant failed ==> |chunks| < |steps| && Fails(state.Value(), steps[|chunks|].1)
      decreases |steps| - |chunks|, !failed
    {
      var i := |chunks|;
      var r := state.StreamingUpdate(ln, steps[i].0, steps[i].1);
      if r.Kept? {
        state.ValidIsOk();
        chunks, states := chunks + [r.chunkPreds], states + [state.Value()];
      } else {
        failed := true;
      }
    }
    cache, compressed, fifo := state.spkcache, state.hasSpkcachePreds, state.fifo;
    mean, silent := state.meanSilEmb, state.nSilFrames;
  }

  lemma KeptGrows(was: State, now: State, ln: real -> real, currentLen: nat, graph: Graph, chunkPreds: seq<Preds>)
    requires Moved(was, now, ln, currentLen, graph, chunkPreds)
    ensures |now.kept| == |was.kept| + |chunkPreds|
  {
  }

  /** The graph returns a row and an embedding for every frame the window is worth. */
  ghost predicate Generous(s: State, len: nat, graph: Graph) {
    graph.Outputs? && Keep(len) <= |graph.embs| && |s.spkcache| + |s.fifo| + Keep(len) <= |graph.preds|
  }

  lemma GenerousKeeps(was: State, now: State, ln: real -> real, len: nat, graph: Graph, chunkPreds: seq<Preds>)
    requires Moved(was, now, ln, len, graph, chunkPreds) && Generous(was, len, graph)
    ensures |chunkPreds| == Keep(len)
  {
    hide Overflowed, Appended, Keep;
  }

  function Total(chunks: seq<seq<Preds>>): nat {
    if chunks == [] then 0 else Total(chunks[..|chunks| - 1]) + |chunks[|chunks| - 1]|
  }

  /** One prediction row for every embedding ever kept. */
  lemma {:induction false} RunKeeps(ln: real -> real, steps: seq<(nat, Graph)>, states: seq<State>,
      chunks: seq<seq<Preds>>)
    requires IsRun(ln, steps, states, chunks)
    ensures Total(chunks) == |states[|chunks|].kept|
    decreases |chunks|
  {
    hide Moved;
    if chunks != [] {
      var n := |chunks| - 1;
      RunKeeps(ln, steps, states[..n + 1], chunks[..n]);
      KeptGrows(states[n], states[n + 1], ln, steps[n].0, steps[n].1, chunks[n]);
    }
  }
}
