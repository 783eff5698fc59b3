/** Compression of the speaker cache: which of the cached frames stay when it overflows. Scores are
    exact reals with two infinities; the logarithm is an arbitrary function. */
module CacheCompression {
  import opened Arithmetic
  import opened Sequences
  import opened Sorting

  const SPEAKERS: nat := 4
  const EMB_DIM: nat := 512
  const CACHE_LEN: nat := 188
  const SILENCE_PER_SPEAKER: nat := 3
  const LEN_PER_SPEAKER: nat := CACHE_LEN / SPEAKERS - SILENCE_PER_SPEAKER
  const STRONG: nat := (LEN_PER_SPEAKER as real * 0.75).Floor
  const WEAK: nat := (LEN_PER_SPEAKER as real * 1.5).Floor
  const MIN_POSITIVE: nat := (LEN_PER_SPEAKER as real * 0.5).Floor
  const PRED_THRESHOLD: real := 0.25
  const MAX_INDEX: nat := 99999

  type Preds = p: seq<real> | |p| == SPEAKERS witness [0.0, 0.0, 0.0, 0.0]
  type Embedding = e: seq<real> | |e| == EMB_DIM witness seq(EMB_DIM, i => 0.0)

  const NO_SPEECH: Preds := [0.0, 0.0, 0.0, 0.0]

  datatype Score = NegInf | Fin(value: real) | PosInf

  /** a > b */
  predicate Above(a: Score, b: Score) {
    (a.PosInf? && !b.PosInf?) || (a.Fin? && (b.NegInf? || (b.Fin? && a.value > b.value)))
  }

  // ---------------------------------------------------------------------------
  // Scores
  // ---------------------------------------------------------------------------

  function AtLeastThreshold(p: real): (r: real)
    ensures r >= 0.25 && (p >= 0.25 ==> r == p)
  {
    if p < PRED_THRESHOLD then PRED_THRESHOLD else p
  }

  function LogComplement(ln: real -> real, p: real): real {
    ln(AtLeastThreshold(1.0 - AtLeastThreshold(p)))
  }

  function LogComplements(ln: real -> real, row: Preds, k: nat): real
    requires k <= SPEAKERS
  {
    if k == 0 then 0.0 else LogComplements(ln, row, k - 1) + LogComplement(ln, row[k - 1])
  }

  function Min(a: nat, b: nat): nat { if a < b then a else b }

  /** How much a frame speaks for speaker `s` alone. */
  function RawScore(ln: real -> real, row: Preds, s: nat): real
    requires s < SPEAKERS
  {
    ln(AtLeastThreshold(row[s])) - LogComplement(ln, row[s]) + LogComplements(ln, row, SPEAKERS) - ln(0.5)
  }

  function RawRow(ln: real -> real, row: Preds): (r: Preds)
    ensures forall s :: 0 <= s < SPEAKERS ==> r[s] == RawScore(ln, row, s)
  {
    [RawScore(ln, row, 0), RawScore(ln, row, 1), RawScore(ln, row, 2), RawScore(ln, row, 3)]
  }

  function RawRows(ln: real -> real, preds: seq<Preds>): (raw: seq<Preds>)
    ensures |raw| == |preds| && forall t :: 0 <= t < |raw| ==> raw[t] == RawRow(ln, preds[t])
  {
    seq(|preds|, t requires 0 <= t < |preds| => RawRow(ln, preds[t]))
  }

  method LogPredScores(ln: real -> real, preds: seq<Preds>) returns (raw: seq<Preds>)
    ensures raw == RawRows(ln, preds)
  {
    raw := [];
    for t := 0 to |preds|
      invariant |raw| == t && forall u :: 0 <= u < t ==> raw[u] == RawRow(ln, preds[u])
    {
      var sum := 0.0;
      for s := 0 to SPEAKERS
        invariant sum == LogComplements(ln, preds[t], s)
      {
        sum := sum + LogComplement(ln, preds[t][s]);
      }
      var row: seq<real> := [];
      for s := 0 to SPEAKERS
        invariant |row| == s && forall k :: 0 <= k < s ==> row[k] == RawScore(ln, preds[t], k)
      {
        row := row + [ln(AtLeastThreshold(preds[t][s])) - LogComplement(ln, preds[t][s]) + sum - ln(0.5)];
      }
      assert row == RawRow(ln, preds[t]);
      raw := raw + [row];
    }
  }

  // What the scores mean

  /** The laws by which a function is a logarithm to a base above one. */
  ghost predicate IsLog(ln: real -> real) {
    && (forall x, y :: x > 0.0 && y > 0.0 ==> ln(Times(x, y)) == ln(x) + ln(y))
    && (forall x, y :: 0.0 < x < y ==> ln(x) < ln(y))
  }

  function Times(x: real, y: real): real { x * y }

  /** How likely a speaker is silent, at least a quarter and at most three quarters. */
  function Silent(p: real): (r: real)
    ensures 0.0 < r
  {
    AtLeastThreshold(1.0 - AtLeastThreshold(p))
  }

  /** The product over the first `k` speakers other than `s`. */
  function OthersSilent(row: Preds, s: nat, k: nat): (r: real)
    requires k <= SPEAKERS
    ensures 0.0 < r
  {
    if k == 0 then 1.0
    else Times(OthersSilent(row, s, k - 1), if k - 1 == s then 1.0 else Silent(row[k - 1]))
  }

  /** How likely speaker `s` speaks and nobody else does, with the probabilities kept off zero. */
  function Alone(row: Preds, s: nat): (r: real)
    requires s < SPEAKERS
    ensures 0.0 < r
  {
    Times(AtLeastThreshold(row[s]), OthersSilent(row, s, SPEAKERS))
  }

  lemma LogOne(ln: real -> real)
    requires IsLog(ln)
    ensures ln(1.0) == 0.0
  {
    assert Times(1.0, 1.0) == 1.0;
  }

  lemma {:induction false} LogOthersSilent(ln: real -> real, row: Preds, s: nat, k: nat)
    requires IsLog(ln) && s < SPEAKERS && k <= SPEAKERS
    ensures LogComplements(ln, row, k)
            == ln(OthersSilent(row, s, k)) + if s < k then ln(Silent(row[s])) else 0.0
  {
    hide Times, Silent;
    LogOne(ln);
    if k > 0 {
      LogOthersSilent(ln, row, s, k - 1);
      assert LogComplement(ln, row[k - 1]) == ln(Silent(row[k - 1])) by {
        LogSilent(ln, row[k - 1]);
      }
    }
  }

  lemma LogSilent(ln: real -> real, p: real)
    ensures LogComplement(ln, p) == ln(Silent(p))
  {
  }

  /** A score is the logarithm of twice the chance that the speaker speaks alone. */
  lemma ScoreIsLog(ln: real -> real, row: Preds, s: nat)
    requires IsLog(ln) && s < SPEAKERS
    ensures RawScore(ln, row, s) == ln(Alone(row, s)) - ln(0.5)
  {
    LogOthersSilent(ln, row, s, SPEAKERS);
    LogSilent(ln, row[s]);
    hide Times, Silent, LogComplements, LogComplement, OthersSilent;
  }

  /** The score is positive exactly if the speaker is more likely alone than not, and one score is above
      another exactly if its speaker is more likely alone. */
  lemma ScoreMeans(ln: real -> real, row: Preds, s: nat, row': Preds, s': nat)
    requires IsLog(ln) && s < SPEAKERS && s' < SPEAKERS
    ensures RawScore(ln, row, s) > 0.0 <==> Alone(row, s) > 0.5
    ensures RawScore(ln, row, s) > RawScore(ln, row', s') <==> Alone(row, s) > Alone(row', s')
  {
    ScoreIsLog(ln, row, s);
    ScoreIsLog(ln, row', s');
    hide Alone, RawScore;
  }

  function Positives(raw: seq<Preds>, s: nat): nat
    requires s < SPEAKERS
  {
    if raw == [] then 0
    else Positives(raw[..|raw| - 1], s) + if raw[|raw| - 1][s] > 0.0 then 1 else 0
  }

  /** Frames without speech drop out, and frames that speak against the speaker if it has enough others. */
  function BaseScore(p: real, raw: real, positives: nat): Score {
    if !(p > 0.5) then NegInf
    else if raw <= 0.0 && positives >= MIN_POSITIVE then NegInf
    else Fin(raw)
  }

  /** The scores of one speaker, frame by frame. */
  ghost predicate IsBase(preds: seq<Preds>, raw: seq<Preds>, s: nat, col: seq<Score>) {
    && s < SPEAKERS && |preds| == |raw| == |col|
    && forall t :: 0 <= t < |col| ==> col[t] == BaseScore(preds[t][s], raw[t][s], Positives(raw, s))
  }

  method DisableLowScores(preds: seq<Preds>, raw: seq<Preds>, s: nat) returns (col: seq<Score>)
    requires |preds| == |raw| && s < SPEAKERS
    ensures |col| == |preds| && IsBase(preds, raw, s, col)
  {
    var count: nat := 0;
    for t := 0 to |raw|
      invariant count == Positives(raw[..t], s)
    {
      assert raw[..t + 1][..t] == raw[..t];
      if raw[t][s] > 0.0 {
        count := count + 1;
      }
    }
    assert raw[..|raw|] == raw;
    col := [];
    for t := 0 to |raw|
      invariant |col| == t && forall u :: 0 <= u < t ==> col[u] == BaseScore(preds[u][s], raw[u][s], count)
    {
      var speech := preds[t][s] > 0.5;
      if !speech {
        col := col + [NegInf];
      } else if raw[t][s] <= 0.0 && count >= MIN_POSITIVE {
        col := col + [NegInf];
      } else {
        col := col + [Fin(raw[t][s])];
      }
    }
  }

  // ---------------------------------------------------------------------------
  // Boosting the best frames of a speaker
  // ---------------------------------------------------------------------------

  datatype Entry = Entry(score: Score, index: nat)

  function ByScore(): (Entry, Entry) -> bool {
    (a: Entry, b: Entry) => Above(a.score, b.score)
  }

  lemma ByScoreIsOrder()
    ensures StrictWeakOrder(ByScore())
  {
  }

  function Boosted(v: Score, delta: real): Score {
    if v.Fin? then Fin(v.value - delta) else v
  }

  /** `k` frames, none of the others scoring above any of them. */
  ghost predicate IsTop(col: seq<Score>, top: set<nat>, k: nat) {
    && |top| == k
    && (forall t :: t in top ==> t < |col|)
    && (forall t, u :: t in top && 0 <= u < |col| && u !in top ==> !Above(col[u], col[t]))
  }

  /** The frames in `top` are boosted, no others. */
  ghost predicate BoostsTop(col: seq<Score>, out: seq<Score>, top: set<nat>, delta: real) {
    && |out| == |col|
    && forall t :: 0 <= t < |col| ==> out[t] == if t in top then Boosted(col[t], delta) else col[t]
  }

  ghost predicate IsBoost(col: seq<Score>, out: seq<Score>, k: nat, delta: real) {
    |out| == |col| && exists top: set<nat> :: IsTop(col, top, k) && BoostsTop(col, out, top, delta)
  }

  ghost predicate IsBoostedBy(col: seq<Score>, out: seq<Score>, nBoost: nat, scale: real, lnHalf: real) {
    IsBoost(col, out, Min(nBoost, |col|), scale * lnHalf)
  }

  ghost predicate IsEntries(col: seq<Score>, entries: seq<Entry>) {
    |entries| == |col| && forall t :: 0 <= t < |col| ==> entries[t] == Entry(col[t], t)
  }

  /** The entries of a column, sorted: a prefix of them is a top set. */
  lemma PrefixIsTop(col: seq<Score>, entries: seq<Entry>, sorted: seq<Entry>, k: nat, top: set<nat>)
    requires IsEntries(col, entries) && Sorted(sorted, ByScore()) && multiset(sorted) == multiset(entries)
    requires k <= |sorted| && |top| == k
    requires forall t :: t in top <==> exists i :: 0 <= i < k && sorted[i].index == t
    ensures IsTop(col, top, k)
  {
    SortedEntries(col, entries, sorted);
    forall t, u | t in top && 0 <= u < |col| && u !in top ensures !Above(col[u], col[t]) {
      var i :| 0 <= i < k && sorted[i].index == t;
      assert entries[u] in sorted;
      var j :| 0 <= j < |sorted| && sorted[j] == entries[u];
      assert j >= k;
      assert !ByScore()(sorted[j], sorted[i]);
    }
  }

  /** Sorting leaves every entry in place of its own index, and no index twice. */
  lemma SortedEntries(col: seq<Score>, entries: seq<Entry>, sorted: seq<Entry>)
    requires IsEntries(col, entries) && multiset(sorted) == multiset(entries)
    ensures |sorted| == |col|
    ensures forall i :: 0 <= i < |sorted| ==> sorted[i].index < |col| && sorted[i].score == col[sorted[i].index]
    ensures forall i, j :: 0 <= i < j < |sorted| ==> sorted[i].index != sorted[j].index
    ensures forall e :: e in entries <==> e in sorted
  {
    PermutedDistinct(entries, sorted);
    assert |multiset(sorted)| == |multiset(entries)|;
    forall i | 0 <= i < |sorted| ensures sorted[i].index < |col| && sorted[i].score == col[sorted[i].index] {
      assert sorted[i] in sorted;
      assert sorted[i] in entries;
    }
  }

  method Entries(col: seq<Score>) returns (entries: seq<Entry>)
    ensures IsEntries(col, entries)
  {
    entries := [];
    for t := 0 to |col|
      invariant |entries| == t && forall u :: 0 <= u < t ==> entries[u] == Entry(col[u], u)
    {
      entries := entries + [Entry(col[t], t)];
    }
  }

  /** The frames of the first `i` sorted entries are boosted, no other. */
  ghost predicate BoostedSoFar(col: seq<Score>, out: seq<Score>, sorted: seq<Entry>, top: set<nat>, i: nat,
      delta: real) {
    && |top| == i <= |sorted| && BoostsTop(col, out, top, delta)
    && (forall t :: t in top <==> exists j :: 0 <= j < i && sorted[j].index == t)
  }

  lemma BoostStep(col: seq<Score>, out: seq<Score>, sorted: seq<Entry>, top: set<nat>, i: nat, delta: real)
    requires BoostedSoFar(col, out, sorted, top, i, delta) && i < |sorted| && sorted[i].index < |col|
    requires forall a, b :: 0 <= a < b < |sorted| ==> sorted[a].index != sorted[b].index
    ensures var t := sorted[i].index;
            BoostedSoFar(col, out[t := Boosted(out[t], delta)], sorted, top + {t}, i + 1, delta)
  {
    var t := sorted[i].index;
    assert t !in top;
    hide Boosted;
    forall u ensures u in top + {t} <==> exists j :: 0 <= j < i + 1 && sorted[j].index == u {
      if u == t {
        assert sorted[i].index == u;
      }
    }
  }

  method Boost(col: seq<Score>, nBoost: nat, scale: real, lnHalf: real) returns (out: seq<Score>)
    ensures |out| == |col| && IsBoostedBy(col, out, nBoost, scale, lnHalf)
  {
    var entries := Entries(col);
    ByScoreIsOrder();
    var sorted := Sort(entries, ByScore());
    SortedEntries(col, entries, sorted);
    var k := Min(nBoost, |col|);
    var delta := scale * lnHalf;
    out := col;
    ghost var top: set<nat> := {};
    hide Above, ByScore, IsEntries, StrictWeakOrder, BoostedSoFar, Sorted, IsTop;
    assert BoostedSoFar(col, out, sorted, top, 0, delta) by {
      BoostStart(col, sorted, delta);
    }
    for i := 0 to k
      invariant |out| == |col| && BoostedSoFar(col, out, sorted, top, i, delta)
    {
      var t := sorted[i].index;
      BoostStep(col, out, sorted, top, i, delta);
      assert out[t := out[t]] == out;
      if out[t] != NegInf {
        out := out[t := Boosted(out[t], delta)];
      }
      top := top + {t};
    }
    BoostEnd(col, entries, sorted, out, k, top, delta);
  }

  lemma BoostStart(col: seq<Score>, sorted: seq<Entry>, delta: real)
    ensures BoostedSoFar(col, col, sorted, {}, 0, delta)
  {
  }

  lemma BoostEnd(col: seq<Score>, entries: seq<Entry>, sorted: seq<Entry>, out: seq<Score>, k: nat, top: set<nat>,
      delta: real)
    requires IsEntries(col, entries) && Sorted(sorted, ByScore()) && multiset(sorted) == multiset(entries)
    requires BoostedSoFar(col, out, sorted, top, k, delta)
    ensures IsBoost(col, out, k, delta)
  {
    PrefixIsTop(col, entries, sorted, k, top);
  }

  // ---------------------------------------------------------------------------
  // The best entries over all speakers
  // ---------------------------------------------------------------------------

  /** One column of `n` scores for each speaker. */
  predicate IsTable(cols: seq<seq<Score>>, n: nat) {
    && |cols| == SPEAKERS
    && forall s :: 0 <= s < SPEAKERS ==> |cols[s]| == n
  }

  /** Flat indices are speaker-major; every column is followed by three rows of silence. */
  function Speaker(j: nat, padded: nat): (s: nat)
    ensures s < SPEAKERS
  {
    if j < padded then 0 else if j < 2 * padded then 1 else if j < 3 * padded then 2 else 3
  }

  function Frame(j: nat, padded: nat): (t: nat)
    requires j < SPEAKERS * padded
    ensures t < padded && j == Speaker(j, padded) * padded + t
  {
    if j < padded then j
    else if j < 2 * padded then j - padded
    else if j < 3 * padded then j - 2 * padded
    else j - 3 * padded
  }

  lemma FrameIsRemainder(j: nat, padded: nat)
    requires j < SPEAKERS * padded
    ensures j % padded == Frame(j, padded)
  {
    DivMod(Speaker(j, padded), Frame(j, padded), padded);
  }

  function Padded(n: nat): nat { n + SILENCE_PER_SPEAKER }

  function FlatScore(cols: seq<seq<Score>>, n: nat, j: nat): Score
    requires IsTable(cols, n) && j < SPEAKERS * Padded(n)
  {
    var t := Frame(j, Padded(n));
    if t < n then cols[Speaker(j, Padded(n))][t] else PosInf
  }

  function FlatScores(cols: seq<seq<Score>>, n: nat): (r: seq<Score>)
    requires IsTable(cols, n)
    ensures |r| == SPEAKERS * Padded(n) && forall j :: 0 <= j < |r| ==> r[j] == FlatScore(cols, n, j)
  {
    seq(SPEAKERS * Padded(n), j requires 0 <= j < SPEAKERS * Padded(n) => FlatScore(cols, n, j))
  }

  method Flatten(cols: seq<seq<Score>>, n: nat) returns (flat: seq<Entry>)
    requires IsTable(cols, n)
    ensures IsEntries(FlatScores(cols, n), flat)
  {
    flat := [];
    for s := 0 to SPEAKERS
      invariant |flat| == s * Padded(n)
      invariant forall j :: 0 <= j < |flat| ==> flat[j] == Entry(FlatScore(cols, n, j), j)
    {
      for t := 0 to Padded(n)
        invariant |flat| == s * Padded(n) + t
        invariant forall j :: 0 <= j < |flat| ==> flat[j] == Entry(FlatScore(cols, n, j), j)
      {
        flat := flat + [Entry(if t < n then cols[s][t] else PosInf, s * Padded(n) + t)];
      }
    }
  }

  /** The picks are in ascending order, CACHE_LEN of them; an index is picked at most once, MAX_INDEX
      stands for an unused place; nothing left out scores above anything picked, and places stay unused
      only if everything left out is disabled. */
  ghost predicate IsSelection(flat: seq<Score>, picks: seq<nat>) {
    && |picks| == CACHE_LEN
    && (forall i, j :: 0 <= i < j < |picks| ==> picks[i] <= picks[j])
    && (forall i, j :: 0 <= i < j < |picks| && picks[i] == picks[j] ==> picks[i] == MAX_INDEX)
    && (forall i :: 0 <= i < |picks| && picks[i] != MAX_INDEX ==> picks[i] < |flat| && flat[picks[i]] != NegInf)
    && (forall i, j :: 0 <= i < |picks| && 0 <= j < |flat| && j !in picks ==>
          flat[j] == NegInf || (picks[i] != MAX_INDEX && !Above(flat[j], flat[picks[i]])))
  }

  /** The first entries of the sorted list, disabled ones replaced by MAX_INDEX. */
  ghost predicate IsPrefix(sorted: seq<Entry>, topk: seq<nat>) {
    && |topk| <= |sorted|
    && forall i :: 0 <= i < |topk| ==> topk[i] == if sorted[i].score == NegInf then MAX_INDEX else sorted[i].index
  }

  lemma PrefixHasIndex(sorted: seq<Entry>, topk: seq<nat>, m: nat)
    requires IsPrefix(sorted, topk)
    ensures m < |topk| && sorted[m].score != NegInf ==> sorted[m].index in topk
  {
    if m < |topk| && sorted[m].score != NegInf {
      assert topk[m] == sorted[m].index;
    }
  }

  lemma PrefixIsSelected(flat: seq<Score>, entries: seq<Entry>, sorted: seq<Entry>, topk: seq<nat>)
    requires IsEntries(flat, entries) && Sorted(sorted, ByScore()) && multiset(sorted) == multiset(entries)
    requires CACHE_LEN == |topk| <= |flat| < MAX_INDEX && IsPrefix(sorted, topk)
    ensures forall i, j :: 0 <= i < j < |topk| && topk[i] == topk[j] ==> topk[i] == MAX_INDEX
    ensures forall i :: 0 <= i < |topk| && topk[i] != MAX_INDEX ==> topk[i] < |flat| && flat[topk[i]] != NegInf
    ensures forall i, j :: 0 <= i < |topk| && 0 <= j < |flat| && j !in topk ==>
              flat[j] == NegInf || (topk[i] != MAX_INDEX && !Above(flat[j], flat[topk[i]]))
  {
    SortedEntries(flat, entries, sorted);
    forall i, j | 0 <= i < |topk| && 0 <= j < |flat| && j !in topk && flat[j] != NegInf
      ensures topk[i] != MAX_INDEX && !Above(flat[j], flat[topk[i]])
    {
      assert entries[j] in sorted;
      var m :| 0 <= m < |sorted| && sorted[m] == entries[j];
      PrefixHasIndex(sorted, topk, m);
      assert !ByScore()(sorted[m], sorted[i]);
    }
  }

  function Ascending(): (nat, nat) -> bool {
    (a: nat, b: nat) => a < b
  }

  /** A selection does not depend on the order of the places, apart from being sorted. */
  lemma SortedSelection(flat: seq<Score>, topk: seq<nat>, picks: seq<nat>)
    requires |topk| == CACHE_LEN && multiset(picks) == multiset(topk) && Sorted(picks, Ascending())
    requires forall i, j :: 0 <= i < j < |topk| && topk[i] == topk[j] ==> topk[i] == MAX_INDEX
    requires forall i :: 0 <= i < |topk| && topk[i] != MAX_INDEX ==> topk[i] < |flat| && flat[topk[i]] != NegInf
    requires forall i, j :: 0 <= i < |topk| && 0 <= j < |flat| && j !in topk ==>
               flat[j] == NegInf || (topk[i] != MAX_INDEX && !Above(flat[j], flat[topk[i]]))
    ensures IsSelection(flat, picks)
  {
    assert |multiset(picks)| == |multiset(topk)|;
    forall x ensures x in picks <==> x in topk {
      assert x in picks <==> x in multiset(picks);
      assert x in topk <==> x in multiset(topk);
    }
    forall i, j | 0 <= i < j < |picks| ensures picks[i] <= picks[j] {
      assert !Ascending()(picks[j], picks[i]);
    }
    forall i, j | 0 <= i < j < |picks| && picks[i] == picks[j] ensures picks[i] == MAX_INDEX {
      if picks[i] != MAX_INDEX {
        DoubleCount(picks, i, j);
        SingleCount(topk, picks[i]);
      }
    }
    forall i | 0 <= i < |picks| ensures exists m :: 0 <= m < |topk| && topk[m] == picks[i] {
      assert picks[i] in picks;
      assert picks[i] in topk;
    }
  }

  lemma {:induction false} SingleCount(s: seq<nat>, x: nat)
    requires forall i, j :: 0 <= i < j < |s| && s[i] == s[j] ==> s[i] != x
    ensures multiset(s)[x] <= 1
  {
    if s != [] {
      var front, last := s[..|s| - 1], s[|s| - 1];
      assert s == front + [last];
      SingleCount(front, x);
      if x == last {
        assert x !in front;
      }
    }
  }

  lemma DoubleCount(s: seq<nat>, i: nat, j: nat)
    requires i < j < |s| && s[i] == s[j]
    ensures multiset(s)[s[i]] >= 2
  {
    assert s == s[..j] + s[j..];
    assert s[i] in s[..j] && s[j] in s[j..];
    assert multiset(s) == multiset(s[..j]) + multiset(s[j..]);
  }

  method SelectTop(cols: seq<seq<Score>>, n: nat) returns (picks: seq<nat>)
    requires IsTable(cols, n) && CACHE_LEN <= SPEAKERS * Padded(n) < MAX_INDEX
    ensures IsSelection(FlatScores(cols, n), picks)
  {
    hide IsSelection, Above, FlatScore, Ascending, ByScore;
    var flat := Flatten(cols, n);
    ByScoreIsOrder();
    var sorted := Sort(flat, ByScore());
    SortedEntries(FlatScores(cols, n), flat, sorted);
    var topk: seq<nat> := [];
    for i := 0 to CACHE_LEN
      invariant |topk| == i && IsPrefix(sorted, topk)
    {
      topk := topk + [if sorted[i].score == NegInf then MAX_INDEX else sorted[i].index];
    }
    PrefixIsSelected(FlatScores(cols, n), flat, sorted, topk);
    AscendingIsOrder();
    picks := Sort(topk, Ascending());
    SortedSelection(FlatScores(cols, n), topk, picks);
  }

  lemma AscendingIsOrder()
    ensures StrictWeakOrder(Ascending())
  {
  }

  // ---------------------------------------------------------------------------
  // Compression
  // ---------------------------------------------------------------------------

  /** The final scores of speaker `s`: disabled, then boosted strongly, then weakly. */
  ghost predicate IsScored(ln: real -> real, preds: seq<Preds>, s: nat, col: seq<Score>) {
    exists base, strong ::
      && IsBase(preds, RawRows(ln, preds), s, base)
      && IsBoostedBy(base, strong, STRONG, 2.0, ln(0.5))
      && IsBoostedBy(strong, col, WEAK, 1.0, ln(0.5))
  }

  /** Boosting neither enables nor disables a frame: it counts exactly if its speaker speaks in it and
      it was not dropped for a low score. */
  lemma EnabledIff(ln: real -> real, preds: seq<Preds>, s: nat, col: seq<Score>, t: nat)
    requires s < SPEAKERS && IsScored(ln, preds, s, col) && t < |preds|
    ensures |col| == |preds| && !col[t].PosInf?
    ensures col[t].Fin? <==>
              && preds[t][s] > 0.5
              && (RawScore(ln, preds[t], s) > 0.0 || Positives(RawRows(ln, preds), s) < MIN_POSITIVE)
  {
    hide RawScore, Positives, IsTop;
  }

  /** The frames in which a speaker is more likely alone than not. */
  function FramesAlone(preds: seq<Preds>, s: nat): nat
    requires s < SPEAKERS
  {
    if preds == [] then 0
    else FramesAlone(preds[..|preds| - 1], s) + if Alone(preds[|preds| - 1], s) > 0.5 then 1 else 0
  }

  lemma {:induction false} PositivesMeans(ln: real -> real, preds: seq<Preds>, s: nat)
    requires IsLog(ln) && s < SPEAKERS
    ensures Positives(RawRows(ln, preds), s) == FramesAlone(preds, s)
  {
    hide Alone, RawScore, IsLog;
    if preds != [] {
      var n := |preds| - 1;
      PositivesMeans(ln, preds[..n], s);
      ScoreMeans(ln, preds[n], s, preds[n], s);
      assert RawRows(ln, preds)[..n] == RawRows(ln, preds[..n]);
    }
  }

  /** In terms of the predictions: a frame counts for a speaker exactly if the speaker speaks in it and is
      alone in it, or alone in too few frames to be choosy. */
  lemma EnabledMeans(ln: real -> real, preds: seq<Preds>, s: nat, col: seq<Score>, t: nat)
    requires IsLog(ln) && s < SPEAKERS && IsScored(ln, preds, s, col) && t < |preds|
    ensures |col| == |preds|
    ensures col[t].Fin? <==>
              preds[t][s] > 0.5 && (Alone(preds[t], s) > 0.5 || FramesAlone(preds, s) < MIN_POSITIVE)
  {
    hide IsScored, IsLog, Alone, RawScore, Positives, FramesAlone;
    EnabledIff(ln, preds, s, col, t);
    ScoreMeans(ln, preds[t], s, preds[t], s);
    PositivesMeans(ln, preds, s);
  }

  ghost predicate AllScored(ln: real -> real, preds: seq<Preds>, cols: seq<seq<Score>>) {
    && IsTable(cols, |preds|)
    && forall s :: 0 <= s < SPEAKERS ==> IsScored(ln, preds, s, cols[s])
  }

  /** The place holds silence instead of an old frame. */
  predicate IsSilence(pick: nat, n: nat) {
    pick == MAX_INDEX || pick % Padded(n) >= n
  }

  ghost predicate IsGathered(embs: seq<Embedding>, preds: seq<Preds>, mean: Embedding, picks: seq<nat>,
                             newEmbs: seq<Embedding>, newPreds: seq<Preds>)
  {
    && |embs| == |preds| && |newEmbs| == |newPreds| == |picks|
    && forall i :: 0 <= i < |picks| ==>
         var t := picks[i] % Padded(|embs|);
         if IsSilence(picks[i], |embs|) then newEmbs[i] == mean && newPreds[i] == NO_SPEECH
         else newEmbs[i] == embs[t] && newPreds[i] == preds[t]
  }

  ghost predicate IsCompression(ln: real -> real, embs: seq<Embedding>, preds: seq<Preds>, mean: Embedding,
                                cols: seq<seq<Score>>, picks: seq<nat>, newEmbs: seq<Embedding>, newPreds: seq<Preds>)
  {
    && AllScored(ln, preds, cols)
    && IsSelection(FlatScores(cols, |preds|), picks)
    && IsGathered(embs, preds, mean, picks, newEmbs, newPreds)
  }

  method Scores(ln: real -> real, preds: seq<Preds>) returns (cols: seq<seq<Score>>)
    ensures AllScored(ln, preds, cols)
  {
    hide IsBase, IsBoostedBy, RawRows;
    var raw := LogPredScores(ln, preds);
    cols := [];
    for s := 0 to SPEAKERS
      invariant |cols| == s
      invariant forall k :: 0 <= k < s ==> |cols[k]| == |preds| && IsScored(ln, preds, k, cols[k])
    {
      var base := DisableLowScores(preds, raw, s);
      var strong := Boost(base, STRONG, 2.0, ln(0.5));
      var weak := Boost(strong, WEAK, 1.0, ln(0.5));
      cols := cols + [weak];
    }
  }

  method Gather(embs: seq<Embedding>, preds: seq<Preds>, mean: Embedding, picks: seq<nat>)
    returns (newEmbs: seq<Embedding>, newPreds: seq<Preds>)
    requires |embs| == |preds|
    ensures IsGathered(embs, preds, mean, picks, newEmbs, newPreds)
  {
    newEmbs, newPreds := [], [];
    for i := 0 to |picks|
      invariant IsGathered(embs, preds, mean, picks[..i], newEmbs, newPreds)
    {
      if IsSilence(picks[i], |embs|) {
        newEmbs, newPreds := newEmbs + [mean], newPreds + [NO_SPEECH];
      } else {
        var t := picks[i] % Padded(|embs|);
        newEmbs, newPreds := newEmbs + [embs[t]], newPreds + [preds[t]];
      }
    }
    assert picks[..|picks|] == picks;
  }

  method Compress(ln: real -> real, embs: seq<Embedding>, preds: seq<Preds>, mean: Embedding)
    returns (newEmbs: seq<Embedding>, newPreds: seq<Preds>, ghost cols: seq<seq<Score>>, ghost picks: seq<nat>)
    requires |embs| == |preds| > CACHE_LEN && SPEAKERS * Padded(|embs|) < MAX_INDEX
    ensures |newEmbs| == |newPreds| == CACHE_LEN
    ensures IsCompression(ln, embs, preds, mean, cols, picks, newEmbs, newPreds)
  {
    var table := Scores(ln, preds);
    var chosen := SelectTop(table, |preds|);
    newEmbs, newPreds := Gather(embs, preds, mean, chosen);
    cols, picks := table, chosen;
  }

  /** Every row of the new cache is the silence mean without speech, or the embedding and the
      predictions of one old frame in which somebody speaks. */
  lemma RowsAreSilenceOrSpeech(ln: real -> real, embs: seq<Embedding>, preds: seq<Preds>, mean: Embedding,
                               cols: seq<seq<Score>>, picks: seq<nat>, newEmbs: seq<Embedding>, newPreds: seq<Preds>,
                               i: nat)
    requires IsCompression(ln, embs, preds, mean, cols, picks, newEmbs, newPreds) && i < CACHE_LEN
    ensures |newEmbs| == |newPreds| == CACHE_LEN
    ensures (newEmbs[i] == mean && newPreds[i] == NO_SPEECH)
            || exists t, s :: 0 <= t < |embs| && 0 <= s < SPEAKERS
                              && newEmbs[i] == embs[t] && newPreds[i] == preds[t] && preds[t][s] > 0.5
  {
    hide IsScored;
    if !IsSilence(picks[i], |embs|) {
      var padded := Padded(|embs|);
      FrameIsRemainder(picks[i], padded);
      var s, t := Speaker(picks[i], padded), Frame(picks[i], padded);
      assert FlatScores(cols, |preds|)[picks[i]] == cols[s][t];
      EnabledIff(ln, preds, s, cols[s], t);
      assert preds[t][s] > 0.5;
    }
  }

  /** Nothing that counts is lost as long as it fits. */
  lemma AllKeptIfTheyFit(flat: seq<Score>, picks: seq<nat>, enabled: set<nat>)
    requires |flat| < MAX_INDEX && IsSelection(flat, picks)
    requires forall j :: j in enabled <==> 0 <= j < |flat| && flat[j] != NegInf
    requires |enabled| <= CACHE_LEN
    ensures forall j :: j in enabled ==> j in picks
  {
    forall j | j in enabled ensures j in picks {
      if j !in picks {
        assert forall i :: 0 <= i < |picks| ==> picks[i] in enabled - {j};
        DistinctInSet(picks, enabled - {j});
      }
    }
  }

  // The silence rows

  lemma {:induction false} DistinctInSet(s: seq<nat>, members: set<nat>)
    requires Distinct(s) && forall i :: 0 <= i < |s| ==> s[i] in members
    ensures |s| <= |members|
  {
    if s != [] {
      var last := s[|s| - 1];
      DistinctInSet(s[..|s| - 1], members - {last});
    }
  }

  /** The flat indices of the appended rows. */
  function SilenceIndex(c: nat, n: nat): nat
    requires c < SPEAKERS * SILENCE_PER_SPEAKER
  {
    if c < 3 then n + c
    else if c < 6 then Padded(n) + n + (c - 3)
    else if c < 9 then 2 * Padded(n) + n + (c - 6)
    else 3 * Padded(n) + n + (c - 9)
  }

  function SilenceCode(j: nat, n: nat): nat
    requires j < SPEAKERS * Padded(n) && Frame(j, Padded(n)) >= n
  {
    3 * Speaker(j, Padded(n)) + Frame(j, Padded(n)) - n
  }

  lemma CodesInRange(js: seq<nat>, n: nat) returns (codes: seq<nat>)
    requires forall i :: 0 <= i < |js| ==> js[i] < SPEAKERS * Padded(n) && Frame(js[i], Padded(n)) >= n
    requires Distinct(js)
    ensures Distinct(codes) && |codes| == |js|
    ensures forall i :: 0 <= i < |codes| ==> codes[i] < SPEAKERS * SILENCE_PER_SPEAKER
  {
    codes := seq(|js|, i requires 0 <= i < |js| => SilenceCode(js[i], n));
  }

  lemma FewSilenceIndices(js: seq<nat>, n: nat)
    requires forall i :: 0 <= i < |js| ==> js[i] < SPEAKERS * Padded(n) && Frame(js[i], Padded(n)) >= n
    requires Distinct(js)
    ensures |js| <= SPEAKERS * SILENCE_PER_SPEAKER
  {
    var codes := CodesInRange(js, n);
    DistinctInSet(codes, {0, 1, 2, 3, 4, 5, 6, 7, 8, 9, 10, 11});
  }

  lemma OnlySilenceIsInfinite(ln: real -> real, preds: seq<Preds>, cols: seq<seq<Score>>, j: nat)
    requires AllScored(ln, preds, cols) && j < SPEAKERS * Padded(|preds|)
    ensures FlatScore(cols, |preds|, j) == PosInf <==> Frame(j, Padded(|preds|)) >= |preds|
  {
    hide IsScored;
    var s, t := Speaker(j, Padded(|preds|)), Frame(j, Padded(|preds|));
    if t < |preds| {
      EnabledIff(ln, preds, s, cols[s], t);
    }
  }

  lemma SilenceIndexIsInfinite(ln: real -> real, preds: seq<Preds>, cols: seq<seq<Score>>, c: nat)
    requires AllScored(ln, preds, cols) && c < SPEAKERS * SILENCE_PER_SPEAKER
    ensures var j := SilenceIndex(c, |preds|); j < SPEAKERS * Padded(|preds|) && FlatScore(cols, |preds|, j) == PosInf
  {
    hide IsScored;
    assert Frame(SilenceIndex(c, |preds|), Padded(|preds|)) >= |preds|;
  }

  lemma NothingAboveInfinity(flat: seq<Score>, picks: seq<nat>, j: nat)
    requires IsSelection(flat, picks) && j < |flat| && flat[j] == PosInf && j !in picks
    ensures forall i :: 0 <= i < |picks| ==> picks[i] < |flat| && flat[picks[i]] == PosInf
  {
    forall i | 0 <= i < |picks| ensures picks[i] < |flat| && flat[picks[i]] == PosInf {
      assert picks[i] != MAX_INDEX && !Above(flat[j], flat[picks[i]]);
    }
  }

  /** No score reaches that of silence, and there is room for all of it. */
  lemma SilenceIsPicked(ln: real -> real, preds: seq<Preds>, cols: seq<seq<Score>>, picks: seq<nat>, c: nat)
    requires AllScored(ln, preds, cols) && IsSelection(FlatScores(cols, |preds|), picks)
    requires c < SPEAKERS * SILENCE_PER_SPEAKER
    ensures SilenceIndex(c, |preds|) in picks
  {
    var n, j := |preds|, SilenceIndex(c, |preds|);
    var flat := FlatScores(cols, n);
    SilenceIndexIsInfinite(ln, preds, cols, c);
    assert AllScored(ln, preds, cols);
    hide IsScored, FlatScore, FlatScores, Frame, Speaker, SilenceIndex, IsTable;
    if j !in picks {
      NothingAboveInfinity(flat, picks, j);
      forall i | 0 <= i < |picks| ensures picks[i] < |flat| && Frame(picks[i], Padded(n)) >= n {
        OnlySilenceIsInfinite(ln, preds, cols, picks[i]);
      }
      FewSilenceIndices(picks, n);
    }
  }

  ghost function SilenceRows(picks: seq<nat>, n: nat): set<nat> {
    set i | 0 <= i < |picks| && IsSilence(picks[i], n)
  }

  lemma {:induction false} SilencePositions(ln: real -> real, preds: seq<Preds>, cols: seq<seq<Score>>,
      picks: seq<nat>, k: nat)
    returns (places: seq<nat>)
    requires AllScored(ln, preds, cols) && IsSelection(FlatScores(cols, |preds|), picks)
    requires k <= SPEAKERS * SILENCE_PER_SPEAKER
    ensures |places| == k
    ensures forall c :: 0 <= c < k ==> places[c] < |picks| && picks[places[c]] == SilenceIndex(c, |preds|)
    decreases k
  {
    hide IsScored, IsSelection, IsTable, FlatScores;
    if k == 0 {
      places := [];
    } else {
      places := SilencePositions(ln, preds, cols, picks, k - 1);
      SilenceIsPicked(ln, preds, cols, picks, k - 1);
      var i :| 0 <= i < |picks| && picks[i] == SilenceIndex(k - 1, |preds|);
      places := places + [i];
    }
  }

  /** At least three rows for each speaker are silence. */
  lemma SilenceIsKept(ln: real -> real, embs: seq<Embedding>, preds: seq<Preds>, mean: Embedding,
                      cols: seq<seq<Score>>, picks: seq<nat>, newEmbs: seq<Embedding>, newPreds: seq<Preds>)
    requires IsCompression(ln, embs, preds, mean, cols, picks, newEmbs, newPreds)
    ensures |SilenceRows(picks, |embs|)| >= SPEAKERS * SILENCE_PER_SPEAKER
    ensures forall i :: i in SilenceRows(picks, |embs|) ==>
              i < |newEmbs| == |newPreds| && newEmbs[i] == mean && newPreds[i] == NO_SPEECH
  {
    var n := |preds|;
    var places := SilencePositions(ln, preds, cols, picks, SPEAKERS * SILENCE_PER_SPEAKER);
    hide IsScored;
    forall c | 0 <= c < |places| ensures places[c] in SilenceRows(picks, n) {
      SilenceIndexIsSilence(c, n);
    }
    DistinctInSet(places, SilenceRows(picks, n));
  }

  lemma SilenceIndexIsSilence(c: nat, n: nat)
    requires c < SPEAKERS * SILENCE_PER_SPEAKER
    ensures IsSilence(SilenceIndex(c, n), n)
  {
    FrameIsRemainder(SilenceIndex(c, n), Padded(n));
  }
}
