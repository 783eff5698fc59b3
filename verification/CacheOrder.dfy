/** What the boosts of the cache compression do to the frames of a speaker: better ones stay ahead, the best
    ones are raised, and only ties at the end of a quota are broken. */
module CacheOrder {
  import opened Arithmetic
  import opened CacheCompression

  // ---------------------------------------------------------------------------
  // Finite sets
  // ---------------------------------------------------------------------------

  lemma {:induction false} SubsetSize(a: set<nat>, b: set<nat>)
    requires a <= b
    ensures |a| <= |b|
    ensures a != b ==> |a| < |b|
  {
    assert b == a + (b - a);
    assert a != b ==> b - a != {};
  }

  lemma {:induction false} SubsetOfSize(s: set<nat>, n: nat) returns (r: set<nat>)
    requires n <= |s|
    ensures r <= s && |r| == n
    decreases |s|
  {
    if n == |s| {
      r := s;
    } else {
      var x :| x in s;
      r := SubsetOfSize(s - {x}, n);
    }
  }

  // ---------------------------------------------------------------------------
  // One boost
  // ---------------------------------------------------------------------------

  ghost function Ahead(col: seq<Score>, t: nat): set<nat>
    requires t < |col|
  {
    set u: nat | u < |col| && Above(col[u], col[t])
  }

  ghost function Level(col: seq<Score>, t: nat): set<nat>
    requires t < |col|
  {
    set u: nat | u < |col| && col[u] == col[t]
  }

  /** The quota of `k` frames ends among those that score as much as frame `t`. */
  ghost predicate Splits(col: seq<Score>, t: nat, k: nat)
    requires t < |col|
  {
    |Ahead(col, t)| < k < |Ahead(col, t)| + |Level(col, t)|
  }

  /** A top set of `k` frames is raised by `gain`, nothing else changes. */
  ghost predicate IsRaisedTop(col: seq<Score>, out: seq<Score>, top: set<nat>, k: nat, gain: real) {
    && IsTop(col, top, k) && |out| == |col|
    && forall t :: 0 <= t < |col| ==>
         out[t] == if t in top && col[t].Fin? then Fin(col[t].value + gain) else col[t]
  }

  ghost predicate IsRaised(col: seq<Score>, out: seq<Score>, k: nat, gain: real) {
    exists top :: IsRaisedTop(col, out, top, k, gain)
  }

  /** A boost raises: the logarithm of one half is negative. */
  lemma BoostIsRaise(col: seq<Score>, out: seq<Score>, nBoost: nat, scale: real, lnHalf: real)
    ensures IsBoostedBy(col, out, nBoost, scale, lnHalf)
            <==> IsRaised(col, out, Min(nBoost, |col|), -(scale * lnHalf))
  {
    var k, delta := Min(nBoost, |col|), scale * lnHalf;
    hide IsTop;
    if IsBoostedBy(col, out, nBoost, scale, lnHalf) {
      var top: set<nat> :| IsTop(col, top, k) && BoostsTop(col, out, top, delta);
      assert IsRaisedTop(col, out, top, k, -delta);
    }
    if IsRaised(col, out, k, -delta) {
      var top :| IsRaisedTop(col, out, top, k, -delta);
      assert BoostsTop(col, out, top, delta);
      assert IsBoost(col, out, k, delta);
    }
  }

  lemma LevelAhead(col: seq<Score>, t: nat)
    requires t < |col|
    ensures t in Level(col, t) && Ahead(col, t) !! Level(col, t)
    ensures |Ahead(col, t) + Level(col, t)| == |Ahead(col, t)| + |Level(col, t)|
  {
  }

  /** Whether the frame is in a top set is certain unless the quota ends at its score. */
  lemma TopIsCertain(col: seq<Score>, top: set<nat>, k: nat, t: nat)
    requires IsTop(col, top, k) && t < |col|
    ensures |Ahead(col, t)| >= k ==> t !in top
    ensures |Ahead(col, t)| + |Level(col, t)| <= k ==> t in top
  {
    LevelAhead(col, t);
    if t in top {
      SubsetSize(Ahead(col, t) + {t}, top);
    } else {
      var good := Ahead(col, t) + Level(col, t);
      forall x | x in top ensures x in good {
        assert !Above(col[t], col[x]);
      }
      SubsetSize(top, good - {t});
    }
  }

  /** Frames that score more stay ahead, whatever the ties. */
  lemma RaiseKeepsOrder(col: seq<Score>, out: seq<Score>, k: nat, gain: real, t: nat, u: nat)
    requires IsRaised(col, out, k, gain) && gain > 0.0 && t < |col| && u < |col| && Above(col[t], col[u])
    ensures Above(out[t], out[u])
  {
    var top :| IsRaisedTop(col, out, top, k, gain);
    assert u in top ==> t in top;
  }

  lemma SameLevel(col: seq<Score>, t: nat, u: nat)
    requires t < |col| && u < |col| && col[u] == col[t]
    ensures Ahead(col, u) == Ahead(col, t) && Level(col, u) == Level(col, t)
  {
  }

  /** Frames of one score are treated alike unless the quota ends among them. */
  lemma TieStays(col: seq<Score>, out: seq<Score>, k: nat, gain: real, t: nat, u: nat)
    requires IsRaised(col, out, k, gain) && t < |col| && u < |col| && col[u] == col[t] && !Splits(col, t, k)
    ensures out[u] == out[t]
  {
    var top :| IsRaisedTop(col, out, top, k, gain);
    SameLevel(col, t, u);
    TopIsCertain(col, top, k, t);
    TopIsCertain(col, top, k, u);
  }

  /** How far a frame is raised, unless the quota ends at its score. */
  lemma RaisedBy(col: seq<Score>, out: seq<Score>, k: nat, gain: real, t: nat)
    requires IsRaised(col, out, k, gain) && t < |col| && col[t].Fin?
    ensures out[t] == col[t] || out[t] == Fin(col[t].value + gain)
    ensures |Ahead(col, t)| >= k ==> out[t] == col[t]
    ensures |Ahead(col, t)| + |Level(col, t)| <= k ==> out[t] == Fin(col[t].value + gain)
  {
    var top :| IsRaisedTop(col, out, top, k, gain);
    TopIsCertain(col, top, k, t);
  }

  /** Then the frame has the same frames ahead of it and level with it afterwards. */
  lemma PlaceStays(col: seq<Score>, out: seq<Score>, k: nat, gain: real, t: nat)
    requires IsRaised(col, out, k, gain) && gain > 0.0 && t < |col| && !Splits(col, t, k)
    ensures |out| == |col| && Ahead(out, t) == Ahead(col, t) && Level(out, t) == Level(col, t)
  {
    forall x: nat | x < |col|
      ensures Above(out[x], out[t]) <==> Above(col[x], col[t])
      ensures out[x] == out[t] <==> col[x] == col[t]
    {
      if col[x] == col[t] {
        TieStays(col, out, k, gain, t, x);
      } else if Above(col[x], col[t]) {
        RaiseKeepsOrder(col, out, k, gain, x, t);
      } else {
        RaiseKeepsOrder(col, out, k, gain, t, x);
      }
    }
  }

  function Raise(col: seq<Score>, top: set<nat>, gain: real): (out: seq<Score>)
    ensures |out| == |col|
    ensures forall t :: 0 <= t < |col| ==>
              out[t] == if t in top && col[t].Fin? then Fin(col[t].value + gain) else col[t]
  {
    seq(|col|, t requires 0 <= t < |col| => if t in top && col[t].Fin? then Fin(col[t].value + gain) else col[t])
  }

  /** If the quota ends among them, the frame loses against any other of its score in some boost. */
  lemma TieCanBreak(col: seq<Score>, k: nat, gain: real, t: nat, u: nat) returns (out: seq<Score>)
    requires t < |col| && u < |col| && u != t && col[u] == col[t] && col[t].Fin? && Splits(col, t, k) && gain > 0.0
    ensures IsRaised(col, out, k, gain) && Above(out[u], out[t])
  {
    var top := BrokenTie(Ahead(col, t), Level(col, t), k, t, u);
    CutIsTop(col, top, k, t);
    out := Raise(col, top, gain);
    assert IsRaisedTop(col, out, top, k, gain);
  }

  lemma BrokenTie(ahead: set<nat>, level: set<nat>, k: nat, t: nat, u: nat) returns (top: set<nat>)
    requires ahead !! level && t in level && u in level && t != u && |ahead| < k < |ahead| + |level|
    ensures |top| == k && ahead <= top <= ahead + level && u in top && t !in top
  {
    var rest := level - {t, u};
    assert level == rest + {t} + {u};
    var some := SubsetOfSize(rest, k - |ahead| - 1);
    var chosen := {u} + some;
    assert |chosen| == k - |ahead| && chosen !! ahead;
    top := ahead + chosen;
  }

  /** All that is ahead and some of what is level is a top set. */
  lemma CutIsTop(col: seq<Score>, top: set<nat>, k: nat, t: nat)
    requires t < |col| && |top| == k && Ahead(col, t) <= top <= Ahead(col, t) + Level(col, t)
    ensures IsTop(col, top, k)
  {
    forall x, u | x in top && 0 <= u < |col| && u !in top ensures !Above(col[u], col[x]) {
      assert u !in Ahead(col, t);
      assert x in Ahead(col, t) || x in Level(col, t);
    }
  }

  /** A frame outside that nobody else outside is above. */
  lemma {:induction false} BestOutside(col: seq<Score>, top: set<nat>, n: nat) returns (best: nat)
    requires n <= |col| && exists x :: 0 <= x < n && x !in top
    ensures best < n && best !in top
    ensures forall x :: 0 <= x < n && x !in top ==> !Above(col[x], col[best])
  {
    if x: nat :| x < n - 1 && x !in top {
      best := BestOutside(col, top, n - 1);
      if n - 1 !in top && Above(col[n - 1], col[best]) {
        best := n - 1;
      }
    } else {
      best := n - 1;
    }
  }

  lemma {:induction false} SomeTop(col: seq<Score>, k: nat) returns (top: set<nat>)
    requires k <= |col|
    ensures IsTop(col, top, k)
  {
    if k == 0 {
      top := {};
    } else {
      var smaller := SomeTop(col, k - 1);
      SomeOutside(smaller, |col|);
      var best := BestOutside(col, smaller, |col|);
      top := smaller + {best};
    }
  }

  ghost function FirstNumbers(n: nat): (r: set<nat>)
    ensures |r| == n && forall x: nat :: x in r <==> x < n
  {
    if n == 0 then {} else FirstNumbers(n - 1) + {n - 1}
  }

  lemma SomeOutside(top: set<nat>, n: nat)
    requires |top| < n
    ensures exists x :: 0 <= x < n && x !in top
  {
    if forall x :: 0 <= x < n ==> x in top {
      SubsetSize(FirstNumbers(n), top);
    }
  }

  /** There is always some boost. */
  lemma SomeRaise(col: seq<Score>, k: nat, gain: real) returns (out: seq<Score>)
    requires k <= |col|
    ensures IsRaised(col, out, k, gain)
  {
    var top := SomeTop(col, k);
    out := Raise(col, top, gain);
    assert IsRaisedTop(col, out, top, k, gain);
  }

  // ---------------------------------------------------------------------------
  // Both boosts of a column
  // ---------------------------------------------------------------------------

  /** Strongly, then weakly boosted. */
  ghost predicate IsTwiceRaised(base: seq<Score>, col: seq<Score>, strong: nat, weak: nat, gain: real) {
    exists mid :: IsRaised(base, mid, strong, 2.0 * gain) && IsRaised(mid, col, weak, gain)
  }

  lemma OrderStays(base: seq<Score>, col: seq<Score>, strong: nat, weak: nat, gain: real, t: nat, u: nat)
    requires IsTwiceRaised(base, col, strong, weak, gain) && gain > 0.0
    requires t < |base| && u < |base| && Above(base[t], base[u])
    ensures |col| == |base| && Above(col[t], col[u])
  {
    hide IsTop;
    var mid :| IsRaised(base, mid, strong, 2.0 * gain) && IsRaised(mid, col, weak, gain);
    RaiseKeepsOrder(base, mid, strong, 2.0 * gain, t, u);
    RaiseKeepsOrder(mid, col, weak, gain, t, u);
  }

  /** A tie is broken in some pair of boosts exactly if one of the two quotas ends in it. */
  lemma TieBreaksIff(base: seq<Score>, strong: nat, weak: nat, gain: real, t: nat, u: nat)
    requires t < |base| && u < |base| && t != u && base[u] == base[t] && base[t].Fin?
    requires strong <= |base| && weak <= |base| && gain > 0.0
    ensures (exists col :: |col| == |base| && IsTwiceRaised(base, col, strong, weak, gain) && Above(col[u], col[t]))
            <==> Splits(base, t, strong) || Splits(base, t, weak)
  {
    hide IsRaised, Splits;
    if Splits(base, t, strong) {
      var mid := TieCanBreak(base, strong, 2.0 * gain, t, u);
      RaisedLength(base, mid, strong, 2.0 * gain);
      var col := SomeRaise(mid, weak, gain);
      RaisedLength(mid, col, weak, gain);
      RaiseKeepsOrder(mid, col, weak, gain, u, t);
      assert IsTwiceRaised(base, col, strong, weak, gain);
    } else if Splits(base, t, weak) {
      var mid := SomeRaise(base, strong, 2.0 * gain);
      LevelAfterFirst(base, mid, strong, weak, gain, t, u);
      var col := TieCanBreak(mid, weak, gain, t, u);
      RaisedLength(mid, col, weak, gain);
      assert IsTwiceRaised(base, col, strong, weak, gain);
    } else if col :| |col| == |base| && IsTwiceRaised(base, col, strong, weak, gain) && Above(col[u], col[t]) {
      var mid :| IsRaised(base, mid, strong, 2.0 * gain) && IsRaised(mid, col, weak, gain);
      LevelAfterFirst(base, mid, strong, weak, gain, t, u);
      TieStays(mid, col, weak, gain, t, u);
    }
  }

  lemma RaisedLength(col: seq<Score>, out: seq<Score>, k: nat, gain: real)
    requires IsRaised(col, out, k, gain)
    ensures |out| == |col|
  {
  }

  lemma LevelAfterFirst(base: seq<Score>, mid: seq<Score>, strong: nat, weak: nat, gain: real, t: nat, u: nat)
    requires t < |base| && u < |base| && base[u] == base[t] && base[t].Fin?
    requires IsRaised(base, mid, strong, 2.0 * gain) && gain > 0.0 && !Splits(base, t, strong)
    ensures |mid| == |base| && mid[u] == mid[t] && mid[t].Fin?
    ensures Splits(mid, t, weak) <==> Splits(base, t, weak)
  {
    PlaceStays(base, mid, strong, 2.0 * gain, t);
    TieStays(base, mid, strong, 2.0 * gain, t, u);
    RaisedBy(base, mid, strong, 2.0 * gain, t);
  }

  /** How far a frame is raised by both boosts. */
  lemma RaisedTwiceBy(base: seq<Score>, col: seq<Score>, strong: nat, weak: nat, gain: real, t: nat)
    requires IsTwiceRaised(base, col, strong, weak, gain) && gain > 0.0 && strong <= weak
    requires t < |base| && base[t].Fin?
    ensures |col| == |base| && col[t].Fin?
    ensures base[t].value <= col[t].value <= base[t].value + 3.0 * gain
    ensures var ahead, reach := |Ahead(base, t)|, |Ahead(base, t)| + |Level(base, t)|;
            && (reach <= strong ==> col[t].value == base[t].value + 3.0 * gain)
            && (strong <= ahead && reach <= weak ==> col[t].value == base[t].value + gain)
            && (weak <= ahead ==> col[t] == base[t])
  {
    hide IsRaised, Ahead, Level;
    var mid :| IsRaised(base, mid, strong, 2.0 * gain) && IsRaised(mid, col, weak, gain);
    RaisedLength(base, mid, strong, 2.0 * gain);
    RaisedLength(mid, col, weak, gain);
    RaisedBy(base, mid, strong, 2.0 * gain, t);
    RaisedBy(mid, col, weak, gain, t);
    if !Splits(base, t, strong) {
      PlaceStays(base, mid, strong, 2.0 * gain, t);
    }
  }

  // ---------------------------------------------------------------------------
  // The scores of a speaker
  // ---------------------------------------------------------------------------

  /** The frame counts for speaker `s`. */
  predicate Counts(ln: real -> real, preds: seq<Preds>, s: nat, t: nat)
    requires s < SPEAKERS && t < |preds|
  {
    preds[t][s] > 0.5 && (RawScore(ln, preds[t], s) > 0.0 || Positives(RawRows(ln, preds), s) < MIN_POSITIVE)
  }

  /** The frames that count for the speaker with a higher raw score than frame `t`, and with the same. */
  ghost function Better(ln: real -> real, preds: seq<Preds>, s: nat, t: nat): set<nat>
    requires s < SPEAKERS && t < |preds|
  {
    set u: nat | u < |preds| && Counts(ln, preds, s, u) && RawScore(ln, preds[u], s) > RawScore(ln, preds[t], s)
  }

  ghost function AsGood(ln: real -> real, preds: seq<Preds>, s: nat, t: nat): set<nat>
    requires s < SPEAKERS && t < |preds|
  {
    set u: nat | u < |preds| && Counts(ln, preds, s, u) && RawScore(ln, preds[u], s) == RawScore(ln, preds[t], s)
  }

  ghost predicate QuotaEndsAt(ln: real -> real, preds: seq<Preds>, s: nat, t: nat, k: nat)
    requires s < SPEAKERS && t < |preds|
  {
    var better := |Better(ln, preds, s, t)|;
    better < k < better + |AsGood(ln, preds, s, t)|
  }

  /** The column before the boosts, in terms of the raw scores. */
  ghost predicate IsRawColumn(ln: real -> real, preds: seq<Preds>, s: nat, base: seq<Score>)
    requires s < SPEAKERS
  {
    && |base| == |preds|
    && forall t :: 0 <= t < |preds| ==>
         base[t] == if Counts(ln, preds, s, t) then Fin(RawScore(ln, preds[t], s)) else NegInf
  }

  lemma BaseIsRaw(ln: real -> real, preds: seq<Preds>, s: nat, base: seq<Score>)
    requires s < SPEAKERS
    ensures IsBase(preds, RawRows(ln, preds), s, base) <==> IsRawColumn(ln, preds, s, base)
  {
    hide RawScore, Positives;
    var raw := RawRows(ln, preds);
    assert forall t :: 0 <= t < |preds| ==> raw[t][s] == RawScore(ln, preds[t], s);
  }

  /** The scores of a speaker are the raw ones of the frames that count, boosted twice. */
  lemma ScoredIsRaised(ln: real -> real, preds: seq<Preds>, s: nat, base: seq<Score>, col: seq<Score>)
    requires s < SPEAKERS && IsRawColumn(ln, preds, s, base)
    ensures IsScored(ln, preds, s, col)
            <==> IsTwiceRaised(base, col, Min(STRONG, |preds|), Min(WEAK, |preds|), -ln(0.5))
  {
    hide IsBase, IsBoostedBy, IsRaised, IsRawColumn, RawScore, Counts;
    var n, gain := |preds|, -ln(0.5);
    BaseIsRaw(ln, preds, s, base);
    assert |base| == n by {
      RawColumnLength(ln, preds, s, base);
    }
    if IsScored(ln, preds, s, col) {
      var base', mid :| IsBase(preds, RawRows(ln, preds), s, base') && IsBoostedBy(base', mid, STRONG, 2.0, ln(0.5))
        && IsBoostedBy(mid, col, WEAK, 1.0, ln(0.5));
      BaseIsRaw(ln, preds, s, base');
      OneRawColumn(ln, preds, s, base, base');
      BoostIsRaise(base, mid, STRONG, 2.0, ln(0.5));
      BoostIsRaise(mid, col, WEAK, 1.0, ln(0.5));
      Doubled(ln(0.5));
      RaisedLength(base, mid, Min(STRONG, n), 2.0 * gain);
    }
    if IsTwiceRaised(base, col, Min(STRONG, n), Min(WEAK, n), gain) {
      var mid :| IsRaised(base, mid, Min(STRONG, n), 2.0 * gain) && IsRaised(mid, col, Min(WEAK, n), gain);
      RaisedLength(base, mid, Min(STRONG, n), 2.0 * gain);
      Doubled(ln(0.5));
      BoostIsRaise(base, mid, STRONG, 2.0, ln(0.5));
      BoostIsRaise(mid, col, WEAK, 1.0, ln(0.5));
      assert IsBase(preds, RawRows(ln, preds), s, base) && IsBoostedBy(base, mid, STRONG, 2.0, ln(0.5));
      assert IsBoostedBy(mid, col, WEAK, 1.0, ln(0.5));
    }
  }

  lemma Doubled(x: real)
    ensures -(2.0 * x) == 2.0 * -x && -(1.0 * x) == -x
  {
  }

  lemma RawColumnLength(ln: real -> real, preds: seq<Preds>, s: nat, base: seq<Score>)
    requires s < SPEAKERS && IsRawColumn(ln, preds, s, base)
    ensures |base| == |preds|
  {
  }

  lemma OneRawColumn(ln: real -> real, preds: seq<Preds>, s: nat, base: seq<Score>, base': seq<Score>)
    requires s < SPEAKERS && IsRawColumn(ln, preds, s, base) && IsRawColumn(ln, preds, s, base')
    ensures base == base'
  {
    hide Counts, RawScore;
  }

  ghost function RawColumn(ln: real -> real, preds: seq<Preds>, s: nat): (base: seq<Score>)
    requires s < SPEAKERS
    ensures IsRawColumn(ln, preds, s, base)
  {
    seq(|preds|, t requires 0 <= t < |preds| =>
      if Counts(ln, preds, s, t) then Fin(RawScore(ln, preds[t], s)) else NegInf)
  }

  lemma InRawColumn(ln: real -> real, preds: seq<Preds>, s: nat, base: seq<Score>, t: nat)
    requires s < SPEAKERS && IsRawColumn(ln, preds, s, base) && t < |preds| && Counts(ln, preds, s, t)
    ensures |base| == |preds| && base[t] == Fin(RawScore(ln, preds[t], s))
  {
  }

  lemma PlacesInColumn(ln: real -> real, preds: seq<Preds>, s: nat, base: seq<Score>, t: nat)
    requires s < SPEAKERS && IsRawColumn(ln, preds, s, base) && t < |preds| && Counts(ln, preds, s, t)
    ensures Ahead(base, t) == Better(ln, preds, s, t) && Level(base, t) == AsGood(ln, preds, s, t)
  {
    hide Counts, RawScore;
  }

  lemma HalfIsNegative(ln: real -> real)
    requires IsLog(ln)
    ensures ln(0.5) < 0.0
  {
    LogOne(ln);
  }

  /** For every logarithm: of two frames that count for a speaker, the one with the higher raw score has the
      higher score. */
  lemma BetterFramesStayAhead(ln: real -> real, preds: seq<Preds>, s: nat, col: seq<Score>, t: nat, u: nat)
    requires IsLog(ln) && s < SPEAKERS && IsScored(ln, preds, s, col) && t < |preds| && u < |preds|
    requires Counts(ln, preds, s, t) && Counts(ln, preds, s, u)
    requires RawScore(ln, preds[t], s) > RawScore(ln, preds[u], s)
    ensures |col| == |preds| && Above(col[t], col[u])
  {
    hide *;
    HalfIsNegative(ln);
    var base := RawColumn(ln, preds, s);
    InRawColumn(ln, preds, s, base, t);
    InRawColumn(ln, preds, s, base, u);
    ScoredIsRaised(ln, preds, s, base, col);
    HigherIsAbove(base[t], base[u]);
    OrderStays(base, col, Min(STRONG, |preds|), Min(WEAK, |preds|), -ln(0.5), t, u);
  }

  lemma HigherIsAbove(a: Score, b: Score)
    requires a.Fin? && b.Fin? && a.value > b.value
    ensures Above(a, b)
  {
  }

  /** For every logarithm: the score of a frame that counts is its raw one, and more by the amounts of the
      boosts whose quotas reach it. */
  lemma BestFramesAreRaised(ln: real -> real, preds: seq<Preds>, s: nat, col: seq<Score>, t: nat)
    requires IsLog(ln) && s < SPEAKERS && IsScored(ln, preds, s, col) && t < |preds| && Counts(ln, preds, s, t)
    ensures |col| == |preds| && col[t].Fin?
    ensures var raw, better := RawScore(ln, preds[t], s), |Better(ln, preds, s, t)|;
            var reach := better + |AsGood(ln, preds, s, t)|;
            && raw <= col[t].value <= raw - 3.0 * ln(0.5)
            && (reach <= STRONG ==> col[t].value == raw - 3.0 * ln(0.5))
            && (STRONG <= better && reach <= WEAK ==> col[t].value == raw - ln(0.5))
            && (WEAK <= better ==> col[t].value == raw)
  {
    hide *;
    HalfIsNegative(ln);
    var base := RawColumn(ln, preds, s);
    InRawColumn(ln, preds, s, base, t);
    ScoredIsRaised(ln, preds, s, base, col);
    PlacesInColumn(ln, preds, s, base, t);
    PlaceInFrames(ln, preds, s, t);
    Quotas(|preds|);
    RaisedTwiceBy(base, col, Min(STRONG, |preds|), Min(WEAK, |preds|), -ln(0.5), t);
  }

  lemma Quotas(n: nat)
    ensures STRONG <= WEAK && Min(STRONG, n) <= Min(WEAK, n) <= n
    ensures Min(STRONG, n) == STRONG || (Min(STRONG, n) == n && n < STRONG)
    ensures Min(WEAK, n) == WEAK || (Min(WEAK, n) == n && n < WEAK)
  {
  }

  lemma PlaceInFrames(ln: real -> real, preds: seq<Preds>, s: nat, t: nat)
    requires s < SPEAKERS && t < |preds| && Counts(ln, preds, s, t)
    ensures |Better(ln, preds, s, t)| + |AsGood(ln, preds, s, t)| <= |preds| && |AsGood(ln, preds, s, t)| > 0
  {
    hide Counts, RawScore;
    var better, asGood := Better(ln, preds, s, t), AsGood(ln, preds, s, t);
    SubsetSize(better + asGood, FirstNumbers(|preds|));
    assert t in asGood;
  }

  /** For every logarithm: a frame that counts never falls behind another one that does, whatever the sort does
      with ties, if and only if its raw score is higher, or it is as high and neither quota ends there. */
  lemma NeverBehindIff(ln: real -> real, preds: seq<Preds>, s: nat, t: nat, u: nat)
    requires IsLog(ln) && s < SPEAKERS && t < |preds| && u < |preds| && t != u
    requires Counts(ln, preds, s, t) && Counts(ln, preds, s, u)
    ensures (forall col :: IsScored(ln, preds, s, col) && |col| == |preds| ==> !Above(col[u], col[t]))
            <==> || RawScore(ln, preds[t], s) > RawScore(ln, preds[u], s)
                 || (&& RawScore(ln, preds[t], s) == RawScore(ln, preds[u], s)
                     && !QuotaEndsAt(ln, preds, s, t, STRONG) && !QuotaEndsAt(ln, preds, s, t, WEAK))
  {
    hide *;
    HalfIsNegative(ln);
    Quotas(|preds|);
    var base := RawColumn(ln, preds, s);
    var strong, weak, gain := Min(STRONG, |preds|), Min(WEAK, |preds|), -ln(0.5);
    InRawColumn(ln, preds, s, base, t);
    InRawColumn(ln, preds, s, base, u);
    forall col ensures IsScored(ln, preds, s, col) <==> IsTwiceRaised(base, col, strong, weak, gain) {
      ScoredIsRaised(ln, preds, s, base, col);
    }
    if RawScore(ln, preds[t], s) == RawScore(ln, preds[u], s) {
      TieBreaksIff(base, strong, weak, gain, t, u);
      QuotaIsSplit(ln, preds, s, base, t);
    } else if RawScore(ln, preds[t], s) > RawScore(ln, preds[u], s) {
      HigherIsAbove(base[t], base[u]);
      forall col | IsScored(ln, preds, s, col) && |col| == |preds| ensures !Above(col[u], col[t]) {
        OrderStays(base, col, strong, weak, gain, t, u);
        NotBoth(col[t], col[u]);
      }
    } else {
      var col := SomeScores(base, strong, weak, gain);
      HigherIsAbove(base[u], base[t]);
      OrderStays(base, col, strong, weak, gain, u, t);
    }
  }

  lemma NotBoth(a: Score, b: Score)
    requires Above(a, b)
    ensures !Above(b, a)
  {
  }

  lemma QuotaIsSplit(ln: real -> real, preds: seq<Preds>, s: nat, base: seq<Score>, t: nat)
    requires s < SPEAKERS && IsRawColumn(ln, preds, s, base) && t < |preds| && Counts(ln, preds, s, t)
    ensures Splits(base, t, Min(STRONG, |preds|)) <==> QuotaEndsAt(ln, preds, s, t, STRONG)
    ensures Splits(base, t, Min(WEAK, |preds|)) <==> QuotaEndsAt(ln, preds, s, t, WEAK)
  {
    PlacesInColumn(ln, preds, s, base, t);
    PlaceInFrames(ln, preds, s, t);
    hide Counts, RawScore, Ahead, Level, Better, AsGood;
  }

  lemma SomeScores(base: seq<Score>, strong: nat, weak: nat, gain: real) returns (col: seq<Score>)
    requires strong <= |base| && weak <= |base|
    ensures IsTwiceRaised(base, col, strong, weak, gain) && |col| == |base|
  {
    hide IsRaised;
    var mid := SomeRaise(base, strong, 2.0 * gain);
    RaisedLength(base, mid, strong, 2.0 * gain);
    col := SomeRaise(mid, weak, gain);
    RaisedLength(mid, col, weak, gain);
  }

  // ---------------------------------------------------------------------------
  // With four speakers
  // ---------------------------------------------------------------------------

  predicate AreProbabilities(preds: seq<Preds>) {
    forall t, s :: 0 <= t < |preds| && 0 <= s < SPEAKERS ==> 0.0 <= preds[t][s] <= 1.0
  }

  lemma AloneIsUnlikely(row: Preds, s: nat)
    requires s < SPEAKERS && forall k :: 0 <= k < SPEAKERS ==> row[k] <= 1.0
    ensures Alone(row, s) <= 27.0 / 64.0
  {
    hide Times, Silent;
    var others := OthersSilent(row, s, SPEAKERS);
    AtMostThreeQuarters(row, s);
    TimesMonotone(AtLeastThreshold(row[s]), 1.0, others, 27.0 / 64.0);
  }

  lemma TimesMonotone(a: real, a': real, b: real, b': real)
    requires 0.0 <= a <= a' && 0.0 <= b <= b'
    ensures Times(a, b) <= a' * b'
  {
    assert a * b <= a' * b;
    assert a' * b <= a' * b';
  }

  lemma {:induction false} OthersAtMost(row: Preds, s: nat, k: nat)
    requires k <= SPEAKERS && s < SPEAKERS && forall j :: 0 <= j < SPEAKERS ==> row[j] <= 1.0
    ensures OthersSilent(row, s, k) <= Quarters(if s < k then k - 1 else k)
  {
    if k > 0 {
      OthersAtMost(row, s, k - 1);
      var before := OthersSilent(row, s, k - 1);
      hide OthersSilent;
      if k - 1 == s {
        TimesMonotone(before, before, 1.0, 1.0);
      } else {
        TimesMonotone(before, Quarters(if s < k - 1 then k - 2 else k - 1), Silent(row[k - 1]), 0.75);
      }
    }
  }

  function Quarters(n: nat): real {
    if n == 0 then 1.0 else Quarters(n - 1) * 0.75
  }

  lemma AtMostThreeQuarters(row: Preds, s: nat)
    requires s < SPEAKERS && forall k :: 0 <= k < SPEAKERS ==> row[k] <= 1.0
    ensures OthersSilent(row, s, SPEAKERS) <= 27.0 / 64.0
  {
    OthersAtMost(row, s, SPEAKERS);
    hide OthersSilent;
    assert Quarters(3) == Quarters(0) * 0.75 * 0.75 * 0.75;
  }

  /** For every logarithm: with four speakers no score of probabilities is positive, so no frame is ever
      dropped for a low score: a frame counts exactly if its speaker speaks in it. */
  lemma LowScoresAreNeverDropped(ln: real -> real, preds: seq<Preds>, s: nat, t: nat)
    requires IsLog(ln) && s < SPEAKERS && t < |preds| && AreProbabilities(preds)
    ensures Counts(ln, preds, s, t) <==> preds[t][s] > 0.5
  {
    hide RawScore, Alone, IsLog;
    NoPositives(ln, preds, s);
  }

  lemma {:induction false} NoPositives(ln: real -> real, preds: seq<Preds>, s: nat)
    requires IsLog(ln) && s < SPEAKERS && AreProbabilities(preds)
    ensures Positives(RawRows(ln, preds), s) == 0
  {
    hide RawScore, Alone, IsLog;
    if preds != [] {
      var n := |preds| - 1;
      NoPositives(ln, preds[..n], s);
      AloneIsUnlikely(preds[n], s);
      ScoreMeans(ln, preds[n], s, preds[n], s);
      assert RawRows(ln, preds)[..n] == RawRows(ln, preds[..n]);
    }
  }

  const ONLY_FIRST: Preds := [1.0, 0.0, 0.0, 0.0]

  function Alike(n: nat): (preds: seq<Preds>)
    ensures |preds| == n && AreProbabilities(preds) && forall i :: 0 <= i < n ==> preds[i] == ONLY_FIRST
  {
    seq(n, i => ONLY_FIRST)
  }

  lemma AlikeTie(ln: real -> real, preds: seq<Preds>, t: nat)
    requires IsLog(ln) && preds == Alike(STRONG + 1) && t <= STRONG
    ensures QuotaEndsAt(ln, preds, 0, t, STRONG)
    ensures 0 < STRONG && forall i :: 0 <= i < |preds| ==> preds[i][0] > 0.5
  {
    hide RawScore, Counts, IsLog;
    forall i: nat | i < |preds| ensures Counts(ln, preds, 0, i) {
      LowScoresAreNeverDropped(ln, preds, 0, i);
    }
    assert Better(ln, preds, 0, t) == {};
    assert AsGood(ln, preds, 0, t) == FirstNumbers(|preds|);
  }

  /** One frame more than the strong quota, all alike: the sort can let any of them fall behind any other. */
  lemma TieCanLose(ln: real -> real, t: nat, u: nat) returns (preds: seq<Preds>, col: seq<Score>)
    requires IsLog(ln) && t <= STRONG && u <= STRONG && t != u
    ensures |preds| == |col| == STRONG + 1 && forall i :: 0 <= i < |preds| ==> preds[i] == ONLY_FIRST
    ensures IsScored(ln, preds, 0, col) && Above(col[u], col[t])
  {
    preds := Alike(STRONG + 1);
    AlikeTie(ln, preds, t);
    hide *;
    forall i: nat | i < |preds| ensures Counts(ln, preds, 0, i) {
      LowScoresAreNeverDropped(ln, preds, 0, i);
    }
    NeverBehindIff(ln, preds, 0, t, u);
    col :| IsScored(ln, preds, 0, col) && |col| == |preds| && Above(col[u], col[t]);
  }

  // ---------------------------------------------------------------------------
  // What the compressed cache holds
  // ---------------------------------------------------------------------------

  lemma PlaceOfEntry(s: nat, t: nat, padded: nat)
    requires s < SPEAKERS && t < padded
    ensures var j := s * padded + t;
            j < SPEAKERS * padded && Speaker(j, padded) == s && Frame(j, padded) == t && j % padded == t
  {
    DivMod(s, t, padded);
  }

  lemma FlatAt(cols: seq<seq<Score>>, n: nat, s: nat, t: nat)
    requires IsTable(cols, n) && s < SPEAKERS && t < n
    ensures var j := s * Padded(n) + t; j < |FlatScores(cols, n)| && FlatScores(cols, n)[j] == cols[s][t]
  {
    PlaceOfEntry(s, t, Padded(n));
    hide Frame, Speaker;
    assert FlatScores(cols, n)[s * Padded(n) + t] == FlatScore(cols, n, s * Padded(n) + t);
  }

  lemma AboveIsPicked(flat: seq<Score>, picks: seq<nat>, j: nat, better: nat)
    requires IsSelection(flat, picks) && j in picks && j < |flat| && better < |flat|
    requires Above(flat[better], flat[j])
    ensures better in picks
  {
    var i :| 0 <= i < |picks| && picks[i] == j;
  }

  lemma PickedIsKept(embs: seq<Embedding>, preds: seq<Preds>, mean: Embedding, picks: seq<nat>,
      newEmbs: seq<Embedding>, newPreds: seq<Preds>, s: nat, t: nat)
    requires IsGathered(embs, preds, mean, picks, newEmbs, newPreds) && SPEAKERS * Padded(|embs|) < MAX_INDEX
    requires s < SPEAKERS && t < |embs| && s * Padded(|embs|) + t in picks
    ensures exists i :: 0 <= i < |newEmbs| == |newPreds| && newEmbs[i] == embs[t] && newPreds[i] == preds[t]
  {
    PlaceOfEntry(s, t, Padded(|embs|));
    var i :| 0 <= i < |picks| && picks[i] == s * Padded(|embs|) + t;
    assert newEmbs[i] == embs[t] && newPreds[i] == preds[t];
  }

  lemma PartsOfCompression(ln: real -> real, embs: seq<Embedding>, preds: seq<Preds>, mean: Embedding,
      cols: seq<seq<Score>>, picks: seq<nat>, newEmbs: seq<Embedding>, newPreds: seq<Preds>, s: nat)
    requires IsCompression(ln, embs, preds, mean, cols, picks, newEmbs, newPreds) && s < SPEAKERS
    ensures |embs| == |preds| && IsTable(cols, |preds|) && |cols| == SPEAKERS && IsScored(ln, preds, s, cols[s])
    ensures IsSelection(FlatScores(cols, |preds|), picks)
    ensures IsGathered(embs, preds, mean, picks, newEmbs, newPreds)
  {
    hide IsScored, IsSelection;
  }

  /** If the compressed cache holds a frame for the sake of a speaker, it holds every frame in which the same
      speaker is more likely alone. */
  lemma BetterFramesAreKept(ln: real -> real, embs: seq<Embedding>, preds: seq<Preds>, mean: Embedding,
      cols: seq<seq<Score>>, picks: seq<nat>, newEmbs: seq<Embedding>, newPreds: seq<Preds>, s: nat, t: nat, u: nat)
    requires IsLog(ln) && IsCompression(ln, embs, preds, mean, cols, picks, newEmbs, newPreds)
    requires SPEAKERS * Padded(|embs|) < MAX_INDEX
    requires s < SPEAKERS && t < |preds| && u < |preds| && Counts(ln, preds, s, t) && Counts(ln, preds, s, u)
    requires Alone(preds[t], s) > Alone(preds[u], s) && s * Padded(|embs|) + u in picks
    ensures exists i :: 0 <= i < |newEmbs| == |newPreds| && newEmbs[i] == embs[t] && newPreds[i] == preds[t]
  {
    hide *;
    PartsOfCompression(ln, embs, preds, mean, cols, picks, newEmbs, newPreds, s);
    ScoreMeans(ln, preds[t], s, preds[u], s);
    BetterFramesStayAhead(ln, preds, s, cols[s], t, u);
    FlatAt(cols, |preds|, s, t);
    FlatAt(cols, |preds|, s, u);
    var first := s * Padded(|embs|);
    AboveIsPicked(FlatScores(cols, |preds|), picks, first + u, first + t);
    PickedIsKept(embs, preds, mean, picks, newEmbs, newPreds, s, t);
  }
}
