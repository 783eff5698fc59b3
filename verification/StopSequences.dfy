/** Searching a text for the earliest stop sequence.

    The two loops of llamacpp_stop_helpers.h are proved against `IsFirstStop`, and the
    word combinatorics behind the streaming filters is developed here once: what a bounded
    window may forget, and when the first stop of a prefix is the first stop of the whole.
 */
module StopSequences {
  import opened Sequences

  type Byte = x: int | 0 <= x < 256
  type Text = seq<Byte>

  /** The stop `s` occurs in `t` starting at offset `i`. */
  ghost predicate OccursAt(s: Text, t: Text, i: int) {
    0 <= i && i + |s| <= |t| && t[i..i + |s|] == s
  }

  /** Some stop of the list starts at offset `i`. */
  ghost predicate StopAt(stops: seq<Text>, t: Text, i: int) {
    exists k :: 0 <= k < |stops| && OccursAt(stops[k], t, i)
  }

  ghost predicate StopFree(stops: seq<Text>, t: Text) {
    forall i :: !StopAt(stops, t, i)
  }

  /** `p` is the offset at which the earliest stop of `t` starts. */
  ghost predicate IsFirstStop(stops: seq<Text>, t: Text, p: int) {
    StopAt(stops, t, p) && forall i :: i < p ==> !StopAt(stops, t, i)
  }

  ghost predicate NonEmptyStops(stops: seq<Text>) {
    forall k :: 0 <= k < |stops| ==> stops[k] != []
  }

  ghost predicate NoLongerThan(stops: seq<Text>, m: int) {
    forall k :: 0 <= k < |stops| ==> |stops[k]| <= m
  }

  /** The one-line specification of every streaming filter: `out` is `t` truncated at its
      earliest stop, or all of `t` when it has none. */
  ghost predicate IsTruncation(stops: seq<Text>, t: Text, out: Text) {
    || (StopFree(stops, t) && out == t)
    || (IsFirstStop(stops, t, |out|) && out <= t)
  }

  lemma Assoc(a: Text, b: Text, c: Text)
    ensures (a + b) + c == a + (b + c)
  {
  }

  lemma Cancel(a: Text, b: Text, c: Text)
    requires a + b == a + c
    ensures b == c
  {
    assert b == (a + b)[|a|..] && c == (a + c)[|a|..];
  }

  // ---------------------------------------------------------------------------
  // The search loops
  // ---------------------------------------------------------------------------

  /** std::string::find: the least offset at which `needle` occurs. */
  method Find(window: Text, needle: Text) returns (found: bool, pos: nat)
    ensures found ==> OccursAt(needle, window, pos) && forall i :: i < pos ==> !OccursAt(needle, window, i)
    ensures !found ==> forall i :: !OccursAt(needle, window, i)
  {
    pos := 0;
    while pos + |needle| <= |window|
      invariant forall i :: i < pos ==> !OccursAt(needle, window, i)
      decreases |window| - pos
    {
      if window[pos..pos + |needle|] == needle {
        return true, pos;
      }
      pos := pos + 1;
    }
    return false, 0;
  }

  /** find_first_stop_sequence: the running minimum over the stops is the earliest stop. */
  method FindFirstStopSequence(window: Text, stops: seq<Text>) returns (found: bool, earliest: nat)
    ensures found ==> IsFirstStop(stops, window, earliest)
    ensures !found ==> StopFree(stops, window)
  {
    found, earliest := false, 0;
    for k := 0 to |stops|
      invariant !found ==> forall j, i :: 0 <= j < k ==> !OccursAt(stops[j], window, i)
      invariant found ==> exists j :: 0 <= j < k && OccursAt(stops[j], window, earliest)
      invariant found ==> forall j, i :: 0 <= j < k && i < earliest ==> !OccursAt(stops[j], window, i)
    {
      var hit, pos := Find(window, stops[k]);
      if hit && (!found || pos < earliest) {
        found, earliest := true, pos;
      }
    }
  }

  /** max_stop_length: an upper bound of the stop lengths that is attained (0 for no stops). */
  method MaxStopLength(stops: seq<Text>) returns (m: nat)
    ensures NoLongerThan(stops, m)
    ensures m > 0 ==> exists k :: 0 <= k < |stops| && |stops[k]| == m
  {
    m := 0;
    for k := 0 to |stops|
      invariant forall j :: 0 <= j < k ==> |stops[j]| <= m
      invariant m > 0 ==> exists j :: 0 <= j < k && |stops[j]| == m
    {
      if |stops[k]| > m {
        m := |stops[k]|;
      }
    }
  }

  // ---------------------------------------------------------------------------
  // Occurrences in prefixes, suffixes and extensions
  // ---------------------------------------------------------------------------

  lemma OccursInExtension(s: Text, t: Text, more: Text, i: int)
    ensures OccursAt(s, t, i) ==> OccursAt(s, t + more, i)
    ensures OccursAt(s, t + more, i) && i + |s| <= |t| ==> OccursAt(s, t, i)
  {
    if 0 <= i && i + |s| <= |t| {
      assert (t + more)[i..i + |s|] == t[i..i + |s|];
    }
  }

  lemma OccursInShifted(s: Text, head: Text, t: Text, i: int)
    ensures i >= |head| ==> (OccursAt(s, head + t, i) <==> OccursAt(s, t, i - |head|))
  {
    if i >= |head| && i + |s| <= |head| + |t| {
      assert (head + t)[i..i + |s|] == t[i - |head|..i - |head| + |s|];
    }
  }

  lemma StopInExtension(stops: seq<Text>, t: Text, more: Text, i: int)
    ensures StopAt(stops, t, i) ==> StopAt(stops, t + more, i)
  {
    if StopAt(stops, t, i) {
      var k :| 0 <= k < |stops| && OccursAt(stops[k], t, i);
      OccursInExtension(stops[k], t, more, i);
      assert OccursAt(stops[k], t + more, i);
    }
  }

  lemma StopFreePrefix(stops: seq<Text>, t: Text, more: Text)
    requires StopFree(stops, t + more)
    ensures StopFree(stops, t)
  {
    forall i ensures !StopAt(stops, t, i) {
      StopInExtension(stops, t, more, i);
    }
  }

  lemma StopStartsInside(stops: seq<Text>, t: Text, i: int)
    requires NonEmptyStops(stops)
    ensures StopAt(stops, t, i) ==> 0 <= i < |t|
  {
  }

  lemma EmptyIsStopFree(stops: seq<Text>)
    requires NonEmptyStops(stops)
    ensures StopFree(stops, [])
  {
    forall i ensures !StopAt(stops, [], i) {
      StopStartsInside(stops, [], i);
    }
  }

  /** A truncated text never contains a stop. */
  lemma TruncationIsStopFree(stops: seq<Text>, t: Text, out: Text)
    requires NonEmptyStops(stops)
    requires IsTruncation(stops, t, out)
    ensures StopFree(stops, out)
  {
    assert t == out + t[|out|..];
    forall i ensures !StopAt(stops, out, i) {
      StopInExtension(stops, out, t[|out|..], i);
      StopStartsInside(stops, out, i);
    }
  }

  /** The truncation of a text is unique. */
  lemma TruncationUnique(stops: seq<Text>, t: Text, a: Text, b: Text)
    requires IsTruncation(stops, t, a) && IsTruncation(stops, t, b)
    ensures a == b
  {
    if !StopFree(stops, t) {
      assert !(|a| < |b|) && !(|b| < |a|);
    }
  }

  /** Forgetting a flushed head is harmless as long as the window kept at least the longest stop:
      after the window grew, the earliest stop of everything seen is the earliest of the window. */
  lemma WindowSeesFirstStop(stops: seq<Text>, m: nat, flushed: Text, window: Text, chunk: Text)
    requires NonEmptyStops(stops) && NoLongerThan(stops, m)
    requires StopFree(stops, flushed + window)
    requires flushed == [] || |window| >= m
    ensures StopFree(stops, window + chunk) ==> StopFree(stops, flushed + window + chunk)
    ensures forall p :: IsFirstStop(stops, window + chunk, p) ==>
              IsFirstStop(stops, flushed + window + chunk, |flushed| + p)
  {
    var grown := window + chunk;
    var whole := flushed + window + chunk;
    assert whole == flushed + grown;
    forall i ensures StopAt(stops, whole, i) <==> i >= |flushed| && StopAt(stops, grown, i - |flushed|) {
      if i >= |flushed| {
        forall k | 0 <= k < |stops|
          ensures OccursAt(stops[k], whole, i) <==> OccursAt(stops[k], grown, i - |flushed|)
        {
          OccursInShifted(stops[k], flushed, grown, i);
        }
      } else {
        forall k | 0 <= k < |stops| ensures !OccursAt(stops[k], whole, i) {
          OccursInExtension(stops[k], flushed + window, chunk, i);
          assert !StopAt(stops, flushed + window, i);
        }
      }
    }
    forall p | IsFirstStop(stops, grown, p)
      ensures IsFirstStop(stops, whole, |flushed| + p)
    {
      assert StopAt(stops, grown, |flushed| + p - |flushed|);
    }
  }

  // ---------------------------------------------------------------------------
  // When cutting early is cutting right
  // ---------------------------------------------------------------------------

  /** No shorter stop is a prefix of `stops[k]`; any other stop can never decide where the text
      is cut, because a shorter one starts wherever it starts. */
  ghost predicate Minimal(stops: seq<Text>, k: int)
    requires 0 <= k < |stops|
  {
    forall j :: 0 <= j < |stops| ==> !(stops[j] < stops[k])
  }

  /** No stop lies strictly inside a minimal stop, touching neither of its ends. */
  ghost predicate NoStopInsideAnother(stops: seq<Text>) {
    forall j, k, o :: 0 <= j < |stops| && 0 <= k < |stops| && Minimal(stops, k)
                      && 0 < o && o + |stops[j]| < |stops[k]|
      ==> !OccursAt(stops[j], stops[k], o)
  }

  /** Cutting `t` at its first stop gives what cutting `t + more` gives. */
  ghost predicate EarlyCutAgrees(stops: seq<Text>, t: Text, more: Text, out: Text) {
    IsTruncation(stops, t, out) && !StopFree(stops, t) ==> IsTruncation(stops, t + more, out)
  }

  ghost predicate EarlyCutIsRight(stops: seq<Text>) {
    forall t, more, out :: EarlyCutAgrees(stops, t, more, out)
  }

  lemma MinimalStopAt(stops: seq<Text>, t: Text, i: int, k: int) returns (m: int)
    requires 0 <= k < |stops| && OccursAt(stops[k], t, i)
    ensures 0 <= m < |stops| && OccursAt(stops[m], t, i) && Minimal(stops, m)
    decreases |stops[k]|
  {
    if Minimal(stops, k) {
      m := k;
    } else {
      var j :| 0 <= j < |stops| && stops[j] < stops[k];
      assert t[i..i + |stops[j]|] == t[i..i + |stops[k]|][..|stops[j]|];
      m := MinimalStopAt(stops, t, i, j);
    }
  }

  /** Two occurrences one strictly inside the other put one stop strictly inside the other. */
  lemma OccurrenceInside(s: Text, inner: Text, t: Text, a: int, b: int)
    requires OccursAt(s, t, a) && OccursAt(inner, t, b)
    requires a < b && b + |inner| <= a + |s|
    ensures OccursAt(inner, s, b - a)
  {
    forall x | 0 <= x < |inner| ensures s[b - a + x] == inner[x] {
      assert s[b - a + x] == t[a..a + |s|][b - a + x] == t[b + x];
      assert inner[x] == t[b..b + |inner|][x] == t[b + x];
    }
  }

  /** When no stop lies strictly inside another, the first stop of a prefix stays the first stop
      whatever text follows. */
  lemma FirstStopIsFinal(stops: seq<Text>, t: Text, more: Text, p: int)
    requires NoStopInsideAnother(stops)
    requires IsFirstStop(stops, t, p)
    ensures IsFirstStop(stops, t + more, p)
  {
    var j :| 0 <= j < |stops| && OccursAt(stops[j], t, p);
    StopInExtension(stops, t, more, p);
    OccursInExtension(stops[j], t, more, p);
    forall i | i < p ensures !StopAt(stops, t + more, i) {
      assert !StopAt(stops, t, i);
      if StopAt(stops, t + more, i) {
        var any :| 0 <= any < |stops| && OccursAt(stops[any], t + more, i);
        var k := MinimalStopAt(stops, t + more, i, any);
        OccursInExtension(stops[k], t, more, i);
        OccurrenceInside(stops[k], stops[j], t + more, i, p);
      }
    }
  }

  lemma TruncationIsFinal(stops: seq<Text>, t: Text, more: Text, out: Text)
    requires NoStopInsideAnother(stops)
    requires IsTruncation(stops, t, out) && !StopFree(stops, t)
    ensures IsTruncation(stops, t + more, out)
  {
    FirstStopIsFinal(stops, t, more, |out|);
    assert out <= t <= t + more;
  }

  /** A minimal stop cut off right after a stop strictly inside it is a prefix that is truncated
      later than the whole. */
  lemma InnerStopCutsTooLate(stops: seq<Text>, j: int, k: int, o: int) returns (out: Text)
    requires NonEmptyStops(stops)
    requires 0 <= j < |stops| && 0 <= k < |stops| && Minimal(stops, k)
    requires 0 < o && o + |stops[j]| < |stops[k]| && OccursAt(stops[j], stops[k], o)
    ensures var t := stops[k][..o + |stops[j]|];
            IsTruncation(stops, t, out) && !StopFree(stops, t) && !IsTruncation(stops, stops[k], out)
  {
    var whole := stops[k];
    var t, more := whole[..o + |stops[j]|], whole[o + |stops[j]|..];
    assert whole == t + more;
    OccursInExtension(stops[j], t, more, o);
    assert StopAt(stops, t, o);
    var p := FirstStopBelow(stops, t, o);
    out := t[..p];
    assert OccursAt(whole, whole, 0);
    assert StopAt(stops, whole, 0);
    assert forall i :: 0 <= i < |stops| ==> !OccursAt(stops[i], t, 0);
  }

  lemma FirstStopBelow(stops: seq<Text>, t: Text, i: nat) returns (p: nat)
    requires StopAt(stops, t, i)
    ensures p <= i && IsFirstStop(stops, t, p)
  {
    p := 0;
    while !StopAt(stops, t, p)
      invariant p <= i
      invariant forall j :: j < p ==> !StopAt(stops, t, j)
      decreases i - p
    {
      p := p + 1;
    }
  }

  /** The exact condition under which stopping a stream at the first hit gives, for every text and
      every way it is split, what truncating the complete text gives. */
  lemma EarlyCutIsRightIff(stops: seq<Text>)
    requires NonEmptyStops(stops)
    ensures EarlyCutIsRight(stops) <==> NoStopInsideAnother(stops)
  {
    if NoStopInsideAnother(stops) {
      forall t, more, out ensures EarlyCutAgrees(stops, t, more, out) {
        if IsTruncation(stops, t, out) && !StopFree(stops, t) {
          TruncationIsFinal(stops, t, more, out);
        }
      }
    } else {
      var j, k, o :| 0 <= j < |stops| && 0 <= k < |stops| && Minimal(stops, k)
                     && 0 < o && o + |stops[j]| < |stops[k]| && OccursAt(stops[j], stops[k], o);
      var out := InnerStopCutsTooLate(stops, j, k, o);
      var t, more := stops[k][..o + |stops[j]|], stops[k][o + |stops[j]|..];
      assert t + more == stops[k];
      assert !EarlyCutAgrees(stops, t, more, out);
    }
  }
}
