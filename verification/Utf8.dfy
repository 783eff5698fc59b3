/** The byte-at-a-time UTF-8 recogniser of the decode loop, proved to accept exactly the
    sequences of well-formed characters of section 4 of RFC 3629. */
module Utf8 {
  import opened StopSequences

  const ACCEPT: nat := 0
  const REJECT: nat := 1

  function Times(n: nat, v: nat): (r: seq<nat>)
    ensures |r| == n && forall i :: 0 <= i < n ==> r[i] == v
  {
    seq(n, _ => v)
  }

  /** The class of each of the 256 byte values. */
  const CLASSES: seq<nat> :=
    Times(128, 0)                                               // 00..7f
    + Times(16, 1) + Times(16, 9)                               // 80..9f
    + Times(32, 7)                                              // a0..bf
    + Times(2, 8) + Times(30, 2)                                // c0..df
    + [0xa] + Times(12, 0x3) + [0x4, 0x3, 0x3]                  // e0..ef
    + [0xb, 0x6, 0x6, 0x6, 0x5] + Times(11, 0x8)                // f0..ff

  /** One row of 16 successor states, indexed by byte class, for each of the nine states. */
  function Row(q: nat): (r: seq<nat>)
    requires q <= 8
    ensures |r| == 16
  {
    match q
    case 0 => [0x0, 0x1, 0x2, 0x3, 0x5, 0x8, 0x7, 0x1, 0x1, 0x1, 0x4, 0x6, 0x1, 0x1, 0x1, 0x1]
    case 1 => Times(16, 1)
    case 2 => [1, 0, 1, 1, 1, 1, 1, 0, 1, 0, 1, 1, 1, 1, 1, 1]
    case 3 => [1, 2, 1, 1, 1, 1, 1, 2, 1, 2, 1, 1, 1, 1, 1, 1]
    case 4 => [1, 1, 1, 1, 1, 1, 1, 2, 1, 1, 1, 1, 1, 1, 1, 1]
    case 5 => [1, 2, 1, 1, 1, 1, 1, 1, 1, 2, 1, 1, 1, 1, 1, 1]
    case 6 => [1, 1, 1, 1, 1, 1, 1, 3, 1, 3, 1, 1, 1, 1, 1, 1]
    case 7 => [1, 3, 1, 1, 1, 1, 1, 3, 1, 3, 1, 1, 1, 1, 1, 1]
    case _ => [1, 3, 1, 1, 1, 1, 1, 1, 1, 1, 1, 1, 1, 1, 1, 1]
  }

  function Rows(n: nat): (r: seq<nat>)
    requires n <= 9
    ensures |r| == 16 * n
  {
    if n == 0 then [] else Rows(n - 1) + Row(n - 1)
  }

  const SUCCESSORS: seq<nat> := Rows(9)

  const UTF8D: seq<nat> := CLASSES + SUCCESSORS

  // ---------------------------------------------------------------------------
  // What the states mean
  // ---------------------------------------------------------------------------

  /** The bytes that may come next in each state, by the ranges of the grammar. */
  function Next(q: nat, b: Byte): (r: nat)
    requires q <= 8
    ensures r <= 8
  {
    match q
    case 0 =>
      if b <= 0x7F then 0
      else if 0xC2 <= b <= 0xDF then 2
      else if b == 0xE0 then 4
      else if b == 0xED then 5
      else if 0xE1 <= b <= 0xEF then 3
      else if b == 0xF0 then 6
      else if 0xF1 <= b <= 0xF3 then 7
      else if b == 0xF4 then 8
      else REJECT
    case 2 => if 0x80 <= b <= 0xBF then 0 else REJECT
    case 3 => if 0x80 <= b <= 0xBF then 2 else REJECT
    case 4 => if 0xA0 <= b <= 0xBF then 2 else REJECT
    case 5 => if 0x80 <= b <= 0x9F then 2 else REJECT
    case 6 => if 0x90 <= b <= 0xBF then 3 else REJECT
    case 7 => if 0x80 <= b <= 0xBF then 3 else REJECT
    case 8 => if 0x80 <= b <= 0x8F then 3 else REJECT
    case _ => REJECT
  }

  function Kind(b: Byte): nat {
    if b < 0x80 then 0 else if b < 0x90 then 1 else if b < 0xA0 then 9 else if b < 0xC0 then 7
    else if b < 0xC2 then 8 else if b < 0xE0 then 2 else if b == 0xE0 then 10 else if b == 0xED then 4
    else if b < 0xF0 then 3 else if b == 0xF0 then 11 else if b < 0xF4 then 6 else if b == 0xF4 then 5 else 8
  }

  lemma ClassOfByte(b: Byte)
    ensures |CLASSES| == 256 && CLASSES[b] == Kind(b) <= 11
  {
  }

  lemma {:induction false} RowInTable(n: nat, q: nat, kind: nat)
    requires q < n <= 9 && kind < 16
    ensures Rows(n)[q * 16 + kind] == Row(q)[kind]
  {
    if q < n - 1 {
      RowInTable(n - 1, q, kind);
    }
  }

  lemma RowIsNext(q: nat, b: Byte)
    requires q <= 8
    ensures Row(q)[Kind(b)] == Next(q, b)
  {
  }

  /** The 400-entry table lookup is the grammar's successor function. */
  lemma TableIsNext(q: nat, b: Byte)
    requires q <= 8
    ensures |UTF8D| == 400 && UTF8D[b] <= 11 && UTF8D[256 + q * 16 + UTF8D[b]] == Next(q, b)
  {
    hide Next, Kind, Row, Rows;
    ClassOfByte(b);
    RowInTable(9, q, Kind(b));
    RowIsNext(q, b);
  }

  /** The scanner object: one byte per call, its state persisting between calls. */
  class Utf8State {
    var state: nat

    constructor ()
      ensures state == ACCEPT
    {
      state := ACCEPT;
    }

    method Process(b: Byte) returns (accepted: bool)
      requires state <= 8
      modifies this
      ensures state <= 8 && state == Next(old(state), b)
      ensures accepted <==> state == ACCEPT
    {
      hide Next, CLASSES, SUCCESSORS, UTF8D;
      TableIsNext(state, b);
      var kind := UTF8D[b];
      state := UTF8D[256 + state * 16 + kind];
      accepted := state == ACCEPT;
    }
  }

  function Run(q: nat, s: Text): (r: nat)
    requires q <= 8
    ensures r <= 8
    decreases |s|
  {
    if s == [] then q else Run(Next(q, s[0]), s[1..])
  }

  lemma {:induction false} RunAppend(q: nat, a: Text, b: Text)
    requires q <= 8
    ensures Run(q, a + b) == Run(Run(q, a), b)
    decreases |a|
  {
    if a == [] {
      assert a + b == b;
    } else {
      assert (a + b)[1..] == a[1..] + b;
      RunAppend(Next(q, a[0]), a[1..], b);
    }
  }

  lemma RunSnoc(q: nat, a: Text, b: Byte)
    requires q <= 8
    ensures Run(q, a + [b]) == Next(Run(q, a), b)
  {
    RunAppend(q, a, [b]);
  }

  lemma {:induction false} RejectIsAbsorbing(s: Text)
    ensures Run(REJECT, s) == REJECT
  {
    if s != [] {
      RejectIsAbsorbing(s[1..]);
    }
  }

  // ---------------------------------------------------------------------------
  // The grammar of section 4 of RFC 3629
  // ---------------------------------------------------------------------------

  predicate IsTail(b: Byte) {
    0x80 <= b <= 0xBF
  }

  /** UTF8-char: one of the four productions. */
  predicate IsChar(s: Text) {
    match |s|
    case 1 => s[0] <= 0x7F
    case 2 => 0xC2 <= s[0] <= 0xDF && IsTail(s[1])
    case 3 =>
      || (s[0] == 0xE0 && 0xA0 <= s[1] <= 0xBF && IsTail(s[2]))
      || (0xE1 <= s[0] <= 0xEC && IsTail(s[1]) && IsTail(s[2]))
      || (s[0] == 0xED && 0x80 <= s[1] <= 0x9F && IsTail(s[2]))
      || (0xEE <= s[0] <= 0xEF && IsTail(s[1]) && IsTail(s[2]))
    case 4 =>
      || (s[0] == 0xF0 && 0x90 <= s[1] <= 0xBF && IsTail(s[2]) && IsTail(s[3]))
      || (0xF1 <= s[0] <= 0xF3 && IsTail(s[1]) && IsTail(s[2]) && IsTail(s[3]))
      || (s[0] == 0xF4 && 0x80 <= s[1] <= 0x8F && IsTail(s[2]) && IsTail(s[3]))
    case _ => false
  }

  /** UTF8-octets: any number of UTF8-char. */
  ghost predicate WellFormed(s: Text)
    decreases |s|
  {
    s == [] || exists n :: 1 <= n <= |s| && IsChar(s[..n]) && WellFormed(s[n..])
  }

  lemma RunOneChar(c: Text)
    requires IsChar(c)
    ensures Run(ACCEPT, c) == ACCEPT
  {
    var q1 := Next(ACCEPT, c[0]);
    if |c| > 1 {
      var q2 := Next(q1, c[1]);
      assert Run(q1, c[1..]) == Run(q2, c[1..][1..]);
      if |c| > 2 {
        var q3 := Next(q2, c[2]);
        assert c[1..][1..] == c[2..] && c[2..][1..] == c[3..];
        assert Run(q2, c[2..]) == Run(q3, c[3..]);
        if |c| > 3 {
          assert c[3..][1..] == [];
          assert Run(q3, c[3..]) == Next(q3, c[3]);
        }
      }
    }
  }

  /** An accepted text starts with a character whose removal leaves an accepted text. */
  lemma FirstChar(s: Text) returns (n: nat)
    requires s != [] && Run(ACCEPT, s) == ACCEPT
    ensures 1 <= n <= |s| && IsChar(s[..n]) && Run(ACCEPT, s[n..]) == ACCEPT
  {
    var q1 := Next(ACCEPT, s[0]);
    RejectIsAbsorbing(s[1..]);
    if q1 == ACCEPT { return 1; }
    var q2 := Next(q1, s[1]);
    assert s[1..][1..] == s[2..];
    assert Run(q1, s[1..]) == Run(q2, s[2..]);
    RejectIsAbsorbing(s[2..]);
    if q2 == ACCEPT { return 2; }
    assert s[2..] != [];
    var q3 := Next(q2, s[2]);
    assert s[2..][1..] == s[3..];
    assert Run(q2, s[2..]) == Run(q3, s[3..]);
    RejectIsAbsorbing(s[3..]);
    if q3 == ACCEPT { return 3; }
    assert s[3..] != [];
    assert s[3..][1..] == s[4..];
    assert Run(q3, s[3..]) == Run(Next(q3, s[3]), s[4..]);
    RejectIsAbsorbing(s[4..]);
    n := 4;
  }

  /** The recogniser accepts exactly the sequences of well-formed characters. */
  lemma {:induction false} AcceptsExactlyWellFormed(s: Text)
    ensures Run(ACCEPT, s) == ACCEPT <==> WellFormed(s)
    decreases |s|
  {
    if s != [] {
      if Run(ACCEPT, s) == ACCEPT {
        var n := FirstChar(s);
        AcceptsExactlyWellFormed(s[n..]);
      }
      if WellFormed(s) {
        var n :| 1 <= n <= |s| && IsChar(s[..n]) && WellFormed(s[n..]);
        AcceptsExactlyWellFormed(s[n..]);
        RunOneChar(s[..n]);
        RunAppend(ACCEPT, s[..n], s[n..]);
        assert s == s[..n] + s[n..];
      }
    }
  }

  // ---------------------------------------------------------------------------
  // Character boundaries
  // ---------------------------------------------------------------------------

  /** A byte that is not a continuation byte starts a character, so an accepted text may be cut
      in front of it. */
  lemma {:induction false} CutAtLeadingByte(w: Text, k: nat)
    requires Run(ACCEPT, w) == ACCEPT
    requires k <= |w| && (k == |w| || !IsTail(w[k]) || k == 0)
    ensures Run(ACCEPT, w[..k]) == ACCEPT && Run(ACCEPT, w[k..]) == ACCEPT
    decreases |w|
  {
    if k == 0 {
      assert w[k..] == w;
    } else {
      var n := FirstChar(w);
      assert k >= n by {
        assert forall i :: 1 <= i < n ==> IsTail(w[..n][i]);
      }
      var rest := w[n..];
      assert k < |w| ==> rest[k - n] == w[k];
      CutAtLeadingByte(rest, k - n);
      RunOneChar(w[..n]);
      RunAppend(ACCEPT, w[..n], rest[..k - n]);
      assert w[..k] == w[..n] + rest[..k - n];
      assert w[k..] == rest[k - n..];
    }
  }

  /** Backing up from any offset of an accepted text reaches a leading byte within three steps. */
  lemma {:induction false} LeadingByteNearby(w: Text, k: nat) returns (j: nat)
    requires Run(ACCEPT, w) == ACCEPT && k < |w|
    ensures k - 3 <= j <= k && !IsTail(w[j])
    decreases |w|
  {
    var n := FirstChar(w);
    assert !IsTail(w[..n][0]);
    if k < n {
      j := 0;
    } else {
      var i := LeadingByteNearby(w[n..], k - n);
      j := n + i;
    }
  }

  /** `p` is an unfinished character: nothing before its end is a character boundary. */
  ghost predicate Unfinished(p: Text) {
    forall k :: 0 < k <= |p| ==> Run(ACCEPT, p[..k]) != ACCEPT
  }

  /** Bytes held back as unfinished are never ASCII, unless an ill-formed byte came first. */
  lemma {:induction false} UnfinishedIsNotAscii(p: Text, i: nat)
    requires Unfinished(p) && Run(ACCEPT, p) != REJECT && i < |p|
    ensures p[i] >= 0x80
  {
    var before, after := p[..i], p[i + 1..];
    assert p == (before + [p[i]]) + after;
    RunAppend(ACCEPT, before + [p[i]], after);
    RunSnoc(ACCEPT, before, p[i]);
    assert before + [p[i]] == p[..i + 1];
    RejectIsAbsorbing(after);
    if i > 0 {
      assert Run(ACCEPT, p[..i]) != ACCEPT;
    }
  }

  lemma FourBytesFinish(p: Text)
    requires |p| >= 4
    ensures exists k :: 1 <= k <= 4 && Run(ACCEPT, p[..k]) in {ACCEPT, REJECT}
  {
    assert p[..1] == [] + [p[0]] && p[..2] == p[..1] + [p[1]];
    assert p[..3] == p[..2] + [p[2]] && p[..4] == p[..3] + [p[3]];
    RunSnoc(ACCEPT, [], p[0]);
    RunSnoc(ACCEPT, p[..1], p[1]);
    RunSnoc(ACCEPT, p[..2], p[2]);
    RunSnoc(ACCEPT, p[..3], p[3]);
    assert Run(ACCEPT, p[..1]) in {ACCEPT, REJECT} || Run(ACCEPT, p[..2]) in {ACCEPT, REJECT}
        || Run(ACCEPT, p[..3]) in {ACCEPT, REJECT} || Run(ACCEPT, p[..4]) in {ACCEPT, REJECT};
  }

  /** An unfinished, not yet rejected character holds at most three bytes. */
  lemma UnfinishedIsShort(p: Text)
    requires Unfinished(p) && Run(ACCEPT, p) != REJECT
    ensures |p| <= 3
  {
    if |p| >= 4 {
      FourBytesFinish(p);
      var k :| 1 <= k <= 4 && Run(ACCEPT, p[..k]) in {ACCEPT, REJECT};
      var head, rest := p[..k], p[k..];
      assert p == head + rest;
      RejectIsAbsorbing(rest);
      RunAppend(ACCEPT, head, rest);
    }
  }
}
