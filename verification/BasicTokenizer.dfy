/** Splitting text into lower-case words: the scalar ASCII loop, the loop for mixed text, and the
    16-lane block loop compute the same tokens for every byte string. */
module BasicTokenizer {

  type Text = seq<bv8>

  predicate IsAlnum(ch: bv8) {
    (65 <= ch <= 90) || (97 <= ch <= 122) || (48 <= ch <= 57)
  }

  function ToLower(ch: bv8): bv8 {
    if 65 <= ch <= 90 then ch + 32 else ch
  }

  // ---------------------------------------------------------------------------
  // What the tokens are
  // ---------------------------------------------------------------------------

  /** The finished tokens and the one being read. */
  datatype Scan = Scan(tokens: seq<Text>, current: Text)

  function Cut(s: Scan): Scan {
    if s.current == [] then s else Scan(s.tokens + [s.current], [])
  }

  function Read(s: Scan, ch: bv8): Scan {
    if IsAlnum(ch) then s.(current := s.current + [ToLower(ch)]) else Cut(s)
  }

  function ReadAll(s: Scan, text: Text): Scan {
    if text == [] then s else Read(ReadAll(s, text[..|text| - 1]), text[|text| - 1])
  }

  function Tokens(text: Text): seq<Text> {
    Cut(ReadAll(Scan([], []), text)).tokens
  }

  predicate AllAlnum(text: Text) {
    forall i :: 0 <= i < |text| ==> IsAlnum(text[i])
  }

  function Lower(text: Text): (r: Text)
    ensures |r| == |text| && forall i :: 0 <= i < |r| ==> r[i] == ToLower(text[i])
  {
    seq(|text|, i requires 0 <= i < |text| => ToLower(text[i]))
  }

  lemma {:induction false} ReadAllAppend(s: Scan, a: Text, b: Text)
    ensures ReadAll(s, a + b) == ReadAll(ReadAll(s, a), b)
  {
    if b == [] {
      assert a + b == a;
    } else {
      assert (a + b)[..|a + b| - 1] == a + b[..|b| - 1];
      ReadAllAppend(s, a, b[..|b| - 1]);
    }
  }

  lemma {:induction false} ReadAllAlnum(s: Scan, text: Text)
    requires AllAlnum(text)
    ensures ReadAll(s, text) == s.(current := s.current + Lower(text))
  {
    if text != [] {
      var n := |text| - 1;
      ReadAllAlnum(s, text[..n]);
      assert Lower(text) == Lower(text[..n]) + [ToLower(text[n])];
    }
  }

  lemma {:induction false} ReadAllPrefix(tokens: seq<Text>, s: Scan, text: Text)
    ensures var r := ReadAll(s, text);
            ReadAll(s.(tokens := tokens + s.tokens), text) == r.(tokens := tokens + r.tokens)
  {
    if text != [] {
      ReadAllPrefix(tokens, s, text[..|text| - 1]);
    }
  }

  /** A word of letters and digits is one token, in lower case. */
  lemma WordIsToken(text: Text)
    requires text != [] && AllAlnum(text)
    ensures Tokens(text) == [Lower(text)]
  {
    ReadAllAlnum(Scan([], []), text);
    assert [] + Lower(text) == Lower(text);
  }

  /** Any other byte, in particular any byte of a multi-byte character, separates. */
  lemma SeparatorSplits(a: Text, separator: bv8, b: Text)
    requires !IsAlnum(separator)
    ensures Tokens(a + [separator] + b) == Tokens(a) + Tokens(b)
  {
    var empty := Scan([], []);
    var sa := ReadAll(empty, a);
    ReadAllAppend(empty, a + [separator], b);
    ReadAllAppend(empty, a, [separator]);
    assert [separator][..0] == [];
    assert ReadAll(sa, [separator]) == Cut(sa);
    ReadAllPrefix(Cut(sa).tokens, empty, b);
    assert Cut(sa) == empty.(tokens := Cut(sa).tokens + empty.tokens);
  }

  /** The two laws and the empty text leave no choice: whatever obeys them is Tokens. */
  lemma {:induction false} LawsDetermineTokens(f: Text -> seq<Text>, text: Text)
    requires f([]) == []
    requires forall w :: w != [] && AllAlnum(w) ==> f(w) == [Lower(w)]
    requires forall a, c, b :: !IsAlnum(c) ==> f(a + [c] + b) == f(a) + f(b)
    ensures f(text) == Tokens(text)
    decreases |text|
  {
    if AllAlnum(text) {
      if text != [] {
        WordIsToken(text);
      }
    } else {
      var i :| 0 <= i < |text| && !IsAlnum(text[i]);
      var a, b := text[..i], text[i + 1..];
      assert text == a + [text[i]] + b;
      SeparatorSplits(a, text[i], b);
      LawsDetermineTokens(f, a);
      LawsDetermineTokens(f, b);
    }
  }

  // ---------------------------------------------------------------------------
  // The loops
  // ---------------------------------------------------------------------------

  /** One byte of the scalar loop. */
  method ReadByte(tokens: seq<Text>, current: Text, ch: bv8) returns (tokens': seq<Text>, current': Text)
    ensures Scan(tokens', current') == Read(Scan(tokens, current), ch)
  {
    tokens', current' := tokens, current;
    if !IsAlnum(ch) {
      if current != [] {
        tokens', current' := tokens + [current], [];
      }
      return;
    }
    current' := current + [ToLower(ch)];
  }

  method Finish(tokens: seq<Text>, current: Text) returns (r: seq<Text>)
    ensures r == Cut(Scan(tokens, current)).tokens
  {
    r := tokens;
    if current != [] {
      r := r + [current];
    }
  }

  method TokenizeScalarAscii(text: Text) returns (tokens: seq<Text>)
    ensures tokens == Tokens(text)
  {
    var current: Text := [];
    tokens := [];
    for i := 0 to |text|
      invariant Scan(tokens, current) == ReadAll(Scan([], []), text[..i])
    {
      assert text[..i + 1][..i] == text[..i];
      tokens, current := ReadByte(tokens, current, text[i]);
    }
    assert text[..|text|] == text;
    tokens := Finish(tokens, current);
  }

  /** Bytes with the top bit set are tested first. */
  method TokenizeScalarMixed(text: Text) returns (tokens: seq<Text>)
    ensures tokens == Tokens(text)
  {
    var current: Text := [];
    tokens := [];
    for i := 0 to |text|
      invariant Scan(tokens, current) == ReadAll(Scan([], []), text[..i])
    {
      assert text[..i + 1][..i] == text[..i];
      var ch := text[i];
      if ch & 0x80 != 0 {
        TopBitIsNotAlnum(ch);
        if current != [] {
          tokens, current := tokens + [current], [];
        }
      } else {
        tokens, current := ReadByte(tokens, current, ch);
      }
    }
    assert text[..|text|] == text;
    tokens := Finish(tokens, current);
  }

  lemma TopBitIsNotAlnum(ch: bv8)
    requires ch & 0x80 != 0
    ensures !IsAlnum(ch)
  {
  }

  // Lanes: a comparison gives all ones or all zeros

  function CompareGe(v: bv8, bound: bv8): bv8 { if v >= bound then 0xFF else 0 }

  function CompareLe(v: bv8, bound: bv8): bv8 { if v <= bound then 0xFF else 0 }

  function UpperMask(v: bv8): bv8 { CompareGe(v, 65) & CompareLe(v, 90) }

  function AlnumMask(v: bv8): bv8 {
    (UpperMask(v) | (CompareGe(v, 97) & CompareLe(v, 122))) | (CompareGe(v, 48) & CompareLe(v, 57))
  }

  function LowerLane(v: bv8): bv8 { v + (UpperMask(v) & 0x20) }

  lemma LaneIsByte(v: bv8)
    ensures AlnumMask(v) == (if IsAlnum(v) then 0xFF else 0) && LowerLane(v) == ToLower(v)
  {
  }

  function Lanes(f: bv8 -> bv8, block: Text): (r: Text)
    ensures |r| == |block| && forall i :: 0 <= i < |r| ==> r[i] == f(block[i])
  {
    seq(|block|, i requires 0 <= i < |block| => f(block[i]))
  }

  /** The least lane. */
  function MinLane(block: Text): bv8
    requires block != []
  {
    if |block| == 1 then block[0]
    else
      var rest := MinLane(block[1..]);
      if block[0] < rest then block[0] else rest
  }

  lemma {:induction false} MinLaneIsFull(block: Text)
    requires block != []
    ensures MinLane(block) == 0xFF <==> forall i :: 0 <= i < |block| ==> block[i] == 0xFF
  {
    if |block| > 1 {
      MinLaneIsFull(block[1..]);
      assert forall i :: 0 < i < |block| ==> block[i] == block[1..][i - 1];
    }
  }

  lemma BlockTest(block: Text)
    requires block != []
    ensures MinLane(Lanes(AlnumMask, block)) == 0xFF <==> AllAlnum(block)
    ensures Lanes(LowerLane, block) == Lower(block)
  {
    MinLaneIsFull(Lanes(AlnumMask, block));
    forall i | 0 <= i < |block|
      ensures (Lanes(AlnumMask, block)[i] == 0xFF <==> IsAlnum(block[i])) && LowerLane(block[i]) == ToLower(block[i])
    {
      LaneIsByte(block[i]);
    }
  }

  const LANES: nat := 16

  method ReadBlock(tokens: seq<Text>, current: Text, block: Text) returns (tokens': seq<Text>, current': Text)
    requires |block| == LANES
    ensures Scan(tokens', current') == ReadAll(Scan(tokens, current), block)
  {
    BlockTest(block);
    tokens', current' := tokens, current;
    if MinLane(Lanes(AlnumMask, block)) == 0xFF {
      ReadAllAlnum(Scan(tokens, current), block);
      current' := current + Lanes(LowerLane, block);
    } else {
      for j := 0 to LANES
        invariant Scan(tokens', current') == ReadAll(Scan(tokens, current), block[..j])
      {
        assert block[..j + 1][..j] == block[..j];
        tokens', current' := ReadByte(tokens', current', block[j]);
      }
      assert block[..LANES] == block;
    }
  }

  method TokenizeBlocks(text: Text) returns (tokens: seq<Text>)
    ensures tokens == Tokens(text)
  {
    var current: Text := [];
    tokens := [];
    var i := 0;
    ghost var empty := Scan([], []);
    while i + LANES <= |text|
      invariant i <= |text| && Scan(tokens, current) == ReadAll(empty, text[..i])
    {
      var block := text[i..i + LANES];
      assert text[..i + LANES] == text[..i] + block;
      ReadAllAppend(empty, text[..i], block);
      tokens, current := ReadBlock(tokens, current, block);
      i := i + LANES;
    }
    while i < |text|
      invariant i <= |text| && Scan(tokens, current) == ReadAll(empty, text[..i])
    {
      assert text[..i + 1][..i] == text[..i];
      tokens, current := ReadByte(tokens, current, text[i]);
      i := i + 1;
    }
    assert text[..|text|] == text;
    tokens := Finish(tokens, current);
  }

  /** The dispatcher: blocks if the machine has them and the text is ASCII. */
  method Tokenize(text: Text, hasLanes: bool) returns (tokens: seq<Text>)
    ensures tokens == Tokens(text)
  {
    var allAscii := true;
    for i := 0 to |text| {
      if text[i] & 0x80 != 0 {
        allAscii := false;
      }
    }
    if !allAscii {
      tokens := TokenizeScalarMixed(text);
    } else if hasLanes {
      tokens := TokenizeBlocks(text);
    } else {
      tokens := TokenizeScalarAscii(text);
    }
  }
}
