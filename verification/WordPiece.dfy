/** Greedy longest-match word pieces of one word over a vocabulary. */
module WordPiece {
  import opened BasicTokenizer

  /** "##" */
  const CONTINUATION: Text := [35, 35]
  /** "[UNK]" */
  const UNKNOWN: Text := [91, 85, 78, 75, 93]

  type Vocab = map<Text, int>

  /** The vocabulary key for word[start..end]. */
  function Key(word: Text, start: nat, end: nat): Text
    requires start <= end <= |word|
  {
    if start > 0 then CONTINUATION + word[start..end] else word[start..end]
  }

  /** The largest end at most `limit` that gives a known piece; `start` if there is none. */
  function LongestFrom(vocab: Vocab, word: Text, start: nat, limit: nat): (end: nat)
    requires start <= limit <= |word|
    ensures start <= end <= limit
  {
    if limit == start || Key(word, start, limit) in vocab then limit else LongestFrom(vocab, word, start, limit - 1)
  }

  datatype Greedy = Stuck | Found(pieces: seq<Text>)

  function Prepend(pieces: seq<Text>, g: Greedy): Greedy {
    match g
    case Stuck => Stuck
    case Found(rest) => Found(pieces + rest)
  }

  function GreedyFrom(vocab: Vocab, word: Text, start: nat): Greedy
    requires start <= |word|
    decreases |word| - start
  {
    if start == |word| then Found([])
    else
      var end := LongestFrom(vocab, word, start, |word|);
      if end == start then Stuck else Prepend([Key(word, start, end)], GreedyFrom(vocab, word, end))
  }

  function Pieces(vocab: Vocab, loaded: bool, word: Text): seq<Text> {
    if !loaded || word in vocab then [word]
    else
      match GreedyFrom(vocab, word, 0)
      case Stuck => [UNKNOWN]
      case Found(pieces) => pieces
  }

  // ---------------------------------------------------------------------------
  // The loops
  // ---------------------------------------------------------------------------

  method LongestPiece(vocab: Vocab, word: Text, start: nat) returns (piece: Text, end: nat, found: bool)
    requires start < |word|
    ensures end == LongestFrom(vocab, word, start, |word|) && found == (end > start)
    ensures found ==> piece == Key(word, start, end)
  {
    end := |word|;
    while start < end
      invariant start <= end <= |word|
      invariant LongestFrom(vocab, word, start, end) == LongestFrom(vocab, word, start, |word|)
    {
      piece := word[start..end];
      if start > 0 {
        piece := CONTINUATION + piece;
      }
      if piece in vocab {
        return piece, end, true;
      }
      end := end - 1;
    }
    piece, found := [], false;
  }

  method Tokenize(vocab: Vocab, loaded: bool, word: Text) returns (pieces: seq<Text>)
    ensures pieces == Pieces(vocab, loaded, word)
  {
    if !loaded || word in vocab {
      return [word];
    }
    hide LongestFrom, Key;
    pieces := [];
    var start := 0;
    PrependNothing(GreedyFrom(vocab, word, 0));
    while start < |word|
      invariant start <= |word| && Prepend(pieces, GreedyFrom(vocab, word, start)) == GreedyFrom(vocab, word, 0)
      decreases |word| - start
    {
      var piece, end, found := LongestPiece(vocab, word, start);
      if !found {
        return [UNKNOWN];
      }
      PrependTwice(pieces, [piece], GreedyFrom(vocab, word, end));
      pieces := pieces + [piece];
      start := end;
    }
    assert pieces + [] == pieces;
  }

  lemma PrependNothing(g: Greedy)
    ensures Prepend([], g) == g
  {
    match g
    case Stuck =>
    case Found(pieces) => assert [] + pieces == pieces;
  }

  lemma PrependTwice(a: seq<Text>, b: seq<Text>, g: Greedy)
    ensures Prepend(a, Prepend(b, g)) == Prepend(a + b, g)
  {
    match g
    case Stuck =>
    case Found(pieces) => assert a + (b + pieces) == (a + b) + pieces;
  }

  // ---------------------------------------------------------------------------
  // Every piece is the longest match
  // ---------------------------------------------------------------------------

  /** No piece from `start` ending after `end` is known. */
  ghost predicate NoneAfter(vocab: Vocab, word: Text, start: nat, end: nat) {
    start <= end <= |word| && forall e :: end < e <= |word| ==> Key(word, start, e) !in vocab
  }

  /** `end` is the furthest end at which a piece from `start` is known. */
  ghost predicate IsLongest(vocab: Vocab, word: Text, start: nat, end: nat) {
    start < end && NoneAfter(vocab, word, start, end) && Key(word, start, end) in vocab
  }

  lemma {:induction false} LongestFromIsLongest(vocab: Vocab, word: Text, start: nat, limit: nat)
    requires NoneAfter(vocab, word, start, limit)
    ensures var end := LongestFrom(vocab, word, start, limit);
            if end > start then IsLongest(vocab, word, start, end) else NoneAfter(vocab, word, start, start)
    decreases limit
  {
    if limit != start && Key(word, start, limit) !in vocab {
      LongestFromIsLongest(vocab, word, start, limit - 1);
    }
  }

  /** `pieces` are the longest matches from `start` on, one after the other, ending at `end`. */
  ghost predicate IsGreedy(vocab: Vocab, word: Text, start: nat, pieces: seq<Text>, end: nat)
    decreases |pieces|
  {
    if pieces == [] then start == end
    else exists cut :: IsLongest(vocab, word, start, cut) && pieces[0] == Key(word, start, cut)
                       && IsGreedy(vocab, word, cut, pieces[1..], end)
  }

  /** The longest matches from `start` lead to a point before the end where nothing matches. */
  ghost predicate GetsStuck(vocab: Vocab, word: Text, start: nat) {
    exists pieces, end: nat ::
      IsGreedy(vocab, word, start, pieces, end) && end < |word| && NoneAfter(vocab, word, end, end)
  }

  /** The greedy pieces reach the end of the word, or there is a point they reach where nothing matches. */
  lemma {:induction false} GreedyIsLongest(vocab: Vocab, word: Text, start: nat)
    requires start <= |word|
    ensures match GreedyFrom(vocab, word, start)
            case Found(pieces) => IsGreedy(vocab, word, start, pieces, |word|)
            case Stuck => GetsStuck(vocab, word, start)
    decreases |word| - start
  {
    if start < |word| {
      LongestFromIsLongest(vocab, word, start, |word|);
      var end := LongestFrom(vocab, word, start, |word|);
      hide IsLongest, NoneAfter, Key;
      if end == start {
        assert IsGreedy(vocab, word, start, [], start);
      } else {
        GreedyIsLongest(vocab, word, end);
        var piece := Key(word, start, end);
        match GreedyFrom(vocab, word, end)
        case Found(rest) =>
          assert ([piece] + rest)[1..] == rest;
        case Stuck =>
          var rest, stuck: nat :|
            IsGreedy(vocab, word, end, rest, stuck) && stuck < |word| && NoneAfter(vocab, word, stuck, stuck);
          assert ([piece] + rest)[1..] == rest;
          assert IsGreedy(vocab, word, start, [piece] + rest, stuck);
      }
    }
  }

  lemma {:induction false} StuckStaysStuck(vocab: Vocab, word: Text, start: nat, pieces: seq<Text>, end: nat)
    requires start <= |word| && IsGreedy(vocab, word, start, pieces, end)
    requires end < |word| && NoneAfter(vocab, word, end, end)
    ensures GreedyFrom(vocab, word, start) == Stuck
    decreases |pieces|
  {
    LongestFromIsLongest(vocab, word, start, |word|);
    if pieces != [] {
      var cut: nat :| IsLongest(vocab, word, start, cut) && IsGreedy(vocab, word, cut, pieces[1..], end);
      StuckStaysStuck(vocab, word, cut, pieces[1..], end);
    }
  }

  /** With a vocabulary, a non-empty word becomes its longest matches, one after the other, and the unknown
      token exactly if these lead to a point before the end where nothing matches. */
  lemma PiecesAreLongestMatches(vocab: Vocab, word: Text)
    requires word != []
    ensures var pieces := Pieces(vocab, true, word);
            if GetsStuck(vocab, word, 0) then pieces == [UNKNOWN] else IsGreedy(vocab, word, 0, pieces, |word|)
  {
    if GetsStuck(vocab, word, 0) {
      var known, end: nat :|
        IsGreedy(vocab, word, 0, known, end) && end < |word| && NoneAfter(vocab, word, end, end);
      StuckStaysStuck(vocab, word, 0, known, end);
    }
    assert word[0..|word|] == word;
    if word in vocab {
      assert IsLongest(vocab, word, 0, |word|);
      assert IsGreedy(vocab, word, |word|, [word][1..], |word|);
    } else {
      GreedyIsLongest(vocab, word, 0);
    }
  }

  // ---------------------------------------------------------------------------
  // The pieces spell the word
  // ---------------------------------------------------------------------------

  /** The pieces joined without their continuation marks. */
  function JoinMarked(pieces: seq<Text>): Text {
    if pieces == [] then []
    else (if CONTINUATION <= pieces[0] then pieces[0][2..] else pieces[0]) + JoinMarked(pieces[1..])
  }

  /** Only the first piece has no mark. */
  function Join(pieces: seq<Text>): Text {
    if pieces == [] then [] else pieces[0] + JoinMarked(pieces[1..])
  }

  lemma {:induction false} GreedyJoins(vocab: Vocab, word: Text, start: nat)
    requires 0 < start <= |word| && GreedyFrom(vocab, word, start).Found?
    ensures JoinMarked(GreedyFrom(vocab, word, start).pieces) == word[start..]
    ensures forall piece :: piece in GreedyFrom(vocab, word, start).pieces ==> piece in vocab
    decreases |word| - start
  {
    if start < |word| {
      LongestFromIsLongest(vocab, word, start, |word|);
      var end := LongestFrom(vocab, word, start, |word|);
      GreedyJoins(vocab, word, end);
      var piece, rest := Key(word, start, end), GreedyFrom(vocab, word, end).pieces;
      assert ([piece] + rest)[1..] == rest;
      assert piece[2..] == word[start..end];
      assert word[start..] == word[start..end] + word[end..];
    }
  }

  /** With a vocabulary, the pieces are all known and spell the word, unless the word is unknown. */
  lemma PiecesSpellTheWord(vocab: Vocab, word: Text)
    ensures var pieces := Pieces(vocab, true, word);
            pieces == [UNKNOWN] || (Join(pieces) == word && forall piece :: piece in pieces ==> piece in vocab)
  {
    if word in vocab {
      assert Join([word]) == word + JoinMarked([word][1..]);
    } else if word != [] && GreedyFrom(vocab, word, 0).Found? {
      LongestFromIsLongest(vocab, word, 0, |word|);
      var end := LongestFrom(vocab, word, 0, |word|);
      GreedyJoins(vocab, word, end);
      var piece, rest := Key(word, 0, end), GreedyFrom(vocab, word, end).pieces;
      assert ([piece] + rest)[1..] == rest;
      assert word == word[0..end] + word[end..];
    }
  }

  /** The longest match is not always the right one: "abc" over "ab", "a" and "##bc" is unknown although
      "a" and "##bc" spell it. */
  lemma GreedyCanMissASpelling()
    ensures var vocab: Vocab, word: Text := map[[97] := 0, [97, 98] := 1, [35, 35, 98, 99] := 2], [97, 98, 99];
            && Pieces(vocab, true, word) == [UNKNOWN]
            && [97] in vocab && [35, 35, 98, 99] in vocab && Join([[97], [35, 35, 98, 99]]) == word
  {
    var vocab: Vocab, word: Text := map[[97] := 0, [97, 98] := 1, [35, 35, 98, 99] := 2], [97, 98, 99];
    assert Key(word, 0, 3) == [97, 98, 99] && Key(word, 0, 2) == [97, 98] && Key(word, 2, 3) == [35, 35, 99];
    assert |Key(word, 0, 3)| == 3 && |Key(word, 2, 3)| == 3;
    assert LongestFrom(vocab, word, 0, 3) == 2 && LongestFrom(vocab, word, 2, 3) == 2;
    assert GreedyFrom(vocab, word, 2) == Stuck;
    var marked: seq<Text> := [[35, 35, 98, 99]];
    assert marked[1..] == [] && [[97], [35, 35, 98, 99]][1..] == marked;
    assert JoinMarked(marked) == [98, 99];
  }
}
