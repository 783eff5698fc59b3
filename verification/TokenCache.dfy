/** The BERT tokenizer object: vocabulary, special ids, and the least-recently-used cache of word ids. */
module TokenCache {
  import opened BasicTokenizer
  import opened Sequences
  import WordPiece

  const CACHE_LIMIT: nat := 4096
  const HASH_RANGE: nat := 29522
  const HASH_MIN: nat := 1000
  /** max_length - 1 wraps around for zero. */
  const SIZE_MAX: nat := 0xFFFF_FFFF_FFFF_FFFF

  const CLS: Text := [91, 67, 76, 83, 93]
  const SEP: Text := [91, 83, 69, 80, 93]
  const PAD: Text := [91, 80, 65, 68, 93]

  /** Everything the ids depend on. */
  datatype Config = Config(vocab: WordPiece.Vocab, loaded: bool, cls: int, sep: int, pad: int, unk: int)

  function Default(): Config {
    Config(map[CLS := 101, SEP := 102, PAD := 0, WordPiece.UNKNOWN := 100], false, 101, 102, 0, 100)
  }

  // ---------------------------------------------------------------------------
  // Ids without the cache
  // ---------------------------------------------------------------------------

  function TokenId(c: Config, hash: Text -> nat, token: Text): int {
    if token in c.vocab then c.vocab[token]
    else if c.loaded then c.unk
    else hash(token) % HASH_RANGE + HASH_MIN
  }

  function Ids(c: Config, hash: Text -> nat, pieces: seq<Text>): (r: seq<int>)
    ensures |r| == |pieces| && forall i :: 0 <= i < |r| ==> r[i] == TokenId(c, hash, pieces[i])
  {
    seq(|pieces|, i requires 0 <= i < |pieces| => TokenId(c, hash, pieces[i]))
  }

  function WordIds(c: Config, hash: Text -> nat, word: Text): seq<int> {
    Ids(c, hash, WordPiece.Pieces(c.vocab, c.loaded, word))
  }

  function AllIds(c: Config, hash: Text -> nat, words: seq<Text>): seq<int> {
    if words == [] then []
    else AllIds(c, hash, words[..|words| - 1]) + WordIds(c, hash, words[|words| - 1])
  }

  function Take<T>(s: seq<T>, n: nat): (r: seq<T>)
    ensures |r| == if |s| < n then |s| else n
  {
    if |s| <= n then s else s[..n]
  }

  /** How many word ids fit between the two special ones. */
  function Room(maxLength: nat): nat {
    if maxLength == 0 then SIZE_MAX - 1 else if maxLength == 1 then 0 else maxLength - 2
  }

  function Encoding(c: Config, hash: Text -> nat, text: Text, maxLength: nat): seq<int> {
    [c.cls] + Take(AllIds(c, hash, Tokens(text)), Room(maxLength)) + [c.sep]
  }

  /** The encoding respects max_length, for every text, exactly if max_length leaves room for the two
      special tokens; the provider always passes 512. */
  lemma EncodingFitsIff(c: Config, hash: Text -> nat, maxLength: nat)
    ensures (forall text :: |Encoding(c, hash, text, maxLength)| <= maxLength) <==> maxLength >= 2
  {
    assert |Encoding(c, hash, [], maxLength)| >= 2;
  }

  // ---------------------------------------------------------------------------
  // Recency
  // ---------------------------------------------------------------------------

  function Remove(s: seq<Text>, x: Text): seq<Text> {
    if s == [] then [] else (if s[0] == x then [] else [s[0]]) + Remove(s[1..], x)
  }

  /** The words of a history of lookups, the most recent first, each once. */
  function Recent(history: seq<Text>): seq<Text> {
    if history == [] then []
    else
      var word := history[|history| - 1];
      [word] + Remove(Recent(history[..|history| - 1]), word)
  }

  lemma {:induction false} RemoveMembers(s: seq<Text>, x: Text, y: Text)
    ensures y in Remove(s, x) <==> y in s && y != x
  {
    if s != [] {
      RemoveMembers(s[1..], x, y);
      assert s == [s[0]] + s[1..];
    }
  }

  lemma {:induction false} RemoveDistinct(s: seq<Text>, x: Text)
    requires Distinct(s)
    ensures Distinct(Remove(s, x))
    ensures x !in s ==> Remove(s, x) == s
  {
    if s != [] {
      RemoveDistinct(s[1..], x);
      RemoveMembers(s[1..], x, s[0]);
      assert s == [s[0]] + s[1..];
      assert s[0] !in s[1..];
    }
  }

  lemma {:induction false} RecentDistinct(history: seq<Text>)
    ensures Distinct(Recent(history))
  {
    if history != [] {
      var word, before := history[|history| - 1], Recent(history[..|history| - 1]);
      RecentDistinct(history[..|history| - 1]);
      RemoveDistinct(before, word);
      RemoveMembers(before, word, word);
    }
  }

  lemma TakeCons(x: Text, rest: seq<Text>, n: nat)
    requires n > 0
    ensures Take([x] + rest, n) == [x] + Take(rest, n - 1)
  {
  }

  lemma RemoveCons(y: Text, rest: seq<Text>, x: Text)
    ensures Remove([y] + rest, x) == (if y == x then [] else [y]) + Remove(rest, x)
  {
    assert ([y] + rest)[1..] == rest;
  }

  /** What moving `x` to the front does to the first `n` words. */
  lemma {:induction false} TakeRemove(s: seq<Text>, x: Text, n: nat)
    requires Distinct(s) && n > 0
    ensures Take(Remove(s, x), n - 1) == if x in Take(s, n) then Remove(Take(s, n), x) else Take(s, n - 1)
  {
    if s != [] {
      var y, rest := s[0], s[1..];
      assert s == [y] + rest && y !in rest;
      hide Remove, Take;
      RemoveCons(y, rest, x);
      TakeCons(y, rest, n);
      RemoveCons(y, Take(rest, n - 1), x);
      if y == x {
        RemoveDistinct(rest, x);
        TakeInside(rest, n - 1, x);
        RemoveDistinct(Take(rest, n - 1), x);
      } else if n > 1 {
        TakeRemove(rest, x, n - 1);
        TakeCons(y, rest, n - 1);
        TakeCons(y, Remove(rest, x), n - 1);
      }
    }
  }

  lemma TakeInside(s: seq<Text>, n: nat, x: Text)
    requires Distinct(s)
    ensures Distinct(Take(s, n)) && (x in Take(s, n) ==> x in s)
  {
  }

  ghost function SetOf(s: seq<Text>): set<Text> {
    set x | x in s
  }

  lemma {:induction false} DistinctSize(s: seq<Text>)
    requires Distinct(s)
    ensures |SetOf(s)| == |s|
  {
    if s != [] {
      var n := |s| - 1;
      DistinctSize(s[..n]);
      assert s == s[..n] + [s[n]];
      assert SetOf(s) == SetOf(s[..n]) + {s[n]};
      assert s[n] !in s[..n];
    }
  }

  /** Looking up a word moves it to the front of the first `n`, or pushes the last of them out. */
  lemma LookedUp(history: seq<Text>, word: Text, n: nat)
    requires n > 0
    ensures var list := Take(Recent(history), n);
            Take(Recent(history + [word]), n) ==
              [word] + if word in list then Remove(list, word) else Take(Recent(history), n - 1)
  {
    var h := history + [word];
    assert h[..|h| - 1] == history;
    RecentDistinct(history);
    var rest := Remove(Recent(history), word);
    assert Recent(h) == [word] + rest;
    TakeRemove(Recent(history), word, n);
    hide Recent, Remove;
    assert Take([word] + rest, n) == [word] + Take(rest, n - 1);
  }

  lemma MovedToFront(list: seq<Text>, word: Text)
    requires word in list
    ensures SetOf([word] + Remove(list, word)) == SetOf(list)
  {
    forall x ensures x in [word] + Remove(list, word) <==> x in list {
      RemoveMembers(list, word, x);
    }
  }

  lemma WithoutLast(list: seq<Text>)
    requires Distinct(list) && list != []
    ensures SetOf(list[..|list| - 1]) == SetOf(list) - {list[|list| - 1]}
  {
    var last := list[|list| - 1];
    assert list == list[..|list| - 1] + [last];
    assert last !in list[..|list| - 1];
  }

  lemma WithFirst(list: seq<Text>, word: Text)
    ensures SetOf([word] + list) == SetOf(list) + {word}
  {
  }

  /** The cached ids are those of the vocabulary. */
  ghost predicate CacheFits(c: Config, hash: Text -> nat, cache: map<Text, seq<int>>) {
    forall word :: word in cache ==> cache[word] == WordIds(c, hash, word)
  }

  // ---------------------------------------------------------------------------
  // The tokenizer
  // ---------------------------------------------------------------------------

  class SimpleTokenizer {
    var config: Config
    const hash: Text -> nat
    /** Most recently used first. */
    var lruList: seq<Text>
    var tokenCache: map<Text, seq<int>>
    /** Every word ever looked up. */
    ghost var history: seq<Text>

    ghost predicate Valid()
      reads this
    {
      && lruList == Take(Recent(history), CACHE_LIMIT)
      && tokenCache.Keys == SetOf(lruList)
    }

    ghost predicate Coherent()
      reads this
    {
      CacheFits(config, hash, tokenCache)
    }

    lemma ValidMeans()
      requires Valid()
      ensures Distinct(lruList) && |lruList| == |tokenCache| <= CACHE_LIMIT
      ensures forall word :: word in tokenCache <==> word in lruList
    {
      RecentDistinct(history);
      DistinctSize(lruList);
      assert |tokenCache| == |tokenCache.Keys|;
    }

    constructor (hash: Text -> nat)
      ensures Valid() && Coherent() && config == Default() && this.hash == hash && tokenCache == map[] && history == []
    {
      config, this.hash, lruList, tokenCache, history := Default(), hash, [], map[], [];
    }

    method TouchCacheEntry(word: Text)
      requires Valid() && word in tokenCache
      modifies `lruList, `history
      ensures Valid() && history == old(history) + [word]
    {
      hide Recent, Remove, Take;
      ValidMeans();
      LookedUp(history, word, CACHE_LIMIT);
      MovedToFront(lruList, word);
      hide SetOf;
      lruList := [word] + Remove(lruList, word);
      history := history + [word];
    }

    method InsertCacheEntry(word: Text, ids: seq<int>)
      requires Valid() && word !in tokenCache
      modifies `lruList, `tokenCache, `history
      ensures Valid() && history == old(history) + [word]
      ensures word in tokenCache && tokenCache[word] == ids
      ensures forall x :: x in tokenCache && x != word ==> x in old(tokenCache) && tokenCache[x] == old(tokenCache)[x]
    {
      hide Recent;
      ValidMeans();
      LookedUp(history, word, CACHE_LIMIT);
      ghost var recent := Recent(history);
      hide SetOf, Distinct;
      if |tokenCache| >= CACHE_LIMIT && lruList != [] {
        WithoutLast(lruList);
        var last := lruList[|lruList| - 1];
        tokenCache := tokenCache - {last};
        lruList := lruList[..|lruList| - 1];
      }
      assert lruList == Take(recent, CACHE_LIMIT - 1);
      WithFirst(lruList, word);
      lruList := [word] + lruList;
      tokenCache := tokenCache[word := ids];
      history := history + [word];
    }

    method WordToTokenIds(word: Text) returns (ids: seq<int>)
      requires Valid()
      modifies `lruList, `tokenCache, `history
      ensures Valid() && history == old(history) + [word]
      ensures ids == if word in old(tokenCache) then old(tokenCache)[word] else WordIds(config, hash, word)
      ensures word in tokenCache && tokenCache[word] == ids
      ensures old(Coherent()) ==> Coherent() && ids == WordIds(config, hash, word)
    {
      hide WordIds;
      if word in tokenCache {
        ids := tokenCache[word];
        TouchCacheEntry(word);
        return;
      }
      ids := Uncached(word);
      InsertCacheEntry(word, ids);
    }

    method Uncached(word: Text) returns (ids: seq<int>)
      ensures ids == WordIds(config, hash, word)
    {
      var pieces := WordPiece.Tokenize(config.vocab, config.loaded, word);
      ids := [];
      for i := 0 to |pieces|
        invariant ids == Ids(config, hash, pieces[..i])
      {
        var id;
        if pieces[i] in config.vocab {
          id := config.vocab[pieces[i]];
        } else if config.loaded {
          id := config.unk;
        } else {
          id := hash(pieces[i]) % HASH_RANGE + HASH_MIN;
        }
        ids := ids + [id];
      }
      assert pieces[..|pieces|] == pieces;
    }

    /** The word ids of `words`, cut to the room there is; cached or not makes no difference. */
    method EncodeUnpadded(text: Text, maxLength: nat, hasLanes: bool) returns (tokenIds: seq<int>)
      requires Valid() && Coherent()
      modifies `lruList, `tokenCache, `history
      ensures Valid() && Coherent()
      ensures tokenIds == Encoding(config, hash, text, maxLength)
      ensures exists k :: 0 <= k <= |Tokens(text)| && history == old(history) + Tokens(text)[..k]
    {
      hide Valid, Coherent, WordIds, AllIds, Take, Tokens, Encoded;
      var limit := if maxLength == 0 then SIZE_MAX else maxLength - 1;
      var words := BasicTokenizer.Tokenize(text, hasLanes);
      tokenIds := [config.cls];
      ghost var before := history;
      EncodedStart(config, hash, words, maxLength);
      var i := 0;
      while i < |words| && |tokenIds| < limit
        invariant Valid() && Coherent() && 0 <= i <= |words| && history == before + words[..i]
        invariant Encoded(config, hash, words, i, maxLength, tokenIds)
        decreases |words| - i
      {
        var ids := WordToTokenIds(words[i]);
        assert words[..i + 1] == words[..i] + [words[i]];
        EncodedStep(config, hash, words, i, maxLength, tokenIds);
        tokenIds := PushUpTo(tokenIds, ids, limit);
        i := i + 1;
      }
      EncodedEnd(config, hash, text, i, maxLength, tokenIds);
      tokenIds := tokenIds + [config.sep];
    }

    /** A new vocabulary. The cache is not cleared. */
    method LoadVocab(file: WordPiece.Vocab, found: bool) returns (ok: bool)
      requires Valid()
      modifies `config
      ensures Valid() && ok == (found && file != map[])
      ensures config == if !found then old(config) else if file == map[] then old(config).(vocab := map[])
                        else Loaded(old(config), file)
      ensures tokenCache == old(tokenCache)
      ensures tokenCache == map[] ==> Coherent()
    {
      if !found {
        return false;
      }
      config := config.(vocab := file);
      if file == map[] {
        return false;
      }
      config := Loaded(config, file);
      ok := true;
    }
  }

  /** The ids in `ids` are appended until `limit` is reached. */
  method PushUpTo(tokenIds: seq<int>, ids: seq<int>, limit: nat) returns (r: seq<int>)
    requires |tokenIds| < limit
    ensures r == tokenIds + Take(ids, limit - |tokenIds|)
  {
    r := tokenIds;
    var k := 0;
    while k < |ids| && |r| < limit
      invariant 0 <= k <= |ids| && |r| <= limit && r == tokenIds + ids[..k]
    {
      r := r + [ids[k]];
      k := k + 1;
    }
    assert ids[..k] == Take(ids, limit - |tokenIds|);
  }

  /** The ids of the first `i` words, as far as there is room. */
  ghost predicate Encoded(c: Config, hash: Text -> nat, words: seq<Text>, i: nat, maxLength: nat, tokenIds: seq<int>)
    requires i <= |words|
  {
    tokenIds == [c.cls] + Take(AllIds(c, hash, words[..i]), Room(maxLength))
  }

  lemma EncodedStart(c: Config, hash: Text -> nat, words: seq<Text>, maxLength: nat)
    ensures Encoded(c, hash, words, 0, maxLength, [c.cls])
  {
    assert words[..0] == [];
  }

  lemma EncodedStep(c: Config, hash: Text -> nat, words: seq<Text>, i: nat, maxLength: nat, tokenIds: seq<int>)
    requires i < |words| && Encoded(c, hash, words, i, maxLength, tokenIds)
    requires |tokenIds| < if maxLength == 0 then SIZE_MAX else maxLength - 1
    ensures var room := (if maxLength == 0 then SIZE_MAX else maxLength - 1) - |tokenIds|;
            Encoded(c, hash, words, i + 1, maxLength, tokenIds + Take(WordIds(c, hash, words[i]), room))
  {
    hide WordIds;
    assert words[..i + 1][..i] == words[..i];
    TakeMore(AllIds(c, hash, words[..i]), WordIds(c, hash, words[i]), Room(maxLength));
  }

  /** The loop ends with the words, or when there is no room for more. */
  lemma EncodedEnd(c: Config, hash: Text -> nat, text: Text, i: nat, maxLength: nat, tokenIds: seq<int>)
    requires i <= |Tokens(text)| && Encoded(c, hash, Tokens(text), i, maxLength, tokenIds)
    requires i == |Tokens(text)| || |tokenIds| >= if maxLength == 0 then SIZE_MAX else maxLength - 1
    ensures tokenIds + [c.sep] == Encoding(c, hash, text, maxLength)
  {
    hide WordIds, Tokens;
    var words := Tokens(text);
    AllIdsPrefix(c, hash, words, i);
    assert words[..|words|] == words;
    hide AllIds;
    TakeEnough(AllIds(c, hash, words[..i]), AllIds(c, hash, words), Room(maxLength), i == |words|);
  }

  lemma TakeMore(a: seq<int>, b: seq<int>, n: nat)
    ensures Take(a + b, n) == Take(a, n) + Take(b, n - |Take(a, n)|)
  {
  }

  lemma {:induction false} AllIdsPrefix(c: Config, hash: Text -> nat, words: seq<Text>, i: nat)
    requires i <= |words|
    ensures AllIds(c, hash, words[..i]) <= AllIds(c, hash, words)
    decreases |words|
  {
    if i == |words| {
      assert words[..i] == words;
    } else {
      var n := |words| - 1;
      AllIdsPrefix(c, hash, words[..n], i);
      assert words[..n][..i] == words[..i];
    }
  }

  lemma TakeEnough(a: seq<int>, b: seq<int>, n: nat, whole: bool)
    requires a <= b && (whole ==> a == b) && (whole || |a| >= n)
    ensures Take(a, n) == Take(b, n)
  {
  }

  function Lookup(vocab: WordPiece.Vocab, token: Text, fallback: int): int {
    if token in vocab then vocab[token] else fallback
  }

  /** The special ids come from the vocabulary if it has them. */
  function Loaded(c: Config, vocab: WordPiece.Vocab): Config {
    Config(vocab, true, Lookup(vocab, CLS, c.cls), Lookup(vocab, SEP, c.sep), Lookup(vocab, PAD, c.pad),
           Lookup(vocab, WordPiece.UNKNOWN, c.unk))
  }

  /** Every line has a number, that of its last occurrence. */
  ghost predicate NumbersLines(lines: seq<Text>, vocab: WordPiece.Vocab) {
    && (forall token :: token in vocab <==> exists i :: 0 <= i < |lines| && Line(lines[i]) == token)
    && (forall token :: token in vocab ==>
         && 0 <= vocab[token] < |lines| && Line(lines[vocab[token]]) == token
         && forall j :: vocab[token] < j < |lines| ==> Line(lines[j]) != token)
  }

  /** The lines of a vocabulary file are numbered from zero; a trailing carriage return does not count. */
  method ReadVocab(lines: seq<Text>) returns (vocab: WordPiece.Vocab)
    ensures NumbersLines(lines, vocab)
  {
    vocab := map[];
    for id := 0 to |lines|
      invariant forall token :: token in vocab <==> exists i :: 0 <= i < id && Line(lines[i]) == token
      invariant forall token :: token in vocab ==>
                  && 0 <= vocab[token] < id && Line(lines[vocab[token]]) == token
                  && forall j :: vocab[token] < j < id ==> Line(lines[j]) != token
    {
      vocab := vocab[Line(lines[id]) := id];
    }
  }

  function Line(raw: Text): Text {
    if raw != [] && raw[|raw| - 1] == 13 then raw[..|raw| - 1] else raw
  }

  /** The vocabulary that consists of `word` alone, repeated. */
  lemma OnlyWord(word: Text, lines: seq<Text>)
    requires lines != [] && forall i :: 0 <= i < |lines| ==> Line(lines[i]) == word
    ensures NumbersLines(lines, map[word := |lines| - 1])
  {
    assert Line(lines[0]) == word;
  }

  lemma OnlyWordIds(c: Config, hash: Text -> nat, word: Text, id: int)
    ensures WordIds(Loaded(c, map[word := id]), hash, word) == [id]
  {
    assert WordPiece.Pieces(map[word := id], true, word) == [word];
  }

  /** Whatever the next vocabulary is, its load leaves the cached ids right: exactly if nothing is cached. */
  lemma LoadKeepsCacheIff(c: Config, hash: Text -> nat, cache: map<Text, seq<int>>)
    ensures (forall lines, vocab :: lines != [] && NumbersLines(lines, vocab) ==>
               CacheFits(Loaded(c, vocab), hash, cache))
            <==> cache == map[]
  {
    hide NumbersLines, Loaded, WordIds;
    if word :| word in cache {
      var line := word + [13];
      assert Line(line) == word;
      // two vocabularies that give the word different ids
      OnlyWord(word, [line]);
      OnlyWord(word, [line, line]);
      OnlyWordIds(c, hash, word, 0);
      OnlyWordIds(c, hash, word, 1);
      assert !CacheFits(Loaded(c, map[word := 0]), hash, cache) || !CacheFits(Loaded(c, map[word := 1]), hash, cache);
    } else {
      assert cache == map[];
    }
  }

  /** A word looked up before the vocabulary is loaded keeps its old ids after it. */
  method LookupAcrossLoad(hash: Text -> nat, word: Text, lines: seq<Text>)
    returns (before: seq<int>, after: seq<int>, config: Config)
    ensures before == after == WordIds(Default(), hash, word) && NumbersLines(lines, config.vocab)
    ensures config == if lines == [] then Default().(vocab := map[]) else Loaded(Default(), config.vocab)
  {
    hide WordIds, NumbersLines, Default, Recent, Take, SetOf;
    var tokenizer := new SimpleTokenizer(hash);
    before := tokenizer.WordToTokenIds(word);
    var vocab := ReadVocab(lines);
    NoLinesNoTokens(lines, vocab);
    var ok := tokenizer.LoadVocab(vocab, true);
    after := tokenizer.WordToTokenIds(word);
    config := tokenizer.config;
  }

  /** With the vocabulary of the single line "a" these ids are wrong for the word "a", whatever the hash. */
  lemma CacheGoesStaleOnLoad(hash: Text -> nat, vocab: WordPiece.Vocab)
    requires NumbersLines([[97]], vocab)
    ensures WordIds(Default(), hash, [97]) != WordIds(Loaded(Default(), vocab), hash, [97])
  {
    var word: Text := [97];
    assert Line([word][0]) == word && vocab == map[word := 0];
    assert |CLS| == |SEP| == |PAD| == |WordPiece.UNKNOWN| == 5 && |word| == 1;
    assert WordIds(Default(), hash, word)[0] == hash(word) % HASH_RANGE + HASH_MIN;
    OnlyWordIds(Default(), hash, word, 0);
  }

  /** Any number of texts through one tokenizer. */
  method EncodeAll(tokenizer: SimpleTokenizer, texts: seq<Text>, maxLength: nat, hasLanes: bool)
    returns (encodings: seq<seq<int>>)
    requires tokenizer.Valid() && tokenizer.Coherent()
    modifies tokenizer
    ensures tokenizer.config == old(tokenizer.config) && |encodings| == |texts|
    ensures forall i :: 0 <= i < |texts| ==>
              encodings[i] == Encoding(tokenizer.config, tokenizer.hash, texts[i], maxLength)
  {
    hide *;
    encodings := [];
    for i := 0 to |texts|
      invariant tokenizer.Valid() && tokenizer.Coherent() && tokenizer.config == old(tokenizer.config)
      invariant |encodings| == i
      invariant forall k :: 0 <= k < i ==>
                  encodings[k] == Encoding(tokenizer.config, tokenizer.hash, texts[k], maxLength)
    {
      var ids := tokenizer.EncodeUnpadded(texts[i], maxLength, hasLanes);
      encodings := encodings + [ids];
    }
  }

  /** An encoding is framed by the special ids of the vocabulary, or else by 101 and 102. */
  lemma EncodingEnds(c: Config, vocab: WordPiece.Vocab, hash: Text -> nat, text: Text, maxLength: nat)
    requires c == Loaded(Default(), vocab)
    ensures var encoding := Encoding(c, hash, text, maxLength);
            && |encoding| >= 2
            && encoding[0] == (if CLS in vocab then vocab[CLS] else 101)
            && encoding[|encoding| - 1] == (if SEP in vocab then vocab[SEP] else 102)
  {
    assert CLS != SEP && CLS != PAD && SEP != PAD;
  }

  /** The ids of words that are in the vocabulary themselves are their numbers; a word that has no spelling gets
      the number of the unknown token, or 100 if there is none. */
  lemma IdsOfWord(c: Config, vocab: WordPiece.Vocab, hash: Text -> nat, word: Text)
    requires c == Loaded(Default(), vocab)
    ensures word in vocab ==> WordIds(c, hash, word) == [vocab[word]]
    ensures WordPiece.Pieces(vocab, true, word) == [WordPiece.UNKNOWN] ==>
              WordIds(c, hash, word)
              == [if WordPiece.UNKNOWN in vocab then vocab[WordPiece.UNKNOWN] else 100]
  {
    assert WordIds(c, hash, word) == Ids(c, hash, WordPiece.Pieces(vocab, true, word));
  }

  predicate AllKnown(vocab: WordPiece.Vocab, words: seq<Text>) {
    forall i :: 0 <= i < |words| ==> words[i] in vocab
  }

  lemma {:induction false} KnownWordsKeepTheirNumbers(c: Config, vocab: WordPiece.Vocab, hash: Text -> nat,
      words: seq<Text>)
    requires c == Loaded(Default(), vocab) && AllKnown(vocab, words)
    ensures |AllIds(c, hash, words)| == |words|
    ensures forall i :: 0 <= i < |words| ==> AllIds(c, hash, words)[i] == vocab[words[i]]
  {
    hide WordIds, Loaded, Default;
    if words != [] {
      var n := |words| - 1;
      KnownWordsKeepTheirNumbers(c, vocab, hash, words[..n]);
      IdsOfWord(c, vocab, hash, words[n]);
    }
  }

  /** A text of words from the vocabulary that fits is encoded as [CLS], their numbers in order, and [SEP]. */
  lemma KnownTextIsNumbered(c: Config, vocab: WordPiece.Vocab, hash: Text -> nat, text: Text, maxLength: nat)
    requires c == Loaded(Default(), vocab) && AllKnown(vocab, Tokens(text)) && |Tokens(text)| + 2 <= maxLength
    ensures var encoding, n := Encoding(c, hash, text, maxLength), |Tokens(text)|;
            && |encoding| == n + 2
            && encoding[0] == (if CLS in vocab then vocab[CLS] else 101)
            && encoding[n + 1] == (if SEP in vocab then vocab[SEP] else 102)
            && forall i :: 0 <= i < n ==> encoding[i + 1] == vocab[Tokens(text)[i]]
  {
    EncodingEnds(c, vocab, hash, text, maxLength);
    hide Loaded, Default, AllIds, Tokens;
    KnownWordsKeepTheirNumbers(c, vocab, hash, Tokens(text));
    assert Take(AllIds(c, hash, Tokens(text)), Room(maxLength)) == AllIds(c, hash, Tokens(text));
  }

  lemma NoLinesNoTokens(lines: seq<Text>, vocab: WordPiece.Vocab)
    requires NumbersLines(lines, vocab)
    ensures vocab == map[] <==> lines == []
  {
    if lines != [] {
      assert Line(lines[0]) in vocab;
    } else {
      assert forall token :: token !in vocab;
    }
  }

  /** A tokenizer whose vocabulary is loaded before its first use, through any number of texts: every
      encoding is the one computed without a cache. */
  method EncodeTexts(hash: Text -> nat, lines: seq<Text>, texts: seq<Text>, maxLength: nat, hasLanes: bool)
    returns (encodings: seq<seq<int>>, config: Config)
    ensures |encodings| == |texts|
    ensures forall i :: 0 <= i < |texts| ==> encodings[i] == Encoding(config, hash, texts[i], maxLength)
    ensures NumbersLines(lines, config.vocab)
    ensures config == if lines == [] then Default().(vocab := map[]) else Loaded(Default(), config.vocab)
  {
    hide Encoding, WordIds, NumbersLines, Default;
    var tokenizer := new SimpleTokenizer(hash);
    var vocab := ReadVocab(lines);
    NoLinesNoTokens(lines, vocab);
    var ok := tokenizer.LoadVocab(vocab, true);
    assert tokenizer.Coherent();
    encodings := EncodeAll(tokenizer, texts, maxLength, hasLanes);
    config := tokenizer.config;
  }
}
