/** rac_llm_llamacpp_generate_stream: caller-supplied stops over the backend's chunks, with token
    accounting per chunk and exactly one terminal marker. */
module CallerStops {
  import opened Sequences
  import opened StopSequences

  datatype Event = Delta(text: Text, tokens: nat) | Final

  datatype PendingPiece = PendingPiece(text: Text, counted: bool)

  /** How the backend call ends once it delivers no more chunks. */
  datatype Finish = Returned(ok: bool) | Threw

  datatype Status = Success | InferenceFailed

  function TextOf(events: seq<Event>): Text {
    if events == [] then []
    else
      var e := events[|events| - 1];
      TextOf(events[..|events| - 1]) + (if e.Delta? then e.text else [])
  }

  function TokensOf(events: seq<Event>): nat {
    if events == [] then 0
    else
      var e := events[|events| - 1];
      TokensOf(events[..|events| - 1]) + (if e.Delta? then e.tokens else 0)
  }

  lemma EventsSnoc(events: seq<Event>, e: Event)
    ensures TextOf(events + [e]) == TextOf(events) + (if e.Delta? then e.text else [])
    ensures TokensOf(events + [e]) == TokensOf(events) + (if e.Delta? then e.tokens else 0)
  {
    assert (events + [e])[..|events|] == events;
  }

  /** Every event but the last is a delta, and the last is the terminal marker. */
  ghost predicate OneTerminalLast(events: seq<Event>) {
    && events != [] && events[|events| - 1].Final?
    && forall i :: 0 <= i < |events| - 1 ==> events[i].Delta?
  }

  /** How many pieces start before byte `e` of their concatenation; for non-empty pieces, how many
      have at least one byte among the first `e`. */
  ghost function Started(pieces: seq<Text>, e: nat): nat {
    if pieces == [] then 0
    else
      var front := pieces[..|pieces| - 1];
      Started(front, e) + (if |Concat(front)| < e then 1 else 0)
  }

  lemma {:induction false} ConcatLength(pieces: seq<Text>, i: nat)
    requires i <= |pieces|
    ensures |Concat(pieces[..i])| <= |Concat(pieces)|
    ensures Concat(pieces) == Concat(pieces[..i]) + Concat(pieces[i..])
  {
    ConcatAppend(pieces[..i], pieces[i..]);
    assert pieces == pieces[..i] + pieces[i..];
  }

  /** Pieces before `n` start before `e`, the others do not. */
  lemma {:induction false} StartedIs(pieces: seq<Text>, e: nat, n: nat)
    requires n <= |pieces|
    requires forall i :: 0 <= i < n ==> |Concat(pieces[..i])| < e
    requires n < |pieces| ==> |Concat(pieces[..n])| >= e
    ensures Started(pieces, e) == n
    decreases |pieces|
  {
    if pieces != [] {
      var front := pieces[..|pieces| - 1];
      assert forall i :: 0 <= i <= |front| ==> front[..i] == pieces[..i];
      if n == |pieces| {
        StartedIs(front, e, n - 1);
      } else {
        ConcatLength(front, n);
        StartedIs(front, e, n);
      }
    }
  }

  // ---------------------------------------------------------------------------
  // The queue of pending pieces
  // ---------------------------------------------------------------------------

  /** The queue holds exactly the chunks that are not entirely out, the front one trimmed by the
      `cut` bytes of it that are out and then marked as counted. */
  ghost predicate QueueOf(pieces: seq<Text>, popped: nat, cut: nat, pending: seq<PendingPiece>) {
    && popped + |pending| == |pieces|
    && (pending == [] ==> cut == 0)
    && (pending != [] ==> cut <= |pieces[popped]| && pending[0] == PendingPiece(pieces[popped][cut..], cut > 0))
    && (forall i :: 1 <= i < |pending| ==> pending[i] == PendingPiece(pieces[popped + i], false))
  }

  /** The bytes that are out. */
  ghost function OutOf(pieces: seq<Text>, popped: nat, cut: nat): Text
    requires popped <= |pieces| && (popped < |pieces| ==> cut <= |pieces[popped]|)
  {
    Concat(pieces[..popped]) + (if popped < |pieces| then pieces[popped][..cut] else [])
  }

  lemma PopWhole(pieces: seq<Text>, popped: nat, cut: nat, pending: seq<PendingPiece>)
    requires QueueOf(pieces, popped, cut, pending) && pending != []
    ensures QueueOf(pieces, popped + 1, 0, pending[1..])
    ensures OutOf(pieces, popped + 1, 0) == OutOf(pieces, popped, cut) + pending[0].text
    ensures |Concat(pieces[..popped])| <= |OutOf(pieces, popped, cut)|
  {
    assert pieces[..popped + 1] == pieces[..popped] + [pieces[popped]];
    ConcatSnoc(pieces[..popped], pieces[popped]);
    assert pieces[popped] == pieces[popped][..cut] + pieces[popped][cut..];
    if popped + 1 < |pieces| {
      assert pending[1..][0] == pending[1] && pieces[popped + 1][0..] == pieces[popped + 1];
    }
  }

  function TextsOf(pending: seq<PendingPiece>): (texts: seq<Text>)
    ensures |texts| == |pending|
  {
    seq(|pending|, i requires 0 <= i < |pending| => pending[i].text)
  }

  /** What is out followed by the pending pieces is everything delivered. */
  lemma OutThenPending(pieces: seq<Text>, popped: nat, cut: nat, pending: seq<PendingPiece>)
    requires QueueOf(pieces, popped, cut, pending)
    ensures Concat(pieces) == OutOf(pieces, popped, cut) + Concat(TextsOf(pending))
  {
    var head, tail, texts := pieces[..popped], pieces[popped..], TextsOf(pending);
    assert pieces == head + tail;
    ConcatAppend(head, tail);
    if pending != [] {
      FrontTrimmed(tail, texts, cut);
      Assoc(Concat(head), pieces[popped][..cut], Concat(texts));
    } else {
      assert tail == [] && texts == [];
    }
  }

  lemma FrontTrimmed(tail: seq<Text>, texts: seq<Text>, cut: nat)
    requires tail != [] && |texts| == |tail| && cut <= |tail[0]| && texts[0] == tail[0][cut..]
    requires forall i :: 1 <= i < |tail| ==> texts[i] == tail[i]
    ensures Concat(tail) == tail[0][..cut] + Concat(texts)
  {
    var rest := tail[1..];
    assert tail == [tail[0]] + rest && texts == [texts[0]] + rest;
    ConcatCons(tail[0], rest);
    ConcatCons(texts[0], rest);
    assert tail[0] == tail[0][..cut] + texts[0];
    Assoc(tail[0][..cut], texts[0], Concat(rest));
  }

  lemma PopPart(pieces: seq<Text>, popped: nat, cut: nat, pending: seq<PendingPiece>, n: nat)
    requires QueueOf(pieces, popped, cut, pending) && pending != [] && 0 < n < |pending[0].text|
    ensures QueueOf(pieces, popped, cut + n, [PendingPiece(pending[0].text[n..], true)] + pending[1..])
    ensures OutOf(pieces, popped, cut + n) == OutOf(pieces, popped, cut) + pending[0].text[..n]
  {
    assert pieces[popped][..cut + n] == pieces[popped][..cut] + pieces[popped][cut..][..n];
  }

  lemma QueueEmpty(pieces: seq<Text>, popped: nat, cut: nat, pending: seq<PendingPiece>)
    requires QueueOf(pieces, popped, cut, pending) && pending == []
    ensures OutOf(pieces, popped, cut) == Concat(pieces)
  {
    assert pieces[..popped] == pieces;
  }

  lemma Pushed(pieces: seq<Text>, popped: nat, cut: nat, pending: seq<PendingPiece>, token: Text)
    requires QueueOf(pieces, popped, cut, pending)
    ensures QueueOf(pieces + [token], popped, cut, pending + [PendingPiece(token, false)])
    ensures OutOf(pieces + [token], popped, cut) == OutOf(pieces, popped, cut)
    ensures forall i :: 0 <= i <= popped ==> (pieces + [token])[..i] == pieces[..i]
  {
    var more := pieces + [token];
    assert more[..popped] == pieces[..popped];
    if pending == [] {
      assert more[popped][0..] == token;
    }
  }

  ghost function Counted(popped: nat, cut: nat): nat {
    popped + if cut > 0 then 1 else 0
  }

  /** A chunk left the queue only before the `e`-th byte went out. */
  ghost predicate PoppedBefore(pieces: seq<Text>, popped: nat, e: int)
    requires popped <= |pieces|
  {
    forall i :: 0 <= i < popped ==> |Concat(pieces[..i])| < e
  }

  /** What the queue counted is the number of chunks started before the end of the output. */
  lemma CountedIsStarted(pieces: seq<Text>, popped: nat, cut: nat, pending: seq<PendingPiece>)
    requires QueueOf(pieces, popped, cut, pending)
    requires PoppedBefore(pieces, popped, |OutOf(pieces, popped, cut)|)
    ensures Started(pieces, |OutOf(pieces, popped, cut)|) == Counted(popped, cut)
  {
    var e := |OutOf(pieces, popped, cut)|;
    if cut > 0 {
      PopWhole(pieces, popped, cut, pending);
      assert |Concat(pieces[..popped + 1])| >= e;
    }
    StartedIs(pieces, e, Counted(popped, cut));
  }

  class StopFilter {
    const stops: seq<Text>
    const maxLen: nat
    var window: Text
    var pending: seq<PendingPiece>
    var stopHit: bool
    var completionTokens: nat
    var terminalEmitted: bool
    var events: seq<Event>
    // Ghost bookkeeping: the chunks delivered so far, how many of them left the queue, and how
    // many bytes of the front one are out already.
    ghost var pieces: seq<Text>
    ghost var popped: nat
    ghost var cut: nat

    /** Takes the first `nbytes` bytes off the queue, counting every piece on its first byte. */
    method PopBytes(nbytes: nat) returns (out: Text, tokensInDelta: nat)
      requires QueueOf(pieces, popped, cut, pending)
      requires nbytes <= |Concat(pieces)| - |OutOf(pieces, popped, cut)|
      requires PoppedBefore(pieces, popped, |OutOf(pieces, popped, cut)|)
      modifies this`pending, this`popped, this`cut
      ensures QueueOf(pieces, popped, cut, pending)
      ensures OutOf(pieces, popped, cut) == old(OutOf(pieces, popped, cut)) + out && |out| == nbytes
      ensures Counted(popped, cut) == old(Counted(popped, cut)) + tokensInDelta
      ensures PoppedBefore(pieces, popped, |OutOf(pieces, popped, cut)|)
    {
      hide Concat, OutOf;
      out, tokensInDelta := [], 0;
      var remain: nat := nbytes;
      ghost var before := OutOf(pieces, popped, cut);
      while remain > 0 && pending != []
        invariant QueueOf(pieces, popped, cut, pending)
        invariant OutOf(pieces, popped, cut) == before + out && |out| + remain == nbytes
        invariant Counted(popped, cut) == old(Counted(popped, cut)) + tokensInDelta
        invariant PoppedBefore(pieces, popped, |before| + nbytes)
        decreases |pending|, remain
      {
        var piece := pending[0];
        PopWhole(pieces, popped, cut, pending);
        if |piece.text| <= remain {
          Assoc(before, out, piece.text);
          out := out + piece.text;
          remain := remain - |piece.text|;
          if !piece.counted {
            tokensInDelta := tokensInDelta + 1;
          }
          pending := pending[1..];
          popped, cut := popped + 1, 0;
        } else {
          PopPart(pieces, popped, cut, pending, remain);
          Assoc(before, out, piece.text[..remain]);
          out := out + piece.text[..remain];
          pending := [PendingPiece(piece.text[remain..], true)] + pending[1..];
          cut := cut + remain;
          remain := 0;
          if !piece.counted {
            tokensInDelta := tokensInDelta + 1;
          }
        }
      }
      if pending == [] {
        QueueEmpty(pieces, popped, cut, pending);
        assert |before + out| == |Concat(pieces)|;
      }
    }

    /** Nothing is lost and everything out is counted; pending pieces concatenate to the window. */
    ghost predicate Conserved()
      reads this
    {
      && QueueOf(pieces, popped, cut, pending)
      && PoppedBefore(pieces, popped, |OutOf(pieces, popped, cut)|)
      && Concat(pieces) == OutOf(pieces, popped, cut) + window
      && TextOf(events) == OutOf(pieces, popped, cut)
      && TokensOf(events) == completionTokens == Counted(popped, cut)
    }

    /** No terminal marker so far. */
    ghost predicate Open()
      reads this
    {
      !terminalEmitted && forall i :: 0 <= i < |events| ==> events[i].Delta?
    }

    /** The pending pieces always concatenate to the stop window. */
    lemma PendingIsWindow()
      requires Conserved()
      ensures Concat(TextsOf(pending)) == window
    {
      OutThenPending(pieces, popped, cut, pending);
      Cancel(OutOf(pieces, popped, cut), Concat(TextsOf(pending)), window);
    }

    /** emit_bytes: hands the first `nbytes` of the window to the callback, whose answer it returns. */
    method EmitBytes(nbytes: nat, answers: nat -> bool) returns (ok: bool)
      requires Conserved() && Open() && nbytes <= |window|
      modifies this`window, this`pending, this`completionTokens, this`events, this`popped, this`cut
      ensures Conserved() && Open()
      ensures TextOf(events) == old(TextOf(events)) + old(window)[..nbytes] && window == old(window)[nbytes..]
      ensures ok <==> nbytes == 0 || answers(old(|events|))
      ensures old(events) <= events && |events| == old(|events|) + if nbytes == 0 then 0 else 1
    {
      hide Concat, TextOf, TokensOf, OutOf;
      if nbytes == 0 {
        assert window[..0] == [] && window[0..] == window;
        return true;
      }
      ghost var before := OutOf(pieces, popped, cut);
      var out, tokensInDelta := PopBytes(nbytes);
      ghost var rest := Concat(TextsOf(pending));
      OutThenPending(pieces, popped, cut, pending);
      Assoc(before, out, rest);
      Cancel(before, window, out + rest);
      window := window[nbytes..];
      completionTokens := completionTokens + tokensInDelta;
      EventsSnoc(events, Delta(out, tokensInDelta));
      ok := answers(|events|);
      events := events + [Delta(out, tokensInDelta)];
    }

    /** Before any stop was hit: no stop in anything delivered, and the window still covers the
        longest stop once bytes are out. */
    ghost predicate Scanning()
      reads this
    {
      && stops != [] && NonEmptyStops(stops) && NoLongerThan(stops, maxLen)
      && Conserved() && Open() && !stopHit
      && StopFree(stops, Concat(pieces))
      && (TextOf(events) == [] || |window| >= maxLen)
      && |window| <= maxLen
    }

    /** After a stop was hit: what is out is the delivered text truncated at its first stop. */
    ghost predicate Stopped()
      reads this
    {
      && stops != [] && NonEmptyStops(stops)
      && Open() && stopHit && window == [] && pending == []
      && IsTruncation(stops, Concat(pieces), TextOf(events)) && !StopFree(stops, Concat(pieces))
      && TokensOf(events) == completionTokens == Started(pieces, |TextOf(events)|)
    }

    constructor (stops: seq<Text>, maxLen: nat)
      ensures this.stops == stops && this.maxLen == maxLen
      ensures events == [] && pieces == [] && completionTokens == 0
      ensures Conserved() && Open() && !stopHit && window == []
    {
      this.stops, this.maxLen := stops, maxLen;
      window, pending, stopHit, completionTokens, terminalEmitted, events := [], [], false, 0, false, [];
      pieces, popped, cut := [], 0, 0;
    }

    /** Everything delivered is out or in the window. */
    lemma OutAndWindow()
      requires Conserved()
      ensures Concat(pieces) == TextOf(events) + window
    {
    }

    method Admit(token: Text)
      requires Scanning()
      modifies this`window, this`pending, this`pieces
      ensures pieces == old(pieces) + [token] && events == old(events)
      ensures Conserved() && Open() && (TextOf(events) == [] || |window| >= maxLen)
      ensures StopFree(stops, window) ==> StopFree(stops, Concat(pieces))
      ensures forall p :: IsFirstStop(stops, window, p) ==> IsFirstStop(stops, Concat(pieces), |TextOf(events)| + p)
    {
      ghost var before := OutOf(pieces, popped, cut);
      ConcatSnoc(pieces, token);
      Pushed(pieces, popped, cut, pending, token);
      WindowSeesFirstStop(stops, maxLen, before, window, token);
      Assoc(before, window, token);
      window := window + token;
      pending := pending + [PendingPiece(token, false)];
      pieces := pieces + [token];
    }

    method HitStop(pos: nat, answers: nat -> bool)
      requires stops != [] && NonEmptyStops(stops)
      requires Conserved() && Open() && pos <= |window|
      requires IsFirstStop(stops, Concat(pieces), |TextOf(events)| + pos)
      modifies this`window, this`pending, this`completionTokens, this`events, this`popped, this`cut, this`stopHit
      ensures Stopped() && old(events) <= events && |events| <= old(|events|) + 1
    {
      hide OutOf, Concat, TextOf, QueueOf, PoppedBefore, Started, TokensOf;
      OutAndWindow();
      assert TextOf(events) + window[..pos] <= TextOf(events) + window;
      if pos > 0 {
        var _ := EmitBytes(pos, answers);
      } else {
        assert TextOf(events) + window[..0] == TextOf(events);
      }
      CountedIsStarted(pieces, popped, cut, pending);
      window, pending, stopHit := [], [], true;
    }

    method ReleaseSafe(answers: nat -> bool) returns (goOn: bool)
      requires stops != [] && NonEmptyStops(stops) && NoLongerThan(stops, maxLen)
      requires Conserved() && Open() && !stopHit && |window| > maxLen
      requires StopFree(stops, Concat(pieces))
      modifies this`window, this`pending, this`completionTokens, this`events, this`popped, this`cut
      ensures Scanning()
      ensures old(events) <= events && |events| == old(|events|) + 1 && (goOn <==> answers(old(|events|)))
    {
      goOn := EmitBytes(|window| - maxLen, answers);
    }

    /** The window lambda: one chunk from the backend; the result says whether to go on. */
    method OnToken(token: Text, answers: nat -> bool) returns (goOn: bool)
      requires Scanning()
      modifies this
      ensures pieces == old(pieces) + [token]
      ensures if stopHit then Stopped() && !goOn else Scanning()
      ensures old(events) <= events && |events| <= old(|events|) + 1
      ensures !stopHit ==> (goOn <==> |events| == old(|events|) || answers(old(|events|)))
    {
      hide StopFree, IsFirstStop, OutOf, Concat, TextOf, NonEmptyStops, NoLongerThan, QueueOf, PoppedBefore, Started,
           TokensOf, IsTruncation;
      Admit(token);
      var found, pos := FindFirstStopSequence(window, stops);
      if found {
        StopStartsInside(stops, window, pos);
        HitStop(pos, answers);
        return false;
      }
      goOn := true;
      if |window| > maxLen {
        goOn := ReleaseSafe(answers);
      }
    }

    /** Without caller stops every chunk goes straight through, one token each. */
    ghost predicate Direct()
      reads this
    {
      && stops == [] && Open() && !stopHit && window == []
      && TextOf(events) == Concat(pieces)
      && TokensOf(events) == completionTokens == |pieces| == |events|
    }

    method OnTokenDirect(token: Text, answers: nat -> bool) returns (goOn: bool)
      requires Direct()
      modifies this`completionTokens, this`events, this`pieces
      ensures Direct() && pieces == old(pieces) + [token]
      ensures goOn <==> answers(old(|events|))
    {
      ConcatSnoc(pieces, token);
      EventsSnoc(events, Delta(token, 1));
      completionTokens := completionTokens + 1;
      goOn := answers(|events|);
      events := events + [Delta(token, 1)];
      pieces := pieces + [token];
    }

    /** The flush of a tail held back as a possible stop prefix. */
    method Flush(answers: nat -> bool)
      requires Scanning()
      modifies this`window, this`pending, this`completionTokens, this`events, this`popped, this`cut
      ensures Open() && pieces == old(pieces) && TextOf(events) == Concat(pieces)
      ensures TokensOf(events) == completionTokens == Started(pieces, |TextOf(events)|)
      ensures old(events) <= events && |events| <= old(|events|) + 1
    {
      hide OutOf, Concat, TextOf, QueueOf, PoppedBefore, Started, TokensOf;
      OutAndWindow();
      if window != [] {
        assert window[..|window|] == window;
        var _ := EmitBytes(|window|, answers);
      } else {
        assert TextOf(events) + window == TextOf(events);
      }
      CountedIsStarted(pieces, popped, cut, pending);
    }

    /** The state between two calls of the lambda; only the last answer may have been a refusal. */
    ghost predicate Progress(goOn: bool, answers: nat -> bool)
      reads this
    {
      && (if stops == [] then Direct() else if stopHit then Stopped() && !goOn else Scanning())
      && (forall i :: 0 <= i < |events| - (if goOn then 0 else 1) ==> answers(i))
      && (!stopHit && !goOn ==> events != [] && !answers(|events| - 1))
    }

    method OnChunk(token: Text, answers: nat -> bool) returns (goOn: bool)
      requires Progress(true, answers)
      modifies this
      ensures Progress(goOn, answers) && pieces == old(pieces) + [token]
    {
      hide Scanning, Stopped, Conserved;
      if stops == [] {
        goOn := OnTokenDirect(token, answers);
      } else {
        assert Scanning();
        goOn := OnToken(token, answers);
      }
    }

    /** What holds of the deltas when the backend is done, before any flush. */
    lemma ProgressSoFar(goOn: bool, answers: nat -> bool)
      requires Progress(goOn, answers)
      ensures Open() && TextOf(events) <= Concat(pieces) && StopFree(stops, TextOf(events))
      ensures AcceptedUpTo(answers, |events| - 1)
      ensures !stopHit && !goOn ==> SomeRefused(answers, |events|)
      ensures stopHit <==> !StopFree(stops, Concat(pieces))
      ensures stopHit ==> IsTruncation(stops, Concat(pieces), TextOf(events))
      ensures TokensOf(events) == completionTokens
      ensures completionTokens == if stops == [] then |pieces| else Started(pieces, |TextOf(events)|)
    {
      if stops == [] {
      } else if stopHit {
        TruncationIsStopFree(stops, Concat(pieces), TextOf(events));
      } else {
        CountedIsStarted(pieces, popped, cut, pending);
        StopFreePrefix(stops, TextOf(events), window);
      }
    }

    lemma GoingOnIsUnhit(goOn: bool, answers: nat -> bool)
      requires Progress(goOn, answers)
      ensures goOn ==> !stopHit
    {
    }

    /** The successful end: the tail is flushed unless a stop was hit. */
    method FinishText(ghost goOn: bool, answers: nat -> bool)
      requires Progress(goOn, answers)
      modifies this`window, this`pending, this`completionTokens, this`events, this`popped, this`cut
      ensures Open() && IsTruncation(stops, Concat(pieces), TextOf(events))
      ensures TokensOf(events) == completionTokens
      ensures completionTokens == if stops == [] then |pieces| else Started(pieces, |TextOf(events)|)
      ensures old(events) <= events && |events| <= old(|events|) + 1
    {
      ProgressSoFar(goOn, answers);
      if !stopHit && window != [] {
        Flush(answers);
      }
    }

    /** emit_terminal. */
    method EmitTerminal()
      requires Open()
      modifies this`terminalEmitted, this`events
      ensures terminalEmitted && OneTerminalLast(events) && events == old(events) + [Final]
      ensures TextOf(events) == old(TextOf(events)) && TokensOf(events) == old(TokensOf(events))
    {
      if !terminalEmitted {
        EventsSnoc(events, Final);
        events := events + [Final];
        terminalEmitted := true;
      }
    }
  }

  /** The stops a caller supplied, without the empty ones. */
  method CollectUserStops(supplied: seq<Text>) returns (stops: seq<Text>)
    ensures NonEmptyStops(stops)
    ensures forall s :: s in stops <==> s in supplied && s != []
  {
    stops := [];
    for i := 0 to |supplied|
      invariant NonEmptyStops(stops)
      invariant forall s :: s in stops <==> s in supplied[..i] && s != []
    {
      if supplied[i] != [] {
        stops := stops + [supplied[i]];
      }
    }
  }

  /** The backend hands over its chunks until one is refused or a stop is hit. */
  method Deliver(filter: StopFilter, chunks: seq<Text>, answers: nat -> bool) returns (goOn: bool, delivered: nat)
    requires filter.Progress(true, answers) && filter.pieces == []
    modifies filter
    ensures filter.Progress(goOn, answers)
    ensures delivered <= |chunks| && filter.pieces == chunks[..delivered]
    ensures goOn ==> delivered == |chunks|
    ensures delivered > 0 ==> StopFree(filter.stops, Concat(chunks[..delivered - 1]))
  {
    hide *;
    goOn, delivered := true, 0;
    while goOn && delivered < |chunks|
      invariant delivered <= |chunks| && filter.pieces == chunks[..delivered]
      invariant filter.Progress(goOn, answers)
      invariant delivered > 0 ==> StopFree(filter.stops, Concat(chunks[..delivered - 1]))
    {
      filter.ProgressSoFar(goOn, answers);
      filter.GoingOnIsUnhit(goOn, answers);
      assert chunks[..delivered + 1] == chunks[..delivered] + [chunks[delivered]];
      goOn := filter.OnChunk(chunks[delivered], answers);
      delivered := delivered + 1;
    }
  }

  /** What a stream makes of its chunks: it ends with the first chunk at which a stop appears in the text so
      far, or with the last one, and puts out the text so far truncated at its first stop. */
  ghost predicate Streams(stops: seq<Text>, chunks: seq<Text>, delivered: nat, stopHit: bool, text: Text) {
    && delivered <= |chunks| && (stopHit || delivered == |chunks|)
    && (delivered > 0 ==> StopFree(stops, Concat(chunks[..delivered - 1])))
    && (stopHit <==> !StopFree(stops, Concat(chunks[..delivered])))
    && IsTruncation(stops, Concat(chunks[..delivered]), text)
  }

  /** The events and the accounting of the call. */
  ghost predicate Accounts(stops: seq<Text>, chunks: seq<Text>, answers: nat -> bool, events: seq<Event>,
                           completionTokens: nat, stopHit: bool, delivered: nat)
  {
    && OneTerminalLast(events) && TokensOf(events) == completionTokens
    && delivered <= |chunks|
    && completionTokens == (if stops == [] then delivered else Started(chunks[..delivered], |TextOf(events)|))
    // the backend is refused more chunks only by a stop or a refused delta
    && AcceptedUpTo(answers, |events| - 3)
    && (delivered < |chunks| && !stopHit ==> SomeRefused(answers, |events|))
  }

  ghost predicate AcceptedUpTo(answers: nat -> bool, n: int) {
    forall i :: 0 <= i < n ==> answers(i)
  }

  ghost predicate SomeRefused(answers: nat -> bool, n: int) {
    exists i :: 0 <= i < n && !answers(i)
  }

  lemma MoreEvents(answers: nat -> bool, n: nat, more: nat)
    requires n <= more <= n + 2
    ensures AcceptedUpTo(answers, n - 1) ==> AcceptedUpTo(answers, more - 3)
    ensures SomeRefused(answers, n) ==> SomeRefused(answers, more)
  {
  }

  /** The text of the call: a stop-free part of what was delivered, and on success all of it truncated at its
      first stop; no chunk is asked for after the first one at which a stop appears. */
  ghost predicate Texts(stops: seq<Text>, chunks: seq<Text>, events: seq<Event>, status: Status, stopHit: bool,
      delivered: nat)
  {
    && delivered <= |chunks|
    && (delivered > 0 ==> StopFree(stops, Concat(chunks[..delivered - 1])))
    && (stopHit <==> !StopFree(stops, Concat(chunks[..delivered])))
    && TextOf(events) <= Concat(chunks[..delivered]) && StopFree(stops, TextOf(events))
    && (status == Success ==> IsTruncation(stops, Concat(chunks[..delivered]), TextOf(events)))
  }

  /** The call after the backend is done: the flush on success, then the terminal marker. */
  method Conclude(filter: StopFilter, ghost chunks: seq<Text>, ghost delivered: nat, ghost goOn: bool,
                  answers: nat -> bool, finish: Finish)
    returns (events: seq<Event>, completionTokens: nat, status: Status)
    requires NonEmptyStops(filter.stops) && filter.Progress(goOn, answers)
    requires delivered <= |chunks| && filter.pieces == chunks[..delivered] && (goOn ==> delivered == |chunks|)
    requires delivered > 0 ==> StopFree(filter.stops, Concat(chunks[..delivered - 1]))
    modifies filter
    ensures filter.stopHit == old(filter.stopHit)
    ensures status == Success <==> finish.Returned? && (filter.stopHit || finish.ok)
    ensures Accounts(filter.stops, chunks, answers, events, completionTokens, filter.stopHit, delivered)
    ensures Texts(filter.stops, chunks, events, status, filter.stopHit, delivered)
  {
    hide NonEmptyStops, StopFree, IsTruncation, Concat, TextOf, TokensOf, Started, OneTerminalLast, AcceptedUpTo,
        SomeRefused;
    filter.ProgressSoFar(goOn, answers);
    ghost var before := |filter.events|;
    status := if finish.Returned? && (filter.stopHit || finish.ok) then Success else InferenceFailed;
    if status == Success {
      filter.FinishText(goOn, answers);
    }
    PartOfDelivered(filter.stops, chunks[..delivered], filter.events);
    filter.EmitTerminal();
    events, completionTokens := filter.events, filter.completionTokens;
    MoreEvents(answers, before, |events|);
  }

  method Receive(stops: seq<Text>, chunks: seq<Text>, answers: nat -> bool, finish: Finish)
    returns (events: seq<Event>, completionTokens: nat, status: Status, stopHit: bool, delivered: nat)
    requires NonEmptyStops(stops)
    ensures status == Success <==> finish.Returned? && (stopHit || finish.ok)
    ensures Accounts(stops, chunks, answers, events, completionTokens, stopHit, delivered)
    ensures Texts(stops, chunks, events, status, stopHit, delivered)
  {
    var maxLen := MaxStopLength(stops);
    var filter := new StopFilter(stops, maxLen);
    assert filter.Progress(true, answers) by { EmptyIsStopFree(stops); }
    hide *;
    var goOn;
    goOn, delivered := Deliver(filter, chunks, answers);
    stopHit := filter.stopHit;
    events, completionTokens, status := Conclude(filter, chunks, delivered, goOn, answers, finish);
  }

  lemma PartOfDelivered(stops: seq<Text>, pieces: seq<Text>, events: seq<Event>)
    requires NonEmptyStops(stops)
    ensures IsTruncation(stops, Concat(pieces), TextOf(events)) ==>
              TextOf(events) <= Concat(pieces) && StopFree(stops, TextOf(events))
  {
    if IsTruncation(stops, Concat(pieces), TextOf(events)) {
      TruncationIsStopFree(stops, Concat(pieces), TextOf(events));
    }
  }

  /** rac_llm_llamacpp_generate_stream past its argument checks. `chunks` is what the backend would
      deliver if never refused, `finish` how its call ends: an error is one of the backend, thrown or
      returned without a stop having been hit. On every path exactly one terminal marker
      is sent, last; a successful call that was not refused is a stream of the chunks, and puts out what
      truncating all of them gives when no stop lies strictly inside another. */
  method GenerateStream(stops: seq<Text>, chunks: seq<Text>, answers: nat -> bool, finish: Finish)
    returns (events: seq<Event>, completionTokens: nat, status: Status, stopHit: bool, delivered: nat)
    requires NonEmptyStops(stops)
    ensures status == Success <==> finish.Returned? && (stopHit || finish.ok)
    ensures Accounts(stops, chunks, answers, events, completionTokens, stopHit, delivered)
    ensures Texts(stops, chunks, events, status, stopHit, delivered)
    ensures status == Success && (stopHit || delivered == |chunks|) ==>
              && Streams(stops, chunks, delivered, stopHit, TextOf(events))
              && (NoStopInsideAnother(stops) ==> IsTruncation(stops, Concat(chunks), TextOf(events)))
  {
    events, completionTokens, status, stopHit, delivered := Receive(stops, chunks, answers, finish);
    if status == Success && (stopHit || delivered == |chunks|) {
      TextsStream(stops, chunks, events, stopHit, delivered);
    }
  }

  lemma TextsStream(stops: seq<Text>, chunks: seq<Text>, events: seq<Event>, stopHit: bool, delivered: nat)
    requires Texts(stops, chunks, events, Success, stopHit, delivered) && (stopHit || delivered == |chunks|)
    ensures Streams(stops, chunks, delivered, stopHit, TextOf(events))
    ensures NoStopInsideAnother(stops) ==> IsTruncation(stops, Concat(chunks), TextOf(events))
  {
    hide NoStopInsideAnother, StopFree, IsTruncation, TextOf;
    if NoStopInsideAnother(stops) {
      StreamIsBuffered(stops, chunks, delivered, stopHit, TextOf(events));
    }
  }

  /** The non-streaming call truncates the buffered text of the same chunks. */
  method TruncateBuffered(stops: seq<Text>, text: Text) returns (out: Text)
    requires NonEmptyStops(stops)
    ensures IsTruncation(stops, text, out)
  {
    out := text;
    EmptyIsStopFree(stops);
    if stops != [] && text != [] {
      var found, cut := FindFirstStopSequence(text, stops);
      if found {
        StopStartsInside(stops, text, cut);
        out := text[..cut];
      }
    }
  }

  /** Every stream of the chunks puts out what truncating all of them gives. */
  ghost predicate AsBuffered(stops: seq<Text>, chunks: seq<Text>) {
    forall delivered, stopHit, text ::
      Streams(stops, chunks, delivered, stopHit, text) ==> IsTruncation(stops, Concat(chunks), text)
  }

  /** Every stream of the chunks puts out something else. */
  ghost predicate NeverAsBuffered(stops: seq<Text>, chunks: seq<Text>) {
    forall delivered, stopHit, text ::
      Streams(stops, chunks, delivered, stopHit, text) ==> !IsTruncation(stops, Concat(chunks), text)
  }

  /** All chunks have a stream. */
  lemma SomeStream(stops: seq<Text>, chunks: seq<Text>) returns (delivered: nat, stopHit: bool, text: Text)
    requires NonEmptyStops(stops)
    ensures Streams(stops, chunks, delivered, stopHit, text)
  {
    hide StopFree, IsTruncation;
    delivered := 0;
    assert chunks[..0] == [];
    EmptyIsStopFree(stops);
    while delivered < |chunks| && StopFree(stops, Concat(chunks[..delivered]))
      invariant delivered <= |chunks|
      invariant delivered > 0 ==> StopFree(stops, Concat(chunks[..delivered - 1]))
    {
      delivered := delivered + 1;
    }
    stopHit := !StopFree(stops, Concat(chunks[..delivered]));
    text := Truncation(stops, Concat(chunks[..delivered]));
  }

  lemma StreamIsBuffered(stops: seq<Text>, chunks: seq<Text>, delivered: nat, stopHit: bool, text: Text)
    requires NoStopInsideAnother(stops) && Streams(stops, chunks, delivered, stopHit, text)
    ensures IsTruncation(stops, Concat(chunks), text)
  {
    hide StopFree, IsTruncation, NoStopInsideAnother;
    ConcatLength(chunks, delivered);
    assert delivered == |chunks| ==> chunks[..delivered] == chunks;
    if stopHit {
      TruncationIsFinal(stops, Concat(chunks[..delivered]), Concat(chunks[delivered..]), text);
    }
  }

  /** Two chunks, the first one ending with a stop whose cut is wrong for the whole: the stream ends with
      the first chunk and its cut. */
  lemma EarlyCutStreams(stops: seq<Text>, t: Text, more: Text, out: Text)
    requires IsTruncation(stops, t, out) && !StopFree(stops, t) && !IsTruncation(stops, t + more, out)
    requires NonEmptyStops(stops)
    ensures NeverAsBuffered(stops, [t, more])
  {
    hide StopFree, IsTruncation;
    var chunks := [t, more];
    assert chunks[..0] == [] && chunks[..1] == [t] && chunks[..2] == [t] + [more];
    ConcatSnoc([], t);
    ConcatSnoc([t], more);
    assert [] + [t] == [t] && [] + t == t;
    EmptyIsStopFree(stops);
    forall delivered, stopHit, text | Streams(stops, chunks, delivered, stopHit, text)
      ensures !IsTruncation(stops, Concat(chunks), text)
    {
      assert delivered == 1;
      TruncationUnique(stops, t, out, text);
    }
  }

  /** Streaming and truncating the buffered text agree on every list of chunks if and only if no stop lies
      strictly inside another; if one does, there are chunks on which they never agree. */
  lemma StreamingIsBufferingIff(stops: seq<Text>)
    requires NonEmptyStops(stops)
    ensures NoStopInsideAnother(stops) <==> forall chunks :: AsBuffered(stops, chunks)
    ensures !NoStopInsideAnother(stops) ==> exists chunks :: NeverAsBuffered(stops, chunks)
  {
    hide IsTruncation, StopFree, Streams;
    if NoStopInsideAnother(stops) {
      forall chunks, delivered, stopHit, text | Streams(stops, chunks, delivered, stopHit, text)
        ensures IsTruncation(stops, Concat(chunks), text)
      {
        StreamIsBuffered(stops, chunks, delivered, stopHit, text);
      }
    } else {
      EarlyCutIsRightIff(stops);
      var t, more, out :| !EarlyCutAgrees(stops, t, more, out);
      EarlyCutStreams(stops, t, more, out);
      var delivered, stopHit, text := SomeStream(stops, [t, more]);
      assert !AsBuffered(stops, [t, more]);
    }
  }

  lemma Truncation(stops: seq<Text>, text: Text) returns (out: Text)
    ensures IsTruncation(stops, text, out)
  {
    out := text;
    if !StopFree(stops, text) {
      var i :| StopAt(stops, text, i);
      var p := FirstStopBelow(stops, text, i);
      out := text[..p];
    }
  }
}
