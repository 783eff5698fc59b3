/** run_decode_loop of the llama.cpp engine: sampled pieces are assembled into whole UTF-8
    characters, held in a rolling window until they can no longer start a stop sequence, and
    handed to a sink. The loop is proved to be an online, bounded-memory truncation. */
module DecodeLoop {
  import opened Sequences
  import opened StopSequences
  import opened Utf8

  // ---------------------------------------------------------------------------
  // The built-in stop lists
  // ---------------------------------------------------------------------------

  function Bytes(s: string): (t: Text)
    requires forall i :: 0 <= i < |s| ==> s[i] < 128 as char
    ensures |t| == |s| && forall i :: 0 <= i < |s| ==> t[i] == s[i] as int && t[i] < 128
  {
    seq(|s|, i requires 0 <= i < |s| => s[i] as int)
  }

  const BUILTIN_STOPS: seq<Text> := [
    Bytes("<|im_end|>"), Bytes("<|eot_id|>"), Bytes("</s>"), Bytes("<|end|>"), Bytes("<|endoftext|>"),
    Bytes("\n\nUser:"), Bytes("\n\nHuman:")
  ]

  const FALLBACK_STOPS: seq<Text> := [Bytes("\nuser:"), Bytes("\nassistant:"), Bytes("\nsystem:")]

  function ActiveStops(usedFallbackFormat: bool): seq<Text> {
    if usedFallbackFormat then BUILTIN_STOPS + FALLBACK_STOPS else BUILTIN_STOPS
  }

  ghost predicate AsciiStops(stops: seq<Text>) {
    forall k, i :: 0 <= k < |stops| && 0 <= i < |stops[k]| ==> stops[k][i] < 0x80
  }

  ghost predicate SoundStops(stops: seq<Text>) {
    NonEmptyStops(stops) && AsciiStops(stops) && NoStopInsideAnother(stops)
  }

  /** How a built-in stop may start: the only byte after the first that can open a stop is the
      second newline, and what follows it opens none. */
  lemma BuiltinShape(stop: Text, o: int)
    requires stop in BUILTIN_STOPS + FALLBACK_STOPS
    ensures |stop| >= 4 && stop[0] in {'<' as int, '\n' as int}
    ensures 0 < o < |stop| ==> stop[o] != '<' as int
    ensures 1 < o < |stop| ==> stop[o] != '\n' as int
    ensures stop[1] == '\n' as int ==> stop[2] in {'U' as int, 'H' as int}
    ensures stop[0] == '\n' as int ==> stop[1] in {'\n' as int, 'u' as int, 'a' as int, 's' as int}
  {
  }

  /** The turn markers of the fallback format end a generation only if its prompt used that format: to a model with
      a chat template they are text like any other. */
  lemma WhichStopsAreActive(usedFallbackFormat: bool, stop: Text)
    ensures stop in ActiveStops(usedFallbackFormat)
            <==> stop in BUILTIN_STOPS || (usedFallbackFormat && stop in FALLBACK_STOPS)
    ensures stop in FALLBACK_STOPS ==> (StopFree(ActiveStops(usedFallbackFormat), stop) <==> !usedFallbackFormat)
  {
    var stops := ActiveStops(usedFallbackFormat);
    if stop in FALLBACK_STOPS {
      if usedFallbackFormat {
        var j :| 0 <= j < |FALLBACK_STOPS| && FALLBACK_STOPS[j] == stop;
        var k := |BUILTIN_STOPS| + j;
        assert stops[k] == stop && OccursAt(stops[k], stop, 0) && StopAt(stops, stop, 0);
      } else {
        forall i ensures !StopAt(stops, stop, i) {
          NoBuiltinInFallback(stop, i);
        }
      }
    }
  }

  lemma NoBuiltinInFallback(stop: Text, i: int)
    requires stop in FALLBACK_STOPS
    ensures !StopAt(BUILTIN_STOPS, stop, i)
  {
    if StopAt(BUILTIN_STOPS, stop, i) {
      var k :| 0 <= k < |BUILTIN_STOPS| && OccursAt(BUILTIN_STOPS[k], stop, i);
      var builtin := BUILTIN_STOPS[k];
      assert builtin in BUILTIN_STOPS + FALLBACK_STOPS && stop in BUILTIN_STOPS + FALLBACK_STOPS;
      BuiltinShape(builtin, 0);
      var here := stop[i..i + |builtin|];
      assert here[0] == stop[i] && here[1] == stop[i + 1];
      BuiltinShape(stop, 0);
      BuiltinShape(stop, i);
    }
  }

  lemma ActiveStopsAreSound(usedFallbackFormat: bool)
    ensures ActiveStops(usedFallbackFormat) != [] && SoundStops(ActiveStops(usedFallbackFormat))
  {
    var stops := ActiveStops(usedFallbackFormat);
    forall k | 0 <= k < |stops| ensures stops[k] in BUILTIN_STOPS + FALLBACK_STOPS {
      assert (BUILTIN_STOPS + FALLBACK_STOPS)[k] == stops[k];
    }
    forall k | 0 <= k < |stops| ensures stops[k] != [] {
      BuiltinShape(stops[k], 0);
    }
    forall j, k, o | 0 <= j < |stops| && 0 <= k < |stops| && 0 < o && o + |stops[j]| < |stops[k]|
      ensures !OccursAt(stops[j], stops[k], o)
    {
      BuiltinShape(stops[j], 0);
      BuiltinShape(stops[k], o);
      BuiltinShape(stops[k], o + 1);
      var here := stops[k][o..o + |stops[j]|];
      assert here[0] == stops[k][o] && here[1] == stops[k][o + 1];
    }
  }

  // ---------------------------------------------------------------------------
  // The law the loop implements
  // ---------------------------------------------------------------------------

  /** Length of the longest prefix that ends on a character boundary of well-formed text. */
  ghost function ValidUpto(t: Text): (v: nat)
    ensures v <= |t| && Run(ACCEPT, t[..v]) == ACCEPT
    ensures forall k :: v < k <= |t| ==> Run(ACCEPT, t[..k]) != ACCEPT
  {
    if Run(ACCEPT, t) == ACCEPT then (assert t[..|t|] == t; |t|)
    else
      var v := ValidUpto(t[..|t| - 1]);
      assert t[..|t| - 1][..v] == t[..v] && t[..|t|] == t;
      assert forall k :: v < k < |t| ==> t[..|t| - 1][..k] == t[..k];
      v
  }

  /** Only the well-formed prefix is scanned for stops; when it holds one the output is cut there,
      otherwise every byte comes out. */
  ghost predicate LawfulOutput(stops: seq<Text>, t: Text, out: Text) {
    var valid := t[..ValidUpto(t)];
    if StopFree(stops, valid) then out == t else IsTruncation(stops, valid, out)
  }

  /** What a cancelled run may have put out. */
  ghost predicate IsLawfulPrefix(stops: seq<Text>, t: Text, out: Text) {
    exists full :: LawfulOutput(stops, t, full) && out <= full
  }

  lemma LawfulPrefix(stops: seq<Text>, t: Text, out: Text, full: Text)
    requires LawfulOutput(stops, t, full) && out <= full
    ensures IsLawfulPrefix(stops, t, out)
  {
  }

  lemma LastByte(stop: Text, t: Text, i: int)
    requires stop != []
    ensures OccursAt(stop, t, i) ==> t[i + |stop| - 1] == stop[|stop| - 1]
  {
    if OccursAt(stop, t, i) {
      assert t[i..i + |stop|][|stop| - 1] == t[i + |stop| - 1];
    }
  }

  /** An ASCII stop cannot reach into an unfinished character. */
  lemma NotInUnfinished(stop: Text, valid: Text, partial: Text, i: int)
    requires stop != [] && forall j :: 0 <= j < |stop| ==> stop[j] < 0x80
    requires Unfinished(partial) && Run(ACCEPT, partial) != REJECT
    ensures OccursAt(stop, valid + partial, i) ==> OccursAt(stop, valid, i)
  {
    hide Unfinished, Run;
    OccursInExtension(stop, valid, partial, i);
    LastByte(stop, valid + partial, i);
    var last := i + |stop| - 1;
    if OccursAt(stop, valid + partial, i) && last >= |valid| {
      UnfinishedIsNotAscii(partial, last - |valid|);
    }
  }

  lemma NoStopInUnfinished(stops: seq<Text>, valid: Text, partial: Text)
    requires NonEmptyStops(stops) && AsciiStops(stops)
    requires Unfinished(partial) && Run(ACCEPT, partial) != REJECT
    requires StopFree(stops, valid)
    ensures StopFree(stops, valid + partial)
  {
    hide OccursAt, Unfinished, Run;
    forall i ensures !StopAt(stops, valid + partial, i) {
      assert !StopAt(stops, valid, i);
      forall k | 0 <= k < |stops| ensures !OccursAt(stops[k], valid + partial, i) {
        NotInUnfinished(stops[k], valid, partial, i);
      }
    }
  }

  /** Exactly when the output is the plain truncation of everything that was generated: the text
      has no stop at all, or it has one before the first byte that the recogniser holds back. */
  lemma LawIsTruncationIff(stops: seq<Text>, t: Text, out: Text)
    requires SoundStops(stops)
    requires LawfulOutput(stops, t, out)
    ensures IsTruncation(stops, t, out) <==> StopFree(stops, t) || !StopFree(stops, t[..ValidUpto(t)])
    ensures Run(ACCEPT, t) != REJECT ==> IsTruncation(stops, t, out)
  {
    hide StopAt, OccursAt, Run, Unfinished;
    var v := ValidUpto(t);
    var valid, partial := t[..v], t[v..];
    assert t == valid + partial;
    if StopFree(stops, valid) {
      if Run(ACCEPT, t) != REJECT {
        UnfinishedAfter(t, v);
        NoStopInUnfinished(stops, valid, partial);
      }
      StopStartsInside(stops, t, |t|);
    } else {
      TruncationIsFinal(stops, valid, partial, out);
    }
  }

  /** A stream with an ill-formed byte in front of a stop: nothing is cut. */
  lemma IllFormedByteHidesStop() returns (t: Text)
    ensures LawfulOutput(BUILTIN_STOPS, t, t) && !IsTruncation(BUILTIN_STOPS, t, t)
  {
    ActiveStopsAreSound(false);
    var stop := BUILTIN_STOPS[2];
    t := [0xFF] + stop;
    assert t[..1] == [0xFF] && t[0..] == t;
    RejectIsAbsorbing(stop);
    assert Run(ACCEPT, t) == Run(REJECT, t[1..]) && t[1..] == stop;
    forall k | 0 < k <= |t| ensures Run(ACCEPT, t[..k]) != ACCEPT {
      RejectIsAbsorbing(t[..k][1..]);
    }
    assert ValidUpto(t) == 0;
    assert t[..0] == [];
    EmptyIsStopFree(BUILTIN_STOPS);
    assert OccursAt(stop, t, 1);
    assert StopAt(BUILTIN_STOPS, t, 1);
    LawIsTruncationIff(BUILTIN_STOPS, t, t);
  }

  /** Once a stop was hit, what came out is the truncation of every continuation as well. */
  lemma LawfulCutIsFinal(stops: seq<Text>, t: Text, more: Text, out: Text)
    requires SoundStops(stops)
    requires LawfulOutput(stops, t, out) && !StopFree(stops, t[..ValidUpto(t)])
    ensures IsTruncation(stops, t + more, out)
  {
    var v := ValidUpto(t);
    TruncationIsFinal(stops, t[..v], t[v..] + more, out);
    assert t[..v] + (t[v..] + more) == t + more;
  }

  // ---------------------------------------------------------------------------
  // The loop
  // ---------------------------------------------------------------------------

  /** What the sampler yields: an end-of-generation token, or a token spelled by some bytes. */
  datatype Sample = EndOfGeneration | Piece(bytes: Text) {
    function Spelled(): Text {
      if Piece? then bytes else []
    }
  }

  /** What the loop cannot know in advance: the sampled tokens, the sink's answer to each chunk, whether
      each poll of the cancel flag finds it set from outside, whether each token decodes. */
  datatype Env = Env(samples: nat -> Sample, accepts: nat -> bool, interrupted: nat -> bool, decodes: nat -> bool)

  /** Why the loop ended; Exhausted as long as nothing but the token budget ends it. */
  datatype Ending = Exhausted | EndToken | StopHit(refused: bool) | Refused | Interrupted | DecodeError
  {
    /** The last piece was read but its token was not decoded. */
    predicate InPiece() { StopHit? || Refused? }

    /** The cancel flag was found set, or the sink's refusal set it. */
    predicate Cancels() { Refused? || Interrupted? || (StopHit? && refused) }
  }

  /** `chunks` reached the sink inside the loop, `flush` (at most one chunk) after it; sent[i] chunks were
      out when token `i` was decoded. */
  datatype DecodeRun = DecodeRun(
    chunks: seq<Text>, flush: seq<Text>, consumed: nat, tokensGenerated: nat, positions: seq<int>,
    sent: seq<nat>, ending: Ending, cancelled: bool)
  {
    function Output(): Text {
      Concat(chunks + flush)
    }

    /** How often the loop looked at the cancel flag. */
    function Polls(): nat {
      consumed + if ending.EndToken? || ending.Interrupted? then 1 else 0
    }
  }

  /** The bytes of the first `n` samples. */
  function Generated(samples: nat -> Sample, n: nat): Text {
    if n == 0 then [] else Generated(samples, n - 1) + samples(n - 1).Spelled()
  }

  lemma GeneratedStep(samples: nat -> Sample, n: nat)
    ensures Generated(samples, n + 1) == Generated(samples, n) + samples(n).Spelled()
  {
  }

  /** Behind the last boundary the scanner state only depends on the bytes behind it. */
  lemma UnfinishedAfter(t: Text, v: nat)
    requires v <= |t| && Run(ACCEPT, t[..v]) == ACCEPT
    requires forall k :: v < k <= |t| ==> Run(ACCEPT, t[..k]) != ACCEPT
    ensures Unfinished(t[v..]) && Run(ACCEPT, t) == Run(ACCEPT, t[v..])
  {
    RunAppend(ACCEPT, t[..v], t[v..]);
    assert t == t[..v] + t[v..];
    forall k | 0 < k <= |t[v..]| ensures Run(ACCEPT, t[v..][..k]) != ACCEPT {
      RunAppend(ACCEPT, t[..v], t[v..][..k]);
      assert t[..v + k] == t[..v] + t[v..][..k];
    }
  }

  /** Appends a piece and scans only the new bytes; the scanner carries its state over. */
  method ScanPiece(scanner: Utf8State, partial: Text, piece: Text) returns (buffer: Text, validUpto: nat)
    requires scanner.state == Run(ACCEPT, partial) && Unfinished(partial)
    modifies scanner
    ensures buffer == partial + piece && validUpto <= |buffer|
    ensures Run(ACCEPT, buffer[..validUpto]) == ACCEPT && Unfinished(buffer[validUpto..])
    ensures scanner.state == Run(ACCEPT, buffer[validUpto..])
  {
    hide Next;
    var scanStart := |partial|;
    buffer := partial + piece;
    validUpto := 0;
    var i := scanStart;
    assert buffer[..i] == partial;
    forall k | 0 < k <= i ensures Run(ACCEPT, buffer[..k]) != ACCEPT {
      assert buffer[..k] == partial[..k];
    }
    while i < |buffer|
      invariant validUpto <= i <= |buffer|
      invariant scanner.state == Run(ACCEPT, buffer[..i])
      invariant Run(ACCEPT, buffer[..validUpto]) == ACCEPT
      invariant forall k :: validUpto < k <= i ==> Run(ACCEPT, buffer[..k]) != ACCEPT
    {
      RunSnoc(ACCEPT, buffer[..i], buffer[i]);
      assert buffer[..i + 1] == buffer[..i] + [buffer[i]];
      var _ := scanner.Process(buffer[i]);
      if scanner.state == ACCEPT {
        validUpto := i + 1;
      }
      i := i + 1;
    }
    assert buffer[..|buffer|] == buffer;
    UnfinishedAfter(buffer, validUpto);
  }

  /** How much of the window may be released: all but the longest stop, backed up to a leading byte. */
  method SafeLength(window: Text, maxStop: nat) returns (safe: nat)
    requires Run(ACCEPT, window) == ACCEPT && |window| > maxStop
    ensures maxStop <= |window| - safe <= maxStop + 3
    ensures Run(ACCEPT, window[..safe]) == ACCEPT && Run(ACCEPT, window[safe..]) == ACCEPT
  {
    safe := |window| - maxStop;
    ghost var near := safe;
    if safe < |window| {
      near := LeadingByteNearby(window, safe);
    }
    while safe > 0 && safe < |window| && IsTail(window[safe])
      invariant near <= safe <= |window| - maxStop
      decreases safe
    {
      safe := safe - 1;
    }
    CutAtLeadingByte(window, safe);
  }

  ghost predicate WellFormedChunks(chunks: seq<Text>) {
    forall i :: 0 <= i < |chunks| ==> chunks[i] != [] && WellFormed(chunks[i])
  }

  /** What every iteration keeps: nothing lost, released text and window well-formed, the window at
      least as long as the longest stop once bytes were released, no stop in anything seen. */
  ghost predicate Held(stops: seq<Text>, maxStop: nat, t: Text, released: Text, window: Text, partial: Text) {
    && t == released + window + partial
    && Run(ACCEPT, released) == ACCEPT && Run(ACCEPT, window) == ACCEPT
    && Unfinished(partial)
    && StopFree(stops, released + window)
    && (released == [] || |window| >= maxStop)
    && |window| <= maxStop + 3
  }

  /** The longest well-formed prefix of the text is exactly what was released or is in the window. */
  lemma HeldIsValidPrefix(valid: Text, partial: Text)
    requires Run(ACCEPT, valid) == ACCEPT && Unfinished(partial)
    ensures ValidUpto(valid + partial) == |valid| && (valid + partial)[..|valid|] == valid
  {
    var t := valid + partial;
    assert t[..|valid|] == valid;
    forall k | |valid| < k <= |t| ensures Run(ACCEPT, t[..k]) != ACCEPT {
      assert t[..k] == valid + partial[..k - |valid|];
      RunAppend(ACCEPT, valid, partial[..k - |valid|]);
    }
  }

  /** Without a hit, everything read is what must come out. */
  lemma HeldIsLawful(stops: seq<Text>, maxStop: nat, t: Text, released: Text, window: Text, partial: Text)
    requires Held(stops, maxStop, t, released, window, partial)
    ensures StopFree(stops, t[..ValidUpto(t)]) && LawfulOutput(stops, t, t)
    ensures t == released + window + partial && |window| <= maxStop + 3
  {
    RunAppend(ACCEPT, released, window);
    HeldIsValidPrefix(released + window, partial);
  }

  /** One more chunk of whole characters, and the bytes after it: still nothing lost. */
  lemma Grown(stops: seq<Text>, maxStop: nat, t: Text, released: Text, window: Text, partial: Text,
              piece: Text, chunk: Text, rest: Text)
    requires NonEmptyStops(stops) && NoLongerThan(stops, maxStop)
    requires Held(stops, maxStop, t, released, window, partial)
    requires partial + piece == chunk + rest && Run(ACCEPT, chunk) == ACCEPT && Unfinished(rest)
    ensures t + piece == released + (window + chunk) + rest
    ensures Run(ACCEPT, window + chunk) == ACCEPT
    ensures StopFree(stops, window + chunk) ==> StopFree(stops, released + (window + chunk))
    ensures forall pos :: IsFirstStop(stops, window + chunk, pos) ==>
              LawfulOutput(stops, t + piece, released + (window + chunk)[..pos])
              && !StopFree(stops, (t + piece)[..ValidUpto(t + piece)])
  {
    RunAppend(ACCEPT, window, chunk);
    WindowSeesFirstStop(stops, maxStop, released, window, chunk);
    Assoc(released, window, chunk);
    Assoc(released + window, partial, piece);
    Assoc(released + window, chunk, rest);
    RunAppend(ACCEPT, released, window + chunk);
    var valid := released + (window + chunk);
    HeldIsValidPrefix(valid, rest);
    forall pos | IsFirstStop(stops, window + chunk, pos)
      ensures LawfulOutput(stops, t + piece, released + (window + chunk)[..pos])
    {
      assert StopAt(stops, valid, |released| + pos);
      assert released + (window + chunk)[..pos] <= valid;
    }
  }

  /** An ASCII stop starts on a character boundary. */
  lemma StopOnBoundary(stops: seq<Text>, window: Text, pos: nat)
    requires NonEmptyStops(stops) && AsciiStops(stops)
    requires Run(ACCEPT, window) == ACCEPT && StopAt(stops, window, pos)
    ensures pos <= |window| && Run(ACCEPT, window[..pos]) == ACCEPT && WellFormed(window[..pos])
  {
    var k :| 0 <= k < |stops| && OccursAt(stops[k], window, pos);
    assert window[pos] == window[pos..pos + |stops[k]|][0] == stops[k][0];
    CutAtLeadingByte(window, pos);
    AcceptsExactlyWellFormed(window[..pos]);
  }

  /** The window grew by `chunk`: cut it at a stop, or release what no stop can reach any more. */
  method ScanWindow(stops: seq<Text>, m: nat, calls: nat, window: Text, accepts: nat -> bool)
    returns (out: Text, window': Text, ending: Ending)
    requires NonEmptyStops(stops) && AsciiStops(stops) && NoLongerThan(stops, m)
    requires Run(ACCEPT, window) == ACCEPT
    ensures Run(ACCEPT, out) == ACCEPT && WellFormed(out)
    ensures ending.StopHit? ==> IsFirstStop(stops, window, |out|) && out <= window
    ensures !ending.StopHit? ==> StopFree(stops, window) && window == out + window'
    ensures !ending.StopHit? ==> Run(ACCEPT, window') == ACCEPT && |window'| <= m + 3
    ensures !ending.StopHit? && out != [] ==> |window'| >= m
    ensures Answered(out, calls, accepts, ending)
  {
    out, window', ending := [], window, Exhausted;
    var found, pos := FindFirstStopSequence(window, stops);
    if found {
      StopOnBoundary(stops, window, pos);
      out := window[..pos];
      ending := StopHit(pos > 0 && !accepts(calls));
    } else if |window| > m {
      var safe := SafeLength(window, m);
      AcceptsExactlyWellFormed(window[..safe]);
      if safe > 0 {
        out := window[..safe];
        window' := window[safe..];
        ending := if accepts(calls) then Exhausted else Refused;
      }
    }
  }

  /** What the sink's answer to `out`, if there is anything to send, makes of the loop. */
  predicate Answered(out: Text, calls: nat, accepts: nat -> bool, ending: Ending) {
    var refused := out != [] && !accepts(calls);
    && (ending.Exhausted? || ending.InPiece())
    && if ending.StopHit? then ending.refused == refused else ending.Refused? == refused
  }

  lemma StillHeld(stops: seq<Text>, m: nat, released: Text, grown: Text, partial: Text, out: Text, window: Text)
    requires Run(ACCEPT, released) == ACCEPT && Run(ACCEPT, out) == ACCEPT && Run(ACCEPT, window) == ACCEPT
    requires Unfinished(partial) && StopFree(stops, released + grown) && grown == out + window
    requires released + out == [] || |window| >= m
    requires |window| <= m + 3
    ensures Held(stops, m, released + grown + partial, released + out, window, partial)
  {
    Assoc(released, out, window);
    RunAppend(ACCEPT, released, out);
  }

  /** The part of an iteration that handles text. */
  method TakePiece(stops: seq<Text>, m: nat, scanner: Utf8State, calls: nat, window: Text, partial: Text,
                   piece: Text, accepts: nat -> bool, ghost t: Text, ghost released: Text)
    returns (out: Text, window': Text, partial': Text, ending: Ending)
    requires NonEmptyStops(stops) && AsciiStops(stops) && NoLongerThan(stops, m)
    requires Held(stops, m, t, released, window, partial)
    requires scanner.state == Run(ACCEPT, partial)
    modifies scanner
    ensures WellFormed(out) && scanner.state == Run(ACCEPT, partial')
    ensures ending.StopHit? ==>
      LawfulOutput(stops, t + piece, released + out) && !StopFree(stops, (t + piece)[..ValidUpto(t + piece)])
    ensures !ending.StopHit? ==> Held(stops, m, t + piece, released + out, window', partial')
    ensures Answered(out, calls, accepts, ending)
  {
    hide StopFree, IsFirstStop, LawfulOutput, Unfinished, ValidUpto, Run;
    var buffer, validUpto := ScanPiece(scanner, partial, piece);
    var chunk := buffer[..validUpto];
    partial' := buffer[validUpto..];
    ghost var grown := window + chunk;
    Grown(stops, m, t, released, window, partial, piece, chunk, partial');
    if validUpto > 0 {
      out, window', ending := ScanWindow(stops, m, calls, window + chunk, accepts);
    } else {
      assert grown == window;
      out, window', ending := [], window, Exhausted;
    }
    if ending.StopHit? {
      assert out == grown[..|out|];
    } else {
      StillHeld(stops, m, released, grown, partial', out, window');
    }
  }

  /** Where the loop stands when it is left: what is out, held and unfinished adds up to the lawful
      output, or a stop was hit and the lawful output is out already. */
  ghost predicate LoopExit(stops: seq<Text>, t: Text, chunks: seq<Text>, window: Text, partial: Text, stopHit: bool) {
    && WellFormedChunks(chunks)
    && (stopHit <==> !StopFree(stops, t[..ValidUpto(t)]))
    && LawfulOutput(stops, t, if stopHit then Concat(chunks) else Concat(chunks) + window + partial)
  }

  lemma NothingHeldYet(stops: seq<Text>, m: nat)
    requires NonEmptyStops(stops)
    ensures Held(stops, m, [], [], [], []) && Run(ACCEPT, []) == ACCEPT
  {
    EmptyIsStopFree(stops);
  }

  /** What a piece released becomes one more chunk, unless it is empty. */
  lemma PieceTaken(stops: seq<Text>, m: nat, t: Text, chunks: seq<Text>, out: Text, window: Text, partial: Text,
      stopHit: bool)
    requires WellFormedChunks(chunks) && WellFormed(out)
    requires stopHit ==> LawfulOutput(stops, t, Concat(chunks) + out) && !StopFree(stops, t[..ValidUpto(t)])
    ensures var chunks' := if out == [] then chunks else chunks + [out];
            && WellFormedChunks(chunks') && Concat(chunks') == Concat(chunks) + out
            && (stopHit ==> LoopExit(stops, t, chunks', window, partial, true))
  {
    ConcatSnoc(chunks, out);
  }

  lemma HeldIsExit(stops: seq<Text>, m: nat, t: Text, chunks: seq<Text>, window: Text, partial: Text)
    requires Held(stops, m, t, Concat(chunks), window, partial) && WellFormedChunks(chunks)
    ensures LoopExit(stops, t, chunks, window, partial, false)
  {
    HeldIsLawful(stops, m, t, Concat(chunks), window, partial);
  }

  /** After every decoded token all but the window and an unfinished character is out: text is delayed by
      the longest stop and three bytes, no more. */
  ghost predicate Prompt(samples: nat -> Sample, m: nat, chunks: seq<Text>, sent: seq<nat>) {
    forall i :: 0 <= i < |sent| ==> sent[i] <= |chunks| && OutBy(samples, m, chunks[..sent[i]], i + 1)
  }

  /** `chunks` hold all but the last m + 3 bytes of what is well-formed in the first `n` pieces. */
  ghost predicate OutBy(samples: nat -> Sample, m: nat, chunks: seq<Text>, n: nat) {
    var t := Generated(samples, n);
    Concat(chunks) <= t && ValidUpto(t) <= |Concat(chunks)| + m + 3
  }

  lemma HeldIsPrompt(stops: seq<Text>, m: nat, samples: nat -> Sample, n: nat, chunks: seq<Text>, window: Text,
      partial: Text)
    requires Held(stops, m, Generated(samples, n), Concat(chunks), window, partial)
    ensures OutBy(samples, m, chunks, n)
    ensures var t := Generated(samples, n); StopFree(stops, t[..ValidUpto(t)])
  {
    hide StopFree, Unfinished, Run, ValidUpto;
    var released := Concat(chunks);
    RunAppend(ACCEPT, released, window);
    HeldIsValidPrefix(released + window, partial);
    Assoc(released, window, partial);
  }

  /** `sent` and the chunks grow together. */
  lemma PromptGrows(samples: nat -> Sample, m: nat, chunks: seq<Text>, chunks': seq<Text>, sent: seq<nat>)
    requires Prompt(samples, m, chunks, sent) && chunks <= chunks' && OutBy(samples, m, chunks', |sent| + 1)
    ensures Prompt(samples, m, chunks', sent + [|chunks'|])
  {
    hide OutBy;
    assert chunks'[..|chunks'|] == chunks';
    forall i | 0 <= i < |sent| ensures chunks'[..sent[i]] == chunks[..sent[i]] {
      assert sent[i] <= |chunks|;
    }
  }

  /** What is said about the tokens: none is read at or behind an end-of-generation token or a set cancel
      flag, every token but the last one read was decoded, and its position is the next one. */
  ghost predicate Decoded(env: Env, startPos: int, positions: seq<int>) {
    && (forall i :: 0 <= i < |positions| ==> positions[i] == startPos + i)
    && (forall i :: 0 <= i < |positions| ==> Passed(env, i))
  }

  predicate Passed(env: Env, i: nat) {
    !env.interrupted(i) && env.samples(i).Piece? && env.decodes(i)
  }

  ghost predicate AllAccepted(env: Env, calls: nat) {
    forall k :: 0 <= k < calls ==> env.accepts(k)
  }

  /** The local variables of the loop. */
  datatype Locals = Locals(chunks: seq<Text>, window: Text, partial: Text, positions: seq<int>, sent: seq<nat>)

  /** At the head of the loop, after `n` tokens. */
  ghost predicate AtHead(stops: seq<Text>, m: nat, startPos: int, env: Env, n: nat, l: Locals) {
    && Held(stops, m, Generated(env.samples, n), Concat(l.chunks), l.window, l.partial)
    && WellFormedChunks(l.chunks) && AllAccepted(env, |l.chunks|)
    && |l.positions| == n && Decoded(env, startPos, l.positions)
    && |l.sent| == n && Prompt(env.samples, m, l.chunks, l.sent)
  }

  /** Why the loop ended after `n` decoded or attempted tokens. */
  predicate Because(env: Env, maxTokens: int, ending: Ending, n: nat, chunks: seq<Text>) {
    match ending
    case Exhausted => n == if maxTokens > 0 then maxTokens else 0
    case Interrupted => n < maxTokens && env.interrupted(n)
    case EndToken => n < maxTokens && !env.interrupted(n) && env.samples(n).EndOfGeneration?
    case StopHit(_) => n < maxTokens && !env.interrupted(n) && env.samples(n).Piece?
    case Refused =>
      && n < maxTokens && !env.interrupted(n) && env.samples(n).Piece?
      && chunks != [] && !env.accepts(|chunks| - 1)
    case DecodeError =>
      0 < n <= maxTokens && !env.interrupted(n - 1) && env.samples(n - 1).Piece? && !env.decodes(n - 1)
  }

  /** All but the last chunk were accepted, and the last one unless the refusal was noticed. */
  ghost predicate Refusals(env: Env, ending: Ending, calls: nat) {
    && (calls > 0 ==> AllAccepted(env, calls - 1))
    && (AllAccepted(env, calls) <==> !ending.Refused? && !(ending.StopHit? && ending.refused))
  }

  /** The run of the loop proper, without the flush: which tokens were read and decoded, when text came
      out, and why it ended. */
  ghost predicate Steps(stops: seq<Text>, m: nat, startPos: int, maxTokens: int, env: Env, r: DecodeRun) {
    var n := r.tokensGenerated;
    && r.consumed == n + (if r.ending.StopHit? || r.ending.Refused? then 1 else 0)
    && n == |r.positions| + (if r.ending.DecodeError? then 1 else 0) && Decoded(env, startPos, r.positions)
    && Because(env, maxTokens, r.ending, n, r.chunks)
    && Refusals(env, r.ending, |r.chunks|)
    && |r.sent| == |r.positions| && Prompt(env.samples, m, r.chunks, r.sent)
    && WellFormedChunks(r.chunks)
    // a stop was hit in the last piece read, and not before
    && (var t := Generated(env.samples, n); r.ending.InPiece() ==> StopFree(stops, t[..ValidUpto(t)]))
    && (var t := Generated(env.samples, r.consumed); r.ending.StopHit? <==> !StopFree(stops, t[..ValidUpto(t)]))
  }

  lemma StartIsHead(stops: seq<Text>, m: nat, startPos: int, env: Env)
    requires NonEmptyStops(stops)
    ensures AtHead(stops, m, startPos, env, 0, Locals([], [], [], [], [])) && Run(ACCEPT, []) == ACCEPT
  {
    NothingHeldYet(stops, m);
  }

  function RunOf(n: nat, ending: Ending, l: Locals): DecodeRun {
    DecodeRun(l.chunks, [], n + (if ending.InPiece() then 1 else 0), n, l.positions, l.sent, ending, ending.Cancels())
  }

  /** The loop was left. */
  ghost predicate Left(stops: seq<Text>, m: nat, startPos: int, maxTokens: int, env: Env, n: nat, ending: Ending,
      l: Locals)
  {
    var run := RunOf(n, ending, l);
    && Steps(stops, m, startPos, maxTokens, env, run)
    && LoopExit(stops, Generated(env.samples, run.consumed), l.chunks, l.window, l.partial, ending.StopHit?)
  }

  /** Left at the head: no token is read. */
  lemma LeftAtHead(stops: seq<Text>, m: nat, startPos: int, maxTokens: int, env: Env, n: nat, ending: Ending, l: Locals)
    requires AtHead(stops, m, startPos, env, n, l)
    requires ending.Exhausted? || ending.Interrupted? || ending.EndToken?
    requires Because(env, maxTokens, ending, n, l.chunks)
    ensures Left(stops, m, startPos, maxTokens, env, n, ending, l)
  {
    hide Held, Decoded, Prompt, LawfulOutput, StopFree, ValidUpto, Generated, Concat, Because;
    HeldIsExit(stops, m, Generated(env.samples, n), l.chunks, l.window, l.partial);
  }

  /** A piece was read and held or sent, and the loop goes on to decode its token. */
  ghost predicate AfterPiece(stops: seq<Text>, m: nat, startPos: int, env: Env, n: nat, l: Locals) {
    && Held(stops, m, Generated(env.samples, n + 1), Concat(l.chunks), l.window, l.partial)
    && WellFormedChunks(l.chunks) && AllAccepted(env, |l.chunks|)
    && |l.positions| == n && Decoded(env, startPos, l.positions)
    && |l.sent| == n && Prompt(env.samples, m, l.chunks, l.sent)
    && !env.interrupted(n) && env.samples(n).Piece?
  }

  lemma LeftOnError(stops: seq<Text>, m: nat, startPos: int, maxTokens: int, env: Env, n: nat, l: Locals)
    requires AfterPiece(stops, m, startPos, env, n, l) && n < maxTokens && !env.decodes(n)
    ensures Left(stops, m, startPos, maxTokens, env, n + 1, DecodeError, l)
  {
    hide Held, Decoded, Prompt, LawfulOutput, StopFree, ValidUpto, Generated, Concat;
    HeldIsExit(stops, m, Generated(env.samples, n + 1), l.chunks, l.window, l.partial);
  }

  lemma NextHead(stops: seq<Text>, m: nat, startPos: int, env: Env, n: nat, l: Locals)
    requires AfterPiece(stops, m, startPos, env, n, l) && env.decodes(n)
    ensures AtHead(stops, m, startPos, env, n + 1,
                   l.(positions := l.positions + [startPos + n], sent := l.sent + [|l.chunks|]))
  {
    hide Held, Prompt, StopFree, ValidUpto, Generated, Concat, OutBy;
    HeldIsPrompt(stops, m, env.samples, n + 1, l.chunks, l.window, l.partial);
    PromptGrows(env.samples, m, l.chunks, l.chunks, l.sent);
  }

  /** The local variables after a piece that sent `out`. */
  function AfterOut(l: Locals, out: Text, window: Text, partial: Text): Locals {
    Locals(if out == [] then l.chunks else l.chunks + [out], window, partial, l.positions, l.sent)
  }

  /** A piece was read at the head; its text is lawful or still held. */
  ghost predicate Reading(stops: seq<Text>, m: nat, env: Env, n: nat, ending: Ending, l: Locals, out: Text,
      window: Text, partial: Text)
  {
    var t := Generated(env.samples, n + 1);
    && !env.interrupted(n) && env.samples(n).Piece? && WellFormed(out)
    && Answered(out, |l.chunks|, env.accepts, ending)
    && (ending.StopHit? ==> LawfulOutput(stops, t, Concat(l.chunks) + out) && !StopFree(stops, t[..ValidUpto(t)]))
    && (!ending.StopHit? ==> Held(stops, m, t, Concat(l.chunks) + out, window, partial))
  }

  lemma PieceGoesOn(stops: seq<Text>, m: nat, startPos: int, env: Env, n: nat, l: Locals, out: Text, window: Text,
      partial: Text)
    requires AtHead(stops, m, startPos, env, n, l)
    requires Reading(stops, m, env, n, Exhausted, l, out, window, partial)
    ensures AfterPiece(stops, m, startPos, env, n, AfterOut(l, out, window, partial))
  {
    hide Held, Decoded, Prompt, LawfulOutput, StopFree, ValidUpto, Concat, OutBy, WellFormed, Generated;
    var l' := AfterOut(l, out, window, partial);
    PieceTaken(stops, m, Generated(env.samples, n + 1), l.chunks, out, window, partial, false);
    PromptKept(env.samples, m, l.chunks, l'.chunks, l.sent);
  }

  lemma PieceRefused(stops: seq<Text>, m: nat, startPos: int, maxTokens: int, env: Env, n: nat, l: Locals, out: Text,
                     window: Text, partial: Text)
    requires AtHead(stops, m, startPos, env, n, l) && n < maxTokens
    requires Reading(stops, m, env, n, Refused, l, out, window, partial)
    ensures Left(stops, m, startPos, maxTokens, env, n, Refused, AfterOut(l, out, window, partial))
  {
    hide Held, Decoded, Prompt, LawfulOutput, StopFree, ValidUpto, Concat, OutBy, WellFormed, Generated;
    var t, l' := Generated(env.samples, n + 1), AfterOut(l, out, window, partial);
    PieceTaken(stops, m, t, l.chunks, out, window, partial, false);
    PromptKept(env.samples, m, l.chunks, l'.chunks, l.sent);
    HeldIsPrompt(stops, m, env.samples, n, l.chunks, l.window, l.partial);
    HeldIsExit(stops, m, t, l'.chunks, window, partial);
  }

  lemma PieceStops(stops: seq<Text>, m: nat, startPos: int, maxTokens: int, env: Env, n: nat, ending: Ending, l: Locals,
                   out: Text, window: Text, partial: Text)
    requires AtHead(stops, m, startPos, env, n, l) && n < maxTokens && ending.StopHit?
    requires Reading(stops, m, env, n, ending, l, out, window, partial)
    ensures Left(stops, m, startPos, maxTokens, env, n, ending, AfterOut(l, out, window, partial))
  {
    hide Held, Decoded, Prompt, LawfulOutput, StopFree, ValidUpto, Concat, OutBy, WellFormed, Generated;
    var t, l' := Generated(env.samples, n + 1), AfterOut(l, out, window, partial);
    PieceTaken(stops, m, t, l.chunks, out, window, partial, true);
    PromptKept(env.samples, m, l.chunks, l'.chunks, l.sent);
    HeldIsPrompt(stops, m, env.samples, n, l.chunks, l.window, l.partial);
  }

  lemma PieceRead(stops: seq<Text>, m: nat, startPos: int, maxTokens: int, env: Env, n: nat, ending: Ending,
                  l: Locals, out: Text, window: Text, partial: Text)
    requires AtHead(stops, m, startPos, env, n, l) && n < maxTokens
    requires Reading(stops, m, env, n, ending, l, out, window, partial)
    ensures var l' := AfterOut(l, out, window, partial);
            if ending.Exhausted? then AfterPiece(stops, m, startPos, env, n, l')
            else Left(stops, m, startPos, maxTokens, env, n, ending, l')
  {
    OnlyInPiece(stops, m, env, n, ending, l, out, window, partial);
    hide *;
    match ending
    case Exhausted => PieceGoesOn(stops, m, startPos, env, n, l, out, window, partial);
    case Refused => PieceRefused(stops, m, startPos, maxTokens, env, n, l, out, window, partial);
    case StopHit(_) => PieceStops(stops, m, startPos, maxTokens, env, n, ending, l, out, window, partial);
    case _ =>
  }

  lemma OnlyInPiece(stops: seq<Text>, m: nat, env: Env, n: nat, ending: Ending, l: Locals, out: Text, window: Text,
      partial: Text)
    requires Reading(stops, m, env, n, ending, l, out, window, partial)
    ensures ending.Exhausted? || ending.Refused? || ending.StopHit?
  {
  }

  lemma PromptKept(samples: nat -> Sample, m: nat, chunks: seq<Text>, chunks': seq<Text>, sent: seq<nat>)
    requires Prompt(samples, m, chunks, sent) && chunks <= chunks'
    ensures Prompt(samples, m, chunks', sent)
  {
    hide OutBy;
    forall i | 0 <= i < |sent| ensures chunks'[..sent[i]] == chunks[..sent[i]] {
      assert sent[i] <= |chunks|;
    }
  }

  /** One iteration up to the decoding step: look at the cancel flag, sample, take the piece. */
  method TakeSample(stops: seq<Text>, m: nat, ghost startPos: int, ghost maxTokens: int, env: Env, scanner: Utf8State,
                    n: nat, l: Locals)
    returns (l': Locals, ending: Ending)
    requires NonEmptyStops(stops) && AsciiStops(stops) && NoLongerThan(stops, m)
    requires AtHead(stops, m, startPos, env, n, l) && n < maxTokens
    requires scanner.state == Run(ACCEPT, l.partial)
    modifies scanner
    ensures scanner.state == Run(ACCEPT, l'.partial)
    ensures if ending.Exhausted? then AfterPiece(stops, m, startPos, env, n, l')
            else Left(stops, m, startPos, maxTokens, env, n, ending, l')
  {
    hide Held, Decoded, Prompt, LawfulOutput, StopFree, ValidUpto, Generated, Concat, Left, AfterPiece, Answered, Run,
         NonEmptyStops, AsciiStops, NoLongerThan, WellFormed;
    l' := l;
    if env.interrupted(n) {
      ending := Interrupted;
      LeftAtHead(stops, m, startPos, maxTokens, env, n, ending, l);
    } else if env.samples(n).EndOfGeneration? {
      ending := EndToken;
      LeftAtHead(stops, m, startPos, maxTokens, env, n, ending, l);
    } else {
      var out, window, partial;
      out, window, partial, ending :=
        TakePiece(stops, m, scanner, |l.chunks|, l.window, l.partial, env.samples(n).bytes, env.accepts,
                  Generated(env.samples, n), Concat(l.chunks));
      GeneratedStep(env.samples, n);
      PieceRead(stops, m, startPos, maxTokens, env, n, ending, l, out, window, partial);
      l' := AfterOut(l, out, window, partial);
    }
  }

  /** One iteration. */
  method Iterate(stops: seq<Text>, m: nat, startPos: int, ghost maxTokens: int, env: Env, scanner: Utf8State, n: nat,
      l: Locals)
    returns (l': Locals, ending: Ending, n': nat)
    requires NonEmptyStops(stops) && AsciiStops(stops) && NoLongerThan(stops, m)
    requires AtHead(stops, m, startPos, env, n, l) && n < maxTokens
    requires scanner.state == Run(ACCEPT, l.partial)
    modifies scanner
    ensures scanner.state == Run(ACCEPT, l'.partial) && n' <= maxTokens && (ending.Exhausted? ==> n' == n + 1)
    ensures if ending.Exhausted? then AtHead(stops, m, startPos, env, n', l')
            else Left(stops, m, startPos, maxTokens, env, n', ending, l')
  {
    hide *;
    l', ending := TakeSample(stops, m, startPos, maxTokens, env, scanner, n, l);
    n' := n;
    if ending.Exhausted? {
      n' := n + 1;
      if env.decodes(n) {
        NextHead(stops, m, startPos, env, n, l');
        l' := l'.(positions := l'.positions + [startPos + n], sent := l'.sent + [|l'.chunks|]);
      } else {
        LeftOnError(stops, m, startPos, maxTokens, env, n, l');
        ending := DecodeError;
      }
    }
  }

  method DecodeTokens(stops: seq<Text>, m: nat, startPos: int, maxTokens: int, env: Env)
    returns (r: DecodeRun, window: Text, partial: Text)
    requires NonEmptyStops(stops) && AsciiStops(stops) && NoLongerThan(stops, m)
    ensures r.flush == [] && Steps(stops, m, startPos, maxTokens, env, r) && r.cancelled == r.ending.Cancels()
    ensures LoopExit(stops, Generated(env.samples, r.consumed), r.chunks, window, partial, r.ending.StopHit?)
  {
    hide AtHead, Left, Run, NonEmptyStops, AsciiStops, NoLongerThan, Steps, LoopExit, Generated;
    var scanner := new Utf8State();
    var l, ending := Locals([], [], [], [], []), Exhausted;
    var generated: nat := 0;
    StartIsHead(stops, m, startPos, env);
    while generated < maxTokens && ending.Exhausted?
      invariant generated == 0 || generated <= maxTokens
      invariant if ending.Exhausted? then AtHead(stops, m, startPos, env, generated, l)
                else Left(stops, m, startPos, maxTokens, env, generated, ending, l)
      invariant scanner.state == Run(ACCEPT, l.partial) && fresh(scanner)
      decreases ending.Exhausted?, maxTokens - generated
    {
      l, ending, generated := Iterate(stops, m, startPos, maxTokens, env, scanner, generated, l);
    }
    if ending.Exhausted? {
      LeftAtHead(stops, m, startPos, maxTokens, env, generated, ending, l);
    }
    r, window, partial := RunOf(generated, ending, l), l.window, l.partial;
    LeftMeans(stops, m, startPos, maxTokens, env, generated, ending, l);
  }

  lemma LeftMeans(stops: seq<Text>, m: nat, startPos: int, maxTokens: int, env: Env, n: nat, ending: Ending, l: Locals)
    requires Left(stops, m, startPos, maxTokens, env, n, ending, l)
    ensures var run := RunOf(n, ending, l);
            && Steps(stops, m, startPos, maxTokens, env, run)
            && LoopExit(stops, Generated(env.samples, run.consumed), l.chunks, l.window, l.partial, ending.StopHit?)
  {
  }

  lemma FlushCompletes(chunks: seq<Text>, window: Text)
    ensures Concat(chunks) <= Concat(chunks) + window
    ensures Concat(chunks + []) == Concat(chunks)
    ensures Concat(chunks + [window]) == Concat(chunks) + window
  {
    ConcatSnoc(chunks, window);
    assert chunks + [] == chunks;
  }

  /** What comes out: a prefix of the lawful output, and all of it unless the run was cancelled. */
  ghost predicate Emits(stops: seq<Text>, env: Env, r: DecodeRun) {
    var t := Generated(env.samples, r.consumed);
    && IsLawfulPrefix(stops, t, r.Output())
    && (!r.cancelled ==> LawfulOutput(stops, t, r.Output()))
    && |r.flush| <= 1 && (r.flush != [] ==> r.flush[0] != [] && !r.cancelled && !r.ending.StopHit?)
    // a refusal sets the flag, and it stays set once the loop saw it; after the loop it is looked at twice
    && (var polls := r.consumed + if r.ending.EndToken? || r.ending.Interrupted? then 1 else 0;
        r.cancelled <==>
          || r.ending.Refused? || r.ending.Interrupted? || (r.ending.StopHit? && r.ending.refused)
          || env.interrupted(polls) || env.interrupted(polls + 1))
  }

  /** The flush after the loop: unless cancelled or stopped, what is still held goes out as one chunk. */
  method Flush(stops: seq<Text>, env: Env, loop: DecodeRun, window: Text, partial: Text) returns (r: DecodeRun)
    requires loop.flush == [] && loop.cancelled == loop.ending.Cancels()
    requires LoopExit(stops, Generated(env.samples, loop.consumed), loop.chunks, window, partial, loop.ending.StopHit?)
    ensures r == loop.(cancelled := r.cancelled, flush := r.flush) && Emits(stops, env, r)
  {
    hide LawfulOutput, StopFree, ValidUpto, Generated, Concat, WellFormedChunks, IsLawfulPrefix;
    ghost var out := Concat(loop.chunks);
    ghost var lawful := if loop.ending.StopHit? then out else out + window + partial;
    FlushCompletes(loop.chunks, window);
    FlushCompletes(loop.chunks, window + partial);
    Assoc(out, window, partial);
    var polls := loop.Polls();
    var cancelled, flush, held := loop.cancelled || env.interrupted(polls), [], window;
    if !cancelled && !loop.ending.StopHit? && partial != [] {
      held := window + partial;
    }
    cancelled := cancelled || env.interrupted(polls + 1);
    if !cancelled && !loop.ending.StopHit? && held != [] {
      flush := [held];
    }
    r := loop.(cancelled := cancelled, flush := flush);
    assert partial == [] ==> window + partial == window;
    assert held == [] ==> out + held == out;
    LawfulPrefix(stops, Generated(env.samples, r.consumed), r.Output(), lawful);
  }

  /** `m` is the length of the longest stop. */
  ghost predicate IsLongest(stops: seq<Text>, m: nat) {
    NoLongerThan(stops, m) && exists k :: 0 <= k < |stops| && |stops[k]| == m
  }

  method DecodeAndFlush(stops: seq<Text>, startPos: int, maxTokens: int, env: Env) returns (r: DecodeRun, m: nat)
    requires stops != [] && NonEmptyStops(stops) && AsciiStops(stops)
    ensures IsLongest(stops, m)
    ensures Steps(stops, m, startPos, maxTokens, env, r) && Emits(stops, env, r)
  {
    m := MaxStopLength(stops);
    assert stops[0] != [] && |stops[0]| <= m;
    hide Steps, LoopExit, Emits, NonEmptyStops, AsciiStops, NoLongerThan;
    var loop, window, partial := DecodeTokens(stops, m, startPos, maxTokens, env);
    r := Flush(stops, env, loop, window, partial);
    StepsIgnoreFlush(stops, m, startPos, maxTokens, env, loop, r);
  }

  lemma StepsIgnoreFlush(stops: seq<Text>, m: nat, startPos: int, maxTokens: int, env: Env, loop: DecodeRun,
      r: DecodeRun)
    requires Steps(stops, m, startPos, maxTokens, env, loop)
    requires r == loop.(cancelled := r.cancelled, flush := r.flush)
    ensures Steps(stops, m, startPos, maxTokens, env, r)
  {
    hide Decoded, Prompt, StopFree, ValidUpto, Generated, Because, Refusals, WellFormedChunks;
  }

  /** run_decode_loop. Over every sampler, sink, cancellation and decoder: `Steps` says which tokens are
      read and decoded, at which positions, when their text comes out and why the loop ends; `Emits`, that
      the output is a prefix of the lawful output and all of it unless the run is cancelled; without an
      ill-formed byte that is the plain truncation of the generated text at its first stop. */
  method RunDecodeLoop(usedFallbackFormat: bool, startPos: int, maxTokens: int, env: Env)
    returns (r: DecodeRun, m: nat)
    ensures var stops := ActiveStops(usedFallbackFormat);
            && IsLongest(stops, m)
            && Steps(stops, m, startPos, maxTokens, env, r) && Emits(stops, env, r)
            && var t := Generated(env.samples, r.consumed);
               (!r.cancelled && Run(ACCEPT, t) != REJECT ==> IsTruncation(stops, t, r.Output()))
  {
    hide Steps, IsLongest;
    var stops := ActiveStops(usedFallbackFormat);
    ActiveStopsAreSound(usedFallbackFormat);
    r, m := DecodeAndFlush(stops, startPos, maxTokens, env);
    if !r.cancelled {
      LawIsTruncationIff(stops, Generated(env.samples, r.consumed), r.Output());
    }
  }
}
