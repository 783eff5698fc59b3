/** rac_vlm_llamacpp_process_stream after its context preparation: the vision model's stream with
    caller stops, a repetition guard and the terminal marker on the last chunk. */
module VlmStream {
  import opened StopSequences

  /** A sampled token: its id, whether it ends generation, and the bytes it is spelled by. */
  datatype Sample = Sample(token: nat, isEog: bool, bytes: Text)

  datatype Event = Event(text: Text, isFinal: bool)

  /** What the stream cannot know in advance: the sampled tokens, the callback's answer to each event,
      whether the cancel flag is set before each token, whether each token decodes. */
  datatype Env = Env(samples: nat -> Sample, answers: nat -> bool, cancelled: nat -> bool, decodes: nat -> bool)

  datatype Exit = Exhausted | GuardFired | StopMatched | EndOfGeneration | CallbackStopped | DecodeFailed

  const MAX_CONSECUTIVE_REPEATS := 4

  function TextOf(events: seq<Event>): Text {
    if events == [] then [] else TextOf(events[..|events| - 1]) + events[|events| - 1].text
  }

  lemma EventsSnoc(events: seq<Event>, e: Event)
    ensures TextOf(events + [e]) == TextOf(events) + e.text
  {
    assert (events + [e])[..|events|] == events;
  }

  function Generated(samples: nat -> Sample, n: nat): Text {
    if n == 0 then [] else Generated(samples, n - 1) + samples(n - 1).bytes
  }

  ghost predicate NoFinal(events: seq<Event>) {
    forall i :: 0 <= i < |events| ==> !events[i].isFinal
  }

  /** Exactly one terminal marker, on the last event. */
  ghost predicate OneFinalLast(events: seq<Event>) {
    && events != [] && events[|events| - 1].isFinal
    && forall i :: 0 <= i < |events| - 1 ==> !events[i].isFinal
  }

  ghost predicate Scanning(stops: seq<Text>, m: nat, t: Text, events: seq<Event>, window: Text) {
    && t == TextOf(events) + window
    && StopFree(stops, t)
    && (TextOf(events) == [] || |window| >= m)
    && |window| <= m
    && (stops == [] ==> window == [])
  }

  /** A stop in the grown window: the part before it, then the terminal marker. */
  method EmitCut(stops: seq<Text>, events: seq<Event>, window: Text, pos: nat, ghost t: Text)
    returns (events': seq<Event>)
    requires NoFinal(events) && pos <= |window| && t == TextOf(events) + window
    requires IsFirstStop(stops, t, |TextOf(events)| + pos)
    ensures IsTruncation(stops, t, TextOf(events')) && OneFinalLast(events') && |events'| <= |events| + 2
  {
    hide StopAt;
    var prefix := window[..pos];
    EventsSnoc(events, Event(prefix, false));
    events' := if pos > 0 then events + [Event(prefix, false)] else events;
    assert TextOf(events') == TextOf(events) + prefix <= t;
    EventsSnoc(events', Event([], true));
    events' := events' + [Event([], true)];
  }

  /** One chunk of a window without stops. */
  lemma EmitChunk(stops: seq<Text>, m: nat, t: Text, events: seq<Event>, window: Text, n: nat, last: bool)
    requires NoFinal(events) && n <= |window| && t == TextOf(events) + window && StopFree(stops, t)
    ensures var events' := events + [Event(window[..n], last)];
            && t == TextOf(events') + window[n..]
            && (last ==> OneFinalLast(events')) && (!last ==> NoFinal(events'))
  {
    EventsSnoc(events, Event(window[..n], last));
    assert window == window[..n] + window[n..];
    Assoc(TextOf(events), window[..n], window[n..]);
  }

  /** One non-empty piece while no stop was hit: pass it on, or hold it back in the window. */
  method TakePiece(stops: seq<Text>, m: nat, events: seq<Event>, window: Text, piece: Text, isEog: bool,
                   answers: nat -> bool, ghost t: Text)
    returns (events': seq<Event>, window': Text, exit: Exit)
    requires NonEmptyStops(stops) && NoLongerThan(stops, m)
    requires Scanning(stops, m, t, events, window) && NoFinal(events) && (stops == [] ==> m == 0)
    ensures stops == [] ==> window' == []
    ensures exit.Exhausted? || exit.StopMatched? || exit.CallbackStopped?
    ensures exit.StopMatched? ==> IsTruncation(stops, t + piece, TextOf(events')) && OneFinalLast(events')
    ensures exit.StopMatched? ==> !StopFree(stops, t + piece) && |events'| <= |events| + 2
    ensures !exit.StopMatched? ==> t + piece == TextOf(events') + window' && StopFree(stops, t + piece)
    ensures !exit.StopMatched? ==> if OneFinalLast(events') then window' == [] else NoFinal(events')
    ensures !exit.StopMatched? ==> (isEog <==> OneFinalLast(events'))
    ensures exit.Exhausted? && !isEog ==> Scanning(stops, m, t + piece, events', window')
    ensures !exit.StopMatched? ==> |events'| == |events| || |events'| == |events| + 1
    ensures exit.CallbackStopped? ==> |events'| == |events| + 1 && !answers(|events|)
    ensures exit.Exhausted? && !isEog && |events'| > |events| ==> answers(|events|)
  {
    hide StopAt, TextOf, NonEmptyStops, NoLongerThan, StopFree;
    WindowSeesFirstStop(stops, m, TextOf(events), window, piece);
    Assoc(TextOf(events), window, piece);
    window' := window + piece;
    assert window'[..|window'|] == window' && window'[|window'|..] == [];
    events', exit := events, Exhausted;
    if stops == [] {
      NoStopsNoStop(t + piece);
      EmitChunk(stops, m, t + piece, events, window', |window'|, isEog);
      events', window' := events + [Event(window', isEog)], [];
      if !answers(|events|) { exit := CallbackStopped; }
      return;
    }
    var found, pos := FindFirstStopSequence(window', stops);
    if found {
      StopStartsInside(stops, window', pos);
      events' := EmitCut(stops, events, window', pos, t + piece);
      exit := StopMatched;
      FoundIsNotFree(stops, t + piece, |TextOf(events)| + pos);
    } else if isEog {
      EmitChunk(stops, m, t + piece, events, window', |window'|, true);
      events', window' := events + [Event(window', true)], [];
    } else if |window'| > m {
      var safe := |window'| - m;
      EmitChunk(stops, m, t + piece, events, window', safe, false);
      events', window' := events + [Event(window'[..safe], false)], window'[safe..];
      if !answers(|events|) { exit := CallbackStopped; }
    }
  }

  lemma FoundIsNotFree(stops: seq<Text>, t: Text, p: int)
    requires IsFirstStop(stops, t, p)
    ensures !StopFree(stops, t)
  {
    assert StopAt(stops, t, p);
  }

  lemma NoStopsNoStop(t: Text)
    ensures StopFree([], t)
  {
  }

  /** What is out and held when the loop is left. */
  ghost predicate Left(stops: seq<Text>, t: Text, events: seq<Event>, window: Text, terminal: bool, exit: Exit) {
    if exit.StopMatched? then
      terminal && OneFinalLast(events) && IsTruncation(stops, t, TextOf(events))
    else
      && t == TextOf(events) + window && StopFree(stops, t) && (stops == [] ==> window == [])
      && if terminal then OneFinalLast(events) && window == [] && !exit.GuardFired? && !exit.DecodeFailed?
         else NoFinal(events)
  }

  /** What the caller has received in the end. */
  ghost predicate Done(stops: seq<Text>, t: Text, events: seq<Event>, exit: Exit) {
    && OneFinalLast(events)
    && (!exit.GuardFired? && !exit.DecodeFailed? ==> IsTruncation(stops, t, TextOf(events)))
    && TextOf(events) <= t && StopFree(stops, TextOf(events))
  }

  /** The terminal marker, with what is still held unless the guard fired or decoding failed. */
  method Close(stops: seq<Text>, ghost t: Text, events: seq<Event>, window: Text, exit: Exit)
    returns (events': seq<Event>)
    requires NonEmptyStops(stops) && Left(stops, t, events, window, false, exit)
    ensures Done(stops, t, events', exit) && |events'| == |events| + 1
  {
    var tail := if stops != [] && window != [] && !exit.GuardFired? && !exit.DecodeFailed? then window else [];
    EventsSnoc(events, Event(tail, true));
    events' := events + [Event(tail, true)];
    StopFreePrefix(stops, TextOf(events), window);
    assert TextOf(events) + [] == TextOf(events);
  }

  lemma LeftIsDone(stops: seq<Text>, t: Text, events: seq<Event>, window: Text, exit: Exit)
    requires NonEmptyStops(stops) && Left(stops, t, events, window, true, exit)
    ensures Done(stops, t, events, exit)
  {
    if exit.StopMatched? {
      TruncationIsStopFree(stops, t, TextOf(events));
    } else {
      assert TextOf(events) + window == TextOf(events);
    }
  }

  /** The last five sampled tokens are the same. */
  ghost predicate FiveAlike(samples: nat -> Sample, i: nat) {
    i >= MAX_CONSECUTIVE_REPEATS
    && forall j :: i - MAX_CONSECUTIVE_REPEATS <= j < i ==> samples(j).token == samples(i).token
  }

  /** `run` repeats end at the token before `i`, and no more. */
  ghost predicate RepeatRun(samples: nat -> Sample, i: nat, run: nat) {
    && (i == 0 ==> run == 0)
    && (i > 0 ==> run < i && (forall j :: i - 1 - run <= j < i ==> samples(j).token == samples(i - 1).token)
                  && (i - 1 - run > 0 ==> samples(i - 2 - run).token != samples(i - 1).token))
  }

  /** The repetition guard on the token at `i`: it fires exactly on a fifth equal token in a row. */
  method Guard(samples: nat -> Sample, i: nat, prev: int, repeatRun: nat) returns (run': nat, fires: bool)
    requires prev == if i == 0 then -1 else samples(i - 1).token
    requires repeatRun < MAX_CONSECUTIVE_REPEATS && RepeatRun(samples, i, repeatRun)
    ensures fires <==> FiveAlike(samples, i)
    ensures !fires ==> run' < MAX_CONSECUTIVE_REPEATS && RepeatRun(samples, i + 1, run')
  {
    if samples(i).token == prev {
      run' := repeatRun + 1;
      fires := run' >= MAX_CONSECUTIVE_REPEATS;
      assert i - 1 - repeatRun > 0 ==> samples(i - 2 - repeatRun).token != samples(i - 1).token;
    } else {
      run', fires := 0, false;
      assert i > 0 ==> samples(i - 1).token != samples(i).token;
    }
  }

  /** The token at `i` was neither the end nor the occasion of leaving the loop. */
  predicate Passed(env: Env, i: nat) {
    !env.cancelled(i) && !env.samples(i).isEog && env.decodes(i)
  }

  ghost predicate AllPassed(env: Env, n: int) {
    forall i :: 0 <= i < n ==> Passed(env, i)
  }

  ghost predicate AllAnswered(env: Env, calls: int) {
    forall k :: 0 <= k < calls ==> env.answers(k)
  }

  /** What every iteration keeps. */
  ghost predicate Iterating(stops: seq<Text>, m: nat, env: Env, i: nat, events: seq<Event>,
                            window: Text, prev: int, repeatRun: nat)
  {
    && Scanning(stops, m, Generated(env.samples, i), events, window) && NoFinal(events)
    && prev == (if i == 0 then -1 else env.samples(i - 1).token)
    && repeatRun < MAX_CONSECUTIVE_REPEATS && RepeatRun(env.samples, i, repeatRun)
    && AllPassed(env, i) && AllAnswered(env, |events|)
    && Unrepeated(env.samples, i)
  }

  /** No five equal tokens in a row among the first `n`, end-of-generation tokens apart. */
  ghost predicate Unrepeated(samples: nat -> Sample, n: nat) {
    forall i :: 0 <= i < n && !samples(i).isEog ==> !FiveAlike(samples, i)
  }

  /** Why the loop was left after `n` tokens: every token but the last one passed, and the last one, or
      the next one for the guard and for a set cancel flag, is the occasion. */
  ghost predicate Because(stops: seq<Text>, env: Env, n: nat, exit: Exit) {
    match exit
    case Exhausted => AllPassed(env, n) && StopFree(stops, Generated(env.samples, n))
    case GuardFired =>
      && AllPassed(env, n) && StopFree(stops, Generated(env.samples, n))
      && !env.cancelled(n) && !env.samples(n).isEog && FiveAlike(env.samples, n)
    case _ =>
      && n > 0 && AllPassed(env, n - 1) && !env.cancelled(n - 1)
      && StopFree(stops, Generated(env.samples, n - 1))
      && (exit.StopMatched? <==> !StopFree(stops, Generated(env.samples, n)))
      && (exit.EndOfGeneration? ==> env.samples(n - 1).isEog)
      && (exit.DecodeFailed? ==> !env.samples(n - 1).isEog && !env.decodes(n - 1))
  }

  /** Which events were refused: none before the one that ended the loop. A terminal marker that the loop
      itself sends, and the one after it, are not waited for. */
  ghost predicate Answers(env: Env, calls: nat, terminal: bool, exit: Exit) {
    && AllAnswered(env, if exit.StopMatched? then calls - 2
                        else if terminal || exit.CallbackStopped? then calls - 1 else calls)
    && (exit.CallbackStopped? ==> calls > 0 && !env.answers(calls - 1))
  }

  /** Left after `n` tokens, with nothing but the terminal marker to do. */
  ghost predicate LeftBecause(stops: seq<Text>, env: Env, n: nat, events: seq<Event>, window: Text, terminal: bool,
      exit: Exit)
  {
    && Left(stops, Generated(env.samples, n), events, window, terminal, exit)
    && Unrepeated(env.samples, n) && Because(stops, env, n, exit) && Answers(env, |events|, terminal, exit)
  }

  /** One iteration on the sample at `i`. */
  method Step(stops: seq<Text>, m: nat, events: seq<Event>, window: Text, env: Env, i: nat, prev: int, repeatRun: nat)
    returns (events': seq<Event>, window': Text, prev': int, repeatRun': nat, terminal: bool, exit: Exit)
    requires NonEmptyStops(stops) && NoLongerThan(stops, m) && (stops == [] ==> m == 0)
    requires Iterating(stops, m, env, i, events, window, prev, repeatRun) && !env.cancelled(i)
    ensures exit.Exhausted? ==> !terminal && Iterating(stops, m, env, i + 1, events', window', prev', repeatRun')
    ensures !exit.Exhausted? ==>
      LeftBecause(stops, env, if exit.GuardFired? then i else i + 1, events', window', terminal, exit)
  {
    hide StopFree, IsTruncation, TextOf, NonEmptyStops, FiveAlike, RepeatRun;
    ghost var t := Generated(env.samples, i);
    events', window', prev', repeatRun', terminal, exit := events, window, prev, repeatRun, false, Exhausted;
    var sample := env.samples(i);
    if !sample.isEog {
      var fires;
      repeatRun', fires := Guard(env.samples, i, prev, repeatRun);
      if fires {
        exit := GuardFired;
        return;
      }
      prev' := sample.token;
    }
    if sample.bytes != [] {
      events', window', exit := TakePiece(stops, m, events, window, sample.bytes, sample.isEog, env.answers, t);
      terminal := exit.StopMatched? || sample.isEog;
    } else {
      assert t + sample.bytes == t;
    }
    if exit.Exhausted? {
      exit := if sample.isEog then EndOfGeneration else if !env.decodes(i) then DecodeFailed else Exhausted;
    }
  }

  /** Where the stream stands after `n` samples: still iterating, or left for the reason `exit`. */
  ghost predicate LoopState(stops: seq<Text>, m: nat, env: Env, n: nat, events: seq<Event>, window: Text, prev: int,
                            repeatRun: nat, terminal: bool, exit: Exit)
  {
    if exit.Exhausted? then !terminal && Iterating(stops, m, env, n, events, window, prev, repeatRun)
    else LeftBecause(stops, env, n, events, window, terminal, exit)
  }

  lemma StartState(stops: seq<Text>, m: nat, env: Env)
    requires NonEmptyStops(stops)
    ensures LoopState(stops, m, env, 0, [], [], -1, 0, false, Exhausted)
  {
    EmptyIsStopFree(stops);
  }

  method NextState(stops: seq<Text>, m: nat, events: seq<Event>, window: Text, env: Env, n: nat, prev: int,
      repeatRun: nat)
    returns (n': nat, events': seq<Event>, window': Text, prev': int, repeatRun': nat, terminal: bool, exit: Exit)
    requires NonEmptyStops(stops) && NoLongerThan(stops, m) && (stops == [] ==> m == 0)
    requires LoopState(stops, m, env, n, events, window, prev, repeatRun, false, Exhausted) && !env.cancelled(n)
    ensures n' == (if exit.GuardFired? then n else n + 1)
    ensures LoopState(stops, m, env, n', events', window', prev', repeatRun', terminal, exit)
    ensures exit.Exhausted? ==> !terminal
  {
    hide Iterating, LeftBecause, NonEmptyStops, NoLongerThan;
    events', window', prev', repeatRun', terminal, exit := Step(stops, m, events, window, env, n, prev, repeatRun);
    n' := if exit.GuardFired? then n else n + 1;
  }

  /** The refused events, seen from the end: only the last two may be among them. */
  ghost predicate Refusals(env: Env, calls: nat, exit: Exit) {
    && AllAnswered(env, calls - 2)
    && (exit.CallbackStopped? ==> exists k :: calls - 2 <= k < calls && 0 <= k && !env.answers(k))
  }

  /** Whatever ended the loop, the caller gets the terminal marker exactly once, last. */
  method Finish(stops: seq<Text>, ghost m: nat, ghost env: Env, ghost n: nat, events: seq<Event>, window: Text,
                ghost prev: int, ghost repeatRun: nat, terminal: bool, exit: Exit)
    returns (events': seq<Event>)
    requires NonEmptyStops(stops)
    requires LoopState(stops, m, env, n, events, window, prev, repeatRun, terminal, exit)
    ensures Done(stops, Generated(env.samples, n), events', exit) && Unrepeated(env.samples, n)
    ensures Because(stops, env, n, exit) && Refusals(env, |events'|, exit)
  {
    hide StopFree, IsTruncation, TextOf, NonEmptyStops, FiveAlike, RepeatRun;
    events' := events;
    if terminal {
      LeftIsDone(stops, Generated(env.samples, n), events, window, exit);
      assert exit.CallbackStopped? ==> !env.answers(|events'| - 1);
    } else {
      events' := Close(stops, Generated(env.samples, n), events, window, exit);
      assert exit.CallbackStopped? ==> !env.answers(|events'| - 2);
    }
  }

  /** The whole stream. Over every sampler, callback, cancellation and decoder there is exactly one
      terminal marker, on the last event; the text is the generated text truncated at its first stop
      unless the repetition guard fired or decoding failed, and then still a stop-free prefix of it.
      `Because` says which tokens were read and why no more. */
  method ProcessStream(stops: seq<Text>, maxTokens: nat, env: Env)
    returns (events: seq<Event>, consumed: nat, exit: Exit)
    requires NonEmptyStops(stops)
    ensures OneFinalLast(events) && consumed <= maxTokens
    ensures !exit.GuardFired? && !exit.DecodeFailed? ==>
              IsTruncation(stops, Generated(env.samples, consumed), TextOf(events))
    ensures TextOf(events) <= Generated(env.samples, consumed) && StopFree(stops, TextOf(events))
    ensures Unrepeated(env.samples, consumed)
    ensures Because(stops, env, consumed, exit) && Refusals(env, |events|, exit)
    ensures exit.Exhausted? ==> consumed == maxTokens || env.cancelled(consumed)
    ensures exit.GuardFired? ==> consumed < maxTokens
  {
    var m := MaxStopLength(stops);
    events, consumed, exit := [], 0, Exhausted;
    var window: Text, terminal := [], false;
    var prev: int, repeatRun: nat := -1, 0;
    StartState(stops, m, env);
    hide LoopState, Because, Refusals;
    while exit.Exhausted? && consumed < maxTokens && !env.cancelled(consumed)
      invariant consumed <= maxTokens && (exit.Exhausted? ==> !terminal)
      invariant exit.GuardFired? ==> consumed < maxTokens
      invariant LoopState(stops, m, env, consumed, events, window, prev, repeatRun, terminal, exit)
      decreases exit.Exhausted?, maxTokens - consumed
    {
      consumed, events, window, prev, repeatRun, terminal, exit :=
        NextState(stops, m, events, window, env, consumed, prev, repeatRun);
    }
    events := Finish(stops, m, env, consumed, events, window, prev, repeatRun, terminal, exit);
  }
}
