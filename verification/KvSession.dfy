/** KV-cache positions of a llama.cpp text session across its operations. A decode that fails
    stores nothing; a decode that succeeds stores the positions of its batch. */
module KvSession {
  import opened Arithmetic
  import opened Sequences
  import opened StopSequences
  import opened Wrappers
  import opened DecodeLoop

  const RESERVED_EOS_TOKENS := 4

  function Range(start: int, n: nat): (r: seq<int>)
    ensures |r| == n && forall i :: 0 <= i < n ==> r[i] == start + i
  {
    seq(n, i => start + i)
  }

  lemma RangeSplit(start: int, m: nat, n: nat)
    ensures Range(start, m) + Range(start + m, n) == Range(start, m + n)
  {
  }

  /** The positions 0, 1, ... are each used once. */
  ghost predicate Contiguous(kv: seq<int>) {
    kv == Range(0, |kv|)
  }

  /** llama_memory_seq_pos_max: the largest occupied position, -1 when there is none. */
  function PosMax(kv: seq<int>): int {
    if kv == [] then -1
    else
      var m := PosMax(kv[..|kv| - 1]);
      if kv[|kv| - 1] > m then kv[|kv| - 1] else m
  }

  lemma {:induction false} PosMaxOfRange(n: nat)
    ensures PosMax(Range(0, n)) == n - 1
  {
    if n > 0 {
      assert Range(0, n)[..n - 1] == Range(0, n - 1);
      PosMaxOfRange(n - 1);
    }
  }

  /** batch.n_tokens after the prefill loop: the size of the last chunk. */
  function LastChunk(n: nat, batch: nat): (r: nat)
    requires batch > 0
    ensures n <= batch ==> r == n
    ensures n > batch ==> 0 < r < n
    ensures r <= batch && exists full: nat :: n == full * batch + r
    decreases n
  {
    if n <= batch then
      assert n == 0 * batch + n;
      n
    else
      var r := LastChunk(n - batch, batch);
      assert r > 0 || n == batch;
      var full: nat :| n - batch == full * batch + r;
      assert n == (full + 1) * batch + r;
      r
  }

  /** generate_stream decodes from the size of the last prompt chunk on. Prompt and generated
      positions are pairwise distinct exactly when the prompt fits one batch or nothing is decoded. */
  lemma StreamPositionsDistinctIff(prompt: nat, batch: nat, decoded: nat)
    requires batch > 0
    ensures Distinct(Range(0, prompt) + Range(LastChunk(prompt, batch), decoded)) <==> prompt <= batch || decoded == 0
  {
    var start := LastChunk(prompt, batch);
    var all := Range(0, prompt) + Range(start, decoded);
    if prompt > batch && decoded > 0 {
      assert all[start] == all[prompt];
    } else if prompt <= batch {
      RangeSplit(0, prompt, decoded);
    }
  }

  // ---------------------------------------------------------------------------
  // Prefill
  // ---------------------------------------------------------------------------

  function Min(a: int, b: int): int { if a < b then a else b }

  /** How many of `n` tokens are stored chunk by chunk, from decode call `call` on: all chunks up to the
      first one that fails. */
  function Prefilled(n: nat, batch: nat, decodes: nat -> bool, call: nat): (stored: nat)
    requires batch > 0
    ensures stored <= n
    decreases n
  {
    if n == 0 || !decodes(call) then 0
    else if n <= batch then n
    else batch + Prefilled(n - batch, batch, decodes, call + 1)
  }

  function Chunks(n: nat, batch: nat): nat
    requires batch > 0
  {
    (n + batch - 1) / batch
  }

  ghost predicate ChunksDecode(n: nat, batch: nat, decodes: nat -> bool, call: nat)
    requires batch > 0
  {
    forall i: nat :: call <= i < call + Chunks(n, batch) ==> decodes(i)
  }

  lemma ChunksStep(n: nat, batch: nat)
    requires batch > 0
    ensures n == 0 ==> Chunks(n, batch) == 0
    ensures 0 < n <= batch ==> Chunks(n, batch) == 1
    ensures n > batch ==> Chunks(n, batch) == 1 + Chunks(n - batch, batch)
  {
    if n == 0 {
      DivMod(0, batch - 1, batch);
    } else if n <= batch {
      DivMod(1, n - 1, batch);
    } else {
      var rest := n - batch;
      var q, t := (rest + batch - 1) / batch, (rest + batch - 1) % batch;
      assert rest + batch - 1 == q * batch + t;
      assert n + batch - 1 == (q + 1) * batch + t;
      DivMod(q + 1, t, batch);
    }
  }

  /** Everything is stored if and only if every chunk decodes; otherwise whole chunks are, those before the
      first failing one. */
  lemma {:induction false} PrefilledIff(n: nat, batch: nat, decodes: nat -> bool, call: nat)
    requires batch > 0
    ensures Prefilled(n, batch, decodes, call) == n <==> ChunksDecode(n, batch, decodes, call)
    ensures Prefilled(n, batch, decodes, call) < n ==>
              exists failed: nat :: failed < Chunks(n, batch) && !decodes(call + failed)
                                    && (forall i :: call <= i < call + failed ==> decodes(i))
                                    && Prefilled(n, batch, decodes, call) == failed * batch
    decreases n
  {
    ChunksStep(n, batch);
    if n == 0 {
    } else if !decodes(call) {
      assert !decodes(call + 0) && 0 * batch == 0;
    } else if n > batch {
      PrefilledIff(n - batch, batch, decodes, call + 1);
      var rest := Prefilled(n - batch, batch, decodes, call + 1);
      hide Prefilled, Chunks;
      if rest < n - batch {
        var failed: nat :| failed < Chunks(n - batch, batch) && !decodes(call + 1 + failed)
                           && (forall i :: call + 1 <= i < call + 1 + failed ==> decodes(i)) && rest == failed * batch;
        assert (failed + 1) * batch == batch + rest;
        assert !decodes(call + (failed + 1));
      }
    }
  }

  /** The chunks before `chunkStart` are stored; `last` is the size of the latest. */
  ghost predicate Filling(n: nat, batch: nat, decodes: nat -> bool, chunkStart: nat, call: nat, last: nat)
    requires batch > 0
  {
    if chunkStart < n then
      && Prefilled(n, batch, decodes, 0) == chunkStart + Prefilled(n - chunkStart, batch, decodes, call)
      && LastChunk(n - chunkStart, batch) == LastChunk(n, batch)
    else
      Prefilled(n, batch, decodes, 0) == n && last == LastChunk(n, batch)
  }

  lemma FillingStarts(n: nat, batch: nat, decodes: nat -> bool)
    requires batch > 0
    ensures Filling(n, batch, decodes, 0, 0, 0)
  {
  }

  lemma FillingStep(n: nat, batch: nat, decodes: nat -> bool, chunkStart: nat, call: nat, last: nat)
    requires batch > 0 && chunkStart < n && Filling(n, batch, decodes, chunkStart, call, last)
    ensures decodes(call) ==>
              Filling(n, batch, decodes, chunkStart + batch, call + 1, Min(chunkStart + batch, n) - chunkStart)
    ensures !decodes(call) ==> Prefilled(n, batch, decodes, 0) == chunkStart < n
  {
  }

  lemma NothingStored(kv: seq<int>, start: int)
    ensures kv + Range(start, 0) == kv
  {
  }

  lemma StoredMore(kv: seq<int>, start: int, m: nat, n: nat)
    ensures (kv + Range(start, m)) + Range(start + m, n) == kv + Range(start, m + n)
  {
    RangeSplit(start, m, n);
  }

  lemma FillingEnds(n: nat, batch: nat, decodes: nat -> bool, chunkStart: nat, call: nat, last: nat)
    requires batch > 0 && chunkStart >= n && Filling(n, batch, decodes, chunkStart, call, last)
    ensures Prefilled(n, batch, decodes, 0) == n && last == LastChunk(n, batch)
  {
  }

  // ---------------------------------------------------------------------------
  // The operations
  // ---------------------------------------------------------------------------

  /** What the operations cannot know in advance: whether the chunks of a prefill decode, which chat
      format the prompt used, and the environment of the decode loop. */
  datatype World = World(prefill: nat -> bool, usedFallback: bool, env: Env)

  /** The decode loop of a generation: started at `start` with a budget of `maxTokens`. */
  ghost predicate IsGeneration(w: World, start: int, maxTokens: int, run: DecodeRun) {
    var stops := ActiveStops(w.usedFallback);
    exists m: nat :: IsLongest(stops, m) && Steps(stops, m, start, maxTokens, w.env, run) && Emits(stops, w.env, run)
  }

  /** A generation stores one position per decoded token, from its start on, within its budget. */
  lemma GenerationStores(w: World, start: int, maxTokens: int, run: DecodeRun)
    requires IsGeneration(w, start, maxTokens, run)
    ensures run.positions == Range(start, |run.positions|)
    ensures |run.positions| <= if maxTokens > 0 then maxTokens else 0
  {
    hide Emits, IsLongest, Prompt, StopFree, Refusals;
    var stops := ActiveStops(w.usedFallback);
    var m: nat :| IsLongest(stops, m) && Steps(stops, m, start, maxTokens, w.env, run) && Emits(stops, w.env, run);
  }

  method Generate(w: World, start: int, maxTokens: int) returns (run: DecodeRun)
    ensures IsGeneration(w, start, maxTokens, run)
    ensures run.positions == Range(start, |run.positions|)
    ensures |run.positions| <= if maxTokens > 0 then maxTokens else 0
  {
    hide Steps, Emits, IsLongest;
    var m;
    run, m := RunDecodeLoop(w.usedFallback, start, maxTokens, w.env);
    GenerationStores(w, start, maxTokens, run);
  }

  datatype Op =
    | Inject(n: nat)
    | Append(n: nat)
    | FromContext(n: nat, maxTokens: int)
    | Stream(n: nat, maxTokens: int)
    | ClearContext

  /** The tokens left for generation behind `k` context and `n` prompt tokens. */
  function Available(nCtx: nat, k: nat, n: nat): int {
    nCtx - k - n - RESERVED_EOS_TOKENS
  }

  /** The operation goes as far as its prefill: there is something to store, and room for it. */
  predicate Fits(nCtx: nat, op: Op, k: nat) {
    match op
    case Inject(n) => 0 < n < nCtx
    case Append(n) => k + n < nCtx
    case FromContext(n, _) => n > 0 && Available(nCtx, k, n) > 0
    case Stream(n, _) => Available(nCtx, 0, n) > 0
    case ClearContext => true
  }

  /** How an operation changes the number of occupied positions. `run` is the generation, if one took place:
      exactly if the prompt fits and every chunk of it decodes. */
  ghost predicate Changes(nCtx: nat, batch: nat, op: Op, w: World, k: nat, k': nat, run: Option<DecodeRun>)
    requires batch > 0
  {
    match op
    case Inject(n) => run.None? && k' == if Fits(nCtx, op, k) then Prefilled(n, batch, w.prefill, 0) else 0
    case Append(n) => run.None? && k' == k + if Fits(nCtx, op, k) then Prefilled(n, batch, w.prefill, 0) else 0
    case FromContext(n, maxTokens) =>
      && (run.Some? <==> Fits(nCtx, op, k) && ChunksDecode(n, batch, w.prefill, 0))
      && (run.Some? ==>
            && IsGeneration(Accumulating(w), k + n, Min(maxTokens, Available(nCtx, k, n)), run.value)
            && k' == k + n + |run.value.positions|)
      && (run.None? ==> k' == k + if Fits(nCtx, op, k) then Prefilled(n, batch, w.prefill, 0) else 0)
    case Stream(n, maxTokens) =>
      && (run.Some? <==> Fits(nCtx, op, k) && ChunksDecode(n, batch, w.prefill, 0))
      && (run.Some? ==>
            && IsGeneration(w, LastChunk(n, batch), Min(maxTokens, Available(nCtx, 0, n)), run.value)
            && k' == 0)
      && (run.None? ==> k' == if Fits(nCtx, op, k) then Prefilled(n, batch, w.prefill, 0) else 0)
    case ClearContext => run.None? && k' == 0
  }

  /** generate_from_context collects its text in a sink that never refuses. */
  function Accumulating(w: World): World {
    w.(env := w.env.(accepts := _ => true))
  }

  predicate NothingRefused(run: DecodeRun) {
    !run.ending.Refused? && (run.ending.StopHit? ==> !run.ending.refused)
  }

  lemma NeverRefused(w: World, start: int, maxTokens: int, run: DecodeRun)
    requires IsGeneration(w, start, maxTokens, run) && forall k :: w.env.accepts(k)
    ensures NothingRefused(run)
  {
    hide Emits, IsLongest, Prompt, StopFree, Decoded, Because;
    var stops := ActiveStops(w.usedFallback);
    var m: nat :| IsLongest(stops, m) && Steps(stops, m, start, maxTokens, w.env, run) && Emits(stops, w.env, run);
  }

  /** A generation behind `k` positions takes place exactly if the prompt is not empty, leaves room and decodes;
      it has all the room there is, up to the budget asked for, and nothing it puts out is refused. */
  ghost predicate GeneratesBehind(nCtx: nat, batch: nat, n: nat, maxTokens: int, w: World, k: nat,
                                  run: Option<DecodeRun>)
    requires batch > 0
  {
    var room := nCtx - k - n - RESERVED_EOS_TOKENS;
    && (run.Some? <==> n > 0 && room > 0 && ChunksDecode(n, batch, w.prefill, 0))
    && (run.Some? ==>
          && IsGeneration(Accumulating(w), k + n, if maxTokens < room then maxTokens else room, run.value)
          && NothingRefused(run.value))
  }

  lemma GenerationChanges(nCtx: nat, batch: nat, n: nat, maxTokens: int, w: World, k: nat, run: DecodeRun)
    requires batch > 0 && n > 0 && Available(nCtx, k, n) > 0 && ChunksDecode(n, batch, w.prefill, 0)
    requires IsGeneration(Accumulating(w), k + n, Min(maxTokens, Available(nCtx, k, n)), run)
    requires |run.positions| <= Available(nCtx, k, n)
    ensures Changes(nCtx, batch, FromContext(n, maxTokens), w, k, k + n + |run.positions|, Some(run))
    ensures GeneratesBehind(nCtx, batch, n, maxTokens, w, k, Some(run))
    ensures k + n + |run.positions| <= nCtx - RESERVED_EOS_TOKENS
  {
    NeverRefused(Accumulating(w), k + n, Min(maxTokens, Available(nCtx, k, n)), run);
    hide IsGeneration, ChunksDecode;
  }

  /** The prompt does not fit, or its prefill fails after `stored` positions. */
  lemma NoGenerationChanges(nCtx: nat, batch: nat, n: nat, maxTokens: int, w: World, k: nat, stored: nat)
    requires batch > 0
    requires if n > 0 && Available(nCtx, k, n) > 0
             then !ChunksDecode(n, batch, w.prefill, 0) && stored == Prefilled(n, batch, w.prefill, 0) else stored == 0
    ensures Changes(nCtx, batch, FromContext(n, maxTokens), w, k, k + stored, None)
    ensures GeneratesBehind(nCtx, batch, n, maxTokens, w, k, None)
    ensures n > 0 && Available(nCtx, k, n) > 0 ==> k + stored < nCtx
  {
    hide ChunksDecode, IsGeneration;
  }

  class Session {
    const nCtx: nat
    const nBatch: nat
    var kv: seq<int>

    /** Occupied positions are exactly 0..k-1 with k below the context size. */
    ghost predicate Valid()
      reads this
    {
      nBatch > 0 && Contiguous(kv) && (|kv| < nCtx || kv == [])
    }

    constructor (nCtx: nat, batchSize: int)
      requires nCtx > 0
      ensures Valid() && kv == [] && this.nCtx == nCtx
      ensures nBatch == if batchSize > 0 then batchSize else nCtx
    {
      this.nCtx := nCtx;
      nBatch := if batchSize > 0 then batchSize else nCtx;
      kv := [];
    }

    method Clear()
      modifies this
      ensures kv == []
    {
      kv := [];
    }

    /** One chunk: the batch is stored if it decodes. */
    method DecodeChunk(startPos: int, chunkStart: nat, chunkEnd: nat, decodes: bool)
      requires chunkStart <= chunkEnd
      modifies this
      ensures kv == if decodes then old(kv) + Range(startPos + chunkStart, chunkEnd - chunkStart) else old(kv)
    {
      var batch: seq<int> := [];
      for i := chunkStart to chunkEnd
        invariant kv == old(kv) && batch == Range(startPos + chunkStart, i - chunkStart)
      {
        batch := batch + [startPos + i];
      }
      if decodes {
        kv := kv + batch;
      }
    }

    /** The chunked prefill shared by all operations: it succeeds exactly if every chunk decodes, and stores
        the chunks before the first one that does not. */
    method Prefill(startPos: int, n: nat, decodes: nat -> bool) returns (ok: bool, lastChunk: nat)
      requires nBatch > 0
      modifies this
      ensures ok <==> ChunksDecode(n, nBatch, decodes, 0)
      ensures kv == old(kv) + Range(startPos, Prefilled(n, nBatch, decodes, 0))
      ensures ok ==> Prefilled(n, nBatch, decodes, 0) == n && lastChunk == LastChunk(n, nBatch)
    {
      hide ChunksDecode, Chunks, Prefilled, LastChunk, Filling, Range;
      assert ChunksDecode(n, nBatch, decodes, 0) <==> Prefilled(n, nBatch, decodes, 0) == n by {
        PrefilledIff(n, nBatch, decodes, 0);
      }
      ghost var before := kv;
      ok, lastChunk := true, 0;
      var chunkStart: nat, calls: nat := 0, 0;
      NothingStored(before, startPos);
      FillingStarts(n, nBatch, decodes);
      while chunkStart < n
        invariant kv == before + Range(startPos, Min(chunkStart, n))
        invariant Filling(n, nBatch, decodes, chunkStart, calls, lastChunk)
        decreases n - chunkStart
      {
        var chunkEnd := Min(chunkStart + nBatch, n);
        DecodeChunk(startPos, chunkStart, chunkEnd, decodes(calls));
        FillingStep(n, nBatch, decodes, chunkStart, calls, lastChunk);
        if !decodes(calls) {
          return false, 0;
        }
        StoredMore(before, startPos, chunkStart, chunkEnd - chunkStart);
        calls := calls + 1;
        lastChunk := chunkEnd - chunkStart;
        chunkStart := chunkStart + nBatch;
      }
      FillingEnds(n, nBatch, decodes, chunkStart, calls, lastChunk);
    }

    method InjectSystemPrompt(n: nat, w: World) returns (ok: bool)
      requires Valid()
      modifies this
      ensures Valid() && Changes(nCtx, nBatch, Inject(n), w, old(|kv|), |kv|, None)
      ensures ok <==> 0 < n < nCtx && ChunksDecode(n, nBatch, w.prefill, 0)
      ensures ok ==> kv == Range(0, n)
    {
      hide ChunksDecode, Prefilled;
      Clear();
      if n == 0 || n >= nCtx {
        return false;
      }
      var lastChunk;
      ok, lastChunk := Prefill(0, n, w.prefill);
    }

    method AppendContext(n: nat, w: World) returns (ok: bool)
      requires Valid()
      modifies this
      ensures Valid() && old(kv) <= kv && Changes(nCtx, nBatch, Append(n), w, old(|kv|), |kv|, None)
      ensures ok <==> n == 0 || (old(|kv|) + n < nCtx && ChunksDecode(n, nBatch, w.prefill, 0))
      ensures ok ==> kv == Range(0, old(|kv|) + n)
    {
      hide ChunksDecode, PosMax;
      PosMaxOfRange(|kv|);
      var startPos := PosMax(kv) + 1;
      if n == 0 {
        return true;
      }
      if startPos + n >= nCtx {
        return false;
      }
      RangeSplit(0, |kv|, Prefilled(n, nBatch, w.prefill, 0));
      hide Prefilled;
      var lastChunk;
      ok, lastChunk := Prefill(startPos, n, w.prefill);
    }

    /** generate_from_context: prefill after the context, then decode on from there. */
    method GenerateFromContext(n: nat, maxTokens: int, w: World) returns (run: Option<DecodeRun>)
      requires Valid()
      modifies this
      ensures Valid() && old(kv) <= kv && Changes(nCtx, nBatch, FromContext(n, maxTokens), w, old(|kv|), |kv|, run)
      ensures run.Some? ==> |kv| <= nCtx - RESERVED_EOS_TOKENS
      ensures GeneratesBehind(nCtx, nBatch, n, maxTokens, w, old(|kv|), run)
    {
      hide ChunksDecode, PosMax, LastChunk, IsGeneration, Changes, Prefilled, Range, Accumulating, GeneratesBehind;
      if n == 0 {
        NoGenerationChanges(nCtx, nBatch, n, maxTokens, w, |kv|, 0);
        return None;
      }
      PosMaxOfRange(|kv|);
      var currentPos: nat := PosMax(kv) + 1;
      var available := Available(nCtx, currentPos, n);
      if available <= 0 {
        NoGenerationChanges(nCtx, nBatch, n, maxTokens, w, |kv|, 0);
        return None;
      }
      var effective := Min(maxTokens, available);
      RangeSplit(0, |kv|, Prefilled(n, nBatch, w.prefill, 0));
      ghost var before := |kv|;
      var ok, lastChunk := Prefill(currentPos, n, w.prefill);
      if !ok {
        NoGenerationChanges(nCtx, nBatch, n, maxTokens, w, before, Prefilled(n, nBatch, w.prefill, 0));
        return None;
      }
      var generation := Generate(Accumulating(w), currentPos + n, effective);
      GenerationChanges(nCtx, nBatch, n, maxTokens, w, before, generation);
      RangeSplit(0, |kv|, |generation.positions|);
      kv := kv + generation.positions;
      run := Some(generation);
    }

    /** generate_stream: `stored` is the cache content when the decode loop ends, before it is cleared. */
    method GenerateStream(n: nat, maxTokens: int, w: World) returns (run: Option<DecodeRun>, stored: seq<int>)
      requires Valid()
      modifies this
      ensures Valid() && Changes(nCtx, nBatch, Stream(n, maxTokens), w, old(|kv|), |kv|, run)
      ensures var room := nCtx - n - RESERVED_EOS_TOKENS;
              && (run.Some? <==> room > 0 && ChunksDecode(n, nBatch, w.prefill, 0))
              && (run.Some? ==> IsGeneration(w, LastChunk(n, nBatch),
                                             if maxTokens < room then maxTokens else room, run.value))
      ensures run.Some? ==>
                && stored == Range(0, n) + run.value.positions && |stored| <= nCtx - RESERVED_EOS_TOKENS
                && (Distinct(stored) <==> n <= nBatch || run.value.positions == [])
                && (n <= nBatch ==> Contiguous(stored))
    {
      hide ChunksDecode, Prefilled, IsGeneration, Distinct;
      Clear();
      run, stored := None, [];
      var available := Available(nCtx, 0, n);
      if available <= 0 {
        return;
      }
      var effective := Min(maxTokens, available);
      var ok, lastChunk := Prefill(0, n, w.prefill);
      if !ok {
        return;
      }
      var generation := Generate(w, lastChunk, effective);
      stored := kv + generation.positions;
      Clear();
      StreamPositionsDistinctIff(n, nBatch, |generation.positions|);
      RangeSplit(0, n, |generation.positions|);
      run := Some(generation);
    }
  }

  /** Over every sequence of operations in every world: the occupied positions are 0..k-1 with k below the
      context size, and every operation changes k exactly as `Changes` says, from 0 on. */
  method RunSession(nCtx: nat, batchSize: int, ops: seq<Op>, world: nat -> World)
    returns (kv: seq<int>, sizes: seq<nat>, runs: seq<Option<DecodeRun>>)
    requires nCtx > 0
    ensures |kv| < nCtx && |sizes| == |ops| + 1 && |runs| == |ops|
    ensures sizes[0] == 0 && kv == Range(0, sizes[|ops|])
    ensures var batch := if batchSize > 0 then batchSize else nCtx;
            forall i :: 0 <= i < |ops| ==> Changes(nCtx, batch, ops[i], world(i), sizes[i], sizes[i + 1], runs[i])
  {
    hide Changes;
    var s := new Session(nCtx, batchSize);
    sizes, runs := [0], [];
    for i := 0 to |ops|
      invariant s.Valid() && s.nCtx == nCtx && fresh(s)
      invariant |sizes| == i + 1 && |runs| == i && sizes[0] == 0 && sizes[i] == |s.kv|
      invariant forall j :: 0 <= j < i ==> Changes(nCtx, s.nBatch, ops[j], world(j), sizes[j], sizes[j + 1], runs[j])
    {
      var run := Perform(s, ops[i], world(i));
      sizes, runs := sizes + [|s.kv|], runs + [run];
    }
    kv := s.kv;
  }

  method Perform(s: Session, op: Op, w: World) returns (run: Option<DecodeRun>)
    requires s.Valid()
    modifies s
    ensures s.Valid() && Changes(s.nCtx, s.nBatch, op, w, old(|s.kv|), |s.kv|, run)
  {
    run := None;
    match op
    case Inject(n) => var _ := s.InjectSystemPrompt(n, w);
    case Append(n) => var _ := s.AppendContext(n, w);
    case FromContext(n, maxTokens) => run := s.GenerateFromContext(n, maxTokens, w);
    case Stream(n, maxTokens) =>
      var stored;
      run, stored := s.GenerateStream(n, maxTokens, w);
    case ClearContext => s.Clear();
  }

  /** What an operation leaves does not depend on what was there before, if it starts by clearing. */
  predicate StartsAnew(op: Op) {
    op.Inject? || op.Stream? || op.ClearContext?
  }

  /** The positions an operation with `k` positions before it leaves behind these. */
  function Stored(nCtx: nat, batch: nat, op: Op, w: World, k: nat, run: Option<DecodeRun>): nat
    requires batch > 0
  {
    if run.Some? then (if op.FromContext? then op.n + |run.value.positions| else 0)
    else if op.ClearContext? || !Fits(nCtx, op, k) then 0
    else Prefilled(op.n, batch, w.prefill, 0)
  }

  lemma ChangesStore(nCtx: nat, batch: nat, op: Op, w: World, k: nat, k': nat, run: Option<DecodeRun>)
    requires batch > 0 && Changes(nCtx, batch, op, w, k, k', run)
    ensures k' == (if StartsAnew(op) then 0 else k) + Stored(nCtx, batch, op, w, k, run)
  {
    hide IsGeneration, ChunksDecode, Prefilled;
  }

  /** What the operations a..b-1 stored. */
  function StoredBetween(nCtx: nat, batch: nat, ops: seq<Op>, world: nat -> World, sizes: seq<nat>,
                         runs: seq<Option<DecodeRun>>, a: nat, b: nat): nat
    requires batch > 0 && b <= |ops| == |runs| < |sizes|
  {
    if b <= a then 0
    else StoredBetween(nCtx, batch, ops, world, sizes, runs, a, b - 1)
         + Stored(nCtx, batch, ops[b - 1], world(b - 1), sizes[b - 1], runs[b - 1])
  }

  /** In every session, what is occupied is what the operations stored since the last one that cleared. */
  lemma {:induction false} SizeSinceClear(nCtx: nat, batch: nat, ops: seq<Op>, world: nat -> World, sizes: seq<nat>,
      runs: seq<Option<DecodeRun>>, c: nat, j: nat)
    requires batch > 0 && |sizes| == |ops| + 1 && |runs| == |ops| && c < j <= |ops|
    requires forall i :: 0 <= i < |ops| ==> Changes(nCtx, batch, ops[i], world(i), sizes[i], sizes[i + 1], runs[i])
    requires StartsAnew(ops[c]) && forall i :: c < i < j ==> !StartsAnew(ops[i])
    ensures sizes[j] == StoredBetween(nCtx, batch, ops, world, sizes, runs, c, j)
    decreases j
  {
    hide Changes, Stored;
    ChangesStore(nCtx, batch, ops[j - 1], world(j - 1), sizes[j - 1], sizes[j], runs[j - 1]);
    if c < j - 1 {
      SizeSinceClear(nCtx, batch, ops, world, sizes, runs, c, j - 1);
    }
  }
}
