/** The MLX session protocol: serialized operations on a Swift handle, interrupts that must reach
    exactly the operation they were admitted to, and teardown. Any number of threads interleave;
    a critical section of the state mutex is one step, the operation mutex and the condition
    variable are explicit. */
module MlxSession {
  import opened Wrappers

  /** Where a thread stands. `id` is the number of the operation concerned. */
  datatype Pc =
    | Idle
    // MlxCancellableOperation: begin, the Swift inference callback, the destructor
    | OpWant | OpHeld | OpClearing | OpCleared | OpRunning(id: nat)
    | OpEnding(id: nat) | OpAsleep(id: nat) | OpAwake(id: nat) | OpFinalClear(id: nat)
    // lock_session and the callback made under it
    | PlainWant | PlainHeld | PlainRunning
    // giving the operation mutex back
    | Release
    // dispatch_interrupt
    | IntEnter | IntCalling(id: nat) | IntReturned(id: nat) | IntNotify
    // mlx_destroy
    | DesEnter | DesWant | DesHeld | DesAsleep | DesAwake | DesRelease(taken: bool) | DesCallback(taken: bool)
  {
    /** Holds the operation mutex. */
    predicate Holds() {
      || OpHeld? || OpClearing? || OpCleared? || OpRunning? || OpEnding? || OpAsleep? || OpAwake? || OpFinalClear?
      || PlainHeld? || PlainRunning? || Release?
      || DesHeld? || DesAsleep? || DesAwake? || DesRelease?
    }

    predicate Wants() { OpWant? || PlainWant? || DesWant? }

    predicate Asleep() { OpAsleep? || DesAsleep? }

    /** Counted in interrupts_in_flight. */
    predicate InFlight() { IntCalling? || IntReturned? }

    /** Between the publication of an operation and its final clear. */
    predicate InOperation() { OpRunning? || OpEnding? || OpAsleep? || OpAwake? || OpFinalClear? }

    /** May call into Swift with the session's handle. */
    predicate UsesHandle() {
      || OpClearing? || OpCleared? || OpRunning? || OpEnding? || OpAsleep? || OpAwake? || OpFinalClear?
      || PlainRunning? || IntCalling? || IntReturned?
    }
  }

  /** The session's fields, the Swift side's cancel flag, and history variables: whether a published
      operation is in progress, how many were published, how often the handle was destroyed. */
  datatype Shared = Shared(
    holder: Option<nat>, operationActive: bool, closing: bool, interruptsInFlight: int, swiftHandle: bool,
    cancelFlag: bool, operating: bool, published: nat, destroyed: nat)

  datatype State = State(threads: seq<Pc>, sh: Shared)

  datatype Call = Operation | PlainCall | Interrupt | Destroy

  /** What a step leaves open: which call an idle thread makes, and whether an interrupt callback
      sets the Swift flag. */
  datatype Choice = Choice(call: Call, sets: bool)

  /** A thread can take a step of its own unless it waits for the mutex or sleeps. */
  predicate Ready(sh: Shared, pc: Pc) {
    !pc.Asleep() && (pc.Wants() ==> sh.holder.None?)
  }

  /** Where the step of a thread at `pc` takes it. */
  function Goto(sh: Shared, pc: Pc, c: Choice): Pc {
    match pc
    case Idle =>
      (match c.call
       case Operation => OpWant
       case PlainCall => PlainWant
       case Interrupt => IntEnter
       case Destroy => DesEnter)
    // begin
    case OpWant => OpHeld
    case OpHeld => if sh.closing || !sh.swiftHandle then Release else OpClearing
    case OpClearing => OpCleared
    case OpCleared => if sh.closing then Release else OpRunning(sh.published + 1)
    // the Swift callback returns
    case OpRunning(id) => OpEnding(id)
    // the destructor
    case OpEnding(id) => if sh.interruptsInFlight == 0 then OpFinalClear(id) else OpAsleep(id)
    case OpAwake(id) => if sh.interruptsInFlight == 0 then OpFinalClear(id) else OpAsleep(id)
    case OpFinalClear(id) => Release
    case PlainWant => PlainHeld
    case PlainHeld => if sh.closing || !sh.swiftHandle then Release else PlainRunning
    case PlainRunning => Release
    case Release => Idle
    // dispatch_interrupt
    case IntEnter =>
      if sh.closing || !sh.swiftHandle || !sh.operationActive then Idle else IntCalling(sh.published)
    case IntCalling(id) => IntReturned(id)
    case IntReturned(id) => IntNotify
    case IntNotify => Idle
    // mlx_destroy
    case DesEnter => DesWant
    case DesWant => DesHeld
    case DesHeld => if sh.interruptsInFlight == 0 then DesRelease(sh.swiftHandle) else DesAsleep
    case DesAwake => if sh.interruptsInFlight == 0 then DesRelease(sh.swiftHandle) else DesAsleep
    case DesRelease(taken) => DesCallback(taken)
    case DesCallback(taken) => Idle
    case OpAsleep(_) => pc
    case DesAsleep => pc
  }

  /** What the step of thread `t` at `pc` does to the shared state. */
  function Effect(sh: Shared, t: nat, pc: Pc, c: Choice): Shared {
    match pc
    case OpWant => sh.(holder := Some(t))
    case PlainWant => sh.(holder := Some(t))
    case DesWant => sh.(holder := Some(t))
    case OpClearing => sh.(cancelFlag := false)
    case OpCleared =>
      if sh.closing then sh else sh.(operationActive := true, operating := true, published := sh.published + 1)
    case OpEnding(_) => sh.(operationActive := false)
    case OpFinalClear(_) => sh.(cancelFlag := false, operating := false)
    case Release => sh.(holder := None)
    case IntEnter =>
      if sh.closing || !sh.swiftHandle || !sh.operationActive then sh
      else sh.(interruptsInFlight := sh.interruptsInFlight + 1)
    case IntCalling(_) => sh.(cancelFlag := sh.cancelFlag || c.sets)
    case IntReturned(_) => sh.(interruptsInFlight := sh.interruptsInFlight - 1)
    case DesEnter => sh.(closing := true)
    case DesHeld => if sh.interruptsInFlight == 0 then sh.(swiftHandle := false) else sh
    case DesAwake => if sh.interruptsInFlight == 0 then sh.(swiftHandle := false) else sh
    case DesRelease(_) => sh.(holder := None)
    case DesCallback(taken) => if taken then sh.(destroyed := sh.destroyed + 1) else sh
    case _ => sh
  }

  function Woken(pc: Pc): Pc {
    match pc
    case OpAsleep(id) => OpAwake(id)
    case DesAsleep => DesAwake
    case _ => pc
  }

  /** notify_all wakes every sleeper; no other step touches another thread. */
  function Others(pc: Pc, threads: seq<Pc>): (r: seq<Pc>)
    ensures |r| == |threads|
    ensures forall i :: 0 <= i < |r| ==> r[i] == if pc.IntNotify? then Woken(threads[i]) else threads[i]
  {
    if pc.IntNotify? then seq(|threads|, i requires 0 <= i < |threads| => Woken(threads[i])) else threads
  }

  predicate CanStep(s: State, t: nat) {
    t < |s.threads| && Ready(s.sh, s.threads[t])
  }

  /** The step of thread `t`. */
  function Step(s: State, t: nat, c: Choice): State
    requires CanStep(s, t)
  {
    var pc := s.threads[t];
    State(Others(pc, s.threads)[t := Goto(s.sh, pc, c)], Effect(s.sh, t, pc, c))
  }

  /** A sleeping thread may wake up without being notified. */
  function SpuriousWake(s: State, t: nat): State
    requires t < |s.threads|
  {
    s.(threads := s.threads[t := Woken(s.threads[t])])
  }

  ghost predicate Next(s: State, s': State) {
    || (exists t, c :: CanStep(s, t) && s' == Step(s, t, c))
    || (exists t: nat :: t < |s.threads| && s' == SpuriousWake(s, t))
  }

  ghost predicate Init(s: State) {
    && (forall t :: 0 <= t < |s.threads| ==> s.threads[t] == Idle)
    && s.sh == Shared(None, false, false, 0, true, false, false, 0, 0)
  }

  ghost predicate IsRun(run: seq<State>) {
    && run != [] && Init(run[0])
    && forall i :: 0 <= i < |run| - 1 ==> Next(run[i], run[i + 1])
  }

  // ---------------------------------------------------------------------------
  // Counting
  // ---------------------------------------------------------------------------

  function CountInFlight(threads: seq<Pc>): nat {
    if threads == [] then 0
    else CountInFlight(threads[..|threads| - 1]) + if threads[|threads| - 1].InFlight() then 1 else 0
  }

  lemma {:induction false} CountUpdate(threads: seq<Pc>, t: nat, pc: Pc)
    requires t < |threads|
    ensures CountInFlight(threads[t := pc]) == CountInFlight(threads)
            - (if threads[t].InFlight() then 1 else 0) + (if pc.InFlight() then 1 else 0)
  {
    var front := threads[..|threads| - 1];
    if t < |front| {
      assert threads[t := pc][..|front|] == front[t := pc];
      CountUpdate(front, t, pc);
    } else {
      assert threads[t := pc][..|front|] == front;
    }
  }

  lemma {:induction false} CountOthers(pc: Pc, threads: seq<Pc>)
    ensures CountInFlight(Others(pc, threads)) == CountInFlight(threads)
  {
    if threads != [] {
      var front := threads[..|threads| - 1];
      assert Others(pc, threads)[..|front|] == Others(pc, front);
      CountOthers(pc, front);
    }
  }

  lemma {:induction false} CountZero(threads: seq<Pc>)
    ensures CountInFlight(threads) == 0 <==> forall t :: 0 <= t < |threads| ==> !threads[t].InFlight()
  {
    if threads != [] {
      var front := threads[..|threads| - 1];
      CountZero(front);
      assert forall t :: 0 <= t < |front| ==> threads[t] == front[t];
    }
  }

  // ---------------------------------------------------------------------------
  // The inductive invariant
  // ---------------------------------------------------------------------------

  /** Holds the handle it took out of the session and has not destroyed it yet. */
  predicate Took(pc: Pc) {
    (pc.DesRelease? || pc.DesCallback?) && pc.taken
  }

  /** What each thread's position says about the shared state. */
  predicate Ok(sh: Shared, t: nat, pc: Pc) {
    // the mutex holder is where it says it is
    && (pc.Holds() <==> sh.holder == Some(t))
    // operation_active is set exactly from publication to the end of the callback
    && (pc.OpRunning? || pc.OpEnding? <==> sh.operationActive && sh.holder == Some(t))
    // the published operation is in progress from publication to the final clear
    && (pc.InOperation() <==> sh.operating && sh.holder == Some(t))
    && (pc.InOperation() ==> pc.id == sh.published)
    // an interrupt in flight belongs to it, and the final clear comes after all of them
    && (pc.InFlight() ==> sh.operating && pc.id == sh.published)
    && (pc.OpFinalClear? ==> sh.interruptsInFlight == 0)
    // the handle is used only while the session has it
    && (pc.UsesHandle() ==> sh.swiftHandle)
    && (Took(pc) ==> !sh.swiftHandle && sh.destroyed == 0)
  }

  predicate SharedOk(sh: Shared) {
    && (sh.operationActive ==> sh.operating)
    && (sh.operating ==> sh.holder.Some?)
    // a set cancel flag belongs to the operation in progress
    && (sh.cancelFlag ==> sh.operating)
    && (sh.swiftHandle ==> sh.destroyed == 0)
    && sh.destroyed <= 1
  }

  lemma OkSelf(sh: Shared, t: nat, pc: Pc, c: Choice)
    requires SharedOk(sh) && Ok(sh, t, pc) && Ready(sh, pc)
    ensures SharedOk(Effect(sh, t, pc, c)) && Ok(Effect(sh, t, pc, c), t, Goto(sh, pc, c))
  {
  }

  lemma OkOther(sh: Shared, t: nat, pc: Pc, c: Choice, u: nat, other: Pc)
    requires SharedOk(sh) && Ok(sh, t, pc) && Ready(sh, pc) && Ok(sh, u, other) && t != u
    requires pc.InFlight() || other.InFlight() ==> sh.interruptsInFlight > 0
    requires !(Took(pc) && Took(other))
    ensures Ok(Effect(sh, t, pc, c), u, other)
    ensures pc.IntNotify? ==> Ok(Effect(sh, t, pc, c), u, Woken(other))
  {
  }

  /** No wake-up is lost: whoever sleeps although no interrupt is in flight is about to be notified. */
  ghost predicate WakeInv(s: State) {
    forall t :: 0 <= t < |s.threads| && s.threads[t].Asleep() && s.sh.interruptsInFlight == 0 ==>
      exists u :: 0 <= u < |s.threads| && s.threads[u].IntNotify?
  }

  ghost predicate Inv(s: State) {
    && SharedOk(s.sh)
    && (s.sh.holder.Some? ==> s.sh.holder.value < |s.threads|)
    && s.sh.interruptsInFlight == CountInFlight(s.threads)
    && (forall t :: 0 <= t < |s.threads| ==> Ok(s.sh, t, s.threads[t]))
    && (forall t, u :: 0 <= t < u < |s.threads| ==> !(Took(s.threads[t]) && Took(s.threads[u])))
    && WakeInv(s)
  }

  lemma {:induction false} CountIdle(threads: seq<Pc>)
    requires forall t :: 0 <= t < |threads| ==> threads[t] == Idle
    ensures CountInFlight(threads) == 0
  {
    CountZero(threads);
  }

  lemma CountStep(s: State, t: nat, c: Choice)
    requires Inv(s) && CanStep(s, t)
    ensures Step(s, t, c).sh.interruptsInFlight == CountInFlight(Step(s, t, c).threads)
    ensures forall u :: 0 <= u < |s.threads| && s.threads[u].InFlight() ==> s.sh.interruptsInFlight > 0
  {
    hide Ok, SharedOk, WakeInv, CountInFlight;
    var pc := s.threads[t];
    CountOthers(pc, s.threads);
    CountUpdate(Others(pc, s.threads), t, Goto(s.sh, pc, c));
    CountZero(s.threads);
  }

  lemma WakeStep(s: State, t: nat, c: Choice)
    requires Inv(s) && CanStep(s, t)
    ensures WakeInv(Step(s, t, c))
  {
    hide CountInFlight;
    var s', pc := Step(s, t, c), s.threads[t];
    forall u | 0 <= u < |s'.threads| && s'.threads[u].Asleep() && s'.sh.interruptsInFlight == 0
      ensures exists n :: 0 <= n < |s'.threads| && s'.threads[n].IntNotify?
    {
      if pc.IntReturned? {
        assert s'.threads[t].IntNotify?;
      } else {
        CountZero(s.threads);
        var n :| 0 <= n < |s.threads| && s.threads[n].IntNotify?;
        assert s'.threads[n].IntNotify?;
      }
    }
  }

  lemma InvStep(s: State, t: nat, c: Choice)
    requires Inv(s) && CanStep(s, t)
    ensures Inv(Step(s, t, c))
  {
    var s', pc := Step(s, t, c), s.threads[t];
    OkSelf(s.sh, t, pc, c);
    CountStep(s, t, c);
    forall u | 0 <= u < |s.threads| && u != t ensures Ok(s'.sh, u, s'.threads[u]) {
      OkOther(s.sh, t, pc, c, u, s.threads[u]);
    }
    WakeStep(s, t, c);
    hide Ok, SharedOk, CountInFlight, WakeInv;
    forall u, v | 0 <= u < v < |s.threads| ensures !(Took(s'.threads[u]) && Took(s'.threads[v])) {
      TookOnce(s, t, c, u, v);
    }
    assert s'.sh.holder.Some? ==> s'.sh.holder.value < |s'.threads|;
  }

  /** A destroyer takes the handle only while the session has it, so no other one has it. */
  lemma TookOnce(s: State, t: nat, c: Choice, u: nat, v: nat)
    requires Inv(s) && CanStep(s, t) && u < v < |s.threads|
    ensures !(Took(Step(s, t, c).threads[u]) && Took(Step(s, t, c).threads[v]))
  {
    assert Ok(s.sh, u, s.threads[u]) && Ok(s.sh, v, s.threads[v]);
  }

  lemma InvSpuriousWake(s: State, t: nat)
    requires Inv(s) && t < |s.threads|
    ensures Inv(SpuriousWake(s, t))
  {
    var s' := SpuriousWake(s, t);
    CountUpdate(s.threads, t, Woken(s.threads[t]));
    forall u | 0 <= u < |s'.threads| && s'.threads[u].Asleep() && s'.sh.interruptsInFlight == 0
      ensures exists n :: 0 <= n < |s'.threads| && s'.threads[n].IntNotify?
    {
      var n :| 0 <= n < |s.threads| && s.threads[n].IntNotify?;
      assert s'.threads[n].IntNotify?;
    }
  }

  /** The invariant holds in every state of every run. */
  lemma {:induction false} RunInv(run: seq<State>, i: nat)
    requires IsRun(run) && i < |run|
    ensures Inv(run[i])
  {
    if i == 0 {
      CountIdle(run[0].threads);
    } else {
      RunInv(run, i - 1);
      var s := run[i - 1];
      assert Next(run[i - 1], run[i - 1 + 1]);
      if t: nat, c: Choice :| CanStep(s, t) && run[i] == Step(s, t, c) {
        InvStep(s, t, c);
      } else {
        var t: nat :| t < |s.threads| && run[i] == SpuriousWake(s, t);
        InvSpuriousWake(s, t);
      }
    }
  }

  // ---------------------------------------------------------------------------
  // A cancel belongs to exactly one operation
  // ---------------------------------------------------------------------------

  /** A thread inside a Swift interrupt callback admitted to operation `id` takes a step and sets the flag. */
  ghost predicate SetsFlag(s: State, s': State, id: nat) {
    && !s.sh.cancelFlag && s'.sh.cancelFlag
    && exists t: nat, c :: CanStep(s, t) && s.threads[t] == IntCalling(id) && s' == Step(s, t, c)
  }

  /** An operation is published only when none is in progress and the flag is clear. */
  lemma PublishStep(s: State, s': State)
    requires Inv(s) && Next(s, s')
    ensures s'.sh.published == s.sh.published || s'.sh.published == s.sh.published + 1
    ensures s'.sh.published != s.sh.published ==> !s.sh.cancelFlag && !s'.sh.cancelFlag && !s.sh.operating
    ensures s'.sh.operating && !s.sh.operating ==> s'.sh.published == s.sh.published + 1
  {
    hide CountInFlight, WakeInv, Others;
    if t: nat, c: Choice :| CanStep(s, t) && s' == Step(s, t, c) {
      assert Ok(s.sh, t, s.threads[t]);
    }
  }

  /** Only an interrupt admitted to the operation in progress sets the flag. */
  lemma SetStep(s: State, s': State)
    requires Inv(s) && Next(s, s')
    ensures !s.sh.cancelFlag && s'.sh.cancelFlag ==> s.sh.operating && SetsFlag(s, s', s.sh.published)
  {
    hide CountInFlight, WakeInv, Others;
    if t: nat, c: Choice :| CanStep(s, t) && s' == Step(s, t, c) {
      assert Ok(s.sh, t, s.threads[t]);
    }
  }

  /** Only the final clear of that operation, by the thread running it, resets the flag, and it ends
      the operation. */
  lemma ClearStep(s: State, s': State)
    requires Inv(s) && Next(s, s')
    ensures s.sh.cancelFlag && !s'.sh.cancelFlag ==>
      s.sh.holder.Some? && s.threads[s.sh.holder.value] == OpFinalClear(s.sh.published) && !s'.sh.operating
  {
    hide CountInFlight, WakeInv, Others;
    if t: nat, c: Choice :| CanStep(s, t) && s' == Step(s, t, c) {
      assert Ok(s.sh, t, s.threads[t]);
    }
  }

  lemma FlagNeedsOperation(run: seq<State>, j: nat)
    requires IsRun(run) && j < |run|
    ensures run[j].sh.cancelFlag ==> j > 0 && run[j].sh.operating
  {
    RunInv(run, j);
  }

  /** In every run: a flag that is set traces back to an interrupt admitted to the very operation
      that is in progress, so it never reaches a successor. */
  lemma {:induction false} CancelComesFromItsOperation(run: seq<State>, j: nat) returns (k: nat)
    requires IsRun(run) && j < |run| && run[j].sh.cancelFlag
    ensures k < j && SetsFlag(run[k], run[k + 1], run[j].sh.published)
    ensures run[j].sh.operating && run[k].sh.operating && run[k].sh.published == run[j].sh.published
  {
    hide Inv, Next, Init;
    FlagNeedsOperation(run, j);
    FlagNeedsOperation(run, j - 1);
    RunInv(run, j - 1);
    assert Next(run[j - 1], run[j - 1 + 1]);
    PublishStep(run[j - 1], run[j]);
    SetStep(run[j - 1], run[j]);
    if run[j - 1].sh.cancelFlag {
      k := CancelComesFromItsOperation(run, j - 1);
    } else {
      k := j - 1;
    }
  }

  /** In every run: once set, the flag stays set as long as its operation is in progress. */
  lemma {:induction false} CancelStaysWithItsOperation(run: seq<State>, i: nat, j: nat)
    requires IsRun(run) && i <= j < |run|
    requires run[i].sh.cancelFlag
    requires run[j].sh.published == run[i].sh.published && run[j].sh.operating
    ensures run[j].sh.cancelFlag
    decreases j
  {
    hide Inv, Next, Init;
    if i < j {
      RunInv(run, j - 1);
      assert Next(run[j - 1], run[j - 1 + 1]);
      PublishStep(run[j - 1], run[j]);
      ClearStep(run[j - 1], run[j]);
      PublishedGrows(run, i, j - 1);
      CancelStaysWithItsOperation(run, i, j - 1);
    }
  }

  lemma {:induction false} PublishedGrows(run: seq<State>, i: nat, j: nat)
    requires IsRun(run) && i <= j < |run|
    ensures run[i].sh.published <= run[j].sh.published
    decreases j
  {
    hide Inv, Next, Init;
    if i < j {
      RunInv(run, j - 1);
      assert Next(run[j - 1], run[j - 1 + 1]);
      PublishStep(run[j - 1], run[j]);
      PublishedGrows(run, i, j - 1);
    }
  }

  // ---------------------------------------------------------------------------
  // Teardown and progress
  // ---------------------------------------------------------------------------

  /** In every run: the handle is destroyed at most once; while a destroyer is about to destroy it,
      or after it did, no operation is in progress, no interrupt is in flight, and nobody is anywhere
      near a callback on the handle. */
  lemma TeardownIsSafe(run: seq<State>, i: nat)
    requires IsRun(run) && i < |run|
    ensures run[i].sh.destroyed <= 1
    ensures run[i].sh.destroyed == 1 || (exists t :: 0 <= t < |run[i].threads| && Took(run[i].threads[t])) ==>
              && !run[i].sh.operating && run[i].sh.interruptsInFlight == 0
              && forall u :: 0 <= u < |run[i].threads| ==> !run[i].threads[u].UsesHandle()
  {
    RunInv(run, i);
    var s := run[i];
    CountZero(s.threads);
    if s.sh.operating {
      assert Ok(s.sh, s.sh.holder.value, s.threads[s.sh.holder.value]);
    }
  }

  /** A thread that is in the middle of a call and can go on. */
  ghost predicate Advancing(s: State, t: nat) {
    CanStep(s, t) && !s.threads[t].Idle?
  }

  /** In every run: as long as some call is unfinished, some thread in the middle of a call can go on,
      without any spurious wake-up. */
  lemma NeverStuck(run: seq<State>, i: nat, busy: nat) returns (t: nat)
    requires IsRun(run) && i < |run| && busy < |run[i].threads| && !run[i].threads[busy].Idle?
    ensures Advancing(run[i], t)
  {
    RunInv(run, i);
    var s := run[i];
    if CanStep(s, busy) {
      return busy;
    }
    var sleeper := busy;
    if !s.threads[busy].Asleep() {
      sleeper := s.sh.holder.value;
      assert Ok(s.sh, sleeper, s.threads[sleeper]);
      if CanStep(s, sleeper) {
        return sleeper;
      }
    }
    assert s.threads[sleeper].Asleep();
    CountZero(s.threads);
    if s.sh.interruptsInFlight == 0 {
      t :| 0 <= t < |s.threads| && s.threads[t].IntNotify?;
    } else {
      t :| 0 <= t < |s.threads| && s.threads[t].InFlight();
    }
  }

  // ---------------------------------------------------------------------------
  // Every call finishes
  // ---------------------------------------------------------------------------

  /** An upper bound on the steps to the end of the call, one more whenever a sleeper among `n` threads
      is woken; an interrupt may wake all of them. */
  function Rank(pc: Pc, n: nat): nat {
    match pc
    case Idle => 0
    case OpWant => 9
    case OpHeld => 8
    case OpClearing => 7
    case OpCleared => 6
    case OpRunning(_) => 5
    case OpEnding(_) => 4
    case OpAwake(_) => 4
    case OpAsleep(_) => 3
    case OpFinalClear(_) => 2
    case PlainWant => 4
    case PlainHeld => 3
    case PlainRunning => 2
    case Release => 1
    case IntEnter => n + 4
    case IntCalling(_) => n + 3
    case IntReturned(_) => n + 2
    case IntNotify => n + 1
    case DesEnter => 6
    case DesWant => 5
    case DesHeld => 4
    case DesAwake => 4
    case DesAsleep => 3
    case DesRelease(_) => 2
    case DesCallback(_) => 1
  }

  function RankSum(threads: seq<Pc>, n: nat): nat {
    if threads == [] then 0 else RankSum(threads[..|threads| - 1], n) + Rank(threads[|threads| - 1], n)
  }

  lemma {:induction false} RankUpdate(threads: seq<Pc>, t: nat, pc: Pc, n: nat)
    requires t < |threads|
    ensures RankSum(threads[t := pc], n) == RankSum(threads, n) - Rank(threads[t], n) + Rank(pc, n)
  {
    hide Rank;
    var front := threads[..|threads| - 1];
    if t < |front| {
      assert threads[t := pc][..|front|] == front[t := pc];
      RankUpdate(front, t, pc, n);
    } else {
      assert threads[t := pc][..|front|] == front;
    }
  }

  lemma {:induction false} RankOthers(pc: Pc, threads: seq<Pc>, n: nat)
    ensures RankSum(Others(pc, threads), n) <= RankSum(threads, n) + if pc.IntNotify? then |threads| else 0
  {
    if threads != [] {
      var front := threads[..|threads| - 1];
      assert Others(pc, threads)[..|front|] == Others(pc, front);
      RankOthers(pc, front, n);
    }
  }

  function Measure(s: State): nat {
    RankSum(s.threads, |s.threads|)
  }

  lemma GotoDescends(sh: Shared, pc: Pc, c: Choice, n: nat)
    requires Ready(sh, pc) && !pc.Idle?
    ensures Rank(Goto(sh, pc, c), n) + (if pc.IntNotify? then n else 0) < Rank(pc, n)
  {
  }

  lemma StepDescends(s: State, t: nat, c: Choice)
    requires Advancing(s, t)
    ensures Measure(Step(s, t, c)) < Measure(s)
  {
    hide Rank, Goto, Effect, RankSum;
    var pc, n := s.threads[t], |s.threads|;
    RankOthers(pc, s.threads, n);
    RankUpdate(Others(pc, s.threads), t, Goto(s.sh, pc, c), n);
    GotoDescends(s.sh, pc, c, n);
  }

  /** A thread in the middle of a call takes a step: no call starts, nobody wakes up for no reason. */
  ghost predicate Advances(s: State, s': State) {
    exists t, c :: Advancing(s, t) && s' == Step(s, t, c)
  }

  lemma {:induction false} AdvancingDescends(run: seq<State>, i: nat)
    requires i < |run| && forall k :: i <= k < |run| - 1 ==> Advances(run[k], run[k + 1])
    ensures |run| - 1 - i + Measure(run[|run| - 1]) <= Measure(run[i])
    decreases |run| - i
  {
    hide Measure, Step;
    if i < |run| - 1 {
      assert Advances(run[i], run[i + 1]);
      var t: nat, c: Choice :| Advancing(run[i], t) && run[i + 1] == Step(run[i], t, c);
      StepDescends(run[i], t, c);
      AdvancingDescends(run, i + 1);
    }
  }

  lemma {:induction false} RankBound(threads: seq<Pc>, n: nat)
    ensures RankSum(threads, n) <= |threads| * (n + 9)
  {
    if threads != [] {
      RankBound(threads[..|threads| - 1], n);
      assert |threads| * (n + 9) == (|threads| - 1) * (n + 9) + (n + 9);
    }
  }

  /** In every run of `n` threads: if from state `i` on no call starts and there are no spurious wake-ups,
      then it goes on for at most `n * (n + 9)` steps, and when nobody can go on all calls are finished. */
  lemma EveryCallFinishes(run: seq<State>, i: nat)
    requires IsRun(run) && i < |run| && forall k :: i <= k < |run| - 1 ==> Advances(run[k], run[k + 1])
    ensures var n := |run[i].threads|; |run| - 1 - i <= n * (n + 9)
    ensures var last := run[|run| - 1];
            (forall t: nat :: !Advancing(last, t)) <==> forall t :: 0 <= t < |last.threads| ==> last.threads[t].Idle?
  {
    hide IsRun, Advances, RankSum;
    AdvancingDescends(run, i);
    RankBound(run[i].threads, |run[i].threads|);
    var last := run[|run| - 1];
    if busy: nat :| busy < |last.threads| && !last.threads[busy].Idle? {
      var t := NeverStuck(run, |run| - 1, busy);
    }
  }
}
