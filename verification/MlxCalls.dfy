/** What the calls of an MLX session achieve: which interrupts are admitted, which operations are published,
    and that a destroyed session loses its handle. */
module MlxCalls {
  import opened MlxSession
  import opened Wrappers

  /** A step that moves thread `t`. */
  ghost predicate Moves(s: State, s': State, t: nat) {
    Next(s, s') && t < |s.threads| == |s'.threads| && s'.threads[t] != s.threads[t]
  }

  // ---------------------------------------------------------------------------
  // Interrupts
  // ---------------------------------------------------------------------------

  /** The inference of a published operation has not been cleaned up yet. */
  ghost predicate Inferring(s: State) {
    exists t :: 0 <= t < |s.threads| && (s.threads[t].OpRunning? || s.threads[t].OpEnding?)
  }

  /** In every run: an interrupt can always go on, and it is admitted to the published operation if and only
      if the session is open and an inference is under way; otherwise it is over and changes nothing. */
  lemma InterruptIsAdmittedIff(run: seq<State>, i: nat, u: nat)
    requires IsRun(run) && i < |run| && u < |run[i].threads| && run[i].threads[u] == IntEnter
    ensures exists s' :: Moves(run[i], s', u)
    ensures forall s' :: Moves(run[i], s', u) ==>
              if !run[i].sh.closing && Inferring(run[i]) then
                && s'.threads[u] == IntCalling(run[i].sh.published)
                && s'.sh.interruptsInFlight == run[i].sh.interruptsInFlight + 1
              else s'.threads[u] == Idle && s'.sh == run[i].sh
    ensures forall t :: 0 <= t < |run[i].threads| && run[i].threads[t].OpRunning? ==>
              run[i].threads[t].id == run[i].sh.published
  {
    RunInv(run, i);
    var s := run[i];
    hide CountInFlight, WakeInv;
    ActiveIffInferring(s);
    StepMoves(s, u, Choice(Operation, false));
    forall s' | Moves(s, s', u)
      ensures if !s.sh.closing && Inferring(s) then
                s'.threads[u] == IntCalling(s.sh.published) && s'.sh.interruptsInFlight == s.sh.interruptsInFlight + 1
              else s'.threads[u] == Idle && s'.sh == s.sh
    {
      var c := MovedByItself(s, s', u);
    }
    forall t | 0 <= t < |s.threads| && s.threads[t].OpRunning? ensures s.threads[t].id == s.sh.published {
      assert Ok(s.sh, t, s.threads[t]);
    }
  }

  /** The flag by which interrupts are admitted says whether an inference is under way; the session has its
      handle then. */
  lemma ActiveIffInferring(s: State)
    requires Inv(s)
    ensures s.sh.operationActive <==> Inferring(s)
    ensures Inferring(s) ==> s.sh.swiftHandle
  {
    if s.sh.operationActive {
      var t := s.sh.holder.value;
      assert Ok(s.sh, t, s.threads[t]);
    }
    if Inferring(s) {
      var t :| 0 <= t < |s.threads| && (s.threads[t].OpRunning? || s.threads[t].OpEnding?);
      assert Ok(s.sh, t, s.threads[t]);
    }
  }

  /** A thread that neither waits nor sleeps can move. */
  lemma StepMoves(s: State, u: nat, c: Choice)
    requires u < |s.threads| && !s.threads[u].Wants() && !s.threads[u].Asleep()
    ensures CanStep(s, u) && Moves(s, Step(s, u, c), u)
  {
    assert CanStep(s, u);
  }

  /** Only a sleeping thread is moved by others. */
  lemma MovedByItself(s: State, s': State, u: nat) returns (c: Choice)
    requires Moves(s, s', u) && !s.threads[u].Asleep()
    ensures CanStep(s, u) && s' == Step(s, u, c)
  {
    if t: nat, d: Choice :| CanStep(s, t) && s' == Step(s, t, d) {
      assert t == u by {
        hide Goto, Effect;
      }
      c := d;
    } else {
      assert false;
    }
  }

  /** In every run: the callback of an admitted interrupt reaches the operation it was admitted to, which is
      still in progress; it can set the flag, and it returns. */
  lemma CallbackReachesItsOperation(run: seq<State>, i: nat, u: nat)
    requires IsRun(run) && i < |run| && u < |run[i].threads| && run[i].threads[u].IntCalling?
    ensures var id := run[i].threads[u].id;
            && (exists s' :: Moves(run[i], s', u) && s'.sh.cancelFlag)
            && forall s' :: Moves(run[i], s', u) ==>
                 s'.threads[u] == IntReturned(id) && s'.sh.operating && s'.sh.published == id
  {
    RunInv(run, i);
    var s := run[i];
    hide CountInFlight, WakeInv;
    assert Ok(s.sh, u, s.threads[u]);
    var sets := Choice(Interrupt, true);
    StepMoves(s, u, sets);
    assert Moves(s, Step(s, u, sets), u) && Step(s, u, sets).sh.cancelFlag;
    forall s' | Moves(s, s', u)
      ensures s'.threads[u] == IntReturned(s.threads[u].id) && s'.sh.operating && s'.sh.published == s.threads[u].id
    {
      var c := MovedByItself(s, s', u);
    }
  }

  lemma Extend(run: seq<State>, s: State)
    requires IsRun(run) && Next(run[|run| - 1], s)
    ensures IsRun(run + [s])
  {
    hide Next, Init;
    var run' := run + [s];
    forall i | 0 <= i < |run'| - 1 ensures Next(run'[i], run'[i + 1]) {
      if i + 1 < |run| {
        assert Next(run[i], run[i + 1]);
      }
    }
  }

  /** In every run: two steps of an interrupt that meets a running inference in an open session can cancel
      this very inference. */
  lemma InterruptCancels(run: seq<State>, t: nat, u: nat) returns (admitted: State, cancelled: State)
    requires IsRun(run)
    requires var s := run[|run| - 1];
             t < |s.threads| && u < |s.threads| && s.threads[t].OpRunning? && !s.sh.closing && s.threads[u] == IntEnter
    ensures IsRun(run + [admitted] + [cancelled])
    ensures var s := run[|run| - 1];
            && Moves(s, admitted, u) && Moves(admitted, cancelled, u)
            && cancelled.sh.cancelFlag && cancelled.sh.published == s.threads[t].id
            && cancelled.threads[t] == s.threads[t]
  {
    hide Next, Init;
    var s := run[|run| - 1];
    InterruptIsAdmittedIff(run, |run| - 1, u);
    assert Inferring(s);
    admitted :| Moves(s, admitted, u);
    Extend(run, admitted);
    var longer := run + [admitted];
    assert longer[|longer| - 1] == admitted;
    CallbackReachesItsOperation(longer, |longer| - 1, u);
    cancelled :| Moves(admitted, cancelled, u) && cancelled.sh.cancelFlag;
    Extend(longer, cancelled);
    OthersStay(s, admitted, u, t);
    OthersStay(admitted, cancelled, u, t);
  }

  /** A thread that does not notify moves nobody else. */
  lemma OthersStay(s: State, s': State, u: nat, t: nat)
    requires Moves(s, s', u) && !s.threads[u].Asleep() && !s.threads[u].IntNotify? && t < |s.threads| && t != u
    ensures s'.threads[t] == s.threads[t]
  {
    hide Goto, Effect;
    var c := MovedByItself(s, s', u);
  }

  // ---------------------------------------------------------------------------
  // An open session
  // ---------------------------------------------------------------------------

  /** Destroying, past the point where the session is closed; and past the point where the handle is gone. */
  predicate Destroying(pc: Pc) {
    pc.DesWant? || pc.DesHeld? || pc.DesAsleep? || pc.DesAwake? || HandleGone(pc)
  }

  predicate HandleGone(pc: Pc) {
    pc.DesRelease? || pc.DesCallback?
  }

  /** The handle goes only after the session is closed, and whoever takes it destroys it. */
  ghost predicate HandleInv(s: State) {
    && (!s.sh.swiftHandle ==> s.sh.closing)
    && (forall t :: 0 <= t < |s.threads| && Destroying(s.threads[t]) ==> s.sh.closing)
    && (forall t :: 0 <= t < |s.threads| && HandleGone(s.threads[t]) ==> !s.sh.swiftHandle)
    && (!s.sh.swiftHandle ==> s.sh.destroyed == 1 || exists t :: 0 <= t < |s.threads| && Took(s.threads[t]))
  }

  lemma HandleSelf(sh: Shared, t: nat, pc: Pc, c: Choice)
    requires (!sh.swiftHandle ==> sh.closing) && (Destroying(pc) ==> sh.closing) && (HandleGone(pc) ==> !sh.swiftHandle)
    ensures var sh', pc' := Effect(sh, t, pc, c), Goto(sh, pc, c);
            && (sh.closing ==> sh'.closing) && (!sh.swiftHandle ==> !sh'.swiftHandle)
            && (!sh'.swiftHandle ==> sh'.closing)
            && (Destroying(pc') ==> sh'.closing) && (HandleGone(pc') ==> !sh'.swiftHandle)
            && (sh.swiftHandle && !sh'.swiftHandle ==> Took(pc'))
            && (Took(pc) ==> Took(pc') || sh'.destroyed == sh.destroyed + 1)
            && sh'.destroyed >= sh.destroyed
  {
  }

  lemma WokenKeeps(pc: Pc)
    ensures Destroying(Woken(pc)) == Destroying(pc) && HandleGone(Woken(pc)) == HandleGone(pc)
    ensures Took(Woken(pc)) == Took(pc)
  {
  }

  lemma HandleStep(s: State, t: nat, c: Choice)
    requires Inv(s) && HandleInv(s) && CanStep(s, t)
    ensures HandleInv(Step(s, t, c))
  {
    var s', pc := Step(s, t, c), s.threads[t];
    assert SharedOk(s.sh) && Ok(s.sh, t, pc);
    OkSelf(s.sh, t, pc, c);
    HandleSelf(s.sh, t, pc, c);
    forall u | 0 <= u < |s.threads| && u != t
      ensures Destroying(s'.threads[u]) == Destroying(s.threads[u])
      ensures HandleGone(s'.threads[u]) == HandleGone(s.threads[u]) && Took(s'.threads[u]) == Took(s.threads[u])
    {
      WokenKeeps(s.threads[u]);
    }
    TookNone(s.sh, t, pc);
    hide Inv, Ok, Goto, Effect, Woken, Destroying, HandleGone, Took;
    if !s'.sh.swiftHandle && s'.sh.destroyed != 1 {
      if s.sh.swiftHandle {
        assert Took(s'.threads[t]);
      } else {
        var u :| 0 <= u < |s.threads| && Took(s.threads[u]);
        assert Took(s'.threads[u]);
      }
    }
  }

  lemma TookNone(sh: Shared, t: nat, pc: Pc)
    requires SharedOk(sh) && Ok(sh, t, pc)
    ensures Took(pc) ==> sh.destroyed == 0
    ensures sh.destroyed <= 1
  {
  }

  lemma HandleSpurious(s: State, t: nat)
    requires HandleInv(s) && t < |s.threads|
    ensures HandleInv(SpuriousWake(s, t))
  {
    var s' := SpuriousWake(s, t);
    if !s.sh.swiftHandle && s.sh.destroyed != 1 {
      var u :| 0 <= u < |s.threads| && Took(s.threads[u]);
      assert Took(s'.threads[u]);
    }
  }

  lemma {:induction false} RunHandle(run: seq<State>, i: nat)
    requires IsRun(run) && i < |run|
    ensures HandleInv(run[i])
  {
    if i > 0 {
      RunHandle(run, i - 1);
      RunInv(run, i - 1);
      var s := run[i - 1];
      assert Next(run[i - 1], run[i - 1 + 1]);
      hide HandleInv, Inv;
      if t: nat, c: Choice :| CanStep(s, t) && run[i] == Step(s, t, c) {
        HandleStep(s, t, c);
      } else {
        var t: nat :| t < |s.threads| && run[i] == SpuriousWake(s, t);
        HandleSpurious(s, t);
      }
    }
  }

  lemma ClosedStep(s: State, s': State)
    requires Next(s, s') && s.sh.closing
    ensures s'.sh.closing && s'.sh.published == s.sh.published
    ensures s'.sh.interruptsInFlight <= s.sh.interruptsInFlight
  {
    if t: nat, c: Choice :| CanStep(s, t) && s' == Step(s, t, c) {
      ClosedEffect(s.sh, t, s.threads[t], c);
      hide Goto, Effect, Others;
    }
  }

  lemma ClosedEffect(sh: Shared, t: nat, pc: Pc, c: Choice)
    requires sh.closing
    ensures var sh' := Effect(sh, t, pc, c);
            sh'.closing && sh'.published == sh.published && sh'.interruptsInFlight <= sh.interruptsInFlight
  {
  }

  lemma {:induction false} StaysClosed(run: seq<State>, i: nat, j: nat)
    requires IsRun(run) && i <= j < |run| && run[i].sh.closing
    ensures run[j].sh.closing
    decreases j
  {
    hide Next, Init;
    if i < j {
      StaysClosed(run, i, j - 1);
      assert Next(run[j - 1], run[j - 1 + 1]);
      ClosedStep(run[j - 1], run[j]);
    }
  }

  lemma ClosingStep(s: State, s': State) returns (t: nat)
    requires Next(s, s') && !s.sh.closing && s'.sh.closing
    ensures t < |s.threads| && s.threads[t] == DesEnter
  {
    hide Goto, Others, Woken;
    var u: nat, c: Choice :| CanStep(s, u) && s' == Step(s, u, c);
    t := u;
  }

  /** In every run: only a destroy closes the session. */
  lemma {:induction false} ClosedByDestroy(run: seq<State>, j: nat) returns (k: nat, t: nat)
    requires IsRun(run) && j < |run| && run[j].sh.closing
    ensures k < j && t < |run[k].threads| && run[k].threads[t] == DesEnter
  {
    hide Next;
    assert j > 0;
    assert Next(run[j - 1], run[j - 1 + 1]);
    if run[j - 1].sh.closing {
      k, t := ClosedByDestroy(run, j - 1);
    } else {
      k := j - 1;
      t := ClosingStep(run[j - 1], run[j]);
    }
  }

  // ---------------------------------------------------------------------------
  // Operations and plain calls
  // ---------------------------------------------------------------------------

  predicate Beginning(pc: Pc) {
    pc.OpWant? || pc.OpHeld? || pc.OpClearing? || pc.OpCleared?
  }

  /** As long as the session is open, the beginning of an operation leads to its publication. */
  lemma BeginningStep(s: State, s': State, t: nat)
    requires Inv(s) && HandleInv(s) && Next(s, s') && t < |s.threads| && Beginning(s.threads[t]) && !s.sh.closing
    ensures Beginning(s'.threads[t])
            || (s'.threads[t] == OpRunning(s.sh.published + 1) && s'.sh.published == s.sh.published + 1)
  {
    hide CountInFlight, WakeInv, Inv;
    if s'.threads[t] != s.threads[t] {
      assert Moves(s, s', t);
      var c := MovedByItself(s, s', t);
    }
  }

  lemma SameThreads(s: State, s': State)
    requires Next(s, s')
    ensures |s'.threads| == |s.threads|
  {
    hide Goto, Effect;
  }

  /** The last step of a run, if it is not the first state. */
  lemma LastStep(run: seq<State>, j: nat)
    requires IsRun(run) && 0 < j < |run|
    ensures Next(run[j - 1], run[j]) && Inv(run[j - 1]) && HandleInv(run[j - 1])
    ensures |run[j].threads| == |run[j - 1].threads|
    ensures run[j - 1].sh.closing ==> run[j].sh.closing
  {
    hide Next, Inv, HandleInv, Init;
    assert Next(run[j - 1], run[j - 1 + 1]);
    RunInv(run, j - 1);
    RunHandle(run, j - 1);
    SameThreads(run[j - 1], run[j]);
    if run[j - 1].sh.closing {
      ClosedStep(run[j - 1], run[j]);
    }
  }

  /** In every run: an operation called in a session that stays open has its inference running under the next
      number before the call is over. */
  lemma {:induction false} OperationIsPublished(run: seq<State>, i: nat, j: nat, t: nat) returns (k: nat)
    requires IsRun(run) && i <= j < |run| && t < |run[i].threads| && run[i].threads[t] == OpWant
    requires !run[j].sh.closing && t < |run[j].threads| && !Beginning(run[j].threads[t])
    ensures i < k <= j && t < |run[k].threads|
    ensures run[k].threads[t] == OpRunning(run[k - 1].sh.published + 1)
    ensures run[k].sh.published == run[k - 1].sh.published + 1
    decreases j
  {
    hide IsRun, Next, Inv, HandleInv;
    LastStep(run, j);
    if Beginning(run[j - 1].threads[t]) {
      BeginningStep(run[j - 1], run[j], t);
      k := j;
    } else {
      k := OperationIsPublished(run, i, j - 1, t);
    }
  }

  predicate PlainBeginning(pc: Pc) {
    pc.PlainWant? || pc.PlainHeld?
  }

  lemma PlainStep(s: State, s': State, t: nat)
    requires HandleInv(s) && Next(s, s') && t < |s.threads| && PlainBeginning(s.threads[t]) && !s.sh.closing
    ensures PlainBeginning(s'.threads[t]) || s'.threads[t] == PlainRunning
  {
    if s'.threads[t] != s.threads[t] {
      SameThreads(s, s');
      assert Moves(s, s', t);
      var c := MovedByItself(s, s', t);
    }
  }

  /** In every run: a plain call in a session that stays open makes its callback before it is over. */
  lemma {:induction false} PlainCallRuns(run: seq<State>, i: nat, j: nat, t: nat) returns (k: nat)
    requires IsRun(run) && i <= j < |run| && t < |run[i].threads| && run[i].threads[t] == PlainWant
    requires !run[j].sh.closing && t < |run[j].threads| && !PlainBeginning(run[j].threads[t])
    ensures i < k <= j && t < |run[k].threads| && run[k].threads[t] == PlainRunning
    decreases j
  {
    hide IsRun, Next, Inv, HandleInv;
    LastStep(run, j);
    if PlainBeginning(run[j - 1].threads[t]) {
      PlainStep(run[j - 1], run[j], t);
      k := j;
    } else {
      k := PlainCallRuns(run, i, j - 1, t);
    }
  }

  /** In every run: nothing is admitted to a closed session any more. */
  lemma ClosedAdmitsNothing(run: seq<State>, i: nat)
    requires IsRun(run) && i + 1 < |run| && run[i].sh.closing
    ensures run[i + 1].sh.published == run[i].sh.published
    ensures run[i + 1].sh.interruptsInFlight <= run[i].sh.interruptsInFlight
  {
    hide Next, Init;
    assert Next(run[i], run[i + 1]);
    ClosedStep(run[i], run[i + 1]);
  }

  // ---------------------------------------------------------------------------
  // Destroy
  // ---------------------------------------------------------------------------

  lemma DestroyStep(s: State, s': State, t: nat)
    requires HandleInv(s) && Next(s, s') && t < |s.threads|
    requires s.sh.swiftHandle ==> s.threads[t] == DesEnter || Destroying(s.threads[t])
    ensures s'.sh.swiftHandle ==> s'.threads[t] == DesEnter || Destroying(s'.threads[t])
  {
    if u: nat, c: Choice :| CanStep(s, u) && s' == Step(s, u, c) {
      HandleSelf(s.sh, u, s.threads[u], c);
      WokenKeeps(s.threads[t]);
      if u == t {
        DestroyGoesOn(s.sh, t, s.threads[t], c);
      }
      hide Goto, Effect, Destroying;
    } else {
      WokenKeeps(s.threads[t]);
    }
  }

  lemma DestroyGoesOn(sh: Shared, t: nat, pc: Pc, c: Choice)
    requires Ready(sh, pc) && (HandleGone(pc) ==> !sh.swiftHandle)
    requires sh.swiftHandle ==> pc == DesEnter || Destroying(pc)
    ensures Effect(sh, t, pc, c).swiftHandle ==> Destroying(Goto(sh, pc, c))
  {
  }

  /** Once a thread destroys the session, it does until the handle is gone. */
  lemma {:induction false} DestroyTakesHandle(run: seq<State>, i: nat, j: nat, t: nat)
    requires IsRun(run) && i <= j < |run| && t < |run[i].threads| && run[i].threads[t] == DesEnter
    ensures |run[j].threads| == |run[i].threads|
    ensures run[j].sh.swiftHandle ==> run[j].threads[t] == DesEnter || Destroying(run[j].threads[t])
    decreases j
  {
    hide IsRun, Next, Inv, HandleInv, Destroying;
    if i < j {
      DestroyTakesHandle(run, i, j - 1, t);
      LastStep(run, j);
      DestroyStep(run[j - 1], run[j], t);
    }
  }

  /** In every run: when all calls are finished after a destroy, the handle has been destroyed exactly once. */
  lemma DestroyDestroys(run: seq<State>, i: nat, j: nat, t: nat)
    requires IsRun(run) && i <= j < |run| && t < |run[i].threads| && run[i].threads[t] == DesEnter
    requires forall u :: 0 <= u < |run[j].threads| ==> run[j].threads[u].Idle?
    ensures run[j].sh.destroyed == 1 && !run[j].sh.swiftHandle
  {
    DestroyTakesHandle(run, i, j, t);
    RunHandle(run, j);
  }
}
