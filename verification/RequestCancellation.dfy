/** The request cancellation latch of the QHexRT engine: three atomics, requests serialized by the
    session's operation mutex, and any number of cancelling threads that take no lock at all. */
module RequestCancellation {
  import opened Wrappers

  /** The three atomics. Zero stands for "no request". */
  datatype Latch = Latch(nextId: nat, activeId: nat, cancelledId: nat) {
    predicate IsCancelled(id: nat) {
      id != 0 && cancelledId == id
    }

    // The atomic writes; begin is the first two, finish the third, cancel_active a load and the fourth.
    function IdTaken(): Latch { this.(nextId := nextId + 1) }
    function Announced(id: nat): Latch { this.(activeId := id) }
    function Withdrawn(id: nat): Latch { if activeId == id then this.(activeId := 0) else this }
    function Recorded(id: nat): Latch { this.(cancelledId := id) }
  }

  // ---------------------------------------------------------------------------
  // The latch itself
  // ---------------------------------------------------------------------------

  class RequestCancellation {
    var nextId: nat
    var activeId: nat
    var cancelledId: nat

    function Value(): Latch
      reads this
    {
      Latch(nextId, activeId, cancelledId)
    }

    constructor ()
      ensures Value() == Latch(0, 0, 0)
    {
      nextId, activeId, cancelledId := 0, 0, 0;
    }

    method FetchAdd() returns (id: nat)
      modifies this
      ensures id == old(nextId) + 1 && Value() == old(Value()).IdTaken()
    {
      id := nextId + 1;
      nextId := id;
    }

    method Begin() returns (id: nat)
      modifies this
      ensures id > old(nextId) && Value() == old(Value()).IdTaken().Announced(id)
      ensures old(cancelledId) <= old(nextId) ==> !Value().IsCancelled(id)
    {
      id := FetchAdd();
      activeId := id;
    }

    /** compare_exchange_strong: a request other than `id` stays announced. */
    method Finish(id: nat)
      modifies this
      ensures Value() == old(Value()).Withdrawn(id)
      ensures id != 0 ==> activeId != id
      ensures old(activeId) != id ==> activeId == old(activeId)
      ensures nextId == old(nextId) && cancelledId == old(cancelledId)
    {
      if activeId == id {
        activeId := 0;
      }
    }

    /** Without interference: the announced request, if there is one, is cancelled; no other request
        becomes cancelled. */
    method CancelActive()
      modifies this
      ensures old(activeId) != 0 ==> Value().IsCancelled(old(activeId))
      ensures forall id: nat :: id != old(activeId) ==> (Value().IsCancelled(id) ==> old(Value()).IsCancelled(id))
      ensures Value() == if old(activeId) != 0 then old(Value()).Recorded(old(activeId)) else old(Value())
    {
      var id := activeId;
      if id != 0 {
        cancelledId := id;
      }
    }
  }

  // ---------------------------------------------------------------------------
  // Interleavings
  // ---------------------------------------------------------------------------

  /** A thread is in a generate call, in a cancel call, or in neither. Every access to an atomic is a
      step of its own. */
  datatype Pc =
    | Idle
    | WantMutex | Locked | Fetched(id: nat) | Working(id: nat) | Unlock
    | CancelEnter | CancelRead(id: nat)
  {
    predicate Holds() { Locked? || Fetched? || Working? || Unlock? }

    /** Inside cancel_active. */
    predicate Cancelling() { CancelEnter? || CancelRead? }
  }

  datatype State = State(threads: seq<Pc>, holder: Option<nat>, latch: Latch)

  predicate CanStep(s: State, t: nat) {
    t < |s.threads| && (s.threads[t].WantMutex? ==> s.holder.None?)
  }

  function Put(s: State, t: nat, pc: Pc): State
    requires t < |s.threads|
  {
    s.(threads := s.threads[t := pc])
  }

  /** The step of thread `t`; an idle thread starts a cancel if `cancels`, else a request. */
  function Step(s: State, t: nat, cancels: bool): State
    requires CanStep(s, t)
  {
    var latch := s.latch;
    match s.threads[t]
    case Idle => Put(s, t, if cancels then CancelEnter else WantMutex)
    case WantMutex => Put(s, t, Locked).(holder := Some(t))
    // begin: fetch_add, then the store that announces the request
    case Locked => Put(s, t, Fetched(latch.nextId + 1)).(latch := latch.IdTaken())
    case Fetched(id) => Put(s, t, Working(id)).(latch := latch.Announced(id))
    // finish
    case Working(id) => Put(s, t, Unlock).(latch := latch.Withdrawn(id))
    case Unlock => Put(s, t, Idle).(holder := None)
    // cancel_active: load, then store
    case CancelEnter => Put(s, t, if latch.activeId == 0 then Idle else CancelRead(latch.activeId))
    case CancelRead(id) => Put(s, t, Idle).(latch := latch.Recorded(id))
  }

  ghost predicate Next(s: State, s': State) {
    exists t, cancels :: CanStep(s, t) && s' == Step(s, t, cancels)
  }

  ghost predicate Init(s: State) {
    && (forall t :: 0 <= t < |s.threads| ==> s.threads[t] == Idle)
    && s.holder == None && s.latch == Latch(0, 0, 0)
  }

  ghost predicate IsRun(run: seq<State>) {
    && run != [] && Init(run[0])
    && forall i :: 0 <= i < |run| - 1 ==> Next(run[i], run[i + 1])
  }

  predicate Ok(s: State, t: nat, pc: Pc) {
    && (pc.Holds() <==> s.holder == Some(t))
    && (pc.Fetched? ==> pc.id == s.latch.nextId && s.latch.cancelledId < pc.id && s.latch.activeId == 0)
    && (pc.Working? <==> s.latch.activeId != 0 && s.holder == Some(t))
    && (pc.Working? ==> pc.id == s.latch.activeId == s.latch.nextId)
    // what a canceller read was announced, so it is older than a request about to be announced
    && (pc.CancelRead? ==> 0 < pc.id <= s.latch.nextId)
  }

  ghost predicate Inv(s: State) {
    && (forall t :: 0 <= t < |s.threads| ==> Ok(s, t, s.threads[t]))
    && (s.holder.Some? ==> s.holder.value < |s.threads|)
    && s.latch.cancelledId <= s.latch.nextId
    && (s.latch.activeId != 0 ==> s.holder.Some?)
    // the id of a request that is not announced yet was read by nobody
    && (s.holder.Some? && s.threads[s.holder.value].Fetched? ==>
          forall t :: 0 <= t < |s.threads| && s.threads[t].CancelRead? ==> s.threads[t].id < s.latch.nextId)
  }

  lemma InvStep(s: State, t: nat, cancels: bool)
    requires Inv(s) && CanStep(s, t)
    ensures Inv(Step(s, t, cancels))
  {
    var s' := Step(s, t, cancels);
    assert Ok(s, t, s.threads[t]);
    forall u | 0 <= u < |s'.threads| ensures Ok(s', u, s'.threads[u]) {
      assert Ok(s, u, s.threads[u]);
    }
  }

  lemma {:induction false} RunInv(run: seq<State>, i: nat)
    requires IsRun(run) && i < |run|
    ensures Inv(run[i])
  {
    if i > 0 {
      RunInv(run, i - 1);
      assert Next(run[i - 1], run[i - 1 + 1]);
      var t: nat, cancels :| CanStep(run[i - 1], t) && run[i] == Step(run[i - 1], t, cancels);
      InvStep(run[i - 1], t, cancels);
    }
  }

  // ---------------------------------------------------------------------------
  // Ids and the start of a request
  // ---------------------------------------------------------------------------

  /** Thread `t` is given `id` by the step after state `i`. */
  ghost predicate IsGiven(run: seq<State>, i: nat, t: nat, id: nat) {
    && i + 1 < |run| && t < |run[i].threads| == |run[i + 1].threads|
    && run[i].threads[t].Locked? && run[i + 1].threads[t] == Fetched(id)
  }

  lemma {:induction false} NextIdGrows(run: seq<State>, i: nat, j: nat)
    requires IsRun(run) && i <= j < |run|
    ensures run[i].latch.nextId <= run[j].latch.nextId
    decreases j
  {
    if i < j {
      NextIdGrows(run, i, j - 1);
      assert Next(run[j - 1], run[j - 1 + 1]);
    }
  }

  /** In every run, later requests get strictly larger ids. */
  lemma IdsIncrease(run: seq<State>, i: nat, t: nat, id: nat, j: nat, u: nat, id': nat)
    requires IsRun(run) && i < j && IsGiven(run, i, t, id) && IsGiven(run, j, u, id')
    ensures id < id'
  {
    assert Next(run[i], run[i + 1]) && Next(run[j], run[j + 1]);
    NextIdGrows(run, i + 1, j);
  }

  /** In every run: a request that has not been announced is not cancelled, and neither is it when it
      has just been announced. */
  lemma NewRequestIsNotCancelled(run: seq<State>, i: nat, t: nat)
    requires IsRun(run) && i < |run| && t < |run[i].threads| && run[i].threads[t].Fetched?
    ensures !run[i].latch.IsCancelled(run[i].threads[t].id)
    ensures i + 1 < |run| && run[i + 1].threads[t].Working? ==> !run[i + 1].latch.IsCancelled(run[i].threads[t].id)
  {
    RunInv(run, i);
    assert Ok(run[i], t, run[i].threads[t]);
    if i + 1 < |run| && run[i + 1].threads[t].Working? {
      assert Next(run[i], run[i + 1]);
    }
  }

  // ---------------------------------------------------------------------------
  // Where a cancel comes from
  // ---------------------------------------------------------------------------

  /** The step after state `k` is a canceller reading `id` while the request `id` is announced. */
  ghost predicate ReadsActive(run: seq<State>, k: nat, id: nat) {
    && k + 1 < |run| && run[k].latch.activeId == id
    && exists t :: 0 <= t < |run[k].threads| == |run[k + 1].threads| && run[k].threads[t].CancelEnter?
                     && run[k + 1].threads[t] == CancelRead(id)
  }

  lemma {:induction false} PendingWasRead(run: seq<State>, j: nat, t: nat) returns (k: nat)
    requires IsRun(run) && j < |run| && t < |run[j].threads| && run[j].threads[t].CancelRead?
    ensures k < j && ReadsActive(run, k, run[j].threads[t].id)
  {
    assert Next(run[j - 1], run[j - 1 + 1]);
    if run[j - 1].threads[t] == run[j].threads[t] {
      k := PendingWasRead(run, j - 1, t);
    } else {
      k := j - 1;
    }
  }

  /** In every run: a request is cancelled only if some cancel_active read its id while it was the
      announced request. */
  lemma {:induction false} CancelHasACause(run: seq<State>, j: nat, id: nat) returns (k: nat)
    requires IsRun(run) && j < |run| && run[j].latch.IsCancelled(id)
    ensures k < j && ReadsActive(run, k, id)
  {
    assert j > 0;
    assert Next(run[j - 1], run[j - 1 + 1]);
    if run[j - 1].latch.IsCancelled(id) {
      k := CancelHasACause(run, j - 1, id);
    } else {
      var t: nat, cancels :| CanStep(run[j - 1], t) && run[j] == Step(run[j - 1], t, cancels);
      k := PendingWasRead(run, j - 1, t);
    }
  }

  lemma Extend(run: seq<State>, t: nat, cancels: bool, s: State) returns (run': seq<State>)
    requires IsRun(run) && CanStep(run[|run| - 1], t) && s == Step(run[|run| - 1], t, cancels)
    ensures IsRun(run') && run' == run + [s]
  {
    run' := run + [s];
    forall i | 0 <= i < |run'| - 1 ensures Next(run'[i], run'[i + 1]) {
      if i + 1 < |run| {
        assert Next(run[i], run[i + 1]);
      }
    }
  }

  /** From every reachable state: two steps of a cancel_active that meets an announced request cancel this
      request. */
  lemma CancelReachesAnnounced(run: seq<State>, t: nat) returns (pending: State, cancelled: State)
    requires IsRun(run)
    requires var s := run[|run| - 1]; t < |s.threads| && s.threads[t] == CancelEnter && s.latch.activeId != 0
    ensures IsRun(run + [pending] + [cancelled])
    ensures var id := run[|run| - 1].latch.activeId;
            t < |pending.threads| && pending.threads[t] == CancelRead(id)
            && cancelled.latch.activeId == id && cancelled.latch.IsCancelled(id)
  {
    hide Next, Init;
    var s := run[|run| - 1];
    pending := Step(s, t, true);
    var longer := Extend(run, t, true, pending);
    cancelled := Step(pending, t, true);
    var longest := Extend(longer, t, true, cancelled);
  }

  // ---------------------------------------------------------------------------
  // How long a cancel lasts
  // ---------------------------------------------------------------------------

  /** Calls of cancel_active do not overlap: at most one thread is inside it. */
  ghost predicate CancelsApart(s: State) {
    forall t, u :: 0 <= t < u < |s.threads| ==> !(s.threads[t].Cancelling() && s.threads[u].Cancelling())
  }

  /** Thread `t` is about to store an id that is not the announced one. */
  predicate Stale(s: State, t: nat) {
    t < |s.threads| && s.threads[t].CancelRead? && s.threads[t].id != s.latch.activeId
  }

  /** The announced request is cancelled. */
  predicate Caught(s: State) {
    s.latch.activeId != 0 && s.latch.cancelledId == s.latch.activeId
  }

  /** A recorded cancel can be lost in the next step, with its request still announced, exactly when
      a stale store is pending. */
  lemma LostIffStaleStore(s: State)
    requires Inv(s) && Caught(s)
    ensures (exists s' :: Next(s, s') && s'.latch.activeId == s.latch.activeId && !Caught(s')) <==>
            exists t: nat :: Stale(s, t)
  {
    if t: nat :| Stale(s, t) {
      assert Next(s, Step(s, t, false));
    }
    if s' :| Next(s, s') && s'.latch.activeId == s.latch.activeId && !Caught(s') {
      var t: nat, cancels :| CanStep(s, t) && s' == Step(s, t, cancels);
      assert Ok(s, t, s.threads[t]);
      assert Stale(s, t);
    }
  }

  /** What can happen from `path[0]` on while its announced request stays announced. */
  ghost predicate StaysAnnounced(path: seq<State>) {
    && path != []
    && (forall i :: 0 <= i < |path| - 1 ==> Next(path[i], path[i + 1]))
    && forall i :: 0 <= i < |path| ==> path[i].latch.activeId == path[0].latch.activeId
  }

  /** While a caught request stays announced nobody reads any other id. */
  lemma NoNewStaleStore(s: State, s': State)
    requires Inv(s) && Caught(s) && Next(s, s') && s'.latch.activeId == s.latch.activeId
    requires forall t :: !Stale(s, t)
    ensures Inv(s') && Caught(s') && forall t :: !Stale(s', t)
  {
    var t: nat, cancels :| CanStep(s, t) && s' == Step(s, t, cancels);
    InvStep(s, t, cancels);
    assert Ok(s, t, s.threads[t]);
    assert !Stale(s, t);
    forall u ensures !Stale(s', u) {
      assert !Stale(s, u);
    }
  }

  lemma {:induction false} StaysCaught(path: seq<State>, i: nat)
    requires StaysAnnounced(path) && Inv(path[0]) && Caught(path[0]) && i < |path|
    requires forall t :: !Stale(path[0], t)
    ensures Inv(path[i]) && Caught(path[i]) && forall t :: !Stale(path[i], t)
  {
    hide Inv, Caught, Stale, Next;
    if i > 0 {
      StaysCaught(path, i - 1);
      assert Next(path[i - 1], path[i - 1 + 1]);
      assert path[i].latch.activeId == path[i - 1].latch.activeId;
      NoNewStaleStore(path[i - 1], path[i]);
    }
  }

  /** From a reachable state in which the announced request is cancelled: some continuation loses the
      cancel while the request is still announced exactly if a stale store is pending. */
  lemma CancelCanBeLostIff(s: State)
    requires Inv(s) && Caught(s)
    ensures (exists path :: StaysAnnounced(path) && path[0] == s && !Caught(path[|path| - 1])) <==>
            exists t: nat :: Stale(s, t)
  {
    if t: nat :| Stale(s, t) {
      LostIffStaleStore(s);
      hide Inv, Caught, Stale, Next;
      var s' :| Next(s, s') && s'.latch.activeId == s.latch.activeId && !Caught(s');
      var path := [s, s'];
      assert StaysAnnounced(path) && path[0] == s && path[|path| - 1] == s';
    } else {
      hide Inv, Caught, Next;
      forall path | StaysAnnounced(path) && path[0] == s ensures Caught(path[|path| - 1]) {
        StaysCaught(path, |path| - 1);
      }
    }
  }

  /** While no cancels overlap, whoever is about to store while the announced request is already
      cancelled is about to store that request's id. */
  lemma {:induction false} NoStaleStore(run: seq<State>, i: nat, t: nat)
    requires IsRun(run) && i < |run| && forall k :: 0 <= k <= i ==> CancelsApart(run[k])
    requires Caught(run[i])
    ensures !Stale(run[i], t)
  {
    if i > 0 && Stale(run[i], t) {
      RunInv(run, i - 1);
      var s, s' := run[i - 1], run[i];
      assert Next(run[i - 1], run[i - 1 + 1]);
      var u: nat, cancels :| CanStep(s, u) && s' == Step(s, u, cancels);
      assert Ok(s, u, s.threads[u]);
      assert CancelsApart(run[i - 1]);
      if Caught(s) {
        NoStaleStore(run, i - 1, t);
      }
    }
  }

  /** In every run whose cancels do not overlap: once a request is cancelled it stays cancelled for as
      long as it is announced. */
  lemma {:induction false} CancelPersists(run: seq<State>, i: nat, j: nat)
    requires IsRun(run) && i <= j < |run| && forall k :: 0 <= k <= j ==> CancelsApart(run[k])
    requires Caught(run[i]) && run[j].latch.activeId == run[i].latch.activeId
    ensures Caught(run[j])
    decreases j
  {
    if i < j {
      RunInv(run, j - 1);
      RunInv(run, j);
      assert Next(run[j - 1], run[j - 1 + 1]);
      var s, s' := run[j - 1], run[j];
      ActiveInBetween(run, i, j);
      CancelPersists(run, i, j - 1);
      if !Caught(s') {
        LostIffStaleStore(s);
        var t: nat :| Stale(s, t);
        NoStaleStore(run, j - 1, t);
      }
    }
  }

  /** A request is announced once and for one stretch of time. */
  lemma ActiveInBetween(run: seq<State>, i: nat, j: nat)
    requires IsRun(run) && i < j < |run|
    requires run[i].latch.activeId != 0 && run[j].latch.activeId == run[i].latch.activeId
    ensures run[j - 1].latch.activeId == run[j].latch.activeId
  {
    RunInv(run, i);
    RunInv(run, j - 1);
    NextIdGrows(run, i, j - 1);
    var s := run[j - 1];
    assert Ok(run[i], run[i].holder.value, run[i].threads[run[i].holder.value]);
    assert Next(run[j - 1], run[j - 1 + 1]);
    var t: nat, cancels :| CanStep(s, t) && run[j] == Step(s, t, cancels);
    assert Ok(s, t, s.threads[t]);
    if s.threads[t].Fetched? {
      FetchedIsFresh(run, i, j - 1, t);
    }
  }

  lemma {:induction false} FetchedIsFresh(run: seq<State>, i: nat, j: nat, t: nat)
    requires IsRun(run) && i <= j < |run| && t < |run[j].threads| && run[j].threads[t].Fetched?
    requires run[i].latch.activeId != 0
    ensures run[i].latch.activeId < run[j].threads[t].id
    decreases j
  {
    RunInv(run, i);
    RunInv(run, j);
    assert Ok(run[j], t, run[j].threads[t]);
    assert Ok(run[i], run[i].holder.value, run[i].threads[run[i].holder.value]);
    if i < j {
      assert Next(run[j - 1], run[j - 1 + 1]);
      if run[j - 1].threads[t].Fetched? {
        FetchedIsFresh(run, i, j - 1, t);
      } else {
        NextIdGrows(run, i, j - 1);
      }
    }
  }

  /** Request 1 is announced and the second thread has read its id. */
  lemma FirstCancelReads() returns (run: seq<State>)
    ensures IsRun(run) && run[|run| - 1] == State([Working(1), CancelRead(1), Idle], Some(0), Latch(1, 1, 0))
  {
    hide IsRun;
    assert IsRun([State([Idle, Idle, Idle], None, Latch(0, 0, 0))]) by {
      StartIsRun([Idle, Idle, Idle]);
    }
    run := [State([Idle, Idle, Idle], None, Latch(0, 0, 0))];
    run := Extend(run, 0, false, State([WantMutex, Idle, Idle], None, Latch(0, 0, 0)));
    run := Extend(run, 0, false, State([Locked, Idle, Idle], Some(0), Latch(0, 0, 0)));
    run := Extend(run, 0, false, State([Fetched(1), Idle, Idle], Some(0), Latch(1, 0, 0)));
    run := Extend(run, 0, false, State([Working(1), Idle, Idle], Some(0), Latch(1, 1, 0)));
    run := Extend(run, 1, true, State([Working(1), CancelEnter, Idle], Some(0), Latch(1, 1, 0)));
    run := Extend(run, 1, true, State([Working(1), CancelRead(1), Idle], Some(0), Latch(1, 1, 0)));
  }

  lemma StartIsRun(threads: seq<Pc>)
    requires forall t :: 0 <= t < |threads| ==> threads[t] == Idle
    ensures IsRun([State(threads, None, Latch(0, 0, 0))])
  {
  }

  /** With overlapping cancels a recorded cancel can be lost: one canceller reads request 1, then
      request 1 finishes, request 2 starts and is cancelled by another thread, and only then does the
      first canceller store. */
  lemma OverlappingCancelsLoseOne() returns (run: seq<State>, lost: State)
    ensures IsRun(run + [lost]) && run != []
    ensures var before := run[|run| - 1];
            && before.latch.activeId == lost.latch.activeId == 2
            && before.latch.IsCancelled(2) && !lost.latch.IsCancelled(2)
  {
    hide IsRun;
    run := FirstCancelReads();
    run := Extend(run, 0, false, State([Unlock, CancelRead(1), Idle], Some(0), Latch(1, 0, 0)));
    run := Extend(run, 0, false, State([Idle, CancelRead(1), Idle], None, Latch(1, 0, 0)));
    run := Extend(run, 0, false, State([WantMutex, CancelRead(1), Idle], None, Latch(1, 0, 0)));
    run := Extend(run, 0, false, State([Locked, CancelRead(1), Idle], Some(0), Latch(1, 0, 0)));
    run := Extend(run, 0, false, State([Fetched(2), CancelRead(1), Idle], Some(0), Latch(2, 0, 0)));
    run := Extend(run, 0, false, State([Working(2), CancelRead(1), Idle], Some(0), Latch(2, 2, 0)));
    run := Extend(run, 2, true, State([Working(2), CancelRead(1), CancelEnter], Some(0), Latch(2, 2, 0)));
    run := Extend(run, 2, true, State([Working(2), CancelRead(1), CancelRead(2)], Some(0), Latch(2, 2, 0)));
    run := Extend(run, 2, true, State([Working(2), CancelRead(1), Idle], Some(0), Latch(2, 2, 2)));
    lost := State([Working(2), Idle, Idle], Some(0), Latch(2, 2, 1));
    var all := Extend(run, 1, false, lost);
  }
}
