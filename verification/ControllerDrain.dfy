/** Keys are reconciled one worker at a time, every key taken is settled, and shutting down drains the
    queue: it cannot get stuck, it ends, and nothing accepted is left behind. */
module ControllerDrain {
  import opened ControllerProtocol
  import opened Keys
  import opened Wrappers
  import opened WorkQueue

  // ---------------------------------------------------------------------------------------
  // Mutual exclusion and balance
  // ---------------------------------------------------------------------------------------

  /** No two workers hold the same key. */
  lemma OneWorkerPerKey(s: State, acts: seq<Action>, v: nat, w: nat)
    requires Init(s) && Legal(s, acts)
    requires
      var t := After(s, acts);
      v < w < |t.workers| && t.workers[v].Holds() && t.workers[w].Holds()
    ensures After(s, acts).workers[v].key != After(s, acts).workers[w].key
  {
    hide Init, Legal;
    InitInv(s);
    RunInv(s, acts);
  }

  /** Calls of one worker in a run. */
  datatype Tally = Tally(taken: nat, reconciled: nat, requeued: nat, forgotten: nat, done: nat)

  function Call(a: Action, w: nat): Tally {
    if !a.ByWorker() || a.w != w then Tally(0, 0, 0, 0, 0)
    else
      match a
      case Take(_) => Tally(1, 0, 0, 0, 0)
      case RejectKey(_) => Tally(0, 1, 0, 0, 0)
      case ReadStore(_) => Tally(0, 1, 0, 0, 0)
      case ReadError(_) => Tally(0, 1, 0, 0, 0)
      case Requeue(_) => Tally(0, 0, 1, 0, 0)
      case Forget(_) => Tally(0, 0, 0, 1, 0)
      case Finish(_) => Tally(0, 0, 0, 0, 1)
      case _ => Tally(0, 0, 0, 0, 0)
  }

  function Plus(x: Tally, y: Tally): Tally {
    Tally(x.taken + y.taken, x.reconciled + y.reconciled, x.requeued + y.requeued,
          x.forgotten + y.forgotten, x.done + y.done)
  }

  function Calls(acts: seq<Action>, w: nat): Tally {
    if acts == [] then Tally(0, 0, 0, 0, 0) else Plus(Call(acts[0], w), Calls(acts[1..], w))
  }

  /** What the worker still owes for the key it holds, against keys that it is done with. */
  function Open(worker: Worker): Tally {
    Tally(
      if worker.Holds() then 1 else 0,
      if worker.Holds() && !worker.Got? then 1 else 0,
      if worker.Requeued? then 1 else 0,
      if worker.Forgotten? then 1 else 0,
      0)
  }

  ghost predicate Balanced(before: Worker, calls: Tally, after: Worker) {
    && calls.taken + Open(before).taken == calls.done + Open(after).taken
    && calls.reconciled + Open(before).reconciled == calls.done + Open(after).reconciled
    && calls.requeued + calls.forgotten + Open(before).requeued + Open(before).forgotten
         == calls.done + Open(after).requeued + Open(after).forgotten
  }

  lemma StepBalanced(s: State, a: Action, w: nat)
    requires Enabled(s, a) && w < |s.workers|
    ensures |Apply(s, a).workers| == |s.workers|
    ensures Balanced(s.workers[w], Call(a, w), Apply(s, a).workers[w])
  {
    hide Moved, QueueAfter, Call, Balanced, LookupKey, MetaKey, EventKey;
    if a.ByWorker() && a.w == w {
      MoveBalanced(s, a);
    } else {
      OthersBalanced(a, w, s.workers[w]);
      if !a.ByWorker() {
        WorkersStay(s, a);
      }
    }
  }

  lemma WorkersStay(s: State, a: Action)
    requires !a.ByWorker() && Enabled(s, a)
    ensures Apply(s, a).workers == s.workers
  {
    hide LookupKey, MetaKey, EventKey, At, Put;
  }

  lemma MoveBalanced(s: State, a: Action)
    requires a.ByWorker() && Enabled(s, a)
    ensures Balanced(s.workers[a.w], Call(a, a.w), Moved(s, a))
  {
    hide LookupKey, At;
  }

  lemma OthersBalanced(a: Action, w: nat, worker: Worker)
    requires !(a.ByWorker() && a.w == w)
    ensures Balanced(worker, Call(a, w), worker)
  {
  }

  /** Every key that a worker takes is reconciled once, then either requeued or forgotten once,
      then reported done once; in between the worker holds it. */
  lemma {:induction false} CallsBalance(s: State, acts: seq<Action>, w: nat)
    requires Legal(s, acts) && w < |s.workers|
    ensures |After(s, acts).workers| == |s.workers|
    ensures Balanced(s.workers[w], Calls(acts, w), After(s, acts).workers[w])
    decreases |acts|
  {
    hide Enabled, Apply, Call;
    if acts != [] {
      StepBalanced(s, acts[0], w);
      CallsBalance(Apply(s, acts[0]), acts[1..], w);
    }
  }

  // ---------------------------------------------------------------------------------------
  // Handing over
  // ---------------------------------------------------------------------------------------

  /** Keys that have been accepted but not handed to `reconcile` since. */
  ghost predicate Waiting(s: State, k: Key) {
    k in s.q.dirty || Got(k) in s.workers
  }

  /** The key that a step hands to `reconcile`. */
  function HandsOver(s: State, a: Action): Option<Key>
    requires Enabled(s, a)
  {
    if a.RejectKey? || a.ReadStore? || a.ReadError? then Some(s.workers[a.w].key) else None
  }

  ghost predicate HandedOver(s: State, acts: seq<Action>, k: Key)
    requires Legal(s, acts)
    decreases |acts|
  {
    acts != [] && (HandsOver(s, acts[0]) == Some(k) || HandedOver(Apply(s, acts[0]), acts[1..], k))
  }

  lemma StepWaiting(s: State, a: Action, k: Key)
    requires Enabled(s, a) && Waiting(s, k)
    ensures HandsOver(s, a) == Some(k) || Waiting(Apply(s, a), k)
  {
    hide LookupKey, MetaKey, EventKey, At, Put;
    if a.ByWorker() {
      var t := Apply(s, a);
      if Got(k) in s.workers {
        var v :| 0 <= v < |s.workers| && s.workers[v] == Got(k);
        assert v != a.w ==> t.workers[v] == Got(k);
      } else if a.Take? {
        assert t.workers[a.w] == Got(s.q.order[0]);
      }
    }
  }

  lemma {:induction false} WaitingIsHandedOver(s: State, acts: seq<Action>, k: Key)
    requires Legal(s, acts) && Waiting(s, k) && !Waiting(After(s, acts), k)
    ensures HandedOver(s, acts, k)
    decreases |acts|
  {
    hide Enabled, Apply, HandsOver, Waiting;
    if acts != [] && HandsOver(s, acts[0]) != Some(k) {
      StepWaiting(s, acts[0], k);
      WaitingIsHandedOver(Apply(s, acts[0]), acts[1..], k);
    }
  }

  // ---------------------------------------------------------------------------------------
  // The queue when `Run` has returned
  // ---------------------------------------------------------------------------------------

  ghost predicate IsEmpty(q: Queue) {
    q.order == [] && q.dirty == {} && q.processing == {}
  }

  lemma ReturnedIsDrained(s: State)
    requires Inv(s) && s.main == Returned && Entered(s)
    ensures IsEmpty(s.q)
  {
    assert forall w | 0 <= w < |s.workers| :: WorkerInStage(s.workers[w], s.main, s.cancelled);
  }

  /** The keys that `Add` accepts in a step, from an event or from an expired delay. */
  function Accepts(s: State, a: Action): Option<Key>
    requires Enabled(s, a)
  {
    if s.q.shuttingDown then None
    else
      match a
      case Deliver => EventKey(s.pending[0])
      case Expire(k) => Some(k)
      case _ => None
  }

  ghost function Accepted(s: State, acts: seq<Action>): set<Key>
    requires Legal(s, acts)
    decreases |acts|
  {
    if acts == [] then {}
    else
      (match Accepts(s, acts[0]) case None => {} case Some(k) => {k})
      + Accepted(Apply(s, acts[0]), acts[1..])
  }

  lemma MoverHasEntered(s: State, a: Action)
    requires a.ByWorker() && !a.Skip? && Enabled(s, a)
    ensures Entered(Apply(s, a))
  {
    hide LookupKey, At, Put;
    assert Active(Apply(s, a).workers[a.w]) || Apply(s, a).workers[a.w] == Exited(true);
  }

  lemma StaysEntered(s: State, a: Action)
    requires Enabled(s, a) && Entered(s)
    ensures Entered(Apply(s, a))
  {
    hide LookupKey, MetaKey, EventKey, At, Put, Informer, Run;
    if a.ByWorker() && !a.Skip? {
      MoverHasEntered(s, a);
    } else {
      if !a.ByWorker() {
        WorkersStay(s, a);
      }
      var w :| 0 <= w < |s.workers| && (Active(s.workers[w]) || s.workers[w] == Exited(true));
      assert Apply(s, a).workers[w] == s.workers[w];
    }
  }

  lemma DirtyWithoutWorkers(s: State, a: Action)
    requires Enabled(s, a) && (a.ByWorker() ==> a.Skip?)
    ensures Apply(s, a).q.dirty == s.q.dirty + (match Accepts(s, a) case None => {} case Some(k) => {k})
  {
    hide LookupKey, MetaKey, EventKey, At, Put;
  }

  /** Without a worker in its loop, only accepting changes the dirty set. */
  lemma StepWithoutWorkers(s: State, a: Action)
    requires Enabled(s, a) && !Entered(Apply(s, a))
    ensures Apply(s, a).q.dirty == s.q.dirty + (match Accepts(s, a) case None => {} case Some(k) => {k})
  {
    hide Entered, Enabled, Apply, Accepts;
    if a.ByWorker() && !a.Skip? {
      MoverHasEntered(s, a);
    } else {
      DirtyWithoutWorkers(s, a);
    }
  }

  lemma {:induction false} RunWithoutWorkers(s: State, acts: seq<Action>)
    requires Inv(s) && Legal(s, acts) && !Entered(After(s, acts))
    ensures !Entered(s) && After(s, acts).q.dirty == s.q.dirty + Accepted(s, acts)
    decreases |acts|
  {
    hide Inv, Enabled, Apply, Entered, Accepts;
    if acts != [] {
      StepInv(s, acts[0]);
      RunWithoutWorkers(Apply(s, acts[0]), acts[1..]);
      StepWithoutWorkers(s, acts[0]);
      if Entered(s) {
        StaysEntered(s, acts[0]);
      }
    }
  }

  /** When `Run` returns after shutdown, nothing is left in the queue, unless no worker ever
      entered its loop: then the keys left are exactly those that were accepted. */
  lemma DrainOnShutdown(s: State, acts: seq<Action>)
    requires Init(s) && Legal(s, acts) && After(s, acts).main == Returned
    ensures IsEmpty(After(s, acts).q) <==> Entered(After(s, acts)) || Accepted(s, acts) == {}
    ensures !Entered(After(s, acts)) ==> After(s, acts).q.dirty == Accepted(s, acts)
    ensures forall w | 0 <= w < |s.workers| :: w < |After(s, acts).workers| && After(s, acts).workers[w].Exited?
  {
    var t := After(s, acts);
    InitInv(s);
    RunInv(s, acts);
    SameWorkers(s, acts);
    assert forall w | 0 <= w < |t.workers| :: WorkerInStage(t.workers[w], t.main, t.cancelled);
    if Entered(t) {
      ReturnedIsDrained(t);
    } else {
      RunWithoutWorkers(s, acts);
      NothingLeft(t);
    }
  }

  lemma NothingLeft(s: State)
    requires Inv(s) && (forall w | 0 <= w < |s.workers| :: s.workers[w].Exited?)
    ensures s.q.processing == {} && (s.q.dirty == {} ==> s.q.order == [])
  {
    if s.q.order != [] {
      assert s.q.order[0] in s.q.dirty;
    }
  }

  lemma {:induction false} SameWorkers(s: State, acts: seq<Action>)
    requires Legal(s, acts)
    ensures |After(s, acts).workers| == |s.workers|
    decreases |acts|
  {
    hide LookupKey, MetaKey, EventKey;
    if acts != [] {
      SameWorkers(Apply(s, acts[0]), acts[1..]);
    }
  }

  /** Whatever `Add` accepts at some point of a run is handed to `reconcile` after that point, if
      some worker entered its loop by the time `Run` returns. */
  lemma AcceptedIsReconciled(s: State, acts: seq<Action>, k: Key, later: seq<Action>)
    requires Init(s) && Legal(s, acts) && k in After(s, acts).q.dirty
    requires
      var t := After(s, acts);
      Legal(t, later) && After(t, later).main == Returned && Entered(After(t, later))
    ensures HandedOver(After(s, acts), later, k)
  {
    hide Init, Legal, Entered, HandedOver;
    var t := After(s, acts);
    InitInv(s);
    RunInv(s, acts);
    RunInv(t, later);
    ReturnedIsDrained(After(t, later));
    NobodyGot(After(t, later), k);
    WaitingIsHandedOver(t, later, k);
  }

  lemma NobodyGot(s: State, k: Key)
    requires Inv(s) && s.main == Returned
    ensures Got(k) !in s.workers
  {
    assert forall w | 0 <= w < |s.workers| :: WorkerInStage(s.workers[w], s.main, s.cancelled);
  }

  // ---------------------------------------------------------------------------------------
  // Which keys are still handed over
  // ---------------------------------------------------------------------------------------

  /** A key waits after a step if and only if it waited and was not handed over, or is accepted; only
      keys that wait are handed over. */
  lemma WaitingAfter(s: State, a: Action, k: Key)
    requires Inv(s) && Enabled(s, a)
    ensures HandsOver(s, a) == Some(k) ==> Waiting(s, k)
    ensures Waiting(Apply(s, a), k) ==> Waiting(s, k) || Accepts(s, a) == Some(k)
    ensures Accepts(s, a) == Some(k) ==> Waiting(Apply(s, a), k)
  {
    hide LookupKey, MetaKey, EventKey, At, Put, OneHolder, Attended, InStage;
    if a.ByWorker() {
      MoverWaiting(s, a, k);
    } else {
      WorkersStay(s, a);
    }
  }

  lemma MoverWaiting(s: State, a: Action, k: Key)
    requires s.q.Valid() && a.ByWorker() && Enabled(s, a)
    ensures HandsOver(s, a) == Some(k) ==> Waiting(s, k)
    ensures Waiting(Apply(s, a), k) ==> Waiting(s, k)
  {
    hide LookupKey, At, Put;
    var t := Apply(s, a);
    if Got(k) in t.workers {
      var v :| 0 <= v < |t.workers| && t.workers[v] == Got(k);
      assert v != a.w ==> s.workers[v] == Got(k);
      assert v == a.w && a.Take? ==> s.q.order[0] in s.q.dirty;
    }
  }

  /** In a run that ends with `Run` returning after some worker entered its loop, a key is handed to
      `reconcile` if and only if it waits to begin with or is accepted on the way. */
  lemma {:induction false} HandedOverExactly(s: State, acts: seq<Action>, k: Key)
    requires Inv(s) && Legal(s, acts) && After(s, acts).main == Returned && Entered(After(s, acts))
    ensures HandedOver(s, acts, k) <==> Waiting(s, k) || k in Accepted(s, acts)
    decreases |acts|
  {
    hide Inv, Enabled, Apply, HandsOver, Accepts, Waiting, Entered;
    if acts == [] {
      NobodyWaits(s, k);
    } else {
      var t := Apply(s, acts[0]);
      StepInv(s, acts[0]);
      WaitingAfter(s, acts[0], k);
      if Waiting(s, k) {
        StepWaiting(s, acts[0], k);
      }
      HandedOverExactly(t, acts[1..], k);
    }
  }

  lemma NobodyWaits(s: State, k: Key)
    requires Inv(s) && s.main == Returned && Entered(s)
    ensures !Waiting(s, k)
  {
    ReturnedIsDrained(s);
    NobodyGot(s, k);
  }

  lemma {:induction false} NothingAccepted(s: State, acts: seq<Action>)
    requires s.q.shuttingDown && Legal(s, acts)
    ensures Accepted(s, acts) == {}
    decreases |acts|
  {
    hide Enabled, Apply;
    if acts != [] {
      StaysDown(s, acts[0]);
      NothingAccepted(Apply(s, acts[0]), acts[1..]);
    }
  }

  /** A key whose reconciliation failed is tried again if and only if it was marked dirty when it
      was requeued, or is accepted afterwards; once the queue shuts down nothing is accepted. */
  lemma RetriedExactly(s: State, w: nat, later: seq<Action>)
    requires Inv(s) && Enabled(s, Requeue(w)) && Legal(Apply(s, Requeue(w)), later)
    requires After(Apply(s, Requeue(w)), later).main == Returned
    ensures
      var k, t := s.workers[w].key, Apply(s, Requeue(w));
      && (HandedOver(t, later, k) <==> k in s.q.dirty || k in Accepted(t, later))
      && (s.q.shuttingDown ==> (HandedOver(t, later, k) <==> k in s.q.dirty))
  {
    hide Legal, HandedOver, Attended, InStage, LookupKey;
    var k, t := s.workers[w].key, Apply(s, Requeue(w));
    assert Inv(t) by { StepInv(s, Requeue(w)); }
    assert t.workers[w] == Requeued(k);
    assert Got(k) !in t.workers;
    assert Entered(t) by { assert Active(t.workers[w]); }
    if !Entered(After(t, later)) {
      RunWithoutWorkers(t, later);
    }
    HandedOverExactly(t, later, k);
    if s.q.shuttingDown {
      NothingAccepted(t, later);
    }
  }

  // ---------------------------------------------------------------------------------------
  // Draining cannot get stuck and ends
  // ---------------------------------------------------------------------------------------

  /** Steps of the workers and of `Run` itself, after the context was cancelled. */
  predicate Internal(a: Action) {
    a.ByWorker() || a.Drained? || a.Return?
  }

  /** The next step of a worker that has not exited, once shutdown has begun. */
  function NextStep(s: State, w: nat): Action
    requires w < |s.workers|
  {
    match s.workers[w]
    case NotStarted => Skip(w)
    case Idle => if s.q.order == [] then Leave(w) else Take(w)
    case Got(k) => if LookupKey(k) == None then RejectKey(w) else ReadStore(w)
    case Read(_, _) => Succeed(w)
    case Failed(_) => Requeue(w)
    case Requeued(_) => Finish(w)
    case Succeeded(_) => Forget(w)
    case Forgotten(_) => Finish(w)
    case Exited(_) => Skip(w)
  }

  lemma WorkerCanMove(s: State, w: nat)
    requires Inv(s) && s.q.shuttingDown && w < |s.workers| && !s.workers[w].Exited?
    ensures Internal(NextStep(s, w)) && Enabled(s, NextStep(s, w))
  {
    hide LookupKey, Queue.Valid, OneHolder, Attended;
  }

  /** From shutdown on, until `Run` returns, some worker or `Run` can always go on. */
  lemma NeverStuck(s: State)
    requires Inv(s) && s.q.shuttingDown && s.main != Returned
    ensures exists a :: Internal(a) && Enabled(s, a)
  {
    if exists w | 0 <= w < |s.workers| :: !s.workers[w].Exited? {
      var w :| 0 <= w < |s.workers| && !s.workers[w].Exited?;
      WorkerCanMove(s, w);
    } else {
      NothingLeft(s);
      assert if s.main == Draining then Enabled(s, Drained) && Internal(Drained) else Enabled(s, Return) && Internal(Return);
    }
  }

  /** Steps that a worker takes at most before it needs another key. */
  function Weight(worker: Worker): nat {
    match worker
    case NotStarted => 1
    case Idle => 1
    case Got(_) => 5
    case Read(_, _) => 4
    case Failed(_) => 3
    case Succeeded(_) => 3
    case Requeued(_) => 2
    case Forgotten(_) => 2
    case Exited(_) => 0
  }

  function Load(workers: seq<Worker>): nat {
    if workers == [] then 0 else Weight(workers[0]) + Load(workers[1..])
  }

  /** A bound on the steps left until `Run` returns. */
  function StepsLeft(s: State): nat {
    5 * |s.q.dirty| + Load(s.workers)
    + match s.main
      case Draining => 2
      case Joining => 1
      case _ => 0
  }

  lemma {:induction false} LoadMoves(workers: seq<Worker>, w: nat, moved: Worker)
    requires w < |workers|
    ensures Load(workers[w := moved]) == Load(workers) - Weight(workers[w]) + Weight(moved)
  {
    if w > 0 {
      assert workers[w := moved][1..] == workers[1..][w - 1 := moved];
      LoadMoves(workers[1..], w - 1, moved);
    } else {
      assert workers[w := moved][1..] == workers[1..];
    }
  }

  lemma StepCountsDown(s: State, a: Action)
    requires Inv(s) && s.q.shuttingDown && Enabled(s, a)
    ensures StepsLeft(Apply(s, a)) + (if Internal(a) then 1 else 0) <= StepsLeft(s)
  {
    hide LookupKey, MetaKey, EventKey, At, Put, OneHolder, Attended, Load, Moved, QueueAfter;
    if a.ByWorker() {
      LoadMoves(s.workers, a.w, Moved(s, a));
      MoveLightens(s, a);
    }
  }

  lemma MoveLightens(s: State, a: Action)
    requires s.q.Valid() && a.ByWorker() && Enabled(s, a) && !a.Start?
    ensures Weight(Moved(s, a)) + 5 * |QueueAfter(s, a).dirty| + 1 <= Weight(s.workers[a.w]) + 5 * |s.q.dirty|
  {
    hide LookupKey, At;
    if a.Take? {
      TakeShrinks(s.q);
    }
  }

  lemma TakeShrinks(q: Queue)
    requires q.Valid() && q.order != []
    ensures |q.Get().dirty| == |q.dirty| - 1
  {
    assert q.order[0] in q.dirty;
  }

  function InternalSteps(acts: seq<Action>): nat {
    if acts == [] then 0 else (if Internal(acts[0]) then 1 else 0) + InternalSteps(acts[1..])
  }

  /** Shutting down ends: whatever the informer and the clock do meanwhile, and however many
      reconciliations fail, the workers and `Run` make no more than `StepsLeft` further steps. */
  lemma {:induction false} DrainingEnds(s: State, acts: seq<Action>)
    requires Inv(s) && s.q.shuttingDown && Legal(s, acts)
    ensures InternalSteps(acts) + StepsLeft(After(s, acts)) <= StepsLeft(s)
    decreases |acts|
  {
    hide Inv, Enabled, Apply, StepsLeft, Internal;
    if acts != [] {
      StepCountsDown(s, acts[0]);
      StepInv(s, acts[0]);
      assert Apply(s, acts[0]).q.shuttingDown by {
        StaysDown(s, acts[0]);
      }
      DrainingEnds(Apply(s, acts[0]), acts[1..]);
    }
  }

  lemma StaysDown(s: State, a: Action)
    requires s.q.shuttingDown && Enabled(s, a)
    ensures Apply(s, a).q.shuttingDown
  {
    hide LookupKey, MetaKey, EventKey;
  }
}
