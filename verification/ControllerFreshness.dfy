/** No update is lost: until shutdown, a key whose stored version is not the one reconciled last is
    always on its way to a worker that will read the store. */
module ControllerFreshness {
  import opened ControllerProtocol
  import opened Keys
  import opened Wrappers
  import opened WorkQueue

  predicate UpToDate(s: State, k: Key) {
    At(s.synced, k) == At(s.store, k)
  }

  /** An event for the key waits for a handler, or the key waits for a worker. */
  ghost predicate Announced(s: State, k: Key) {
    HasEvent(s.pending, k) || k in s.q.dirty
  }

  /** Announced, delayed for a retry, or held by a worker that has yet to read the store or to
      requeue its failure. */
  ghost predicate Outstanding(s: State, k: Key) {
    Announced(s, k) || k in s.q.delayed || Got(k) in s.workers || Failed(k) in s.workers
  }

  /** A worker that read something else than what is stored now. */
  predicate ReadsStale(worker: Worker, k: Key, stored: Option<nat>) {
    worker.Read? && worker.key == k && worker.seen != stored
  }

  ghost predicate Covered(s: State, k: Key) {
    && (UpToDate(s, k) || Outstanding(s, k) || Read(k, At(s.store, k)) in s.workers)
    && (AnyStale(s.workers, k, At(s.store, k)) ==> Announced(s, k))
  }

  ghost predicate AnyStale(workers: seq<Worker>, k: Key, stored: Option<nat>) {
    exists w | 0 <= w < |workers| :: ReadsStale(workers[w], k, stored)
  }

  /** No deletion of the object is one that the informer missed. */
  predicate NeverMissed(acts: seq<Action>, k: Key) {
    acts == [] || (!IsMissed(acts[0], k) && NeverMissed(acts[1..], k))
  }

  predicate IsMissed(a: Action, k: Key) {
    a.Remove? && a.missed && MetaKey(a.namespace, a.name) == k
  }

  // ---------------------------------------------------------------------------------------
  // Steps of the informer
  // ---------------------------------------------------------------------------------------

  lemma EventAppended(pending: seq<Event>, event: Event, k: Key)
    ensures HasEvent(pending + [event], k) <==> HasEvent(pending, k) || EventKey(event) == Some(k)
  {
    var longer := pending + [event];
    if HasEvent(pending, k) {
      var i :| 0 <= i < |pending| && EventKey(pending[i]) == Some(k);
      assert longer[i] == pending[i];
    }
    assert longer[|pending|] == event;
  }

  lemma EventHandled(pending: seq<Event>, k: Key)
    requires HasEvent(pending, k) && EventKey(pending[0]) != Some(k)
    ensures HasEvent(pending[1..], k)
  {
    var i :| 0 <= i < |pending| && EventKey(pending[i]) == Some(k);
    assert pending[1..][i - 1] == pending[i];
  }

  lemma AnnounceCovers(s: State, event: Event, store: map<Key, nat>, k: Key)
    requires Covered(s, k)
    requires At(store, k) == At(s.store, k) || EventKey(event) == Some(k)
    ensures Covered(Announce(s, event).(store := store), k)
  {
    EventAppended(s.pending, event, k);
  }

  lemma InformerCovered(s: State, a: Action, k: Key)
    requires a.ByInformer() && Enabled(s, a) && !IsMissed(a, k)
    requires Covered(s, k) && !s.q.shuttingDown
    ensures Covered(Informer(s, a), k)
  {
    hide Covered;
    match a
    case Write(namespace, name, version) =>
      var obj := Object(namespace, name, version);
      var j := MetaKey(namespace, name);
      AnnounceCovers(s, if j in s.store then Updated(obj.(version := s.store[j]), obj) else Added(obj),
                     s.store[j := version], k);
    case Remove(namespace, name, missed) =>
      var j := MetaKey(namespace, name);
      var last := if missed then Tombstone else Object(namespace, name, s.store[j]);
      AnnounceCovers(s, Deleted(last), s.store - {j}, k);
    case Deliver => DeliverCovered(s, k);
    case Expire(_) => ExpireCovered(s, a.key, k);
  }

  lemma DeliverCovered(s: State, k: Key)
    requires s.pending != [] && Covered(s, k) && !s.q.shuttingDown
    ensures Covered(Informer(s, Deliver), k)
  {
    hide EventKey;
    if HasEvent(s.pending, k) && EventKey(s.pending[0]) != Some(k) {
      EventHandled(s.pending, k);
    }
  }

  lemma ExpireCovered(s: State, j: Key, k: Key)
    requires j in s.q.delayed && Covered(s, k) && !s.q.shuttingDown
    ensures Covered(Informer(s, Expire(j)), k)
  {
    hide HasEvent;
  }

  // ---------------------------------------------------------------------------------------
  // Steps of a worker
  // ---------------------------------------------------------------------------------------

  /** Replacing one worker keeps the others. */
  lemma OthersStay(workers: seq<Worker>, w: nat, moved: Worker)
    requires w < |workers|
    ensures moved in workers[w := moved]
    ensures forall x | x in workers && x != workers[w] :: x in workers[w := moved]
  {
    var workers' := workers[w := moved];
    assert workers'[w] == moved;
    forall x | x in workers && x != workers[w] ensures x in workers' {
      var i :| 0 <= i < |workers| && workers[i] == x;
      assert workers'[i] == x;
    }
  }

  lemma StaleStays(workers: seq<Worker>, w: nat, moved: Worker, k: Key, stored: Option<nat>)
    requires w < |workers| && !ReadsStale(moved, k, stored)
    requires AnyStale(workers[w := moved], k, stored)
    ensures AnyStale(workers, k, stored)
  {
    var v :| 0 <= v < |workers[w := moved]| && ReadsStale(workers[w := moved][v], k, stored);
    assert ReadsStale(workers[v], k, stored);
  }

  /** A key that waits in order is held by no worker. */
  lemma NotHeld(s: State, k: Key)
    requires Inv(s) && s.q.order != [] && s.q.order[0] == k
    ensures forall w | 0 <= w < |s.workers| :: !ReadsStale(s.workers[w], k, At(s.store, k))
  {
    hide At, Attended, InStage;
  }

  lemma WorkerCovered(s: State, a: Action, k: Key)
    requires Inv(s) && a.ByWorker() && Enabled(s, a) && LookupKey(k) == Some(k)
    requires Covered(s, k) && !s.q.shuttingDown
    ensures Covered(Apply(s, a), k)
  {
    hide HasEvent, LookupKey, OneHolder, Attended, InStage, Queue.Valid, ReadsStale, At, Put;
    var t := Apply(s, a);
    var stored := At(s.store, k);
    OthersStay(s.workers, a.w, t.workers[a.w]);
    assert !ReadsStale(t.workers[a.w], k, stored) by {
      MovesNotStale(s, a, k);
    }
    if AnyStale(t.workers, k, stored) {
      StaleStays(s.workers, a.w, t.workers[a.w], k, stored);
    }
    assert a.Succeed? ==> WorkerSynced(s, a, k) by {
      if a.Succeed? {
        SucceedSynced(s, a.w, k);
      }
    }
    if a.Take? && s.q.order[0] == k {
      NotHeld(s, k);
    }
  }

  lemma MovesNotStale(s: State, a: Action, k: Key)
    requires a.ByWorker() && Enabled(s, a) && LookupKey(k) == Some(k)
    ensures !ReadsStale(Moved(s, a), k, At(s.store, k))
  {
    hide LookupKey;
  }

  ghost predicate WorkerSynced(s: State, a: Action, k: Key)
    requires a.Succeed? && Enabled(s, a)
  {
    var t := Apply(s, a);
    if s.workers[a.w].key != k then At(t.synced, k) == At(s.synced, k)
    else At(t.synced, k) == s.workers[a.w].seen && (UpToDate(t, k) || ReadsStale(s.workers[a.w], k, At(s.store, k)))
  }

  lemma SucceedSynced(s: State, w: nat, k: Key)
    requires Enabled(s, Succeed(w))
    ensures WorkerSynced(s, Succeed(w), k)
  {
  }

  // ---------------------------------------------------------------------------------------
  // Whole runs
  // ---------------------------------------------------------------------------------------

  lemma StepCovered(s: State, a: Action, k: Key)
    requires Inv(s) && Enabled(s, a) && LookupKey(k) == Some(k) && !IsMissed(a, k)
    requires Covered(s, k) && !s.q.shuttingDown && !Apply(s, a).q.shuttingDown
    ensures Covered(Apply(s, a), k)
  {
    hide Inv, LookupKey, IsMissed, Informer, QueueAfter, Moved;
    if a.ByInformer() {
      InformerCovered(s, a, k);
    } else if a.ByWorker() {
      WorkerCovered(s, a, k);
    }
  }

  lemma {:induction false} ShutDownStays(s: State, acts: seq<Action>)
    requires Legal(s, acts) && s.q.shuttingDown
    ensures After(s, acts).q.shuttingDown
    decreases |acts|
  {
    hide LookupKey, MetaKey, EventKey;
    if acts != [] {
      ShutDownStays(Apply(s, acts[0]), acts[1..]);
    }
  }

  lemma {:induction false} RunCovered(s: State, acts: seq<Action>, k: Key)
    requires Inv(s) && Legal(s, acts) && LookupKey(k) == Some(k) && NeverMissed(acts, k)
    requires Covered(s, k) && !After(s, acts).q.shuttingDown
    ensures Covered(After(s, acts), k)
    decreases |acts|
  {
    hide Inv, LookupKey, Covered, Enabled, Apply, IsMissed;
    if s.q.shuttingDown {
      ShutDownStays(s, acts);
    } else if acts != [] {
      var t := Apply(s, acts[0]);
      if t.q.shuttingDown {
        ShutDownStays(t, acts[1..]);
      } else {
        StepInv(s, acts[0]);
        StepCovered(s, acts[0], k);
        RunCovered(t, acts[1..], k);
      }
    }
  }

  /** Until shutdown, a key that is not up to date is outstanding, or was read as it is stored now. */
  lemma NoLostUpdate(s: State, acts: seq<Action>, k: Key)
    requires Init(s) && Legal(s, acts) && !After(s, acts).q.shuttingDown
    requires LookupKey(k) == Some(k) && NeverMissed(acts, k)
    ensures
      var t := After(s, acts);
      UpToDate(t, k) || Outstanding(t, k) || Read(k, At(t.store, k)) in t.workers
  {
    InitCovered(s, k);
    InitInv(s);
    RunCovered(s, acts, k);
  }

  lemma InitCovered(s: State, k: Key)
    requires Init(s)
    ensures Covered(s, k)
  {
  }

  /** Nothing waits anywhere and no worker is at work. */
  ghost predicate Quiet(s: State) {
    && s.pending == [] && s.q.dirty == {} && s.q.delayed == {}
    && forall w | 0 <= w < |s.workers| :: !s.workers[w].Holds()
  }

  /** A run from the start to a quiet state before shutdown. */
  ghost predicate QuietRun(s: State, acts: seq<Action>) {
    Init(s) && Legal(s, acts) && Quiet(After(s, acts)) && !After(s, acts).q.shuttingDown
  }

  /** When nothing is left to do, every key is up to date. */
  lemma QuietIsUpToDate(s: State, acts: seq<Action>, k: Key)
    requires QuietRun(s, acts) && LookupKey(k) == Some(k) && NeverMissed(acts, k)
    ensures UpToDate(After(s, acts), k)
  {
    hide Legal, Init, LookupKey, NeverMissed, UpToDate;
    NoLostUpdate(s, acts, k);
    assert !HasEvent([], k);
  }
}
