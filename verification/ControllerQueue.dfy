/** How the work queue is used, spelled out: what is added when, in which order keys are taken, how failures are
    counted, and who takes no part. */
module ControllerQueue {
  import opened ControllerProtocol
  import opened ControllerDrain
  import opened Keys
  import opened Wrappers
  import opened WorkQueue

  // ---------------------------------------------------------------------------------------
  // What is added
  // ---------------------------------------------------------------------------------------

  /** The key of the object that an event is about, if the event is to be acted on: updates are only if the
      version has changed, and deletions only if they carry the object. */
  ghost predicate CallsFor(event: Event, k: Key) {
    match event
    case Added(Object(namespace, name, _)) => k == if namespace == "" then name else namespace + "/" + name
    case Updated(Object(_, _, before), Object(namespace, name, version)) =>
      before != version && k == if namespace == "" then name else namespace + "/" + name
    case Deleted(Object(namespace, name, _)) => k == if namespace == "" then name else namespace + "/" + name
    case _ => false
  }

  /** A change of the store is announced by one event, last in line, about the object as it is then. */
  lemma ChangesExactly(s: State, namespace: string, name: string, version: nat)
    requires namespace == ""
    ensures
      var t := Apply(s, Write(namespace, name, version));
      && t.store == s.store[name := version]
      && t.pending == s.pending + [
           if name in s.store then Updated(Object("", name, s.store[name]), Object("", name, version))
           else Added(Object("", name, version))]
    ensures name in s.store ==>
      && Apply(s, Remove("", name, false)).pending == s.pending + [Deleted(Object("", name, s.store[name]))]
      && Apply(s, Remove("", name, true)).pending == s.pending + [Deleted(Tombstone)]
      && Apply(s, Remove("", name, true)).store == Apply(s, Remove("", name, false)).store == s.store - {name}
  {
  }

  /** Handling an event marks the key dirty that it calls for, unless the queue is shutting down, and no other. */
  lemma DeliverExactly(s: State, k: Key)
    requires s.pending != []
    ensures
      var t := Apply(s, Deliver);
      && (k in t.q.dirty <==> k in s.q.dirty || (!s.q.shuttingDown && CallsFor(s.pending[0], k)))
      && t.pending == s.pending[1..] && t.q.delayed == s.q.delayed && t.q.processing == s.q.processing
      && t.store == s.store && t.workers == s.workers && t.synced == s.synced
  {
  }

  /** A failed key is delayed, unless the queue is shutting down; when the delay is over, it is marked dirty,
      unless the queue is shutting down by then. */
  lemma DelaysExactly(s: State, k: Key)
    ensures forall w: nat | Enabled(s, Requeue(w)) ::
      Apply(s, Requeue(w)).q.delayed == s.q.delayed + if s.q.shuttingDown then {} else {s.workers[w].key}
    ensures Enabled(s, Expire(k)) ==>
      && Apply(s, Expire(k)).q.delayed == s.q.delayed - {k}
      && Apply(s, Expire(k)).q.dirty == s.q.dirty + if s.q.shuttingDown then {} else {k}
  {
    hide LookupKey;
  }

  // ---------------------------------------------------------------------------------------
  // In which order keys are taken
  // ---------------------------------------------------------------------------------------

  /** The key that a worker has been given in a step. */
  ghost function Taken(s: State, a: Action): seq<Key>
    requires Enabled(s, a)
  {
    if a.Take? then [Apply(s, a).workers[a.w].key] else []
  }

  /** The key that has come to wait in a step. */
  ghost function Joined(s: State, a: Action): seq<Key>
    requires Enabled(s, a)
  {
    var order := Apply(s, a).q.order;
    if |order| > |s.q.order| then [order[|order| - 1]] else []
  }

  ghost function AllTaken(s: State, acts: seq<Action>): seq<Key>
    requires Legal(s, acts)
    decreases |acts|
  {
    if acts == [] then [] else Taken(s, acts[0]) + AllTaken(Apply(s, acts[0]), acts[1..])
  }

  ghost function AllJoined(s: State, acts: seq<Action>): seq<Key>
    requires Legal(s, acts)
    decreases |acts|
  {
    if acts == [] then [] else Joined(s, acts[0]) + AllJoined(Apply(s, acts[0]), acts[1..])
  }

  lemma StepInOrder(s: State, a: Action)
    requires Enabled(s, a)
    ensures s.q.order + Joined(s, a) == Taken(s, a) + Apply(s, a).q.order
  {
    hide LookupKey, MetaKey, EventKey, At, Put;
    if a.Take? {
      assert s.q.order == [s.q.order[0]] + s.q.order[1..];
    }
  }

  /** In every run, keys are taken in the order in which they came to wait, none left out and none twice: those
      that waited and those that joined are those taken and those that still wait. */
  lemma {:induction false} TakenInOrder(s: State, acts: seq<Action>)
    requires Legal(s, acts)
    ensures s.q.order + AllJoined(s, acts) == AllTaken(s, acts) + After(s, acts).q.order
    decreases |acts|
  {
    hide Enabled, Apply, Taken, Joined;
    if acts == [] {
      assert s.q.order + [] == [] + s.q.order;
    } else {
      var t := Apply(s, acts[0]);
      StepInOrder(s, acts[0]);
      TakenInOrder(t, acts[1..]);
      var j, k := Joined(s, acts[0]), Taken(s, acts[0]);
      assert s.q.order + (j + AllJoined(t, acts[1..])) == (s.q.order + j) + AllJoined(t, acts[1..]);
      assert (k + t.q.order) + AllJoined(t, acts[1..]) == k + (t.q.order + AllJoined(t, acts[1..]));
      assert k + (AllTaken(t, acts[1..]) + After(t, acts[1..]).q.order) == (k + AllTaken(t, acts[1..])) + After(t, acts[1..]).q.order;
    }
  }

  // ---------------------------------------------------------------------------------------
  // How failures are counted
  // ---------------------------------------------------------------------------------------

  function FailuresOf(q: Queue, k: Key): nat {
    if k in q.failures then q.failures[k] else 0
  }

  /** The requeues of the key since it was last forgotten, `n` before the run. */
  ghost function RequeuesSinceForget(s: State, acts: seq<Action>, k: Key, n: nat): nat
    requires Legal(s, acts)
    decreases |acts|
  {
    if acts == [] then n
    else RequeuesSinceForget(Apply(s, acts[0]), acts[1..], k, CountAfter(s, acts[0], k, n))
  }

  ghost function CountAfter(s: State, a: Action, k: Key, n: nat): nat
    requires Enabled(s, a)
  {
    if a.Requeue? && s.workers[a.w].key == k then n + 1
    else if a.Forget? && s.workers[a.w].key == k then 0
    else n
  }

  lemma StepCounts(s: State, a: Action, k: Key)
    requires Enabled(s, a)
    ensures FailuresOf(Apply(s, a).q, k) == CountAfter(s, a, k, FailuresOf(s.q, k))
  {
    hide LookupKey, MetaKey, EventKey, At, Put;
  }

  /** In every run, the limiter counts the failures of each key since its last success, which sets the delay
      before the next try. */
  lemma {:induction false} FailuresAreCounted(s: State, acts: seq<Action>, k: Key)
    requires Legal(s, acts)
    ensures FailuresOf(After(s, acts).q, k) == RequeuesSinceForget(s, acts, k, FailuresOf(s.q, k))
    decreases |acts|
  {
    hide Enabled, Apply, FailuresOf, CountAfter;
    if acts != [] {
      StepCounts(s, acts[0], k);
      FailuresAreCounted(Apply(s, acts[0]), acts[1..], k);
    }
  }

  // ---------------------------------------------------------------------------------------
  // Who takes no part
  // ---------------------------------------------------------------------------------------

  lemma StepStaysOut(s: State, a: Action, w: nat)
    requires Enabled(s, a) && s.cancelled && w < |s.workers|
    requires s.workers[w] == NotStarted || s.workers[w] == Exited(false)
    ensures
      var t := Apply(s, a);
      t.cancelled && w < |t.workers| && (t.workers[w] == NotStarted || t.workers[w] == Exited(false))
  {
    hide LookupKey, MetaKey, EventKey, At, Put;
  }

  /** A worker that has not started when the context is cancelled never enters its loop. */
  lemma {:induction false} CancelledStaysOut(s: State, acts: seq<Action>, w: nat)
    requires Legal(s, acts) && s.cancelled && w < |s.workers|
    requires s.workers[w] == NotStarted || s.workers[w] == Exited(false)
    ensures
      var t := After(s, acts);
      w < |t.workers| && (t.workers[w] == NotStarted || t.workers[w] == Exited(false))
    decreases |acts|
  {
    hide Enabled, Apply;
    if acts != [] {
      StepStaysOut(s, acts[0], w);
      CancelledStaysOut(Apply(s, acts[0]), acts[1..], w);
    }
  }

  lemma StepUnsynced(s: State, a: Action)
    requires Inv(s) && Enabled(s, a) && s.main == SyncFailed
    ensures Apply(s, a).main == SyncFailed && forall k :: HandsOver(s, a) != Some(k)
  {
    hide LookupKey, MetaKey, EventKey, At, Put, Queue.Valid, OneHolder, Attended;
    if a.ByWorker() {
      assert WorkerInStage(s.workers[a.w], s.main, s.cancelled);
    }
  }

  /** If the informer's cache is not synced, `Run` gives up, and nothing is ever handed to `reconcile`. */
  lemma {:induction false} UnsyncedReconcilesNothing(s: State, acts: seq<Action>, k: Key)
    requires Inv(s) && Legal(s, acts) && s.main == SyncFailed
    ensures After(s, acts).main == SyncFailed && !HandedOver(s, acts, k)
    decreases |acts|
  {
    hide Inv, Enabled, Apply, HandsOver;
    if acts != [] {
      StepInv(s, acts[0]);
      StepUnsynced(s, acts[0]);
      UnsyncedReconcilesNothing(Apply(s, acts[0]), acts[1..], k);
    }
  }

  /** The steps that end a run are only made when they may be: shutdown after the context is cancelled, the end of
      draining when no key is in process, the return when all workers have exited. */
  lemma EndsInTurn(s: State, a: Action)
    requires Enabled(s, a) && Apply(s, a).main != s.main
    ensures Apply(s, a).main == Running ==> s.main == Syncing
    ensures Apply(s, a).main == Draining ==> s.main == Running && s.cancelled && Apply(s, a).q.shuttingDown
    ensures Apply(s, a).main == Joining ==> s.main == Draining && s.q.processing == {}
    ensures Apply(s, a).main == Returned ==> s.main == Joining && forall w | 0 <= w < |s.workers| :: s.workers[w].Exited?
  {
    hide LookupKey, MetaKey, EventKey, At, Put;
  }
}
