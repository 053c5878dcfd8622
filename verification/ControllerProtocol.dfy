/** The controller as a protocol: an informer changes the store and delivers events, event handlers
    enqueue keys, workers take keys and reconcile them, and cancelling the context drains the queue.
    One action is one step that no other goroutine can split. */
module ControllerProtocol {
  import opened Keys
  import opened Wrappers
  import opened WorkQueue

  // ---------------------------------------------------------------------------------------
  // State
  // ---------------------------------------------------------------------------------------

  /** What an event handler is given. Equal versions mean equal content. A deletion that the
      informer missed is delivered as a tombstone, from which no key can be extracted. */
  datatype Object = Object(namespace: string, name: string, version: nat) | Tombstone

  datatype Event = Added(obj: Object) | Updated(previous: Object, obj: Object) | Deleted(obj: Object)

  /** Where a worker stands in `runWorker`, and with which key. */
  datatype Worker =
    | NotStarted
    | Idle
    | Got(key: Key)
    | Read(key: Key, seen: Option<nat>)
    | Failed(key: Key)
    | Requeued(key: Key)
    | Succeeded(key: Key)
    | Forgotten(key: Key)
    | Exited(entered: bool)
  {
    predicate Holds() {
      Got? || Read? || Failed? || Requeued? || Succeeded? || Forgotten?
    }
  }

  /** Where `Run` stands. */
  datatype Main = Syncing | SyncFailed | Running | Draining | Joining | Returned

  datatype State = State(
    store: map<Key, nat>,
    pending: seq<Event>,
    q: Queue,
    workers: seq<Worker>,
    synced: map<Key, nat>,
    cancelled: bool,
    main: Main)

  function At(m: map<Key, nat>, k: Key): Option<nat> {
    if k in m then Some(m[k]) else None
  }

  function Put(m: map<Key, nat>, k: Key, v: Option<nat>): map<Key, nat> {
    match v
    case None => m - {k}
    case Some(version) => m[k := version]
  }

  function ObjectKey(obj: Object): Option<Key> {
    match obj
    case Object(namespace, name, _) => Some(MetaKey(namespace, name))
    case Tombstone => None
  }

  /** The key that the event handlers enqueue, if any. */
  function EventKey(event: Event): Option<Key> {
    match event
    case Added(obj) => ObjectKey(obj)
    case Updated(previous, obj) =>
      if previous.Tombstone? || obj.Tombstone? || previous.version == obj.version then None else ObjectKey(obj)
    case Deleted(obj) => ObjectKey(obj)
  }

  // ---------------------------------------------------------------------------------------
  // Actions
  // ---------------------------------------------------------------------------------------

  datatype Action =
    // the informer and the clock
    | Write(namespace: string, name: string, version: nat)
    | Remove(namespace: string, name: string, missed: bool)
    | Deliver
    | Expire(key: Key)
    // the caller's context and `Run`
    | Cancel
    | Sync(ok: bool)
    | ShutDown
    | Drained
    | Return
    // a worker
    | Start(w: nat)
    | Skip(w: nat)
    | Take(w: nat)
    | Leave(w: nat)
    | RejectKey(w: nat)
    | ReadStore(w: nat)
    | ReadError(w: nat)
    | Succeed(w: nat)
    | Fail(w: nat)
    | Requeue(w: nat)
    | Forget(w: nat)
    | Finish(w: nat)
  {
    predicate ByInformer() {
      Write? || Remove? || Deliver? || Expire?
    }

    predicate ByRun() {
      Cancel? || Sync? || ShutDown? || Drained? || Return?
    }

    predicate ByWorker() {
      !ByInformer() && !ByRun()
    }
  }

  predicate Enabled(s: State, a: Action) {
    if a.ByInformer() then
      match a
      case Remove(namespace, name, _) => MetaKey(namespace, name) in s.store
      case Deliver => s.pending != []
      case Expire(k) => k in s.q.delayed
      case _ => true
    else if a.ByRun() then
      match a
      case Sync(_) => s.main == Syncing
      case ShutDown => s.main == Running && s.cancelled
      case Drained => s.main == Draining && s.q.processing == {}
      case Return => s.main == Joining && forall w | 0 <= w < |s.workers| :: s.workers[w].Exited?
      case _ => true
    else
      && a.w < |s.workers|
      && var worker := s.workers[a.w];
      match a
      case Start(_) => worker == NotStarted && !s.main.Syncing? && !s.main.SyncFailed? && !s.cancelled
      case Skip(_) => worker == NotStarted && !s.main.Syncing? && !s.main.SyncFailed? && s.cancelled
      case Take(_) => worker == Idle && s.q.order != []
      case Leave(_) => worker == Idle && s.q.order == [] && s.q.shuttingDown
      case RejectKey(_) => worker.Got? && LookupKey(worker.key) == None
      case ReadStore(_) => worker.Got? && LookupKey(worker.key) != None
      case ReadError(_) => worker.Got? && LookupKey(worker.key) != None
      case Succeed(_) => worker.Read?
      case Fail(_) => worker.Read?
      case Requeue(_) => worker.Failed?
      case Forget(_) => worker.Succeeded?
      case Finish(_) => worker.Requeued? || worker.Forgotten?
  }

  function Announce(s: State, event: Event): State {
    s.(pending := s.pending + [event])
  }

  function Informer(s: State, a: Action): State
    requires a.ByInformer() && Enabled(s, a)
  {
    match a
    case Write(namespace, name, version) =>
      var k, obj := MetaKey(namespace, name), Object(namespace, name, version);
      var event := if k in s.store then Updated(obj.(version := s.store[k]), obj) else Added(obj);
      Announce(s, event).(store := s.store[k := version])
    case Remove(namespace, name, missed) =>
      var k := MetaKey(namespace, name);
      var last := if missed then Tombstone else Object(namespace, name, s.store[k]);
      Announce(s, Deleted(last)).(store := s.store - {k})
    case Deliver =>
      var rest := s.(pending := s.pending[1..]);
      match EventKey(s.pending[0]) {
        case None => rest
        case Some(k) => rest.(q := s.q.Add(k))
      }
    case Expire(k) => s.(q := s.q.Expire(k))
  }

  function Run(s: State, a: Action): State
    requires a.ByRun() && Enabled(s, a)
  {
    match a
    case Cancel => s.(cancelled := true)
    case Sync(ok) => s.(main := if ok then Running else SyncFailed)
    case ShutDown => s.(main := Draining, q := s.q.ShutDown())
    case Drained => s.(main := Joining)
    case Return => s.(main := Returned)
  }

  /** The worker's next program point. */
  function Moved(s: State, a: Action): Worker
    requires a.ByWorker() && Enabled(s, a)
  {
    var worker := s.workers[a.w];
    match a
    case Start(_) => Idle
    case Skip(_) => Exited(false)
    case Take(_) => Got(s.q.order[0])
    case Leave(_) => Exited(true)
    case RejectKey(_) => Succeeded(worker.key)
    case ReadStore(_) => Read(worker.key, At(s.store, LookupKey(worker.key).value))
    case ReadError(_) => Failed(worker.key)
    case Succeed(_) => Succeeded(worker.key)
    case Fail(_) => Failed(worker.key)
    case Requeue(_) => Requeued(worker.key)
    case Forget(_) => Forgotten(worker.key)
    case Finish(_) => Idle
  }

  function QueueAfter(s: State, a: Action): Queue
    requires a.ByWorker() && Enabled(s, a)
  {
    var worker := s.workers[a.w];
    match a
    case Take(_) => s.q.Get()
    case Requeue(_) => s.q.AddRateLimited(worker.key)
    case Forget(_) => s.q.Forget(worker.key)
    case Finish(_) => s.q.Done(worker.key)
    case _ => s.q
  }

  function Apply(s: State, a: Action): State
    requires Enabled(s, a)
  {
    if a.ByInformer() then Informer(s, a)
    else if a.ByRun() then Run(s, a)
    else
      s.(
        workers := s.workers[a.w := Moved(s, a)],
        q := QueueAfter(s, a),
        synced := if a.Succeed? then Put(s.synced, s.workers[a.w].key, s.workers[a.w].seen) else s.synced)
  }

  // ---------------------------------------------------------------------------------------
  // Runs
  // ---------------------------------------------------------------------------------------

  ghost predicate Legal(s: State, acts: seq<Action>)
    decreases |acts|
  {
    acts == [] || (Enabled(s, acts[0]) && Legal(Apply(s, acts[0]), acts[1..]))
  }

  ghost function After(s: State, acts: seq<Action>): State
    requires Legal(s, acts)
    decreases |acts|
  {
    if acts == [] then s else After(Apply(s, acts[0]), acts[1..])
  }

  lemma {:induction false} LegalAppend(s: State, acts: seq<Action>, more: seq<Action>)
    requires Legal(s, acts) && Legal(After(s, acts), more)
    ensures Legal(s, acts + more) && After(s, acts + more) == After(After(s, acts), more)
    decreases |acts|
  {
    hide Enabled, Apply;
    if acts == [] {
      assert acts + more == more;
    } else {
      LegalAppend(Apply(s, acts[0]), acts[1..], more);
      assert (acts + more)[1..] == acts[1..] + more;
    }
  }

  lemma LegalOne(s: State, a: Action)
    requires Enabled(s, a)
    ensures Legal(s, [a]) && After(s, [a]) == Apply(s, a)
  {
    hide Enabled, Apply;
    assert [a][1..] == [];
  }

  lemma LegalStep(s: State, a: Action, rest: seq<Action>)
    requires Enabled(s, a) && Legal(Apply(s, a), rest)
    ensures Legal(s, [a] + rest) && After(s, [a] + rest) == After(Apply(s, a), rest)
  {
    hide Enabled, Apply;
    assert ([a] + rest)[1..] == rest;
  }

  lemma LegalNow(s: State)
    ensures Legal(s, []) && After(s, []) == s
  {
  }

  ghost predicate HasEvent(pending: seq<Event>, k: Key) {
    exists i | 0 <= i < |pending| :: EventKey(pending[i]) == Some(k)
  }

  /** `Run` has just been called: the informer has an event for every object in the store. */
  ghost predicate Init(s: State) {
    && (forall k | k in s.store :: HasEvent(s.pending, k))
    && s.q == EMPTY
    && (forall w | 0 <= w < |s.workers| :: s.workers[w] == NotStarted)
    && s.synced == map[]
    && !s.cancelled
    && s.main == Syncing
  }

  // ---------------------------------------------------------------------------------------
  // What every step keeps
  // ---------------------------------------------------------------------------------------

  /** A key is in processing exactly while one worker holds it, and no two workers hold it. */
  ghost predicate OneHolder(workers: seq<Worker>, processing: set<Key>) {
    && (forall w | 0 <= w < |workers| && workers[w].Holds() :: workers[w].key in processing)
    && (forall k | k in processing :: exists w | 0 <= w < |workers| :: workers[w].Holds() && workers[w].key == k)
    && (forall v, w | 0 <= v < w < |workers| && workers[v].Holds() && workers[w].Holds() ::
          workers[v].key != workers[w].key)
  }

  predicate Active(worker: Worker) {
    worker == Idle || worker.Holds()
  }

  /** The order of events around shutdown. */
  ghost predicate InStage(s: State) {
    && (s.q.shuttingDown <==> s.main.Draining? || s.main.Joining? || s.main.Returned?)
    && (s.q.shuttingDown ==> s.cancelled)
    && (forall w | 0 <= w < |s.workers| :: WorkerInStage(s.workers[w], s.main, s.cancelled))
  }

  predicate WorkerInStage(worker: Worker, main: Main, cancelled: bool) {
    && (worker != NotStarted ==> !main.Syncing? && !main.SyncFailed?)
    && (worker.Exited? ==> cancelled)
    && (main.Returned? ==> worker.Exited?)
  }

  ghost predicate Entered(s: State) {
    exists w | 0 <= w < |s.workers| :: Active(s.workers[w]) || s.workers[w] == Exited(true)
  }

  /** Once a worker has left its loop, whatever still waits has a worker to take it. */
  ghost predicate Attended(workers: seq<Worker>, q: Queue) {
    (exists w | 0 <= w < |workers| :: workers[w] == Exited(true)) ==>
      q.shuttingDown && (q.order != [] ==> exists w | 0 <= w < |workers| :: Active(workers[w]))
  }

  ghost predicate Inv(s: State) {
    && s.q.Valid()
    && OneHolder(s.workers, s.q.processing)
    && InStage(s)
    && Attended(s.workers, s.q)
  }

  lemma InitInv(s: State)
    requires Init(s)
    ensures Inv(s)
  {
  }

  lemma StepQueue(s: State, a: Action)
    requires Inv(s) && Enabled(s, a)
    ensures Apply(s, a).q.Valid()
  {
    hide LookupKey, MetaKey, EventKey, At, Put, Attended, InStage, Queue.Valid;
    if a.ByWorker() {
      WorkerQueue(s, a);
    } else if a.Deliver? {
      if EventKey(s.pending[0]) != None {
        AddKeepsValid(s.q, EventKey(s.pending[0]).value);
      }
    } else {
      ExpireOrRunQueue(s, a);
    }
  }

  lemma WorkerQueue(s: State, a: Action)
    requires s.q.Valid() && OneHolder(s.workers, s.q.processing) && a.ByWorker() && Enabled(s, a)
    ensures QueueAfter(s, a).Valid()
  {
    hide LookupKey;
    match a
    case Take(w) => GetKeepsValid(s.q);
    case Finish(w) => DoneKeepsValid(s.q, s.workers[w].key);
    case _ =>
  }

  lemma ExpireOrRunQueue(s: State, a: Action)
    requires s.q.Valid() && !a.ByWorker() && !a.Deliver? && Enabled(s, a)
    ensures Apply(s, a).q.Valid()
  {
    hide LookupKey, MetaKey, EventKey, At, Put;
    if a.Expire? {
      AddKeepsValid(s.q.(delayed := s.q.delayed - {a.key}), a.key);
    }
  }

  lemma StepOneHolder(s: State, a: Action)
    requires Inv(s) && Enabled(s, a)
    ensures var t := Apply(s, a); OneHolder(t.workers, t.q.processing)
  {
    hide LookupKey, MetaKey, Attended, InStage;
    if a.ByWorker() {
      MoveOneHolder(s.workers, a.w, Moved(s, a), s.q.processing, Apply(s, a).q.processing);
    }
  }

  /** A worker moves on, with the key it had, with a key nobody else has, or without one. */
  lemma MoveOneHolder(workers: seq<Worker>, w: nat, moved: Worker, p: set<Key>, p': set<Key>)
    requires OneHolder(workers, p) && w < |workers|
    requires
      if workers[w].Holds() then
        if moved.Holds() then moved.key == workers[w].key && p' == p else p' == p - {workers[w].key}
      else if moved.Holds() then moved.key !in p && p' == p + {moved.key} else p' == p
    ensures OneHolder(workers[w := moved], p')
  {
    var workers' := workers[w := moved];
    forall k | k in p'
      ensures exists v | 0 <= v < |workers'| :: workers'[v].Holds() && workers'[v].key == k
    {
      if moved.Holds() && k == moved.key {
        assert workers'[w].Holds() && workers'[w].key == k;
      } else {
        var v :| 0 <= v < |workers| && workers[v].Holds() && workers[v].key == k;
        assert workers'[v].Holds() && workers'[v].key == k;
      }
    }
  }

  lemma StepStage(s: State, a: Action)
    requires Inv(s) && Enabled(s, a)
    ensures InStage(Apply(s, a))
  {
    hide LookupKey, MetaKey, Attended, OneHolder, EventKey, At, Put, Queue.Valid;
    if a.ByWorker() {
      assert WorkerInStage(s.workers[a.w], s.main, s.cancelled);
    }
  }

  lemma StepAttended(s: State, a: Action)
    requires Inv(s) && Enabled(s, a)
    ensures var t := Apply(s, a); Attended(t.workers, t.q)
  {
    hide LookupKey, MetaKey, OneHolder, EventKey, At, Put, Queue.Valid, Attended;
    if a.ByWorker() {
      MoveAttended(s.workers, a.w, Moved(s, a), s.q, Apply(s, a).q);
    } else {
      AddAttended(s.workers, s.q, Apply(s, a).q);
    }
  }

  lemma AddAttended(workers: seq<Worker>, q: Queue, q': Queue)
    requires Attended(workers, q)
    requires q.shuttingDown ==> q'.shuttingDown && q'.order == q.order
    ensures Attended(workers, q')
  {
  }

  lemma MoveAttended(workers: seq<Worker>, w: nat, moved: Worker, q: Queue, q': Queue)
    requires Attended(workers, q) && w < |workers| && !workers[w].Exited?
    requires q'.shuttingDown == q.shuttingDown
    requires moved.Exited? ==> q'.order == q.order
    requires moved == Exited(true) ==> q.shuttingDown && q.order == []
    requires moved == Exited(false) ==> !Active(workers[w])
    requires !moved.Exited? ==> Active(moved)
    ensures Attended(workers[w := moved], q')
  {
    var workers' := workers[w := moved];
    if exists v | 0 <= v < |workers'| :: workers'[v] == Exited(true) {
      var v :| 0 <= v < |workers'| && workers'[v] == Exited(true);
      assert v != w ==> workers[v] == Exited(true);
      if q'.order != [] {
        if moved.Exited? {
          var u :| 0 <= u < |workers| && Active(workers[u]);
          assert workers'[u] == workers[u];
        } else {
          assert Active(workers'[w]);
        }
      }
    }
  }

  /** Every run keeps the invariant. */
  lemma {:induction false} RunInv(s: State, acts: seq<Action>)
    requires Inv(s) && Legal(s, acts)
    ensures Inv(After(s, acts))
    decreases |acts|
  {
    hide Enabled, Apply;
    if acts != [] {
      StepInv(s, acts[0]);
      RunInv(Apply(s, acts[0]), acts[1..]);
    }
  }

  lemma StepInv(s: State, a: Action)
    requires Inv(s) && Enabled(s, a)
    ensures Inv(Apply(s, a))
  {
    hide Enabled, Apply, OneHolder, Attended, InStage;
    StepQueue(s, a);
    StepOneHolder(s, a);
    StepStage(s, a);
    StepAttended(s, a);
  }
}
