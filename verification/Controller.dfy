/** The controller object: its event handlers and the loop of a worker, as they change the work
    queue. Each is proved to make steps of the protocol and no others. */
module Controller {
  import opened ControllerProtocol
  import opened ControllerDrain
  import opened Keys
  import opened Wrappers
  import opened WorkQueue

  /** Only worker `w` has moved. */
  ghost predicate OnlyMoves(s: State, t: State, w: nat) {
    && |t.workers| == |s.workers|
    && forall v | 0 <= v < |s.workers| && v != w :: t.workers[v] == s.workers[v]
  }

  lemma TwoSteps(s: State, a: Action, b: Action) returns (t: State)
    requires Inv(s) && Enabled(s, a) && Enabled(Apply(s, a), b)
    ensures Legal(s, [a, b]) && After(s, [a, b]) == t == Apply(Apply(s, a), b) && Inv(t)
  {
    hide Enabled, Apply, Inv;
    StepInv(s, a);
    StepInv(Apply(s, a), b);
    LegalOne(s, a);
    LegalOne(Apply(s, a), b);
    LegalAppend(s, [a], [b]);
    t := Apply(Apply(s, a), b);
    assert [a] + [b] == [a, b];
  }

  /** The steps of a worker that reads the store and hands the object over. */
  lemma ReadSteps(s: State, w: nat, failed: bool) returns (acts: seq<Action>, t: State)
    requires Inv(s) && w < |s.workers| && s.workers[w].Got? && LookupKey(s.workers[w].key) != None
    ensures Legal(s, acts) && After(s, acts) == t && Inv(t) && OnlyMoves(s, t, w)
    ensures HandedOver(s, acts, s.workers[w].key)
    ensures
      var key := s.workers[w].key;
      && t.store == s.store && t.q == s.q
      && t.workers[w] == (if failed then Failed(key) else Succeeded(key))
      && t.synced == if failed then s.synced else Put(s.synced, key, At(s.store, LookupKey(key).value))
  {
    hide LookupKey, Inv, Legal, At, Put;
    var b := if failed then Fail(w) else Succeed(w);
    acts := [ReadStore(w), b];
    t := TwoSteps(s, ReadStore(w), b);
  }

  /** The steps of a worker that requeues or forgets its key and reports it done. */
  lemma SettleSteps(s: State, w: nat, failed: bool) returns (acts: seq<Action>, t: State)
    requires Inv(s) && w < |s.workers|
    requires if failed then s.workers[w].Failed? else s.workers[w].Succeeded?
    ensures Legal(s, acts) && After(s, acts) == t && Inv(t) && OnlyMoves(s, t, w)
    ensures
      var key := s.workers[w].key;
      && t.store == s.store && t.synced == s.synced && t.workers[w] == Idle
      && t.q == (if failed then s.q.AddRateLimited(key) else s.q.Forget(key)).Done(key)
  {
    hide LookupKey, Inv, Legal;
    var a := if failed then Requeue(w) else Forget(w);
    acts := [a, Finish(w)];
    t := TwoSteps(s, a, Finish(w));
  }

  /** A step of a worker that is done with its key's lookup before reading an object. */
  lemma NoObjectStep(s: State, w: nat, a: Action) returns (acts: seq<Action>, t: State)
    requires Inv(s) && w < |s.workers| && s.workers[w].Got?
    requires (a == RejectKey(w) || a == ReadError(w)) && Enabled(s, a)
    ensures Legal(s, acts) && After(s, acts) == t && Inv(t) && OnlyMoves(s, t, w)
    ensures HandedOver(s, acts, s.workers[w].key)
    ensures
      var key := s.workers[w].key;
      t == s.(workers := t.workers) && t.workers[w] == (if a.ReadError? then Failed(key) else Succeeded(key))
  {
    hide LookupKey, Inv, Legal;
    acts, t := [a], Apply(s, a);
    LegalOne(s, a);
    StepInv(s, a);
  }

  lemma TakeStep(s: State, w: nat) returns (acts: seq<Action>, t: State)
    requires Inv(s) && w < |s.workers| && s.workers[w] == Idle && s.q.order != []
    ensures Legal(s, acts) && After(s, acts) == t && Inv(t) && OnlyMoves(s, t, w)
    ensures t == s.(workers := t.workers, q := s.q.Get()) && t.workers[w] == Got(s.q.order[0])
    ensures |t.q.dirty| < |s.q.dirty|
  {
    hide LookupKey, Legal, OneHolder, Attended, InStage;
    acts, t := [Take(w)], Apply(s, Take(w));
    LegalOne(s, Take(w));
    StepInv(s, Take(w));
    TakeShrinks(s.q);
  }

  /** Keys that waited in order when a worker began are in no queue and no hand when it has none left. */
  lemma NotWaiting(s: State, t: State, w: nat, k: Key)
    requires Inv(s) && Inv(t) && OnlyMoves(s, t, w) && k in s.q.order
    requires w < |t.workers| && !t.workers[w].Holds() && t.q.order == []
    ensures !Waiting(t, k)
  {
    hide Attended, InStage;
    assert k !in s.q.processing;
    assert forall v | 0 <= v < |t.workers| && t.workers[v].Holds() :: t.workers[v].key != k;
  }

  /** What the outside decides: whether the indexer can be read, and what the reconciler returns
      for the namespace, name and object it is given. */
  datatype Outside = Outside(readable: Key -> bool, reconciler: (string, string, Option<nat>) -> bool)

  class Controller {
    var store: map<Key, nat>
    var q: Queue
    var synced: map<Key, nat>

    constructor (store: map<Key, nat>)
      ensures this.store == store && q == EMPTY && synced == map[]
    {
      this.store, q, synced := store, EMPTY, map[];
    }

    // -------------------------------------------------------------------------------------
    // Event handlers
    // -------------------------------------------------------------------------------------

    method Enqueue(obj: Object)
      modifies this`q
      ensures q == match ObjectKey(obj) case None => old(q) case Some(k) => old(q).Add(k)
    {
      match ObjectKey(obj) {
        case None => return;
        case Some(key) => q := q.Add(key);
      }
    }

    method OnAdd(obj: Object, ghost s: State)
      requires s.q == q && s.pending != [] && s.pending[0] == Added(obj)
      modifies this`q
      ensures q == Apply(s, Deliver).q
    {
      Enqueue(obj);
    }

    method OnUpdate(previous: Object, obj: Object, ghost s: State)
      requires s.q == q && s.pending != [] && s.pending[0] == Updated(previous, obj)
      modifies this`q
      ensures q == Apply(s, Deliver).q
    {
      if previous.Tombstone? || obj.Tombstone? {
        return;
      } else if previous.version == obj.version {
        return;
      }
      Enqueue(obj);
    }

    method OnDelete(obj: Object, ghost s: State)
      requires s.q == q && s.pending != [] && s.pending[0] == Deleted(obj)
      modifies this`q
      ensures q == Apply(s, Deliver).q
    {
      Enqueue(obj);
    }

    // -------------------------------------------------------------------------------------
    // A worker
    // -------------------------------------------------------------------------------------

    /** The protocol state that this object is a part of, with worker `w` at a given point. */
    ghost predicate Shows(s: State, w: nat, worker: Worker)
      reads this
    {
      && s.store == store && s.q == q && s.synced == synced
      && w < |s.workers| && s.workers[w] == worker && Inv(s)
    }

    /** Reconciles one key; true is an error that asks for another try. */
    method Reconcile(key: Key, outside: Outside, ghost s: State, ghost w: nat)
      returns (failed: bool, ghost acts: seq<Action>, ghost t: State)
      requires Shows(s, w, Got(key))
      modifies this`synced
      ensures Legal(s, acts) && After(s, acts) == t
      ensures Shows(t, w, if failed then Failed(key) else Succeeded(key))
      ensures t.q == s.q && OnlyMoves(s, t, w)
      ensures HandedOver(s, acts, key)
      ensures
        match SplitKey(key)
        case None => !failed && synced == old(synced)
        case Some((namespace, name)) =>
          var seen := At(store, LookupKey(key).value);
          && (failed <==> !outside.readable(LookupKey(key).value) || !outside.reconciler(namespace, name, seen))
          && synced == if failed then old(synced) else Put(old(synced), key, seen)
    {
      hide Inv, Legal, HandedOver, At, Put, SplitKey;
      match SplitKey(key) {
        case None =>
          failed := false;
          acts, t := NoObjectStep(s, w, RejectKey(w));
        case Some((namespace, name)) =>
          var indexed := if |namespace| > 0 then namespace + "/" + name else name;
          if !outside.readable(indexed) {
            failed := true;
            acts, t := NoObjectStep(s, w, ReadError(w));
            return;
          }
          var obj := At(store, indexed);
          failed := !outside.reconciler(namespace, name, obj);
          if !failed {
            synced := Put(synced, key, obj);
          }
          acts, t := ReadSteps(s, w, failed);
      }
    }

    /** Takes keys until none is left: then the queue reports shutdown, or else `q.Get` waits. */
    method RunWorker(outside: Outside, ghost s: State, ghost w: nat)
      returns (waits: bool, ghost acts: seq<Action>, ghost t: State)
      requires Shows(s, w, Idle)
      modifies this`q, this`synced
      ensures waits <==> !old(q.shuttingDown)
      ensures Legal(s, acts) && After(s, acts) == t && Shows(t, w, if waits then Idle else Exited(true))
      ensures q.order == [] && OnlyMoves(s, t, w)
      ensures forall k | k in old(q.order) :: HandedOver(s, acts, k)
    {
      acts, t := [], s;
      while q.order != []
        invariant Shows(t, w, Idle) && q.shuttingDown == old(q.shuttingDown)
        invariant Legal(s, acts) && After(s, acts) == t && OnlyMoves(s, t, w)
        decreases |q.dirty|
      {
        ghost var more;
        more, t := ProcessNext(outside, t, w);
        LegalAppend(s, acts, more);
        acts := acts + more;
      }
      waits := !q.shuttingDown;
      if !waits {
        LegalOne(t, Leave(w));
        StepInv(t, Leave(w));
        LegalAppend(s, acts, [Leave(w)]);
        acts, t := acts + [Leave(w)], Apply(t, Leave(w));
      }
      forall k | k in old(q.order) ensures HandedOver(s, acts, k) {
        NotWaiting(s, t, w, k);
        WaitingIsHandedOver(s, acts, k);
      }
    }

    /** One turn of the loop: take a key, reconcile it, requeue or forget it, report it done. */
    method ProcessNext(outside: Outside, ghost s: State, ghost w: nat) returns (ghost acts: seq<Action>, ghost t: State)
      requires Shows(s, w, Idle) && q.order != []
      modifies this`q, this`synced
      ensures Legal(s, acts) && After(s, acts) == t && Shows(t, w, Idle)
      ensures q.shuttingDown == old(q.shuttingDown) && OnlyMoves(s, t, w)
      ensures |q.dirty| < |old(q.dirty)|
    {
      hide Inv, Legal, HandedOver, LookupKey, At, Put, SplitKey;
      var obj := q.order[0];
      acts, t := TakeStep(s, w);
      q := q.Get();
      ghost var more, u;
      var failed;
      failed, more, u := Reconcile(obj, outside, t, w);
      LegalAppend(s, acts, more);
      acts := acts + more;
      q := if failed then q.AddRateLimited(obj) else q.Forget(obj);
      q := q.Done(obj);
      more, t := SettleSteps(u, w, failed);
      LegalAppend(s, acts, more);
      acts := acts + more;
    }
  }
}
