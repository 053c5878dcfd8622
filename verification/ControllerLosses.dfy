/** What the controller's promises depend on: exactly which keys, deletions and failures are lost. */
module ControllerLosses {
  import opened ControllerProtocol
  import opened ControllerFreshness
  import opened ControllerDrain
  import opened ControllerRuns
  import opened Keys
  import opened Wrappers
  import opened WorkQueue

  /** The promise holds of exactly the keys that a worker looks up under themselves: for any other
      key there is a run, without a missed deletion, that leaves it behind for good. */
  lemma UpToDateExactly(k: Key)
    ensures (forall s, acts | QuietRun(s, acts) && NeverMissed(acts, k) :: UpToDate(After(s, acts), k))
       <==> LookupKey(k) == Some(k)
  {
    hide Legal, Init, LookupKey, UpToDate, Quiet, NeverMissed;
    if LookupKey(k) == Some(k) {
      forall s, acts | QuietRun(s, acts) && NeverMissed(acts, k) ensures UpToDate(After(s, acts), k) {
        QuietIsUpToDate(s, acts, k);
      }
    } else {
      var acts := LeftBehind(k);
    }
  }

  lemma LeftBehind(k: Key) returns (acts: seq<Action>)
    requires LookupKey(k) != Some(k)
    ensures QuietRun(BLANK, acts) && NeverMissed(acts, k) && !UpToDate(After(BLANK, acts), k)
  {
    hide LookupKey, Enabled, Apply, Init, Legal, Appears, Reconciled, NeverMissed;
    BlankInit();
    LegalNow(Holding(k, Idle, EMPTY, SyncedOnce(k)));
    ReconciledRun(k, []);
    AppearsRun(k, Reconciled(k, []));
    acts := Appears(k, Reconciled(k, []));
    NothingRemoved(k);
  }

  lemma NothingRemoved(k: Key)
    ensures NeverMissed(Appears(k, Reconciled(k, [])), k)
  {
    hide LookupKey, NeverMissed;
    NeverMissedStep(Finish(0), [], k);
    var done := [Forget(0)] + ([Finish(0)] + []);
    NeverMissedStep(Forget(0), [Finish(0)] + [], k);
    NeverMissedStep(RejectKey(0), done, k);
    NeverMissedStep(Succeed(0), done, k);
    NeverMissedStep(ReadStore(0), [Succeed(0)] + done, k);
    var r := Reconciled(k, []);
    NeverMissedStep(Take(0), r, k);
    NeverMissedStep(Deliver, [Take(0)] + r, k);
    NeverMissedStep(Start(0), [Deliver] + ([Take(0)] + r), k);
    NeverMissedStep(Sync(true), [Start(0)] + ([Deliver] + ([Take(0)] + r)), k);
    NeverMissedStep(Write("", k, 1), [Sync(true)] + ([Start(0)] + ([Deliver] + ([Take(0)] + r))), k);
  }

  lemma NeverMissedStep(a: Action, rest: seq<Action>, k: Key)
    requires !IsMissed(a, k)
    ensures NeverMissed([], k)
    ensures NeverMissed(rest, k) ==> NeverMissed([a] + rest, k)
  {
    assert ([a] + rest)[1..] == rest;
  }

  // ---------------------------------------------------------------------------------------
  // Missed deletions
  // ---------------------------------------------------------------------------------------

  /** A worker reads the store for the key. */
  predicate IsReread(s: State, a: Action, k: Key)
    requires Enabled(s, a)
  {
    a.ReadStore? && s.workers[a.w].key == k
  }

  ghost predicate Rereads(s: State, acts: seq<Action>, k: Key)
    requires Legal(s, acts)
    decreases |acts|
  {
    acts != [] && (IsReread(s, acts[0], k) || Rereads(Apply(s, acts[0]), acts[1..], k))
  }

  /** What makes a key outstanding that was not: its object changes, or its reconciliation fails. */
  predicate Prompts(s: State, a: Action, k: Key)
    requires Enabled(s, a)
  {
    match a
    case Write(namespace, name, version) => MetaKey(namespace, name) == k && At(s.store, k) != Some(version)
    case Remove(namespace, name, missed) => MetaKey(namespace, name) == k && !missed
    case Fail(w) => s.workers[w].key == k
    case _ => false
  }

  ghost predicate Prompted(s: State, acts: seq<Action>, k: Key)
    requires Legal(s, acts)
    decreases |acts|
  {
    acts != [] && (Prompts(s, acts[0], k) || Prompted(Apply(s, acts[0]), acts[1..], k))
  }

  lemma InformerOutstanding(s: State, a: Action, k: Key)
    requires a.ByInformer() && Enabled(s, a) && !s.q.shuttingDown
    ensures Outstanding(Apply(s, a), k) <==> Outstanding(s, k) || Prompts(s, a, k)
  {
    hide Outstanding;
    match a
    case Write(namespace, name, version) =>
      var obj, j := Object(namespace, name, version), MetaKey(namespace, name);
      AnnounceOutstanding(s, if j in s.store then Updated(obj.(version := s.store[j]), obj) else Added(obj),
                          s.store[j := version], k);
    case Remove(namespace, name, missed) =>
      var j := MetaKey(namespace, name);
      AnnounceOutstanding(s, Deleted(if missed then Tombstone else Object(namespace, name, s.store[j])), s.store - {j}, k);
    case Deliver => DeliverOutstanding(s, k);
    case Expire(j) => ExpireOutstanding(s, j, k);
  }

  lemma AnnounceOutstanding(s: State, event: Event, store: map<Key, nat>, k: Key)
    ensures Outstanding(Announce(s, event).(store := store), k) <==> Outstanding(s, k) || EventKey(event) == Some(k)
  {
    EventAppended(s.pending, event, k);
  }

  lemma DeliverOutstanding(s: State, k: Key)
    requires s.pending != [] && !s.q.shuttingDown
    ensures Outstanding(Apply(s, Deliver), k) <==> Outstanding(s, k)
  {
    hide EventKey;
    assert s.pending == [s.pending[0]] + s.pending[1..];
    if HasEvent(s.pending, k) && EventKey(s.pending[0]) != Some(k) {
      EventHandled(s.pending, k);
    }
    if HasEvent(s.pending[1..], k) {
      var i :| 0 <= i < |s.pending| - 1 && EventKey(s.pending[1..][i]) == Some(k);
      assert s.pending[i + 1] == s.pending[1..][i];
    }
  }

  lemma ExpireOutstanding(s: State, j: Key, k: Key)
    requires j in s.q.delayed && !s.q.shuttingDown
    ensures Outstanding(Apply(s, Expire(j)), k) <==> Outstanding(s, k)
  {
    hide HasEvent;
  }

  lemma WorkerOutstanding(s: State, a: Action, k: Key)
    requires Inv(s) && a.ByWorker() && Enabled(s, a) && !s.q.shuttingDown && LookupKey(k) == Some(k)
    requires !IsReread(s, a, k)
    ensures Outstanding(Apply(s, a), k) <==> Outstanding(s, k) || Prompts(s, a, k)
  {
    hide HasEvent, LookupKey, OneHolder, Attended, InStage, At, Put;
    var t := Apply(s, a);
    OthersStay(s.workers, a.w, t.workers[a.w]);
    assert a.Take? ==> s.q.order[0] in s.q.dirty;
    forall x | x in t.workers && x != t.workers[a.w] ensures x in s.workers {
      var v :| 0 <= v < |t.workers| && t.workers[v] == x;
      assert s.workers[v] == x;
    }
  }

  /** Apart from being read, a key is outstanding after a step exactly if it was, or is prompted. */
  lemma StepOutstanding(s: State, a: Action, k: Key)
    requires Inv(s) && Enabled(s, a) && !Apply(s, a).q.shuttingDown && LookupKey(k) == Some(k)
    requires !IsReread(s, a, k)
    ensures Outstanding(Apply(s, a), k) <==> Outstanding(s, k) || Prompts(s, a, k)
  {
    hide Inv, LookupKey, IsReread, Outstanding, Informer, QueueAfter, Moved, At;
    assert !s.q.shuttingDown by {
      if s.q.shuttingDown {
        StaysDown(s, a);
      }
    }
    if a.ByInformer() {
      InformerOutstanding(s, a, k);
    } else if a.ByWorker() {
      WorkerOutstanding(s, a, k);
    } else {
      RunOutstanding(s, a, k);
    }
  }

  lemma RunOutstanding(s: State, a: Action, k: Key)
    requires a.ByRun() && Enabled(s, a)
    ensures Outstanding(Apply(s, a), k) <==> Outstanding(s, k)
  {
    hide HasEvent;
  }

  lemma NotYetDown(s: State, acts: seq<Action>)
    requires Legal(s, acts) && !After(s, acts).q.shuttingDown
    ensures !s.q.shuttingDown
  {
    if s.q.shuttingDown {
      ShutDownStays(s, acts);
    }
  }

  /** Up to a point where it is not outstanding, a key is read exactly if it was outstanding before or
      has been prompted. */
  lemma {:induction false} RereadsExactly(s: State, acts: seq<Action>, k: Key)
    requires Inv(s) && Legal(s, acts) && LookupKey(k) == Some(k)
    requires !After(s, acts).q.shuttingDown && !Outstanding(After(s, acts), k)
    ensures Rereads(s, acts, k) <==> Outstanding(s, k) || Prompted(s, acts, k)
    decreases |acts|
  {
    hide Inv, LookupKey, Outstanding, Enabled, Apply, IsReread, Prompts;
    if acts != [] {
      var t := Apply(s, acts[0]);
      StepInv(s, acts[0]);
      NotYetDown(t, acts[1..]);
      if IsReread(s, acts[0], k) {
        ReadWasOutstanding(s, acts[0], k);
      } else {
        StepOutstanding(s, acts[0], k);
        RereadsExactly(t, acts[1..], k);
      }
    }
  }

  lemma ReadWasOutstanding(s: State, a: Action, k: Key)
    requires Enabled(s, a) && IsReread(s, a, k)
    ensures Outstanding(s, k)
  {
    assert s.workers[a.w] == Got(k);
  }

  /** A key that has just been read is covered, whatever was lost before. */
  lemma RereadCovers(s: State, a: Action, k: Key)
    requires Inv(s) && Enabled(s, a) && IsReread(s, a, k) && LookupKey(k) == Some(k)
    ensures Covered(Apply(s, a), k)
  {
    hide LookupKey, HasEvent, Attended, InStage, At;
    var t := Apply(s, a);
    assert t.workers[a.w] == Read(k, At(t.store, k));
    forall v | 0 <= v < |t.workers| ensures !ReadsStale(t.workers[v], k, At(t.store, k)) {
      assert v != a.w ==> t.workers[v] == s.workers[v];
    }
  }

  lemma {:induction false} RereadRunCovers(s: State, acts: seq<Action>, k: Key)
    requires Inv(s) && Legal(s, acts) && LookupKey(k) == Some(k) && NeverMissed(acts, k)
    requires Rereads(s, acts, k) && !After(s, acts).q.shuttingDown
    ensures Covered(After(s, acts), k)
    decreases |acts|
  {
    hide Inv, LookupKey, Covered, Enabled, Apply, IsReread, IsMissed;
    var t := Apply(s, acts[0]);
    StepInv(s, acts[0]);
    if IsReread(s, acts[0], k) {
      RereadCovers(s, acts[0], k);
      RunCovered(t, acts[1..], k);
    } else {
      RereadRunCovers(t, acts[1..], k);
    }
  }

  /** The key is recorded as present, or a worker is about to record it. */
  ghost predicate Recorded(s: State, k: Key) {
    k in s.synced || AnyStale(s.workers, k, None)
  }

  /** The object is gone, and nobody is going to look. */
  ghost predicate Settled(s: State, k: Key) {
    k !in s.store && !Outstanding(s, k) && Read(k, None) !in s.workers
  }

  lemma WorkerRecorded(s: State, a: Action, k: Key)
    requires a.ByWorker() && Enabled(s, a) && !IsReread(s, a, k) && !Prompts(s, a, k)
    requires Read(k, None) !in s.workers
    ensures Read(k, None) !in Apply(s, a).workers
    ensures Recorded(Apply(s, a), k) <==> Recorded(s, k)
  {
    hide LookupKey, At;
    var t := Apply(s, a);
    forall v | 0 <= v < |t.workers| ensures t.workers[v] != Read(k, None) {
      assert v != a.w ==> t.workers[v] == s.workers[v];
    }
    if AnyStale(s.workers, k, None) {
      var v :| 0 <= v < |s.workers| && ReadsStale(s.workers[v], k, None);
      assert v != a.w ==> ReadsStale(t.workers[v], k, None);
    }
    if AnyStale(t.workers, k, None) {
      var v :| 0 <= v < |t.workers| && ReadsStale(t.workers[v], k, None);
      assert ReadsStale(s.workers[v], k, None);
    }
    assert a.Succeed? ==> s.workers[a.w] in s.workers;
  }

  lemma StoreStays(s: State, a: Action, k: Key)
    requires Enabled(s, a) && !Prompts(s, a, k) && k !in s.store
    ensures k !in Apply(s, a).store
    ensures !a.ByWorker() ==> Apply(s, a).synced == s.synced && Apply(s, a).workers == s.workers
  {
    hide LookupKey, MetaKey, EventKey;
  }

  lemma StepSettled(s: State, a: Action, k: Key)
    requires Inv(s) && Enabled(s, a) && !Apply(s, a).q.shuttingDown && LookupKey(k) == Some(k)
    requires Settled(s, k) && !IsReread(s, a, k) && !Prompts(s, a, k)
    ensures Settled(Apply(s, a), k) && (Recorded(Apply(s, a), k) <==> Recorded(s, k))
  {
    hide Inv, LookupKey, Outstanding, Enabled, Apply, IsReread, Prompts, AnyStale;
    StepOutstanding(s, a, k);
    StoreStays(s, a, k);
    if a.ByWorker() {
      WorkerRecorded(s, a, k);
    }
  }

  lemma {:induction false} RunSettled(s: State, acts: seq<Action>, k: Key)
    requires Inv(s) && Legal(s, acts) && !After(s, acts).q.shuttingDown && LookupKey(k) == Some(k)
    requires Settled(s, k) && !Rereads(s, acts, k) && !Prompted(s, acts, k)
    ensures Settled(After(s, acts), k) && (Recorded(After(s, acts), k) <==> Recorded(s, k))
    decreases |acts|
  {
    hide Inv, LookupKey, Settled, Recorded, Enabled, Apply, IsReread, Prompts;
    if acts != [] {
      var t := Apply(s, acts[0]);
      StepInv(s, acts[0]);
      NotYetDown(t, acts[1..]);
      StepSettled(s, acts[0], k);
      RunSettled(t, acts[1..], k);
    }
  }

  lemma QuietParts(s: State, k: Key)
    requires Quiet(s)
    ensures !Outstanding(s, k) && (Covered(s, k) ==> UpToDate(s, k))
    ensures k !in s.store ==> (UpToDate(s, k) <==> !Recorded(s, k))
  {
    assert !HasEvent([], k);
  }

  lemma AfterRemoval(s: State, namespace: string, name: string)
    requires Inv(s) && MetaKey(namespace, name) in s.store && Covered(s, MetaKey(namespace, name))
    ensures
      var k, t := MetaKey(namespace, name), Apply(s, Remove(namespace, name, true));
      && (Outstanding(t, k) <==> Outstanding(s, k))
      && (!Outstanding(s, k) ==> Settled(t, k))
      && (Recorded(t, k) <==> Recorded(s, k))
  {
    hide Inv, MetaKey, LookupKey;
    var k := MetaKey(namespace, name);
    AnnounceOutstanding(s, Deleted(Tombstone), s.store - {k}, k);
    if Read(k, None) in s.workers {
      var w :| 0 <= w < |s.workers| && s.workers[w] == Read(k, None);
      assert ReadsStale(s.workers[w], k, At(s.store, k));
    }
  }

  /** An object is deleted and the informer misses it. Whenever everything is quiet again, the key is
      up to date if and only if it has been read since, or was neither recorded as present nor about
      to be; and it has been read exactly if it was outstanding when the object went, or its object
      has changed or its reconciliation failed since. */
  lemma MissedDeletion(s: State, namespace: string, name: string, later: seq<Action>)
    requires Inv(s) && MetaKey(namespace, name) in s.store && Covered(s, MetaKey(namespace, name))
    requires LookupKey(MetaKey(namespace, name)) == Some(MetaKey(namespace, name))
    requires NeverMissed(later, MetaKey(namespace, name))
    requires
      var t := Apply(s, Remove(namespace, name, true));
      Legal(t, later) && Quiet(After(t, later)) && !After(t, later).q.shuttingDown
    ensures
      var k, t := MetaKey(namespace, name), Apply(s, Remove(namespace, name, true));
      && (UpToDate(After(t, later), k) <==> Rereads(t, later, k) || !Recorded(s, k))
      && (Rereads(t, later, k) <==> Outstanding(s, k) || Prompted(t, later, k))
  {
    hide Inv, MetaKey, LookupKey, Covered, Outstanding, Recorded, Settled, UpToDate;
    hide Legal, Apply, Rereads, Prompted, NeverMissed, Quiet;
    var k, t := MetaKey(namespace, name), Apply(s, Remove(namespace, name, true));
    StepInv(s, Remove(namespace, name, true));
    AfterRemoval(s, namespace, name);
    QuietParts(After(t, later), k);
    RereadsExactly(t, later, k);
    if Rereads(t, later, k) {
      RereadRunCovers(t, later, k);
    } else {
      RunSettled(t, later, k);
      SettledIsGone(After(t, later), k);
    }
  }

  lemma SettledIsGone(s: State, k: Key)
    requires Settled(s, k)
    ensures k !in s.store
  {
  }

  /** For every key that a worker looks up under itself there is a run that loses it to a missed
      deletion. */
  lemma MissedDeletionLoses(k: Key) returns (acts: seq<Action>)
    requires LookupKey(k) == Some(k)
    ensures QuietRun(BLANK, acts) && !UpToDate(After(BLANK, acts), k)
  {
    hide LookupKey;
    BlankInit();
    var s, gone := Holding(k, Idle, EMPTY, SyncedOnce(k)), [Remove("", k, true)] + ([Deliver] + []);
    var s1 := Apply(s, Remove("", k, true));
    assert s1.pending == [Deleted(Tombstone)];
    assert Apply(s1, Deliver) == s.(store := map[]);
    LegalStep(s1, Deliver, []);
    LegalStep(s, Remove("", k, true), [Deliver] + []);
    ReconciledRun(k, gone);
    AppearsRun(k, Reconciled(k, gone));
    acts := Appears(k, Reconciled(k, gone));
  }

  // ---------------------------------------------------------------------------------------
  // Losses on shutdown
  // ---------------------------------------------------------------------------------------

  /** The object's first reconciliation fails and the context is cancelled. */
  function FailsLate(): seq<Action> {
    [ReadStore(0)] + ([Fail(0)] + ([Cancel] + ([ShutDown] + [])))
  }

  function WindsUp(): seq<Action> {
    [Finish(0)] + ([Leave(0)] + ([Drained] + ([Return] + [])))
  }

  lemma FailsLateRun(k: Key)
    requires LookupKey(k) != None
    ensures
      var s := Holding(k, Got(k), EMPTY.(processing := {k}), map[]);
      && Legal(s, FailsLate())
      && After(s, FailsLate()) == FailedLate(k)
  {
    hide LookupKey, Legal;
    var s := Holding(k, Got(k), EMPTY.(processing := {k}), map[]);
    var s1 := Apply(s, ReadStore(0));
    var s2 := Apply(s1, Fail(0));
    assert s2 == s.(workers := [Failed(k)]);
    var s3 := Apply(s2, Cancel);
    LegalNow(Apply(s3, ShutDown));
    LegalStep(s3, ShutDown, []);
    LegalStep(s2, Cancel, [ShutDown] + []);
    LegalStep(s1, Fail(0), [Cancel] + ([ShutDown] + []));
    LegalStep(s, ReadStore(0), [Fail(0)] + ([Cancel] + ([ShutDown] + [])));
  }

  lemma WindsUpRun(s: State, k: Key)
    requires s.workers == [Requeued(k)] && s.q.shuttingDown && s.main == Draining
    requires s.q.order == [] && s.q.dirty == {} && s.q.processing == {k}
    ensures Legal(s, WindsUp())
    ensures
      var t := After(s, WindsUp());
      t.main == Returned && t.store == s.store && t.synced == s.synced
  {
    hide Legal;
    var s1 := Apply(s, Finish(0));
    assert s1.q.processing == {} && s1.workers == [Idle];
    var s2 := Apply(s1, Leave(0));
    var s3 := Apply(s2, Drained);
    LegalNow(Apply(s3, Return));
    LegalStep(s3, Return, []);
    LegalStep(s2, Drained, [Return] + []);
    LegalStep(s1, Leave(0), [Drained] + ([Return] + []));
    LegalStep(s, Finish(0), [Leave(0)] + ([Drained] + ([Return] + [])));
  }

  function FailedLate(k: Key): State {
    Holding(k, Failed(k), EMPTY.(processing := {k}, shuttingDown := true), map[]).(cancelled := true, main := Draining)
  }

  lemma RetryDropped(k: Key)
    requires Inv(FailedLate(k))
    ensures Enabled(FailedLate(k), Requeue(0))
    ensures
      var t := Apply(FailedLate(k), Requeue(0));
      && Legal(t, WindsUp()) && After(t, WindsUp()).main == Returned
      && !HandedOver(t, WindsUp(), k) && !UpToDate(After(t, WindsUp()), k)
  {
    hide Legal, WindsUp, HandedOver, Inv;
    var t := Apply(FailedLate(k), Requeue(0));
    WindsUpRun(t, k);
    RetriedExactly(FailedLate(k), 0, WindsUp());
  }

  /** For any key whose reconciliation can fail there is a run in which it fails while the queue
      drains, and is never tried again. */
  lemma RetryLost(k: Key) returns (acts: seq<Action>, later: seq<Action>)
    requires LookupKey(k) != None
    ensures Init(BLANK) && Legal(BLANK, acts)
    ensures
      var s := After(BLANK, acts);
      && s.q.shuttingDown && s.workers == [Failed(k)] && Enabled(s, Requeue(0))
      && var t := Apply(s, Requeue(0));
      && Legal(t, later) && After(t, later).main == Returned
      && !HandedOver(t, later, k) && !UpToDate(After(t, later), k)
  {
    hide LookupKey, Legal, Appears, FailsLate, WindsUp, HandedOver, Inv, Enabled, Apply, UpToDate, Init;
    acts, later := Appears(k, FailsLate()), WindsUp();
    BlankInit();
    InitInv(BLANK);
    FailsLateRun(k);
    AppearsRun(k, FailsLate());
    RunInv(BLANK, acts);
    RetryDropped(k);
  }

  /** An event is handled, but the context is cancelled before the worker enters its loop. */
  function Unattended(k: Key): seq<Action> {
    [Write("", k, 1)] + ([Sync(true)] + ([Deliver] + Abandoned()))
  }

  function Abandoned(): seq<Action> {
    [Cancel] + ([Skip(0)] + ([ShutDown] + ([Drained] + ([Return] + []))))
  }

  lemma AbandonedRun(s: State)
    requires s.workers == [NotStarted] && s.main == Running && s.q.processing == {}
    ensures Legal(s, Abandoned())
    ensures
      After(s, Abandoned())
        == s.(workers := [Exited(false)], cancelled := true, main := Returned, q := s.q.(shuttingDown := true))
  {
    hide Legal;
    var s1 := Apply(s, Cancel);
    var s2 := Apply(s1, Skip(0));
    assert s2.workers == [Exited(false)];
    var s3 := Apply(s2, ShutDown);
    var s4 := Apply(s3, Drained);
    LegalNow(Apply(s4, Return));
    LegalStep(s4, Return, []);
    LegalStep(s3, Drained, [Return] + []);
    LegalStep(s2, ShutDown, [Drained] + ([Return] + []));
    LegalStep(s1, Skip(0), [ShutDown] + ([Drained] + ([Return] + [])));
    LegalStep(s, Cancel, [Skip(0)] + ([ShutDown] + ([Drained] + ([Return] + []))));
  }

  lemma AcceptedRun(k: Key, rest: seq<Action>)
    requires Legal(State(map[k := 1], [], EMPTY.(dirty := {k}, order := [k]), [NotStarted], map[], false, Running), rest)
    ensures
      var s := State(map[k := 1], [], EMPTY.(dirty := {k}, order := [k]), [NotStarted], map[], false, Running);
      var acts := [Write("", k, 1)] + ([Sync(true)] + ([Deliver] + rest));
      Legal(BLANK, acts) && After(BLANK, acts) == After(s, rest)
  {
    hide LookupKey, Legal, After;
    var s1 := Apply(BLANK, Write("", k, 1));
    var s2 := Apply(s1, Sync(true));
    assert s2.pending == [Added(Object("", k, 1))];
    var s3 := Apply(s2, Deliver);
    assert s3 == State(map[k := 1], [], EMPTY.(dirty := {k}, order := [k]), [NotStarted], map[], false, Running);
    LegalStep(s2, Deliver, rest);
    LegalStep(s1, Sync(true), [Deliver] + rest);
    LegalStep(BLANK, Write("", k, 1), [Sync(true)] + ([Deliver] + rest));
  }

  /** For any key there is a run in which it is accepted and still waits when `Run` has returned. */
  lemma UnattendedIsLeft(k: Key)
    ensures Init(BLANK) && Legal(BLANK, Unattended(k))
    ensures
      var t := After(BLANK, Unattended(k));
      t.main == Returned && !Entered(t) && t.q.order == [k] && !UpToDate(t, k)
  {
    hide LookupKey, Legal, Abandoned, Enabled, Apply;
    BlankInit();
    AbandonedRun(State(map[k := 1], [], EMPTY.(dirty := {k}, order := [k]), [NotStarted], map[], false, Running));
    AcceptedRun(k, Abandoned());
  }
}
