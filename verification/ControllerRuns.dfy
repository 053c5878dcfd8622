/** Runs of the controller put together step by step: an object appears in an empty store, and a worker
    reconciles it. */
module ControllerRuns {
  import opened ControllerProtocol
  import opened Keys
  import opened Wrappers
  import opened WorkQueue

  const BLANK := State(map[], [], EMPTY, [NotStarted], map[], false, Syncing)

  lemma BlankInit()
    ensures Init(BLANK)
  {
  }

  /** An object appears in an empty store, and a first worker takes its key. */
  function Appears(k: Key, rest: seq<Action>): seq<Action> {
    [Write("", k, 1)] + ([Sync(true)] + ([Start(0)] + ([Deliver] + ([Take(0)] + rest))))
  }

  /** The state after that, with the worker and the queue further on. */
  function Holding(k: Key, worker: Worker, q: Queue, synced: map<Key, nat>): State {
    State(map[k := 1], [], q, [worker], synced, false, Running)
  }

  lemma AppearsRun(k: Key, rest: seq<Action>)
    requires Legal(Holding(k, Got(k), EMPTY.(processing := {k}), map[]), rest)
    ensures Legal(BLANK, Appears(k, rest))
    ensures After(BLANK, Appears(k, rest)) == After(Holding(k, Got(k), EMPTY.(processing := {k}), map[]), rest)
  {
    hide LookupKey;
    var s1 := Apply(BLANK, Write("", k, 1));
    var s2 := Apply(s1, Sync(true));
    var s3 := Apply(s2, Start(0));
    var later := [Deliver] + ([Take(0)] + rest);
    assert s3 == Holding(k, Idle, EMPTY, map[]).(pending := [Added(Object("", k, 1))]);
    TakenRun(k, rest);
    LegalStep(s2, Start(0), later);
    LegalStep(s1, Sync(true), [Start(0)] + later);
    LegalStep(BLANK, Write("", k, 1), [Sync(true)] + ([Start(0)] + later));
  }

  lemma TakenRun(k: Key, rest: seq<Action>)
    requires Legal(Holding(k, Got(k), EMPTY.(processing := {k}), map[]), rest)
    ensures
      var s := Holding(k, Idle, EMPTY, map[]).(pending := [Added(Object("", k, 1))]);
      var later := [Deliver] + ([Take(0)] + rest);
      && Legal(s, later)
      && After(s, later) == After(Holding(k, Got(k), EMPTY.(processing := {k}), map[]), rest)
  {
    hide LookupKey;
    var s := Holding(k, Idle, EMPTY, map[]).(pending := [Added(Object("", k, 1))]);
    var t := Apply(s, Deliver);
    assert t == Holding(k, Idle, EMPTY.(dirty := {k}, order := [k]), map[]);
    assert Apply(t, Take(0)) == Holding(k, Got(k), EMPTY.(processing := {k}), map[]);
    LegalStep(t, Take(0), rest);
    LegalStep(s, Deliver, [Take(0)] + rest);
  }

  /** The worker reconciles the key without an error. */
  function Reconciled(k: Key, rest: seq<Action>): seq<Action> {
    var done := [Forget(0)] + ([Finish(0)] + rest);
    if LookupKey(k) == None then [RejectKey(0)] + done else [ReadStore(0)] + ([Succeed(0)] + done)
  }

  function SyncedOnce(k: Key): map<Key, nat> {
    if LookupKey(k) == Some(k) then map[k := 1] else map[]
  }

  lemma ReconciledRun(k: Key, rest: seq<Action>)
    requires Legal(Holding(k, Idle, EMPTY, SyncedOnce(k)), rest)
    ensures
      var s := Holding(k, Got(k), EMPTY.(processing := {k}), map[]);
      && Legal(s, Reconciled(k, rest))
      && After(s, Reconciled(k, rest)) == After(Holding(k, Idle, EMPTY, SyncedOnce(k)), rest)
  {
    hide LookupKey, Legal, Enabled, Apply;
    var s := Holding(k, Got(k), EMPTY.(processing := {k}), map[]);
    var done := [Forget(0)] + ([Finish(0)] + rest);
    DoneRun(k, SyncedOnce(k), rest);
    ReconcileSteps(k);
    if LookupKey(k) == None {
      LegalStep(s, RejectKey(0), done);
    } else {
      LegalStep(Apply(s, ReadStore(0)), Succeed(0), done);
      LegalStep(s, ReadStore(0), [Succeed(0)] + done);
    }
  }

  lemma ReconcileSteps(k: Key)
    ensures
      var s := Holding(k, Got(k), EMPTY.(processing := {k}), map[]);
      var t := Holding(k, Succeeded(k), EMPTY.(processing := {k}), SyncedOnce(k));
      if LookupKey(k) == None then Enabled(s, RejectKey(0)) && Apply(s, RejectKey(0)) == t
      else
        && Enabled(s, ReadStore(0))
        && Enabled(Apply(s, ReadStore(0)), Succeed(0))
        && Apply(Apply(s, ReadStore(0)), Succeed(0)) == t
  {
    hide LookupKey, MetaKey, EventKey;
  }

  lemma DoneRun(k: Key, synced: map<Key, nat>, rest: seq<Action>)
    requires Legal(Holding(k, Idle, EMPTY, synced), rest)
    ensures
      var s := Holding(k, Succeeded(k), EMPTY.(processing := {k}), synced);
      var done := [Forget(0)] + ([Finish(0)] + rest);
      Legal(s, done) && After(s, done) == After(Holding(k, Idle, EMPTY, synced), rest)
  {
    hide Legal;
    var s := Holding(k, Succeeded(k), EMPTY.(processing := {k}), synced);
    var t := Apply(s, Forget(0));
    assert t == Holding(k, Forgotten(k), EMPTY.(processing := {k}), synced);
    assert Apply(t, Finish(0)) == Holding(k, Idle, EMPTY, synced);
    LegalStep(t, Finish(0), rest);
    LegalStep(s, Forget(0), [Finish(0)] + rest);
  }
}
