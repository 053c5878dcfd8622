/** Resolvers and purges that run at the same time: a lookup under the read lock, and, after a miss, a
    fetch and a write under the write lock. */
module SchemaCacheProtocol {
  import opened SchemaCache
  import opened Wrappers

  /** A cached answer and the time at which discovery gave it. */
  datatype Entry = Entry(answer: Answer, fetched: nat)

  /** Where a goroutine stands: `since` is when its call of `ResolveSchema` began. */
  datatype Thread =
    | Idle
    | Called(gvk: GroupVersionKind, since: nat)
    | Missed(gvk: GroupVersionKind, since: nat)
    | Locked(gvk: GroupVersionKind, since: nat)
    | Fetched(gvk: GroupVersionKind, since: nat, entry: Entry)
    | Resolved(gvk: GroupVersionKind, since: nat, entry: Entry)
    | Waiting(gk: GroupKind)
    | Purging(gk: GroupKind)
  {
    predicate HoldsLock() {
      Locked? || Fetched? || Purging?
    }
  }

  /** `history[i]` is what discovery said at time `i`; time passes with each step. */
  datatype State = State(
    history: seq<Discovery>,
    cache: map<GroupVersionKind, Entry>,
    threads: seq<Thread>)
  {
    function Now(): nat
      requires history != []
    {
      |history| - 1
    }

    function Discovery(): Discovery
      requires history != []
    {
      history[Now()]
    }

    ghost predicate Unlocked() {
      forall t | 0 <= t < |threads| :: !threads[t].HoldsLock()
    }
  }

  datatype Action =
    | Change(gvk: GroupVersionKind, answer: Answer)
    | Call(t: nat, gvk: GroupVersionKind)
    | Check(t: nat)
    | Lock(t: nat)
    | Fetch(t: nat)
    | Fill(t: nat)
    | Leave(t: nat)
    | CallPurge(t: nat, gk: GroupKind)
    | LockPurge(t: nat)
    | RunPurge(t: nat)

  ghost predicate Enabled(s: State, a: Action) {
    && s.history != []
    && match a
       case Change(_, _) => true
       case Call(t, _) => t < |s.threads| && s.threads[t] == Idle
       case Check(t) => t < |s.threads| && s.threads[t].Called? && s.Unlocked()
       case Lock(t) => t < |s.threads| && s.threads[t].Missed? && s.Unlocked()
       case Fetch(t) => t < |s.threads| && s.threads[t].Locked?
       case Fill(t) => t < |s.threads| && s.threads[t].Fetched?
       case Leave(t) => t < |s.threads| && s.threads[t].Resolved?
       case CallPurge(t, _) => t < |s.threads| && s.threads[t] == Idle
       case LockPurge(t) => t < |s.threads| && s.threads[t].Waiting? && s.Unlocked()
       case RunPurge(t) => t < |s.threads| && s.threads[t].Purging?
  }

  function Moved(s: State, a: Action, thread: Thread): Thread
    requires s.history != []
  {
    match (a, thread)
    case (Call(_, gvk), _) => Called(gvk, s.Now())
    case (Check(_), Called(gvk, since)) =>
      if gvk in s.cache then Resolved(gvk, since, s.cache[gvk]) else Missed(gvk, since)
    case (Lock(_), Missed(gvk, since)) => Locked(gvk, since)
    case (Fetch(_), Locked(gvk, since)) => Fetched(gvk, since, Entry(Ask(s.Discovery(), gvk), s.Now()))
    case (Fill(_), Fetched(gvk, since, entry)) => Resolved(gvk, since, entry)
    case (CallPurge(_, gk), _) => Waiting(gk)
    case (LockPurge(_), Waiting(gk)) => Purging(gk)
    case _ => Idle
  }

  function CacheAfter(s: State, a: Action, thread: Thread): map<GroupVersionKind, Entry> {
    match (a, thread)
    case (Fill(_), Fetched(gvk, _, entry)) => s.cache[gvk := entry]
    case (RunPurge(_), Purging(gk)) => Purged(s.cache, gk)
    case _ => s.cache
  }

  ghost function Apply(s: State, a: Action): State
    requires Enabled(s, a)
  {
    if a.Change? then s.(history := s.history + [s.Discovery()[a.gvk := a.answer]])
    else
      var thread := s.threads[a.t];
      State(s.history + [s.Discovery()], CacheAfter(s, a, thread), s.threads[a.t := Moved(s, a, thread)])
  }

  ghost predicate Legal(s: State, acts: seq<Action>)
    decreases |acts|
  {
    acts == [] || (Enabled(s, acts[0]) && Legal(Apply(s, acts[0]), acts[1..]))
  }

  ghost function After(s: State, acts: seq<Action>): State
    requires Legal(s, acts)
    decreases |acts|
  {
    if acts == [] then s else After(Apply(s, acts[0]), acts[1..])
  }

  ghost predicate Init(s: State) {
    |s.history| == 1 && s.cache == map[] && forall t | 0 <= t < |s.threads| :: s.threads[t] == Idle
  }

  // ---------------------------------------------------------------------------------------
  // What every step keeps
  // ---------------------------------------------------------------------------------------

  /** The answer is what discovery said about the kind at the time noted. */
  predicate Genuine(history: seq<Discovery>, gvk: GroupVersionKind, entry: Entry) {
    entry.fetched < |history| && entry.answer == Ask(history[entry.fetched], gvk)
  }

  predicate GenuineThread(history: seq<Discovery>, thread: Thread) {
    && (thread.Fetched? || thread.Resolved? ==> Genuine(history, thread.gvk, thread.entry))
    && (thread.Called? || thread.Missed? || thread.Locked? || thread.Fetched? || thread.Resolved? ==>
          thread.since < |history|)
  }

  ghost predicate OneHolder(threads: seq<Thread>) {
    forall t, u | 0 <= t < u < |threads| :: !(threads[t].HoldsLock() && threads[u].HoldsLock())
  }

  ghost predicate Inv(s: State) {
    && s.history != []
    && OneHolder(s.threads)
    && (forall gvk | gvk in s.cache :: Genuine(s.history, gvk, s.cache[gvk]))
    && (forall t | 0 <= t < |s.threads| :: GenuineThread(s.history, s.threads[t]))
  }

  lemma LongerHistory(history: seq<Discovery>, next: Discovery, gvk: GroupVersionKind, entry: Entry)
    requires Genuine(history, gvk, entry)
    ensures Genuine(history + [next], gvk, entry)
  {
    assert (history + [next])[entry.fetched] == history[entry.fetched];
  }

  lemma StepInv(s: State, a: Action)
    requires Inv(s) && Enabled(s, a)
    ensures Inv(Apply(s, a))
  {
    hide Ask, Purged;
    var s' := Apply(s, a);
    StepGenuine(s, a);
    StepOneHolder(s, a);
  }

  lemma StepOneHolder(s: State, a: Action)
    requires Inv(s) && Enabled(s, a)
    ensures OneHolder(Apply(s, a).threads)
  {
    hide Ask, Purged, Genuine, GenuineThread;
  }

  lemma StepGenuine(s: State, a: Action)
    requires Inv(s) && Enabled(s, a)
    ensures
      var s' := Apply(s, a);
      && (forall gvk | gvk in s'.cache :: Genuine(s'.history, gvk, s'.cache[gvk]))
      && (forall t | 0 <= t < |s'.threads| :: GenuineThread(s'.history, s'.threads[t]))
  {
    hide Ask, OneHolder;
    var s' := Apply(s, a);
    var next := s'.history[|s.history|];
    assert s'.history == s.history + [next];
    forall gvk, entry | Genuine(s.history, gvk, entry) ensures Genuine(s'.history, gvk, entry) {
      LongerHistory(s.history, next, gvk, entry);
    }
    if a.Fetch? {
      assert s'.history[s.Now()] == s.Discovery();
    }
    if !a.Change? {
      assert GenuineThread(s.history, s.threads[a.t]);
    }
  }

  lemma {:induction false} RunInv(s: State, acts: seq<Action>)
    requires Inv(s) && Legal(s, acts)
    ensures Inv(After(s, acts))
    decreases |acts|
  {
    hide Inv, Enabled, Apply;
    if acts != [] {
      StepInv(s, acts[0]);
      RunInv(Apply(s, acts[0]), acts[1..]);
    }
  }

  // ---------------------------------------------------------------------------------------
  // Freshness after a purge
  // ---------------------------------------------------------------------------------------

  predicate FreshThread(thread: Thread, gk: GroupKind, purge: nat) {
    match thread
    case Fetched(gvk, _, entry) => Matches(gvk, gk) ==> entry.fetched >= purge
    case Resolved(gvk, since, entry) => Matches(gvk, gk) && since >= purge ==> entry.fetched >= purge
    case _ => true
  }

  /** Since a purge that was over at time `purge`, nothing that was fetched before it is left in the
      cache, on its way there, or returned to a call that began since. */
  ghost predicate Fresh(s: State, gk: GroupKind, purge: nat) {
    && purge < |s.history|
    && (forall gvk | gvk in s.cache && Matches(gvk, gk) :: s.cache[gvk].fetched >= purge)
    && (forall t | 0 <= t < |s.threads| :: FreshThread(s.threads[t], gk, purge))
  }

  lemma PurgeFreshens(s: State, t: nat)
    requires Inv(s) && Enabled(s, RunPurge(t))
    ensures Fresh(Apply(s, RunPurge(t)), s.threads[t].gk, |s.history|)
  {
    hide Ask, Genuine;
    var gk, s' := s.threads[t].gk, Apply(s, RunPurge(t));
    forall u | 0 <= u < |s'.threads| ensures FreshThread(s'.threads[u], gk, |s.history|) {
      assert GenuineThread(s.history, s.threads[u]);
      assert u < t ==> !(s.threads[u].HoldsLock() && s.threads[t].HoldsLock());
      assert t < u ==> !(s.threads[t].HoldsLock() && s.threads[u].HoldsLock());
    }
  }

  lemma StepFresh(s: State, a: Action, gk: GroupKind, purge: nat)
    requires Enabled(s, a) && Fresh(s, gk, purge)
    ensures Fresh(Apply(s, a), gk, purge)
  {
    hide Ask, Matches;
    if !a.Change? {
      assert FreshThread(s.threads[a.t], gk, purge);
    }
  }

  lemma {:induction false} RunFresh(s: State, acts: seq<Action>, gk: GroupKind, purge: nat)
    requires Legal(s, acts) && Fresh(s, gk, purge)
    ensures Fresh(After(s, acts), gk, purge)
    decreases |acts|
  {
    hide Enabled, Apply, Fresh;
    if acts != [] {
      StepFresh(s, acts[0], gk, purge);
      RunFresh(Apply(s, acts[0]), acts[1..], gk, purge);
    }
  }

  lemma {:induction false} TimePasses(s: State, acts: seq<Action>)
    requires s.history != [] && Legal(s, acts)
    ensures |After(s, acts).history| == |s.history| + |acts|
    decreases |acts|
  {
    hide Enabled, Ask, Purged, Moved;
    if acts != [] {
      TimePasses(Apply(s, acts[0]), acts[1..]);
    }
  }

  /** In every interleaving: whatever a call that began after a purge returns, and whatever the
      cache holds then, was fetched from discovery after that purge of its group and kind. */
  lemma FreshAfterPurge(s: State, before: seq<Action>, p: nat, later: seq<Action>)
    requires Init(s) && Legal(s, before) && Enabled(After(s, before), RunPurge(p))
    requires Legal(Apply(After(s, before), RunPurge(p)), later)
    ensures
      var gk, purge := After(s, before).threads[p].gk, |before| + 1;
      var end := After(Apply(After(s, before), RunPurge(p)), later);
      && (forall gvk | gvk in end.cache && Matches(gvk, gk) :: end.cache[gvk].fetched >= purge)
      && (forall t | 0 <= t < |end.threads| && end.threads[t].Resolved? ::
            && Genuine(end.history, end.threads[t].gvk, end.threads[t].entry)
            && (Matches(end.threads[t].gvk, gk) && end.threads[t].since >= purge ==>
                  end.threads[t].entry.fetched >= purge))
  {
    hide Legal, Apply, Genuine, Matches;
    var purged := After(s, before);
    TimePasses(s, before);
    RunInv(s, before);
    PurgeFreshens(purged, p);
    StepInv(purged, RunPurge(p));
    var start := Apply(purged, RunPurge(p));
    RunInv(start, later);
    RunFresh(start, later, purged.threads[p].gk, |before| + 1);
    var end := After(start, later);
    assert forall t | 0 <= t < |end.threads| :: GenuineThread(end.history, end.threads[t]);
    assert forall t | 0 <= t < |end.threads| :: FreshThread(end.threads[t], purged.threads[p].gk, |before| + 1);
  }

  /** If what discovery says about a kind has not changed since a purge of its group and kind, a
      call that began after the purge returns what discovery says now. */
  lemma CurrentAfterPurge(s: State, before: seq<Action>, p: nat, later: seq<Action>, t: nat)
    requires Init(s) && Legal(s, before) && Enabled(After(s, before), RunPurge(p))
    requires Legal(Apply(After(s, before), RunPurge(p)), later)
    requires
      var end := After(Apply(After(s, before), RunPurge(p)), later);
      && t < |end.threads| && end.threads[t].Resolved? && end.threads[t].since >= |before| + 1
      && Matches(end.threads[t].gvk, After(s, before).threads[p].gk)
      && end.history != []
      && forall i | |before| + 1 <= i < |end.history| ::
           Ask(end.history[i], end.threads[t].gvk) == Ask(end.Discovery(), end.threads[t].gvk)
    ensures
      var end := After(Apply(After(s, before), RunPurge(p)), later);
      end.threads[t].entry.answer == Ask(end.Discovery(), end.threads[t].gvk)
  {
    hide Legal, Apply, Init, Matches, Ask;
    FreshAfterPurge(s, before, p, later);
  }

  // ---------------------------------------------------------------------------------------
  // Who moves, and when
  // ---------------------------------------------------------------------------------------

  /** A call begins at the time of its first step, and keeps that time while it waits for the write lock. */
  lemma CallsExactly(s: State, t: nat, gvk: GroupVersionKind, gk: GroupKind)
    ensures Enabled(s, Call(t, gvk)) ==> Apply(s, Call(t, gvk)).threads == s.threads[t := Called(gvk, |s.history| - 1)]
    ensures Enabled(s, Lock(t)) ==> Apply(s, Lock(t)).threads == s.threads[t := Locked(s.threads[t].gvk, s.threads[t].since)]
    ensures Enabled(s, Leave(t)) ==> Apply(s, Leave(t)).threads == s.threads[t := Idle]
    ensures Enabled(s, CallPurge(t, gk)) ==> Apply(s, CallPurge(t, gk)).threads == s.threads[t := Waiting(gk)]
    ensures Enabled(s, LockPurge(t)) ==> Apply(s, LockPurge(t)).threads == s.threads[t := Purging(s.threads[t].gk)]
    ensures Enabled(s, RunPurge(t)) ==> Apply(s, RunPurge(t)).threads == s.threads[t := Idle]
  {
  }

  /** Only filling and purging change the cache, only a change changes discovery, and only for its kind; time
      passes with every step. */
  lemma StepsExactly(s: State, a: Action)
    requires Enabled(s, a)
    ensures
      var s' := Apply(s, a);
      && |s'.history| == |s.history| + 1 && s'.history[..|s.history|] == s.history
      && (a.Change? ==> s'.Discovery() == s.Discovery()[a.gvk := a.answer] && s'.threads == s.threads)
      && (!a.Change? ==> s'.Discovery() == s.Discovery())
      && (!a.Fill? && !a.RunPurge? ==> s'.cache == s.cache)
  {
  }

  // ---------------------------------------------------------------------------------------
  // What is cached is served
  // ---------------------------------------------------------------------------------------

  /** A call whose kind is cached when it looks is resolved with that entry, there and then. */
  lemma CachedIsServed(s: State, t: nat)
    requires Enabled(s, Check(t)) && s.threads[t].gvk in s.cache
    ensures
      var thread, s' := s.threads[t], Apply(s, Check(t));
      s'.threads[t] == Resolved(thread.gvk, thread.since, s.cache[thread.gvk]) && s'.cache == s.cache
  {
  }

  lemma {:induction false} ResolvedStays(s: State, acts: seq<Action>, t: nat)
    requires Legal(s, acts) && t < |s.threads| && s.threads[t].Resolved? && Leave(t) !in acts
    ensures t < |After(s, acts).threads| && After(s, acts).threads[t] == s.threads[t]
    decreases |acts|
  {
    hide Ask, Purged;
    if acts != [] {
      assert acts[0] in acts;
      assert Apply(s, acts[0]).threads[t] == s.threads[t];
      ResolvedStays(Apply(s, acts[0]), acts[1..], t);
    }
  }

  /** In every run, such a call has that entry at every moment until it returns; it never takes the write
      lock and never asks discovery. */
  lemma ServedFromCache(s: State, t: nat, later: seq<Action>)
    requires Enabled(s, Check(t)) && s.threads[t].gvk in s.cache
    requires Legal(Apply(s, Check(t)), later) && Leave(t) !in later
    ensures
      var thread, end := s.threads[t], After(Apply(s, Check(t)), later);
      t < |end.threads| && end.threads[t] == Resolved(thread.gvk, thread.since, s.cache[thread.gvk])
  {
    hide Legal, Apply;
    CachedIsServed(s, t);
    assert t < |Apply(s, Check(t)).threads| by {
      ThreadsStay(s, Check(t));
    }
    ResolvedStays(Apply(s, Check(t)), later, t);
  }

  lemma ThreadsStay(s: State, a: Action)
    requires Enabled(s, a)
    ensures |Apply(s, a).threads| == |s.threads|
  {
  }

  /** A call whose kind is not cached asks discovery, under the write lock; what it is told is cached and
      returned. */
  lemma MissIsFetched(s: State, t: nat)
    requires Enabled(s, Check(t)) && s.threads[t].gvk !in s.cache
    ensures
      var thread, s' := s.threads[t], Apply(s, Check(t));
      s'.threads[t] == Missed(thread.gvk, thread.since) && s'.cache == s.cache
  {
  }

  lemma FetchIsCached(s: State, t: nat)
    requires Enabled(s, Fetch(t))
    ensures
      var thread, fetched := s.threads[t], Apply(s, Fetch(t));
      var entry := Entry(if thread.gvk in s.history[|s.history| - 1] then s.history[|s.history| - 1][thread.gvk] else NOT_FOUND,
                         |s.history| - 1);
      && fetched.threads[t] == Fetched(thread.gvk, thread.since, entry) && fetched.cache == s.cache
      && Enabled(fetched, Fill(t))
      && Apply(fetched, Fill(t)).threads[t] == Resolved(thread.gvk, thread.since, entry)
      && Apply(fetched, Fill(t)).cache == s.cache[thread.gvk := entry]
  {
  }

  /** A purge takes away the entries with its group and its kind, and no others. */
  lemma PurgeIsExact(s: State, t: nat, gvk: GroupVersionKind)
    requires Enabled(s, RunPurge(t))
    ensures
      var gk, s' := s.threads[t].gk, Apply(s, RunPurge(t));
      && (gvk in s'.cache <==> gvk in s.cache && !(gvk.group == gk.group && gvk.kind == gk.kind))
      && (gvk in s'.cache ==> s'.cache[gvk] == s.cache[gvk])
  {
  }

  // ---------------------------------------------------------------------------------------
  // Without a purge
  // ---------------------------------------------------------------------------------------

  /** No purge in the run is one of the kind. */
  ghost predicate Unpurged(s: State, acts: seq<Action>, gvk: GroupVersionKind)
    requires Legal(s, acts)
    decreases |acts|
  {
    acts == [] ||
    ((acts[0].RunPurge? ==> !Matches(gvk, s.threads[acts[0].t].gk)) && Unpurged(Apply(s, acts[0]), acts[1..], gvk))
  }

  predicate IsFetching(thread: Thread, gvk: GroupVersionKind) {
    (thread.Missed? || thread.Locked? || thread.Fetched?) && thread.gvk == gvk
  }

  /** The entry is cached, nobody is about to replace it, and calls since `start` have returned it. */
  ghost predicate Settled(s: State, gvk: GroupVersionKind, entry: Entry, start: nat) {
    && gvk in s.cache && s.cache[gvk] == entry
    && forall t | 0 <= t < |s.threads| ::
         && !IsFetching(s.threads[t], gvk)
         && (s.threads[t].Resolved? && s.threads[t].gvk == gvk && s.threads[t].since >= start ==> s.threads[t].entry == entry)
  }

  lemma StepSettled(s: State, a: Action, gvk: GroupVersionKind, entry: Entry, start: nat)
    requires Enabled(s, a) && Settled(s, gvk, entry, start)
    requires a.RunPurge? ==> !Matches(gvk, s.threads[a.t].gk)
    ensures Settled(Apply(s, a), gvk, entry, start)
  {
    hide Ask, Matches;
    var s' := Apply(s, a);
    if !a.Change? {
      assert !IsFetching(s.threads[a.t], gvk);
      forall t | 0 <= t < |s'.threads| && t != a.t ensures s'.threads[t] == s.threads[t] {
      }
    }
  }

  lemma {:induction false} RunSettled(s: State, acts: seq<Action>, gvk: GroupVersionKind, entry: Entry, start: nat)
    requires Legal(s, acts) && Unpurged(s, acts, gvk) && Settled(s, gvk, entry, start)
    ensures Settled(After(s, acts), gvk, entry, start)
    decreases |acts|
  {
    hide Enabled, Apply, Settled, Matches;
    if acts != [] {
      StepSettled(s, acts[0], gvk, entry, start);
      RunSettled(Apply(s, acts[0]), acts[1..], gvk, entry, start);
    }
  }

  /** In every interleaving without a purge of the kind, and with nobody about to fetch it: the entry stays,
      and every call that begins later is answered by it, whatever discovery says by then. */
  lemma StaleInRuns(s: State, acts: seq<Action>, gvk: GroupVersionKind, t: nat)
    requires Inv(s) && gvk in s.cache && (forall u | 0 <= u < |s.threads| :: !IsFetching(s.threads[u], gvk))
    requires Legal(s, acts) && Unpurged(s, acts, gvk)
    requires
      var end := After(s, acts);
      t < |end.threads| && end.threads[t].Resolved? && end.threads[t].gvk == gvk && end.threads[t].since >= |s.history|
    ensures After(s, acts).threads[t].entry == s.cache[gvk]
    ensures gvk in After(s, acts).cache && After(s, acts).cache[gvk] == s.cache[gvk]
  {
    hide Legal, Unpurged, After, IsFetching, Genuine;
    forall u | 0 <= u < |s.threads| && s.threads[u].Resolved? ensures s.threads[u].since < |s.history| {
      assert GenuineThread(s.history, s.threads[u]);
    }
    RunSettled(s, acts, gvk, s.cache[gvk], |s.history|);
  }

  // ---------------------------------------------------------------------------------------
  // Calls made one at a time
  // ---------------------------------------------------------------------------------------

  /** The history that a run amounts to: a call counts when it finds its kind cached or fetches it. */
  ghost function OpsOf(s: State, acts: seq<Action>): seq<Op>
    requires Legal(s, acts)
    decreases |acts|
  {
    if acts == [] then [] else OpOf(s, acts[0]) + OpsOf(Apply(s, acts[0]), acts[1..])
  }

  ghost function OpOf(s: State, a: Action): seq<Op>
    requires Enabled(s, a)
  {
    match a
    case Change(gvk, answer) => [Op.Change(gvk, answer)]
    case Check(t) => if s.threads[t].gvk in s.cache then [Op.Resolve(s.threads[t].gvk)] else []
    case Fetch(t) => [Op.Resolve(s.threads[t].gvk)]
    case RunPurge(t) => [Op.Purge(s.threads[t].gk)]
    case _ => []
  }

  /** At any time, at most one goroutine is in a call. */
  ghost predicate Single(s: State) {
    forall t, u | 0 <= t < u < |s.threads| :: s.threads[t] == Idle || s.threads[u] == Idle
  }

  ghost predicate OneAtATime(s: State, acts: seq<Action>)
    requires Legal(s, acts)
    decreases |acts|
  {
    Single(s) && (acts == [] || OneAtATime(Apply(s, acts[0]), acts[1..]))
  }

  /** The state after a history, a fetched answer counting as cached. */
  ghost predicate Agrees(s: State, ops: seq<Op>) {
    && s.history != [] && s.Discovery() == DiscoveryAt(ops, |ops|)
    && (forall t | 0 <= t < |s.threads| && (s.threads[t].Missed? || s.threads[t].Locked?) :: s.threads[t].gvk !in s.cache)
    && (forall gvk :: gvk in CacheAt(ops, |ops|) <==> gvk in s.cache || IsFetched(s, gvk))
    && (forall gvk | gvk in s.cache :: gvk in CacheAt(ops, |ops|) && CacheAt(ops, |ops|)[gvk] == s.cache[gvk].answer)
    && (forall t | 0 <= t < |s.threads| && s.threads[t].Fetched? ::
          && s.threads[t].gvk in CacheAt(ops, |ops|) && CacheAt(ops, |ops|)[s.threads[t].gvk] == s.threads[t].entry.answer
          && s.threads[t].gvk !in s.cache)
  }

  ghost predicate IsFetched(s: State, gvk: GroupVersionKind) {
    exists t | 0 <= t < |s.threads| :: s.threads[t].Fetched? && s.threads[t].gvk == gvk
  }

  lemma AgreesAfterChange(s: State, ops: seq<Op>, gvk: GroupVersionKind, answer: Answer)
    requires Agrees(s, ops)
    ensures Agrees(Apply(s, Action.Change(gvk, answer)), ops + [Op.Change(gvk, answer)])
  {
    OneOp(ops, Op.Change(gvk, answer));
    var s' := Apply(s, Action.Change(gvk, answer));
    assert forall k :: IsFetched(s', k) <==> IsFetched(s, k);
  }

  lemma AgreesAfterCheck(s: State, ops: seq<Op>, t: nat)
    requires Agrees(s, ops) && Single(s) && Enabled(s, Check(t))
    ensures Agrees(Apply(s, Check(t)), ops + OpOf(s, Check(t)))
  {
    NoneFetched(s, t);
    var s', gvk := Apply(s, Check(t)), s.threads[t].gvk;
    assert forall k :: !IsFetched(s', k) by {
      forall u | 0 <= u < |s'.threads| ensures !s'.threads[u].Fetched? {
        assert u != t ==> s'.threads[u] == s.threads[u];
      }
    }
    if gvk in s.cache {
      OneOp(ops, Op.Resolve(gvk));
    } else {
      assert ops + [] == ops;
    }
  }

  lemma NoneFetched(s: State, t: nat)
    requires Single(s) && t < |s.threads| && s.threads[t] != Idle && !s.threads[t].Fetched?
    ensures forall u | 0 <= u < |s.threads| :: !s.threads[u].Fetched?
    ensures forall gvk :: !IsFetched(s, gvk)
  {
  }

  lemma AgreesAfterFetch(s: State, ops: seq<Op>, t: nat)
    requires Agrees(s, ops) && Single(s) && Enabled(s, Fetch(t))
    ensures Agrees(Apply(s, Fetch(t)), ops + OpOf(s, Fetch(t)))
  {
    NoneFetched(s, t);
    var s', gvk := Apply(s, Fetch(t)), s.threads[t].gvk;
    OneOp(ops, Op.Resolve(gvk));
    assert s'.threads[t].Fetched? && s'.threads[t].gvk == gvk;
    forall u | 0 <= u < |s'.threads| && u != t ensures !s'.threads[u].Fetched? {
    }
    assert forall k :: IsFetched(s', k) <==> k == gvk;
  }

  lemma OthersIdle(s: State, t: nat)
    requires Single(s) && t < |s.threads| && s.threads[t] != Idle
    ensures forall u | 0 <= u < |s.threads| && u != t :: s.threads[u] == Idle
  {
  }

  lemma AgreesAfterFill(s: State, ops: seq<Op>, t: nat)
    requires Agrees(s, ops) && Single(s) && Enabled(s, Fill(t))
    ensures Agrees(Apply(s, Fill(t)), ops)
  {
    OthersIdle(s, t);
    var s', gvk := Apply(s, Fill(t)), s.threads[t].gvk;
    forall k ensures IsFetched(s, k) <==> k == gvk {
      assert k == gvk ==> s.threads[t].Fetched? && s.threads[t].gvk == k;
    }
    forall u | 0 <= u < |s'.threads| ensures !s'.threads[u].Fetched? && !s'.threads[u].Missed? && !s'.threads[u].Locked? {
      assert u != t ==> s'.threads[u] == s.threads[u];
    }
    assert forall k :: !IsFetched(s', k);
  }

  lemma AgreesAfterPurge(s: State, ops: seq<Op>, t: nat)
    requires Agrees(s, ops) && Single(s) && Enabled(s, RunPurge(t))
    ensures Agrees(Apply(s, RunPurge(t)), ops + OpOf(s, RunPurge(t)))
  {
    OthersIdle(s, t);
    NoneFetched(s, t);
    var s' := Apply(s, RunPurge(t));
    OneOp(ops, Op.Purge(s.threads[t].gk));
    forall u | 0 <= u < |s'.threads| ensures !s'.threads[u].Fetched? && !s'.threads[u].Missed? && !s'.threads[u].Locked? {
      assert u != t ==> s'.threads[u] == s.threads[u];
    }
    assert forall k :: !IsFetched(s', k);
  }

  lemma AgreesAfterOther(s: State, ops: seq<Op>, a: Action)
    requires Agrees(s, ops) && Enabled(s, a)
    requires a.Call? || a.Lock? || a.Leave? || a.CallPurge? || a.LockPurge?
    ensures Agrees(Apply(s, a), ops + OpOf(s, a))
  {
    var s' := Apply(s, a);
    assert ops + [] == ops;
    forall u | 0 <= u < |s'.threads| && u != a.t ensures s'.threads[u] == s.threads[u] {
    }
    forall k ensures IsFetched(s', k) <==> IsFetched(s, k) {
      if IsFetched(s, k) {
        var u :| 0 <= u < |s.threads| && s.threads[u].Fetched? && s.threads[u].gvk == k;
        assert s'.threads[u] == s.threads[u];
      }
    }
  }

  lemma StepAgrees(s: State, ops: seq<Op>, a: Action)
    requires Agrees(s, ops) && Single(s) && Enabled(s, a)
    ensures Agrees(Apply(s, a), ops + OpOf(s, a))
  {
    hide Agrees, Apply, Single, Enabled;
    match a
    case Change(gvk, answer) => AgreesAfterChange(s, ops, gvk, answer);
    case Check(t) => AgreesAfterCheck(s, ops, t);
    case Fetch(t) => AgreesAfterFetch(s, ops, t);
    case Fill(t) =>
      assert ops + [] == ops;
      AgreesAfterFill(s, ops, t);
    case RunPurge(t) => AgreesAfterPurge(s, ops, t);
    case _ => AgreesAfterOther(s, ops, a);
  }

  lemma {:induction false} RunAgrees(s: State, ops: seq<Op>, acts: seq<Action>)
    requires Agrees(s, ops) && Legal(s, acts) && OneAtATime(s, acts)
    ensures Agrees(After(s, acts), ops + OpsOf(s, acts)) && Single(After(s, acts))
    decreases |acts|
  {
    hide Agrees, Apply, Single, Enabled, OpOf;
    if acts == [] {
      assert ops + [] == ops;
    } else {
      StepAgrees(s, ops, acts[0]);
      RunAgrees(Apply(s, acts[0]), ops + OpOf(s, acts[0]), acts[1..]);
      assert (ops + OpOf(s, acts[0])) + OpsOf(Apply(s, acts[0]), acts[1..]) == ops + OpsOf(s, acts);
    }
  }

  /** In a run with one call at a time, each call is answered as the history says that the run amounts to,
      whether from the cache or by discovery. */
  lemma AnsweredAsAlone(s: State, acts: seq<Action>, t: nat)
    requires Init(s) && s.history == [map[]] && Legal(s, acts) && OneAtATime(s, acts)
    ensures
      var m, ops := After(s, acts), OpsOf(s, acts);
      && (Enabled(m, Check(t)) && m.threads[t].gvk in m.cache ==>
            m.cache[m.threads[t].gvk].answer == SchemaCache.Result(ops, |ops|, m.threads[t].gvk))
      && (Enabled(m, Fetch(t)) ==>
            && m.threads[t].gvk !in m.cache
            && Ask(m.Discovery(), m.threads[t].gvk) == SchemaCache.Result(ops, |ops|, m.threads[t].gvk))
  {
    hide Legal, After, OpsOf, OneAtATime;
    assert Agrees(s, []);
    RunAgrees(s, [], acts);
    var m, ops := After(s, acts), OpsOf(s, acts);
    assert [] + ops == ops;
    if Enabled(m, Fetch(t)) {
      NoneFetched(m, t);
    }
  }
}
