/** The shared informer factory: informers by type, started once each, and waited for on shutdown.
    Every step below is one section under the factory's lock, or one goroutine coming to its end. */
module InformerFactory {

  /** The informer that the `id`th call of a constructor function made, with its resync period. */
  datatype Informer = Informer(id: nat, period: int)

  /** A goroutine that calls `Run`. */
  datatype Launch = Launch(ty: string, informer: Informer)

  datatype State = State(
    defaultResync: int,
    customResync: map<string, int>,
    informers: map<string, Informer>,
    started: map<string, bool>,
    shuttingDown: bool,
    wg: int,
    launched: seq<Launch>,
    finished: set<nat>)
  {
    function Period(ty: string): int {
      if ty in customResync then customResync[ty] else defaultResync
    }

    /** What `InformerFor` answers, when a call of the constructor function would make informer `id`. */
    function InformerOf(ty: string, id: nat): Informer {
      if ty in informers then informers[ty] else Informer(id, Period(ty))
    }

    predicate IsStarted(ty: string) {
      ty in started && started[ty]
    }

    /** The types that `Start` has to start. */
    function Unstarted(): set<string> {
      set ty | ty in informers && !IsStarted(ty)
    }

    predicate Running(i: nat) {
      i < |launched| && i !in finished
    }
  }

  function Initial(defaultResync: int, customResync: map<string, int>): State {
    State(defaultResync, customResync, map[], map[], false, 0, [], {})
  }

  datatype Step =
    | InformerFor(ty: string, id: nat)
    | Start(order: seq<string>)
    | Flag
    | Exit(goroutine: nat)
    | Return

  /** The order of a map's keys is open. */
  predicate Enumerates(order: seq<string>, types: set<string>) {
    && (forall ty | ty in order :: ty in types)
    && (forall ty | ty in types :: ty in order)
    && (forall i, j | 0 <= i < j < |order| :: order[i] != order[j])
  }

  predicate Enabled(s: State, step: Step) {
    match step
    case InformerFor(_, _) => true
    case Start(order) => if s.shuttingDown then order == [] else Enumerates(order, s.Unstarted())
    case Flag => true
    case Exit(i) => s.Running(i)
    case Return => s.shuttingDown && s.wg == 0
  }

  function Launches(order: seq<string>, informers: map<string, Informer>): seq<Launch>
    requires forall ty | ty in order :: ty in informers
  {
    seq(|order|, i requires 0 <= i < |order| => Launch(order[i], informers[order[i]]))
  }

  function Apply(s: State, step: Step): State
    requires Enabled(s, step)
  {
    match step
    case InformerFor(ty, id) => s.(informers := s.informers[ty := s.InformerOf(ty, id)])
    case Start(order) =>
      if s.shuttingDown then s
      else
        s.(started := map ty | ty in s.started.Keys + s.informers.Keys :: ty in s.informers || s.started[ty],
           wg := s.wg + |order|,
           launched := s.launched + Launches(order, s.informers))
    case Flag => s.(shuttingDown := true)
    case Exit(i) => s.(wg := s.wg - 1, finished := s.finished + {i})
    case Return => s
  }

  predicate Legal(s: State, steps: seq<Step>)
    decreases |steps|
  {
    steps != [] ==> Enabled(s, steps[0]) && Legal(Apply(s, steps[0]), steps[1..])
  }

  function After(s: State, steps: seq<Step>): State
    requires Legal(s, steps)
    decreases |steps|
  {
    if steps == [] then s else After(Apply(s, steps[0]), steps[1..])
  }

  lemma {:induction false} AfterBoth(s: State, a: seq<Step>, b: seq<Step>)
    requires Legal(s, a) && Legal(After(s, a), b)
    ensures Legal(s, a + b) && After(s, a + b) == After(After(s, a), b)
    decreases |a|
  {
    if a == [] {
      assert a + b == b;
    } else {
      AfterBoth(Apply(s, a[0]), a[1..], b);
      assert (a + b)[1..] == a[1..] + b;
    }
  }

  lemma OneStep(s: State, step: Step)
    requires Enabled(s, step)
    ensures Legal(s, [step]) && After(s, [step]) == Apply(s, step)
  {
  }

  // ---------------------------------------------------------------------------------------
  // What every run keeps
  // ---------------------------------------------------------------------------------------

  /** Every started type is known and was launched exactly once, with the informer it has; the wait
      group counts the goroutines that have not come to their end. */
  ghost predicate Inv(s: State) {
    && (forall ty | ty in s.started :: s.started[ty])
    && (forall l | l in s.launched :: Launched(s, l))
    && Covered(s)
    && Distinct(s.launched)
    && Counted(s)
  }

  ghost predicate Launched(s: State, l: Launch) {
    l.ty in s.started && l.ty in s.informers && s.informers[l.ty] == l.informer
  }

  ghost function LaunchOf(s: State, ty: string): Launch
    requires ty in s.informers
  {
    Launch(ty, s.informers[ty])
  }

  ghost predicate Counted(s: State) {
    (forall i | i in s.finished :: i < |s.launched|) && s.wg == |s.launched| - |s.finished|
  }

  ghost predicate Covered(s: State) {
    forall ty | ty in s.started :: ty in s.informers && LaunchOf(s, ty) in s.launched
  }

  ghost predicate Distinct(ls: seq<Launch>) {
    forall i, j | 0 <= i < j < |ls| :: ls[i].ty != ls[j].ty
  }

  lemma StartLaunches(s: State, order: seq<string>)
    requires Inv(s) && Enabled(s, Start(order)) && !s.shuttingDown
    ensures forall l | l in Apply(s, Start(order)).launched :: Launched(Apply(s, Start(order)), l)
  {
    var t := Apply(s, Start(order));
    var new_ := Launches(order, s.informers);
    forall l | l in t.launched
      ensures Launched(t, l)
    {
      if l in new_ {
        var k :| 0 <= k < |new_| && new_[k] == l;
        assert order[k] in order;
      }
    }
  }

  lemma StartCovers(s: State, order: seq<string>)
    requires Inv(s) && Enabled(s, Start(order)) && !s.shuttingDown
    ensures Covered(Apply(s, Start(order)))
  {
    var t := Apply(s, Start(order));
    var new_ := Launches(order, s.informers);
    forall ty | ty in t.started
      ensures ty in t.informers && LaunchOf(t, ty) in t.launched
    {
      if ty in s.started {
        assert LaunchOf(s, ty) in s.launched;
      } else {
        assert ty in s.Unstarted();
        var k :| 0 <= k < |order| && order[k] == ty;
        assert new_[k] in t.launched;
      }
    }
  }

  lemma StartIsDistinct(s: State, order: seq<string>)
    requires Inv(s) && Enabled(s, Start(order)) && !s.shuttingDown
    ensures Distinct(Apply(s, Start(order)).launched)
  {
    var n := |s.launched|;
    var t := Apply(s, Start(order));
    forall i, j | 0 <= i < j < |t.launched|
      ensures t.launched[i].ty != t.launched[j].ty
    {
      if j >= n {
        assert t.launched[j].ty == order[j - n] && order[j - n] in order;
        if i < n {
          assert s.launched[i] in s.launched;
        } else {
          assert t.launched[i].ty == order[i - n];
        }
      }
    }
  }

  lemma StepInv(s: State, step: Step)
    requires Inv(s) && Enabled(s, step)
    ensures Inv(Apply(s, step))
  {
    hide Distinct;
    match step
    case Start(order) =>
      if !s.shuttingDown {
        StartLaunches(s, order);
        StartCovers(s, order);
        StartIsDistinct(s, order);
      }
    case _ =>
      var t := Apply(s, step);
      forall ty | ty in t.started
        ensures ty in t.informers && LaunchOf(t, ty) in t.launched
      {
        assert LaunchOf(s, ty) in s.launched;
      }
      forall l | l in t.launched
        ensures Launched(t, l)
      {
        assert Launched(s, l);
      }
  }

  lemma {:induction false} RunInv(s: State, steps: seq<Step>)
    requires Inv(s) && Legal(s, steps)
    ensures Inv(After(s, steps))
    decreases |steps|
  {
    if steps != [] {
      StepInv(s, steps[0]);
      RunInv(Apply(s, steps[0]), steps[1..]);
    }
  }

  lemma InitInv(defaultResync: int, customResync: map<string, int>)
    ensures Inv(Initial(defaultResync, customResync))
  {
  }

  // ---------------------------------------------------------------------------------------
  // One informer per type
  // ---------------------------------------------------------------------------------------

  lemma {:induction false} TypeKeepsInformer(s: State, steps: seq<Step>, ty: string)
    requires Legal(s, steps) && ty in s.informers
    ensures ty in After(s, steps).informers && After(s, steps).informers[ty] == s.informers[ty]
    decreases |steps|
  {
    if steps != [] {
      TypeKeepsInformer(Apply(s, steps[0]), steps[1..], ty);
    }
  }

  /** Two calls for one type get the same informer, whatever happens between them. */
  lemma SameAnswer(s: State, ty: string, id: nat, between: seq<Step>, later: nat)
    requires Legal(Apply(s, InformerFor(ty, id)), between)
    ensures After(Apply(s, InformerFor(ty, id)), between).InformerOf(ty, later) == s.InformerOf(ty, id)
  {
    TypeKeepsInformer(Apply(s, InformerFor(ty, id)), between, ty);
  }

  /** No type is launched twice, so no informer is, exactly if no two started types share one. */
  lemma RunOncePerInformer(s: State)
    requires Inv(s)
    ensures (forall i, j | 0 <= i < j < |s.launched| :: s.launched[i].informer != s.launched[j].informer)
       <==> (forall t, u | t in s.started && u in s.started && t != u :: s.informers[t] != s.informers[u])
  {
    if forall i, j | 0 <= i < j < |s.launched| :: s.launched[i].informer != s.launched[j].informer {
      forall t, u | t in s.started && u in s.started && t != u
        ensures s.informers[t] != s.informers[u]
      {
        LaunchedApart(s, t, u);
      }
    } else {
      var i, j :| 0 <= i < j < |s.launched| && s.launched[i].informer == s.launched[j].informer;
      assert s.launched[i] in s.launched && s.launched[j] in s.launched;
      assert s.launched[i].ty in s.started && s.launched[j].ty in s.started;
    }
  }

  lemma LaunchedApart(s: State, t: string, u: string)
    requires Inv(s) && t in s.started && u in s.started && t != u
    ensures exists i, j | 0 <= i < |s.launched| && 0 <= j < |s.launched| && i != j ::
      s.launched[i] == LaunchOf(s, t) && s.launched[j] == LaunchOf(s, u)
  {
    assert LaunchOf(s, t) in s.launched && LaunchOf(s, u) in s.launched;
    var i :| 0 <= i < |s.launched| && s.launched[i] == LaunchOf(s, t);
    var j :| 0 <= j < |s.launched| && s.launched[j] == LaunchOf(s, u);
  }

  /** Constructor functions make a new informer at every call. */
  predicate NewInformers(steps: seq<Step>, used: set<nat>)
    decreases |steps|
  {
    steps != [] ==>
      if steps[0].InformerFor? then steps[0].id !in used && NewInformers(steps[1..], used + {steps[0].id})
      else NewInformers(steps[1..], used)
  }

  ghost predicate Unshared(s: State, used: set<nat>) {
    && (forall t | t in s.informers :: s.informers[t].id in used)
    && (forall t, u | t in s.informers && u in s.informers && t != u :: s.informers[t] != s.informers[u])
  }

  lemma StepUnshared(s: State, step: Step, used: set<nat>)
    requires Enabled(s, step) && Unshared(s, used)
    requires step.InformerFor? ==> step.id !in used
    ensures Unshared(Apply(s, step), if step.InformerFor? then used + {step.id} else used)
  {
  }

  lemma {:induction false} InformersStayUnshared(s: State, steps: seq<Step>, used: set<nat>) returns (more: set<nat>)
    requires Legal(s, steps) && NewInformers(steps, used) && Unshared(s, used)
    ensures Unshared(After(s, steps), more)
    decreases |steps|
  {
    if steps == [] {
      more := used;
    } else {
      StepUnshared(s, steps[0], used);
      more := if steps[0].InformerFor? then used + {steps[0].id} else used;
      more := InformersStayUnshared(Apply(s, steps[0]), steps[1..], more);
    }
  }

  /** In every run, each informer's `Run` is called at most once. */
  lemma RunOnce(defaultResync: int, customResync: map<string, int>, steps: seq<Step>, i: nat, j: nat)
    requires Legal(Initial(defaultResync, customResync), steps) && NewInformers(steps, {})
    requires i < j < |After(Initial(defaultResync, customResync), steps).launched|
    ensures var ls := After(Initial(defaultResync, customResync), steps).launched;
      ls[i].ty != ls[j].ty && ls[i].informer != ls[j].informer
  {
    var s := Initial(defaultResync, customResync);
    RunInv(s, steps);
    var used := InformersStayUnshared(s, steps, {});
    RunOncePerInformer(After(s, steps));
  }

  /** In every run, informers resync as configured: with the period of their own type, or else the default. */
  lemma {:induction false} PeriodsAreAsConfigured(s: State, steps: seq<Step>)
    requires Legal(s, steps) && (forall ty | ty in s.informers :: HasPeriod(s, ty))
    ensures var t := After(s, steps);
      && t.customResync == s.customResync && t.defaultResync == s.defaultResync
      && (forall ty | ty in t.informers :: HasPeriod(t, ty))
    decreases |steps|
  {
    if steps != [] {
      PeriodsAreAsConfigured(Apply(s, steps[0]), steps[1..]);
    }
  }

  predicate HasPeriod(s: State, ty: string)
    requires ty in s.informers
  {
    s.informers[ty].period == if ty in s.customResync then s.customResync[ty] else s.defaultResync
  }

  // ---------------------------------------------------------------------------------------
  // What gets started, and when
  // ---------------------------------------------------------------------------------------

  /** A type was asked for before a `Start` that came before shutdown. */
  predicate AskedThenStarted(steps: seq<Step>, ty: string, asked: bool)
    decreases |steps|
  {
    if steps == [] then false
    else match steps[0]
      case InformerFor(other, _) => AskedThenStarted(steps[1..], ty, asked || other == ty)
      case Start(_) => asked || AskedThenStarted(steps[1..], ty, asked)
      case Flag => false
      case _ => AskedThenStarted(steps[1..], ty, asked)
  }

  lemma {:induction false} StartedStays(s: State, steps: seq<Step>, ty: string)
    requires Inv(s) && Legal(s, steps) && s.IsStarted(ty)
    ensures After(s, steps).IsStarted(ty)
    decreases |steps|
  {
    if steps != [] {
      StepInv(s, steps[0]);
      StartedStays(Apply(s, steps[0]), steps[1..], ty);
    }
  }

  /** Nothing is launched once shutdown is flagged. */
  lemma {:induction false} NothingAfterFlag(s: State, steps: seq<Step>)
    requires Legal(s, steps) && s.shuttingDown
    ensures var t := After(s, steps);
      t.shuttingDown && t.launched == s.launched && t.started == s.started && t.wg <= s.wg
    decreases |steps|
  {
    if steps != [] {
      NothingAfterFlag(Apply(s, steps[0]), steps[1..]);
    }
  }

  lemma {:induction false} StartedExactly(s: State, steps: seq<Step>, ty: string)
    requires Inv(s) && Legal(s, steps) && !s.shuttingDown && !s.IsStarted(ty)
    ensures After(s, steps).IsStarted(ty) <==> AskedThenStarted(steps, ty, ty in s.informers)
    decreases |steps|
  {
    if steps != [] {
      var t := Apply(s, steps[0]);
      StepInv(s, steps[0]);
      if t.IsStarted(ty) {
        StartedStays(t, steps[1..], ty);
      } else if t.shuttingDown {
        NothingAfterFlag(t, steps[1..]);
      } else {
        StartedExactly(t, steps[1..], ty);
      }
    }
  }

  lemma OrderIsOfSome(order: seq<string>, types: set<string>)
    requires Enumerates(order, types) && order != []
    ensures types != {}
  {
    assert order[0] in order;
  }

  lemma NothingToOrder(order: seq<string>)
    requires Enumerates(order, {})
    ensures order == []
  {
    if order != [] {
      OrderIsOfSome(order, {});
    }
  }

  lemma StartCoversAll(s: State, order: seq<string>)
    requires Enabled(s, Start(order)) && !s.shuttingDown
    ensures Apply(s, Start(order)).Unstarted() == {}
  {
  }

  lemma StartOfNone(s: State)
    requires Inv(s) && s.Unstarted() == {}
    ensures Enabled(s, Start([])) && Apply(s, Start([])) == s
  {
    var t := Apply(s, Start([]));
    forall ty
      ensures ty in t.started <==> ty in s.started
      ensures ty in t.started ==> t.started[ty] == s.started[ty]
    {
      assert ty in s.informers ==> ty !in s.Unstarted();
    }
    assert t.started == s.started;
  }

  /** A second `Start` does nothing. */
  lemma StartTwice(s: State, order: seq<string>, again: seq<string>)
    requires Inv(s) && Enabled(s, Start(order)) && Enabled(Apply(s, Start(order)), Start(again))
    ensures again == [] && Apply(Apply(s, Start(order)), Start(again)) == Apply(s, Start(order))
  {
    hide Inv, Apply;
    var t := Apply(s, Start(order));
    if s.shuttingDown {
      StartRefused(s);
    } else {
      StepInv(s, Start(order));
      StartCoversAll(s, order);
      assert t.shuttingDown == s.shuttingDown by { StartKeepsFlag(s, order); }
      NothingToOrder(again);
      StartOfNone(t);
    }
  }

  lemma StartKeepsFlag(s: State, order: seq<string>)
    requires Enabled(s, Start(order))
    ensures Apply(s, Start(order)).shuttingDown == s.shuttingDown
  {
  }

  // ---------------------------------------------------------------------------------------
  // Shutdown
  // ---------------------------------------------------------------------------------------

  function Below(n: nat): set<nat> {
    if n == 0 then {} else Below(n - 1) + {n - 1}
  }

  lemma {:induction false} BelowSize(n: nat)
    ensures |Below(n)| == n && (forall i: nat :: i in Below(n) <==> i < n)
  {
    if n > 0 {
      BelowSize(n - 1);
    }
  }

  lemma SubsetSize<T>(a: set<T>, b: set<T>)
    requires a <= b
    ensures |a| <= |b| && (|a| == |b| ==> a == b)
  {
    assert b == a + (b - a);
  }

  /** The wait group is at zero exactly when every launched goroutine has come to its end, and never
      below it. */
  lemma WaitGroupIsExact(s: State)
    requires Inv(s)
    ensures s.wg >= 0
    ensures s.wg == 0 <==> (forall i :: !s.Running(i))
  {
    BelowSize(|s.launched|);
    SubsetSize(s.finished, Below(|s.launched|));
    if forall i :: !s.Running(i) {
      forall i | i in Below(|s.launched|)
        ensures i in s.finished
      {
        assert !s.Running(i);
      }
      assert s.finished == Below(|s.launched|);
    }
  }

  /** Once a `Shutdown` has returned, no informer runs any more. */
  lemma NothingAfterReturn(s: State, steps: seq<Step>, i: nat)
    requires Inv(s) && Enabled(s, Return) && Legal(s, steps)
    ensures !After(s, steps).Running(i)
  {
    RunInv(s, steps);
    NothingAfterFlag(s, steps);
    WaitGroupIsExact(After(s, steps));
  }

  // ---------------------------------------------------------------------------------------
  // The factory
  // ---------------------------------------------------------------------------------------

  /** Partway through `Start`: the types of `order` have been started. */
  ghost predicate Partway(s: State, t: State, order: seq<string>, left: set<string>) {
    && left <= s.informers.Keys
    && Enumerates(order, s.Unstarted() - left)
    && t.informers == s.informers && t.shuttingDown == s.shuttingDown && t.finished == s.finished
    && t.customResync == s.customResync && t.defaultResync == s.defaultResync
    && (forall ty :: ty in t.started <==> ty in s.started || ty in order)
    && (forall ty | ty in t.started :: t.started[ty] == (ty in order || s.started[ty]))
    && t.wg == s.wg + |order|
    && t.launched == s.launched + Launches(order, s.informers)
  }

  lemma StartRefused(s: State)
    requires s.shuttingDown
    ensures Enabled(s, Start([])) && Apply(s, Start([])) == s
  {
  }

  lemma PartwayBegins(s: State)
    ensures Partway(s, s, [], s.informers.Keys)
  {
  }

  lemma PartwayOne(s: State, t: State, order: seq<string>, left: set<string>, ty: string)
    requires Inv(s) && Partway(s, t, order, left) && ty in left && !t.IsStarted(ty)
    ensures Partway(s,
      t.(started := t.started[ty := true], wg := t.wg + 1, launched := t.launched + [LaunchOf(t, ty)]),
      order + [ty], left - {ty})
  {
    assert ty !in order && ty in s.Unstarted();
    assert Launches(order + [ty], s.informers) == Launches(order, s.informers) + [LaunchOf(t, ty)];
  }

  lemma PartwayNone(s: State, t: State, order: seq<string>, left: set<string>, ty: string)
    requires Inv(s) && Partway(s, t, order, left) && ty in left && t.IsStarted(ty)
    ensures Partway(s, t, order, left - {ty})
  {
    assert ty !in s.Unstarted() - left;
  }

  lemma PartwayDone(s: State, t: State, order: seq<string>)
    requires Inv(s) && !s.shuttingDown && Partway(s, t, order, {})
    ensures Enabled(s, Start(order)) && t == Apply(s, Start(order))
  {
    assert s.Unstarted() - {} == s.Unstarted();
    var u := Apply(s, Start(order));
    forall ty
      ensures ty in t.started <==> ty in u.started
      ensures ty in t.started ==> t.started[ty] == u.started[ty]
    {
      assert ty in s.informers && ty !in s.started ==> ty in s.Unstarted();
    }
    assert t.started == u.started;
  }

  class SharedInformerFactory {
    const defaultResync: int
    const customResync: map<string, int>
    var informers: map<string, Informer>
    var startedInformers: map<string, bool>
    var shuttingDown: bool
    var wg: int
    ghost var launched: seq<Launch>
    ghost var finished: set<nat>

    ghost function Now(): State
      reads this
    {
      State(defaultResync, customResync, informers, startedInformers, shuttingDown, wg, launched, finished)
    }

    constructor (defaultResync: int, customResync: map<string, int>)
      ensures Now() == Initial(defaultResync, customResync)
    {
      this.defaultResync, this.customResync := defaultResync, customResync;
      informers, startedInformers, shuttingDown, wg := map[], map[], false, 0;
      launched, finished := [], {};
    }

    /** `id` tells which informer the constructor function would make. */
    method InformerFor(ty: string, id: nat) returns (informer: Informer)
      modifies this
      ensures informer == old(Now()).InformerOf(ty, id)
      ensures ty in old(informers) ==> informer == old(informers)[ty] && informers == old(informers)
      ensures ty !in old(informers) ==>
        && informer == Informer(id, if ty in customResync then customResync[ty] else defaultResync)
        && informers == old(informers)[ty := informer]
      ensures Now() == Apply(old(Now()), Step.InformerFor(ty, id))
    {
      if ty in informers {
        informer := informers[ty];
        assert informers == informers[ty := informer];
      } else {
        var resyncPeriod := if ty in customResync then customResync[ty] else defaultResync;
        informer := Informer(id, resyncPeriod);
        informers := informers[ty := informer];
      }
    }

    method Start() returns (ghost order: seq<string>)
      requires Inv(Now())
      modifies this
      ensures Enabled(old(Now()), Step.Start(order)) && Now() == Apply(old(Now()), Step.Start(order))
    {
      hide Inv, Partway, Enabled, Apply;
      order := [];
      if shuttingDown {
        StartRefused(Now());
        return;
      }
      ghost var s := Now();
      var left := informers.Keys;
      PartwayBegins(s);
      while left != {}
        invariant Partway(s, Now(), order, left) && informers == s.informers
      {
        var ty :| ty in left;
        if !(ty in startedInformers && startedInformers[ty]) {
          PartwayOne(s, Now(), order, left, ty);
          wg := wg + 1;
          launched := launched + [Launch(ty, informers[ty])];
          startedInformers := startedInformers[ty := true];
          order := order + [ty];
        } else {
          PartwayNone(s, Now(), order, left, ty);
        }
        left := left - {ty};
      }
      PartwayDone(s, Now(), order);
    }

    /** A goroutine comes to its end: the deferred `wg.Done`. */
    method Exit(ghost i: nat)
      requires Now().Running(i)
      modifies this
      ensures Now() == Apply(old(Now()), Step.Exit(i))
    {
      wg := wg - 1;
      finished := finished + {i};
    }

    /** Flags shutdown and waits, while the running goroutines come to their end in some order. */
    method Shutdown() returns (ghost steps: seq<Step>)
      requires Inv(Now())
      modifies this
      ensures Legal(old(Now()), steps) && Now() == After(old(Now()), steps)
      ensures Enabled(Now(), Return) && (forall i :: !Now().Running(i))
      ensures launched == old(launched) && informers == old(informers)
    {
      hide Inv, Legal, After;
      ghost var s := Now();
      shuttingDown := true;
      steps := [Flag];
      OneStep(s, Flag);
      StepInv(s, Flag);
      WaitGroupIsExact(Now());
      while wg != 0
        invariant Inv(Now()) && Legal(s, steps) && Now() == After(s, steps)
        invariant shuttingDown && launched == s.launched && informers == s.informers
        invariant wg >= 0 && (wg == 0 <==> forall i :: !Now().Running(i))
        decreases wg
      {
        ghost var i :| Now().Running(i);
        ghost var t := Now();
        OneStep(t, Step.Exit(i));
        StepInv(t, Step.Exit(i));
        AfterBoth(s, steps, [Step.Exit(i)]);
        Exit(i);
        steps := steps + [Step.Exit(i)];
        WaitGroupIsExact(Now());
      }
    }

    /** For each type started when it is called, and for no other, whether its informer's cache gets
        synced. */
    method WaitForCacheSync(synced: Informer -> bool) returns (res: map<string, bool>)
      requires Inv(Now())
      ensures res.Keys == startedInformers.Keys
      ensures forall ty | ty in res :: ty in informers && res[ty] == synced(informers[ty])
    {
      var snapshot: map<string, Informer> := map[];
      var left := informers.Keys;
      while left != {}
        invariant left <= informers.Keys
        invariant forall ty :: ty in snapshot <==> ty in informers && ty !in left && Now().IsStarted(ty)
        invariant forall ty | ty in snapshot :: snapshot[ty] == informers[ty]
      {
        var ty :| ty in left;
        if ty in startedInformers && startedInformers[ty] {
          snapshot := snapshot[ty := informers[ty]];
        }
        left := left - {ty};
      }
      res := map[];
      left := snapshot.Keys;
      while left != {}
        invariant left <= snapshot.Keys && res.Keys == snapshot.Keys - left
        invariant forall ty | ty in res :: res[ty] == synced(snapshot[ty])
      {
        var ty :| ty in left;
        res := res[ty := synced(snapshot[ty])];
        left := left - {ty};
      }
    }
  }
}
