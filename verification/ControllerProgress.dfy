/** Before shutdown: left alone, the controller comes to rest, and then every key is up to date. */
module ControllerProgress {
  import opened ControllerProtocol
  import opened ControllerFreshness
  import opened ControllerDrain
  import opened Keys
  import opened Wrappers
  import opened WorkQueue

  /** Steps of the handlers, the clock and the workers, without changes to the store and without
      failures. */
  predicate Settling(a: Action) {
    a.Deliver? || a.Expire? || (a.ByWorker() && !a.Fail? && !a.ReadError?)
  }

  predicate AllSettling(acts: seq<Action>) {
    acts == [] || (Settling(acts[0]) && AllSettling(acts[1..]))
  }

  /** Steps that a worker takes at most, with those that its requeued key will need. */
  function Burden(worker: Worker): nat {
    match worker
    case NotStarted => 2
    case Failed(_) => 9
    case _ => Weight(worker)
  }

  function Burdens(workers: seq<Worker>): nat {
    if workers == [] then 0 else Burden(workers[0]) + Burdens(workers[1..])
  }

  /** A bound on the settling steps left. */
  function Work(s: State): nat {
    6 * |s.pending| + 6 * |s.q.delayed| + 5 * |s.q.dirty| + Burdens(s.workers)
  }

  lemma {:induction false} BurdensMove(workers: seq<Worker>, w: nat, moved: Worker)
    requires w < |workers|
    ensures Burdens(workers[w := moved]) == Burdens(workers) - Burden(workers[w]) + Burden(moved)
  {
    if w > 0 {
      assert workers[w := moved][1..] == workers[1..][w - 1 := moved];
      BurdensMove(workers[1..], w - 1, moved);
    } else {
      assert workers[w := moved][1..] == workers[1..];
    }
  }

  lemma MoveSettles(s: State, a: Action)
    requires s.q.Valid() && a.ByWorker() && Enabled(s, a) && Settling(a)
    ensures
      var q := QueueAfter(s, a);
      Burden(Moved(s, a)) + 6 * |q.delayed| + 5 * |q.dirty| + 1
        <= Burden(s.workers[a.w]) + 6 * |s.q.delayed| + 5 * |s.q.dirty|
  {
    hide LookupKey, At;
    if a.Take? {
      TakeShrinks(s.q);
    }
  }

  lemma StepSettles(s: State, a: Action)
    requires Inv(s) && Enabled(s, a) && Settling(a)
    ensures Work(Apply(s, a)) + 1 <= Work(s)
  {
    hide LookupKey, MetaKey, EventKey, At, Put, OneHolder, Attended, InStage, Moved, QueueAfter, Burdens, Burden;
    if a.ByWorker() {
      BurdensMove(s.workers, a.w, Moved(s, a));
      MoveSettles(s, a);
    }
  }

  /** A run of settling steps is no longer than the work there is. */
  lemma {:induction false} SettlingEnds(s: State, acts: seq<Action>)
    requires Inv(s) && Legal(s, acts) && AllSettling(acts)
    ensures |acts| + Work(After(s, acts)) <= Work(s)
    decreases |acts|
  {
    hide Inv, Enabled, Apply, Work, Settling;
    if acts != [] {
      StepSettles(s, acts[0]);
      StepInv(s, acts[0]);
      SettlingEnds(Apply(s, acts[0]), acts[1..]);
    }
  }

  /** Unless all is quiet, some settling step can be made. */
  lemma NextSettling(s: State, w: nat) returns (a: Action)
    requires Inv(s) && !s.q.shuttingDown && !Quiet(s)
    requires w < |s.workers| && Active(s.workers[w])
    ensures Settling(a) && Enabled(s, a) && !a.Leave?
  {
    hide LookupKey, Attended, InStage;
    if s.pending != [] {
      a := Deliver;
    } else if s.q.delayed != {} {
      var k :| k in s.q.delayed;
      a := Expire(k);
    } else if v :| 0 <= v < |s.workers| && s.workers[v].Holds() {
      a := NextStep(s, v);
    } else {
      assert s.q.processing == {};
      var k :| k in s.q.dirty;
      assert s.q.order != [];
      a := Take(w);
    }
  }

  lemma StaysActive(s: State, a: Action, w: nat)
    requires Enabled(s, a) && Settling(a) && !a.Leave? && w < |s.workers| && Active(s.workers[w])
    ensures w < |Apply(s, a).workers| && Active(Apply(s, a).workers[w])
    ensures Apply(s, a).q.shuttingDown == s.q.shuttingDown
  {
    hide LookupKey, MetaKey, EventKey, At, Put;
  }

  /** With a worker in its loop, settling steps lead to rest. */
  lemma {:induction false} ComesToRest(s: State, w: nat) returns (acts: seq<Action>)
    requires Inv(s) && !s.q.shuttingDown && w < |s.workers| && Active(s.workers[w])
    ensures Legal(s, acts) && AllSettling(acts) && |acts| <= Work(s)
    ensures Quiet(After(s, acts)) && !After(s, acts).q.shuttingDown
    decreases Work(s)
  {
    hide Inv, Enabled, Apply, Quiet, Work, Settling, Active;
    if Quiet(s) {
      acts := [];
    } else {
      var a := NextSettling(s, w);
      StepInv(s, a);
      StepSettles(s, a);
      StaysActive(s, a, w);
      var rest := ComesToRest(Apply(s, a), w);
      acts := [a] + rest;
      assert acts[1..] == rest;
    }
  }

  lemma {:induction false} SettlingMissesNothing(acts: seq<Action>, k: Key)
    requires AllSettling(acts)
    ensures NeverMissed(acts, k)
  {
    if acts != [] {
      SettlingMissesNothing(acts[1..], k);
    }
  }

  lemma {:induction false} NeverMissedBoth(acts: seq<Action>, more: seq<Action>, k: Key)
    requires NeverMissed(acts, k) && NeverMissed(more, k)
    ensures NeverMissed(acts + more, k)
  {
    hide IsMissed;
    if acts == [] {
      assert acts + more == more;
    } else {
      assert (acts + more)[1..] == acts[1..] + more;
      NeverMissedBoth(acts[1..], more, k);
    }
  }

  /** From any point of any run before shutdown, with a worker in its loop, the controller can come to
      a rest in which every key is up to date, and it does so if it just goes on without failures and
      nothing else changes: such a run cannot be longer than the work there is, and can be extended
      until it rests. */
  lemma EventuallyUpToDate(s: State, acts: seq<Action>, w: nat, more: seq<Action>) returns (rest: seq<Action>)
    requires Init(s) && Legal(s, acts) && Legal(After(s, acts), more) && AllSettling(more)
    requires
      var t := After(After(s, acts), more);
      !t.q.shuttingDown && w < |t.workers| && Active(t.workers[w])
    ensures |more| <= Work(After(s, acts))
    ensures Legal(After(After(s, acts), more), rest) && AllSettling(rest)
    ensures
      var end := After(After(After(s, acts), more), rest);
      Quiet(end) && forall k | LookupKey(k) == Some(k) && NeverMissed(acts, k) :: UpToDate(end, k)
  {
    hide Legal, AllSettling, NeverMissed, Quiet, UpToDate, Init, Inv, LookupKey, Work, Active;
    var m := After(s, acts);
    InitInv(s);
    RunInv(s, acts);
    RunInv(m, more);
    SettlingEnds(m, more);
    rest := ComesToRest(After(m, more), w);
    LegalAppend(m, more, rest);
    LegalAppend(s, acts, more + rest);
    var all := acts + (more + rest);
    forall k | LookupKey(k) == Some(k) && NeverMissed(acts, k)
      ensures UpToDate(After(s, all), k)
    {
      SettlingMissesNothing(more, k);
      SettlingMissesNothing(rest, k);
      NeverMissedBoth(more, rest, k);
      NeverMissedBoth(acts, more + rest, k);
      QuietIsUpToDate(s, all, k);
    }
  }
}
