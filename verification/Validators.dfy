/** Admission validators: the composition of several into one, and the plugin that evaluates policies. What
    a validator answers may depend on every call made so far. */
module Validators {
  import opened Wrappers

  datatype Kind = Kind(group: string, version: string, kind: string)

  datatype Resource = Resource(group: string, version: string, resource: string)

  /** Objects are either read into a known type or kept as they came. */
  datatype Object = Typed(content: string) | Unstructured(content: string)

  datatype Slice = Nil | Items(items: seq<string>)

  datatype User = User(name: string, uid: string, groups: Slice, extra: Option<map<string, Slice>>)

  datatype Attributes = Attributes(
    object_: Option<Object>,
    oldObject: Option<Object>,
    kind: Kind,
    namespace: string,
    name: string,
    resource: Resource,
    subresource: string,
    operation: string,
    user: User)

  /** An error is a status error, or another error that may wrap errors. */
  datatype Error =
    | StatusError(code: int, reason: string, message: string)
    | OtherError(message: string, causes: seq<Error>)

  /** A call of a validator's `Validate`. */
  datatype Call = Call(id: nat, attributes: Attributes)

  /** What the validators of the outside answer, after the calls made so far; `polls` are the answers to
      `HasSynced` while a plugin waits. */
  datatype Outside = Outside(
    handles: (nat, string, seq<Call>) -> bool,
    validate: (nat, Attributes, seq<Call>) -> Option<Error>,
    polls: (nat, seq<Call>) -> seq<bool>,
    forbidden: Attributes -> string)

  datatype Validator =
    | Leaf(id: nat)
    | Multi(validators: seq<Validator>)
    | Plugin(evaluator: nat)

  function NewMulti(validators: seq<Validator>): Validator {
    Multi(validators)
  }

  // ---------------------------------------------------------------------------------------
  // What each validator does
  // ---------------------------------------------------------------------------------------

  datatype Outcome = Outcome(error: Option<Error>, history: seq<Call>)

  predicate IsPolicyResource(r: Resource) {
    && r.group in {"admissionregistration.k8s.io", "admissionregistration.x-k8s.io"}
    && r.resource in {"validatingadmissionpolicies", "validatingadmissionpolicybindings"}
  }

  function Handles(v: Validator, operation: string, h: seq<Call>, o: Outside): bool {
    match v
    case Leaf(id) => o.handles(id, operation, h)
    case Multi(vs) => SomeHandles(vs, operation, h, o)
    case Plugin(_) => true
  }

  predicate SomeHandles(vs: seq<Validator>, operation: string, h: seq<Call>, o: Outside) {
    exists v | v in vs :: Handles(v, operation, h, o)
  }

  function Called(id: nat, a: Attributes, h: seq<Call>, o: Outside): Outcome {
    Outcome(o.validate(id, a, h), h + [Call(id, a)])
  }

  function Validate(v: Validator, a: Attributes, h: seq<Call>, o: Outside): Outcome
    decreases v, 0
  {
    match v
    case Leaf(id) => Called(id, a, h, o)
    case Multi(vs) => ValidateAll(vs, a, h, o)
    case Plugin(evaluator) =>
      if IsPolicyResource(a.resource) then Outcome(None, h)
      else if true !in o.polls(evaluator, h) then
        Outcome(Some(StatusError(403, "Forbidden", o.forbidden(a))), h)
      else Called(evaluator, a, h, o)
  }

  /** One validator after the other, those that do not handle the operation left out. */
  function ValidateAll(vs: seq<Validator>, a: Attributes, h: seq<Call>, o: Outside): Outcome
    decreases vs
  {
    if vs == [] then Outcome(None, h)
    else
      var first := Guarded(vs[0], a, h, o);
      if first.error.Some? then first else ValidateAll(vs[1..], a, first.history, o)
  }

  function Guarded(v: Validator, a: Attributes, h: seq<Call>, o: Outside): Outcome
    decreases v, 1
  {
    if Handles(v, a.operation, h, o) then Validate(v, a, h, o) else Outcome(None, h)
  }

  // ---------------------------------------------------------------------------------------
  // Composition
  // ---------------------------------------------------------------------------------------

  /** The validators that a composition is made of, however deeply it is nested. */
  function Parts(v: Validator): seq<Validator>
    decreases v
  {
    if v.Multi? then PartsOf(v.validators) else [v]
  }

  function PartsOf(vs: seq<Validator>): seq<Validator>
    decreases vs
  {
    if vs == [] then [] else Parts(vs[0]) + PartsOf(vs[1..])
  }

  lemma {:induction false} ValidateBoth(vs: seq<Validator>, ws: seq<Validator>, a: Attributes, h: seq<Call>, o: Outside)
    ensures var first := ValidateAll(vs, a, h, o);
      ValidateAll(vs + ws, a, h, o) == if first.error.Some? then first else ValidateAll(ws, a, first.history, o)
    decreases |vs|
  {
    if vs == [] {
      assert vs + ws == ws;
    } else {
      var first := Guarded(vs[0], a, h, o);
      if first.error.None? {
        ValidateBoth(vs[1..], ws, a, first.history, o);
      }
      assert (vs + ws)[1..] == vs[1..] + ws;
    }
  }

  lemma {:induction false} NoneHandles(vs: seq<Validator>, a: Attributes, h: seq<Call>, o: Outside)
    requires !SomeHandles(vs, a.operation, h, o)
    ensures ValidateAll(vs, a, h, o) == Outcome(None, h)
    decreases |vs|
  {
    if vs != [] {
      assert vs[0] in vs;
      assert !SomeHandles(vs[1..], a.operation, h, o);
      NoneHandles(vs[1..], a, h, o);
    }
  }

  lemma {:induction false} HandlesIsFlat(v: Validator, operation: string, h: seq<Call>, o: Outside)
    ensures Handles(v, operation, h, o) == SomeHandles(Parts(v), operation, h, o)
    decreases v
  {
    if v.Multi? {
      SomeHandlesIsFlat(v.validators, operation, h, o);
    } else {
      assert v in Parts(v);
    }
  }

  lemma {:induction false} SomeHandlesIsFlat(vs: seq<Validator>, operation: string, h: seq<Call>, o: Outside)
    ensures SomeHandles(vs, operation, h, o) == SomeHandles(PartsOf(vs), operation, h, o)
    decreases vs
  {
    if vs != [] {
      HandlesIsFlat(vs[0], operation, h, o);
      SomeHandlesIsFlat(vs[1..], operation, h, o);
      assert vs == [vs[0]] + vs[1..];
    }
  }

  lemma {:induction false} GuardedIsFlat(v: Validator, a: Attributes, h: seq<Call>, o: Outside)
    ensures Guarded(v, a, h, o) == ValidateAll(Parts(v), a, h, o)
    decreases v
  {
    if v.Multi? {
      ValidateIsFlat(v.validators, a, h, o);
      if !Handles(v, a.operation, h, o) {
        NoneHandles(v.validators, a, h, o);
      }
    } else {
      assert Parts(v)[1..] == [];
    }
  }

  /** A composition calls the same validators in the same order and ends with the same error, if all
      its parts are put in one row. */
  lemma {:induction false} ValidateIsFlat(vs: seq<Validator>, a: Attributes, h: seq<Call>, o: Outside)
    ensures ValidateAll(vs, a, h, o) == ValidateAll(PartsOf(vs), a, h, o)
    decreases vs
  {
    if vs != [] {
      var first := Guarded(vs[0], a, h, o);
      GuardedIsFlat(vs[0], a, h, o);
      ValidateBoth(Parts(vs[0]), PartsOf(vs[1..]), a, h, o);
      if first.error.None? {
        ValidateIsFlat(vs[1..], a, first.history, o);
      }
    }
  }

  /** Compositions of the same parts cannot be told apart. */
  lemma NestingIsInvisible(vs: seq<Validator>, ws: seq<Validator>, a: Attributes, h: seq<Call>, o: Outside)
    requires PartsOf(vs) == PartsOf(ws)
    ensures Handles(NewMulti(vs), a.operation, h, o) == Handles(NewMulti(ws), a.operation, h, o)
    ensures Validate(NewMulti(vs), a, h, o) == Validate(NewMulti(ws), a, h, o)
  {
    SomeHandlesIsFlat(vs, a.operation, h, o);
    SomeHandlesIsFlat(ws, a.operation, h, o);
    ValidateIsFlat(vs, a, h, o);
    ValidateIsFlat(ws, a, h, o);
  }

  lemma {:induction false} PartsOfBoth(vs: seq<Validator>, ws: seq<Validator>)
    ensures PartsOf(vs + ws) == PartsOf(vs) + PartsOf(ws)
    decreases |vs|
  {
    if vs == [] {
      assert vs + ws == ws;
    } else {
      PartsOfBoth(vs[1..], ws);
      assert (vs + ws)[1..] == vs[1..] + ws;
    }
  }

  /** A composition of one is that one. */
  lemma OneAlone(v: Validator, a: Attributes, h: seq<Call>, o: Outside)
    ensures Handles(NewMulti([v]), a.operation, h, o) == Handles(v, a.operation, h, o)
    ensures Validate(NewMulti([v]), a, h, o) == Guarded(v, a, h, o)
  {
    assert v in [v];
    var first := Guarded(v, a, h, o);
    assert [v][1..] == [] && ValidateAll([], a, first.history, o) == Outcome(None, first.history);
  }

  lemma CompositionLaw(xs: seq<Validator>, ys: seq<Validator>, a: Attributes, h: seq<Call>, o: Outside)
    ensures var flat, nested := NewMulti(xs + ys), NewMulti([NewMulti(xs), NewMulti(ys)]);
      && Handles(flat, a.operation, h, o) == Handles(nested, a.operation, h, o)
      && Validate(flat, a, h, o) == Validate(nested, a, h, o)
  {
    var nested := [NewMulti(xs), NewMulti(ys)];
    PartsOfBoth(xs, ys);
    assert nested[1..] == [NewMulti(ys)] && nested[1..][1..] == [];
    assert PartsOf(nested[1..]) == PartsOf(ys) + [];
    NestingIsInvisible(xs + ys, nested, a, h, o);
  }

  // ---------------------------------------------------------------------------------------
  // What each validator does, spelled out
  // ---------------------------------------------------------------------------------------

  /** The resources of policies and bindings are these four. */
  lemma PolicyResourcesExactly(r: Resource)
    ensures IsPolicyResource(r) <==>
      || (r.group == "admissionregistration.k8s.io" && r.resource == "validatingadmissionpolicies")
      || (r.group == "admissionregistration.k8s.io" && r.resource == "validatingadmissionpolicybindings")
      || (r.group == "admissionregistration.x-k8s.io" && r.resource == "validatingadmissionpolicies")
      || (r.group == "admissionregistration.x-k8s.io" && r.resource == "validatingadmissionpolicybindings")
  {
  }

  function Leaves(ids: seq<nat>): seq<Validator> {
    seq(|ids|, i requires 0 <= i < |ids| => Leaf(ids[i]))
  }

  /** A composition of validators handles an operation if and only if one of them does. */
  lemma LeavesHandle(ids: seq<nat>, operation: string, h: seq<Call>, o: Outside)
    ensures Handles(NewMulti(Leaves(ids)), operation, h, o) <==> exists id | id in ids :: o.handles(id, operation, h)
  {
    var vs := Leaves(ids);
    if id :| id in ids && o.handles(id, operation, h) {
      var i :| 0 <= i < |ids| && ids[i] == id;
      assert vs[i] in vs && Handles(vs[i], operation, h, o);
    }
    if v :| v in vs && Handles(v, operation, h, o) {
      assert v.id in ids;
    }
  }

  /** Of a row of validators, the first is left out if it does not handle the operation; otherwise it is
      called, and its error, if there is one, is returned at once. */
  lemma LeavesInOrder(ids: seq<nat>, a: Attributes, h: seq<Call>, o: Outside)
    ensures Validate(NewMulti(Leaves([])), a, h, o) == Outcome(None, h)
    ensures ids != [] && !o.handles(ids[0], a.operation, h) ==>
      Validate(NewMulti(Leaves(ids)), a, h, o) == Validate(NewMulti(Leaves(ids[1..])), a, h, o)
    ensures ids != [] && o.handles(ids[0], a.operation, h) && o.validate(ids[0], a, h) != None ==>
      Validate(NewMulti(Leaves(ids)), a, h, o) == Outcome(o.validate(ids[0], a, h), h + [Call(ids[0], a)])
    ensures ids != [] && o.handles(ids[0], a.operation, h) && o.validate(ids[0], a, h) == None ==>
      Validate(NewMulti(Leaves(ids)), a, h, o) == Validate(NewMulti(Leaves(ids[1..])), a, h + [Call(ids[0], a)], o)
  {
    if ids != [] {
      var vs := Leaves(ids);
      assert vs[0] == Leaf(ids[0]) && vs[1..] == Leaves(ids[1..]);
      assert Guarded(vs[0], a, h, o) == if o.handles(ids[0], a.operation, h) then Called(ids[0], a, h, o) else Outcome(None, h);
    }
  }

  /** The plugin handles every operation. */
  lemma PluginExactly(evaluator: nat, a: Attributes, h: seq<Call>, o: Outside)
    ensures Handles(Plugin(evaluator), a.operation, h, o)
    ensures
      var exempt := a.resource.group in {"admissionregistration.k8s.io", "admissionregistration.x-k8s.io"}
        && a.resource.resource in {"validatingadmissionpolicies", "validatingadmissionpolicybindings"};
      Validate(Plugin(evaluator), a, h, o) ==
        if exempt then Outcome(None, h)
        else if true in o.polls(evaluator, h) then Outcome(o.validate(evaluator, a, h), h + [Call(evaluator, a)])
        else Outcome(Some(StatusError(403, "Forbidden", o.forbidden(a))), h)
  {
  }

  // ---------------------------------------------------------------------------------------
  // Which calls are made, and which error is returned
  // ---------------------------------------------------------------------------------------

  /** The calls made between two moments were all about `a`, and none was answered by an error. */
  ghost predicate Passed(h: seq<Call>, later: seq<Call>, a: Attributes, o: Outside) {
    && |h| <= |later| && later[..|h|] == h
    && (forall k | |h| <= k < |later| :: later[k].attributes == a && Answer(later, k, a, o) == None)
  }

  ghost function Answer(h: seq<Call>, k: nat, a: Attributes, o: Outside): Option<Error>
    requires k < |h|
  {
    o.validate(h[k].id, a, h[..k])
  }

  /** No error means that every call passed; an error is the answer to the last call, or comes from a
      plugin that waited in vain. */
  ghost predicate Explained(h: seq<Call>, out: Outcome, a: Attributes, o: Outside) {
    if out.error == None then Passed(h, out.history, a, o)
    else
      || (Passed(h, out.history, a, o) && out.error == Some(StatusError(403, "Forbidden", o.forbidden(a))))
      || (&& |h| < |out.history|
          && Passed(h, out.history[..|out.history| - 1], a, o)
          && out.history[|out.history| - 1].attributes == a
          && Answer(out.history, |out.history| - 1, a, o) == out.error)
  }

  lemma PassedBoth(h: seq<Call>, i: seq<Call>, j: seq<Call>, a: Attributes, o: Outside)
    requires Passed(h, i, a, o) && Passed(i, j, a, o)
    ensures Passed(h, j, a, o)
  {
    assert j[..|h|] == i[..|h|];
    forall k | |h| <= k < |j|
      ensures j[k].attributes == a && Answer(j, k, a, o) == None
    {
      if k < |i| {
        assert j[k] == j[..|i|][k] == i[k] && j[..k] == i[..k];
        assert Answer(i, k, a, o) == None;
      }
    }
  }

  lemma CalledIsExplained(id: nat, a: Attributes, h: seq<Call>, o: Outside)
    ensures Explained(h, Called(id, a, h, o), a, o)
  {
    var out := Called(id, a, h, o);
    assert out.history[..|h|] == h;
  }

  lemma {:induction false} ValidateIsExplained(v: Validator, a: Attributes, h: seq<Call>, o: Outside)
    ensures Explained(h, Validate(v, a, h, o), a, o)
    decreases v, 0
  {
    match v
    case Leaf(id) => CalledIsExplained(id, a, h, o);
    case Multi(vs) => ValidateAllIsExplained(vs, a, h, o);
    case Plugin(evaluator) => CalledIsExplained(evaluator, a, h, o);
  }

  lemma {:induction false} ValidateAllIsExplained(vs: seq<Validator>, a: Attributes, h: seq<Call>, o: Outside)
    ensures Explained(h, ValidateAll(vs, a, h, o), a, o)
    decreases vs
  {
    hide Validate;
    if vs != [] {
      var first := Guarded(vs[0], a, h, o);
      ValidateIsExplained(vs[0], a, h, o);
      if first.error == None {
        ValidateAllIsExplained(vs[1..], a, first.history, o);
        ExplainedBoth(h, first.history, ValidateAll(vs[1..], a, first.history, o), a, o);
      }
    }
  }

  lemma ExplainedBoth(h: seq<Call>, i: seq<Call>, out: Outcome, a: Attributes, o: Outside)
    requires Passed(h, i, a, o) && Explained(i, out, a, o)
    ensures Explained(h, out, a, o)
  {
    if Passed(i, out.history, a, o) {
      PassedBoth(h, i, out.history, a, o);
    }
    if |i| < |out.history| && Passed(i, out.history[..|out.history| - 1], a, o) {
      PassedBoth(h, i, out.history[..|out.history| - 1], a, o);
    }
  }

  // ---------------------------------------------------------------------------------------
  // Validators without memory
  // ---------------------------------------------------------------------------------------

  /** Answers do not depend on the calls made so far. */
  ghost predicate Steady(o: Outside) {
    && (forall id, operation, h :: o.handles(id, operation, h) == o.handles(id, operation, []))
    && (forall id, a, h :: o.validate(id, a, h) == o.validate(id, a, []))
    && (forall id, h :: o.polls(id, h) == o.polls(id, []))
  }

  ghost predicate Fails(v: Validator, a: Attributes, o: Outside) {
    Guarded(v, a, [], o).error.Some?
  }

  /** The calls that each of a row of validators makes when asked alone. */
  ghost function CallsOf(vs: seq<Validator>, a: Attributes, o: Outside): seq<Call> {
    if vs == [] then [] else Guarded(vs[0], a, [], o).history + CallsOf(vs[1..], a, o)
  }

  lemma SteadyPart(v: Validator, a: Attributes, h: seq<Call>, o: Outside)
    requires Steady(o) && !v.Multi?
    ensures Guarded(v, a, h, o).error == Guarded(v, a, [], o).error
    ensures Guarded(v, a, h, o).history == h + Guarded(v, a, [], o).history
  {
  }

  /** The error is that of the first part that fails when asked alone; the calls are those of the
      parts up to it. */
  lemma {:induction false} FirstFailure(vs: seq<Validator>, a: Attributes, h: seq<Call>, o: Outside) returns (k: nat)
    requires Steady(o) && forall v | v in vs :: !v.Multi?
    ensures k <= |vs| && forall i | 0 <= i < k :: !Fails(vs[i], a, o)
    ensures var out := ValidateAll(vs, a, h, o);
      if k == |vs| then (out.error == None && out.history == h + CallsOf(vs, a, o))
      else (Fails(vs[k], a, o) && out.error == Guarded(vs[k], a, [], o).error
            && out.history == h + CallsOf(vs[..k + 1], a, o))
    decreases |vs|
  {
    hide Guarded, Steady;
    k := 0;
    if vs != [] {
      SteadyPart(vs[0], a, h, o);
      var first := Guarded(vs[0], a, h, o);
      if first.error == None {
        k := FirstFailure(vs[1..], a, first.history, o);
        k := k + 1;
        if k < |vs| {
          assert vs[..k + 1][1..] == vs[1..][..k];
        }
      } else {
        assert vs[..1][1..] == [];
      }
    }
  }

  /** A composition passes exactly if every part that handles the operation passes. */
  lemma PassesExactly(vs: seq<Validator>, a: Attributes, h: seq<Call>, o: Outside)
    requires Steady(o)
    ensures Validate(NewMulti(vs), a, h, o).error == None
      <==> (forall v | v in PartsOf(vs) && Handles(v, a.operation, [], o) :: Validate(v, a, [], o).error == None)
  {
    PartsAreSingle(vs);
    ValidateIsFlat(vs, a, h, o);
    var ps := PartsOf(vs);
    var k := FirstFailure(ps, a, h, o);
    if k == |ps| {
      forall v | v in ps && Handles(v, a.operation, [], o)
        ensures Validate(v, a, [], o).error == None
      {
        var i :| 0 <= i < |ps| && ps[i] == v;
        assert !Fails(ps[i], a, o);
      }
    } else {
      assert ps[k] in ps && Fails(ps[k], a, o);
    }
  }

  lemma {:induction false} PartIsSingle(v: Validator)
    ensures forall p | p in Parts(v) :: !p.Multi?
    decreases v
  {
    if v.Multi? {
      PartsAreSingle(v.validators);
    }
  }

  lemma {:induction false} PartsAreSingle(vs: seq<Validator>)
    ensures forall p | p in PartsOf(vs) :: !p.Multi?
    decreases vs
  {
    if vs != [] {
      PartIsSingle(vs[0]);
      PartsAreSingle(vs[1..]);
    }
  }

  // ---------------------------------------------------------------------------------------
  // The validators at work
  // ---------------------------------------------------------------------------------------

  /** Validators, with the calls that were made of those outside. */
  class World {
    const outside: Outside
    var history: seq<Call>

    constructor (outside: Outside)
      ensures this.outside == outside && history == []
    {
      this.outside, history := outside, [];
    }

    method CallHandles(v: Validator, operation: string) returns (handles: bool)
      ensures handles == Handles(v, operation, history, outside)
      decreases v
    {
      match v
      case Leaf(id) => handles := outside.handles(id, operation, history);
      case Plugin(_) => handles := true;
      case Multi(vs) =>
        for i := 0 to |vs|
          invariant !SomeHandles(vs[..i], operation, history, outside)
        {
          var one := CallHandles(vs[i], operation);
          if one {
            assert vs[i] in vs;
            return true;
          }
          assert vs[..i + 1] == vs[..i] + [vs[i]];
        }
        assert vs[..|vs|] == vs;
        handles := false;
    }

    method CallValidate(v: Validator, a: Attributes) returns (err: Option<Error>)
      modifies this
      ensures Outcome(err, history) == Validate(v, a, old(history), outside)
      decreases v
    {
      match v
      case Leaf(id) => err := CallOutside(id, a);
      case Plugin(evaluator) => err := CallPlugin(evaluator, a);
      case Multi(vs) =>
        for i := 0 to |vs|
          invariant ValidateAll(vs, a, old(history), outside) == ValidateAll(vs[i..], a, history, outside)
        {
          var handles := CallHandles(vs[i], a.operation);
          if !handles {
            continue;
          }
          err := CallValidate(vs[i], a);
          if err != None {
            return;
          }
        }
        err := None;
    }

    method CallOutside(id: nat, a: Attributes) returns (err: Option<Error>)
      modifies this
      ensures Outcome(err, history) == Called(id, a, old(history), outside)
    {
      err := outside.validate(id, a, history);
      history := history + [Call(id, a)];
    }

    method CallPlugin(evaluator: nat, a: Attributes) returns (err: Option<Error>)
      modifies this
      ensures Outcome(err, history) == Validate(Plugin(evaluator), a, old(history), outside)
    {
      if IsPolicyResource(a.resource) {
        return None;
      }
      var polls := outside.polls(evaluator, history);
      for i := 0 to |polls|
        invariant true !in polls[..i]
        invariant history == old(history)
      {
        if polls[i] {
          err := CallOutside(evaluator, a);
          return;
        }
      }
      assert polls[..|polls|] == polls;
      err := Some(StatusError(403, "Forbidden", outside.forbidden(a)));
    }
  }
}
