/** A client for objects of one type that stores objects of another: every request is converted on
    the way in and every answer on the way out. */
module TransformedClient {
  import opened ApiServer
  import opened Wrappers

  type Converter<!A, !B> = A -> Result<B, string>

  // ---------------------------------------------------------------------------------------
  // The client object
  // ---------------------------------------------------------------------------------------

  /** The typed client for the replacement resource. */
  class ReplacementClient<R> {
    const schema: Schema<R>
    var store: Store<R>

    constructor (schema: Schema<R>)
      ensures this.schema == schema && store == Store([], 0)
    {
      this.schema, store := schema, Store([], 0);
    }

    method Request(op: Op<R>) returns (out: Outcome<R>)
      modifies this
      ensures (store, out) == Serve(schema, old(store), op)
    {
      var (after, answer) := Serve(schema, store, op);
      store, out := after, answer;
    }
  }

  function ConvertAll<A, B>(convert: Converter<A, B>, xs: seq<A>): Result<seq<B>, string> {
    if xs == [] then Ok([])
    else
      match convert(xs[0])
      case Err(e) => Err(e)
      case Ok(y) =>
        match ConvertAll(convert, xs[1..])
        case Err(e) => Err(e)
        case Ok(ys) => Ok([y] + ys)
  }

  lemma {:induction false} ConvertAllSplit<A, B>(convert: Converter<A, B>, xs: seq<A>, ys: seq<A>)
    ensures ConvertAll(convert, xs + ys) ==
              match ConvertAll(convert, xs)
              case Err(e) => Err(e)
              case Ok(us) =>
                match ConvertAll(convert, ys)
                case Err(e) => Err(e)
                case Ok(vs) => Ok(us + vs)
  {
    if xs == [] {
      assert xs + ys == ys;
      assert ConvertAll(convert, ys).Ok? ==> [] + ConvertAll(convert, ys).value == ConvertAll(convert, ys).value;
    } else {
      assert (xs + ys)[1..] == xs[1..] + ys;
      ConvertAllSplit(convert, xs[1..], ys);
      if convert(xs[0]).Ok? && ConvertAll(convert, xs[1..]).Ok? && ConvertAll(convert, ys).Ok? {
        var u, us, vs := convert(xs[0]).value, ConvertAll(convert, xs[1..]).value, ConvertAll(convert, ys).value;
        assert [u] + (us + vs) == ([u] + us) + vs;
      }
    }
  }

  /** Converting one item more; the first that cannot be converted decides the outcome. */
  lemma ConvertNext<A, B>(convert: Converter<A, B>, xs: seq<A>, i: nat)
    requires i < |xs| && ConvertAll(convert, xs[..i]).Ok?
    ensures
      match convert(xs[i])
      case Err(e) => ConvertAll(convert, xs) == Err(e)
      case Ok(y) => ConvertAll(convert, xs[..i + 1]) == Ok(ConvertAll(convert, xs[..i]).value + [y])
  {
    ConvertAllSplit(convert, xs[..i], xs[i..]);
    ConvertAllSplit(convert, xs[..i], [xs[i]]);
    assert xs[..i] + xs[i..] == xs && xs[..i] + [xs[i]] == xs[..i + 1];
    assert [xs[i]][1..] == [] && convert(xs[i]).Ok? ==> [convert(xs[i]).value] + [] == [convert(xs[i]).value];
  }

  /** An answer on its way out: objects are converted, of a list only the items are kept. */
  function Answer<T, R>(to: Converter<R, T>, out: Outcome<R>): Outcome<T> {
    match out
    case Returned(r) => (match to(r) case Err(e) => Refused(NotConverted(e)) case Ok(t) => Returned(t))
    case Listed(_, items) => (
      match ConvertAll(to, items) case Err(e) => Refused(NotConverted(e)) case Ok(ts) => Listed(0, ts))
    case Done => Done
    case Refused(refusal) => Refused(refusal)
  }

  /** A request on its way in. */
  function Ask<T, R>(from: Converter<T, R>, op: Op<T>): Result<Op<R>, string> {
    match op
    case Create(t) => (match from(t) case Err(e) => Err(e) case Ok(r) => Ok(Create(r)))
    case Update(t) => (match from(t) case Err(e) => Err(e) case Ok(r) => Ok(Update(r)))
    case UpdateStatus(t) => (match from(t) case Err(e) => Err(e) case Ok(r) => Ok(UpdateStatus(r)))
    case Get(name) => Ok(Get(name))
    case Delete(name) => Ok(Delete(name))
    case DeleteCollection => Ok(DeleteCollection)
    case List => Ok(List)
  }

  /** A request through the wrapped client: what it does to the store, and its answer. */
  function Through<T, R>(schema: Schema<R>, to: Converter<R, T>, from: Converter<T, R>, store: Store<R>, op: Op<T>)
    : (Store<R>, Outcome<T>)
  {
    match Ask(from, op)
    case Err(e) => (store, Refused(NotConverted(e)))
    case Ok(asked) =>
      var (after, out) := Serve(schema, store, asked);
      (after, Answer(to, out))
  }

  class TransformedClient<T, R> {
    const to: Converter<R, T>
    const from: Converter<T, R>
    const replacement: ReplacementClient<R>

    constructor (to: Converter<R, T>, from: Converter<T, R>, replacement: ReplacementClient<R>)
      ensures this.to == to && this.from == from && this.replacement == replacement
    {
      this.to, this.from, this.replacement := to, from, replacement;
    }

    method Create(object_: T) returns (out: Outcome<T>)
      modifies replacement
      ensures (replacement.store, out) == Through(replacement.schema, to, from, old(replacement.store), Op.Create(object_))
    {
      var converted := from(object_);
      if converted.Err? {
        return Refused(NotConverted(converted.error));
      }
      var answer := replacement.Request(Op.Create(converted.value));
      out := ToAnswer(answer);
    }

    method Update(object_: T) returns (out: Outcome<T>)
      modifies replacement
      ensures (replacement.store, out) == Through(replacement.schema, to, from, old(replacement.store), Op.Update(object_))
    {
      var converted := from(object_);
      if converted.Err? {
        return Refused(NotConverted(converted.error));
      }
      var answer := replacement.Request(Op.Update(converted.value));
      out := ToAnswer(answer);
    }

    method UpdateStatus(object_: T) returns (out: Outcome<T>)
      modifies replacement
      ensures (replacement.store, out)
           == Through(replacement.schema, to, from, old(replacement.store), Op.UpdateStatus(object_))
    {
      var converted := from(object_);
      if converted.Err? {
        return Refused(NotConverted(converted.error));
      }
      var answer := replacement.Request(Op.UpdateStatus(converted.value));
      out := ToAnswer(answer);
    }

    method Get(name: string) returns (out: Outcome<T>)
      modifies replacement
      ensures (replacement.store, out) == Through(replacement.schema, to, from, old(replacement.store), Op.Get(name))
    {
      var answer := replacement.Request(Op.Get(name));
      out := ToAnswer(answer);
    }

    method Delete(name: string) returns (out: Outcome<T>)
      modifies replacement
      ensures (replacement.store, out) == Through(replacement.schema, to, from, old(replacement.store), Op.Delete(name))
    {
      var answer := replacement.Request(Op.Delete(name));
      out := if answer.Refused? then Refused(answer.refusal) else Done;
    }

    method DeleteCollection() returns (out: Outcome<T>)
      modifies replacement
      ensures (replacement.store, out)
           == Through(replacement.schema, to, from, old(replacement.store), Op.DeleteCollection)
    {
      var answer := replacement.Request(Op.DeleteCollection);
      out := Done;
    }

    method List() returns (out: Outcome<T>)
      modifies replacement
      ensures (replacement.store, out) == Through(replacement.schema, to, from, old(replacement.store), Op.List)
    {
      var value := replacement.Request(Op.List);
      var items := value.items;
      var newItems := [];
      for i := 0 to |items|
        invariant ConvertAll(to, items[..i]) == Ok(newItems)
        modifies {}
      {
        var converted := to(items[i]);
        ConvertNext(to, items, i);
        if converted.Err? {
          return Refused(NotConverted(converted.error));
        }
        newItems := newItems + [converted.value];
      }
      assert items[..|items|] == items;
      out := Listed(0, newItems);
    }

    method ToAnswer(answer: Outcome<R>) returns (out: Outcome<T>)
      requires answer.Returned? || answer.Refused?
      ensures out == Answer(to, answer)
    {
      if answer.Refused? {
        return Refused(answer.refusal);
      }
      var converted := to(answer.object_);
      if converted.Err? {
        return Refused(NotConverted(converted.error));
      }
      out := Returned(converted.value);
    }
  }

  // ---------------------------------------------------------------------------------------
  // What the client answers
  // ---------------------------------------------------------------------------------------

  lemma {:induction false} ConvertAllExactly<A, B>(convert: Converter<A, B>, xs: seq<A>)
    ensures
      match ConvertAll(convert, xs)
      case Ok(ys) => |ys| == |xs| && forall i | 0 <= i < |xs| :: convert(xs[i]) == Ok(ys[i])
      case Err(e) =>
        exists k | 0 <= k < |xs| :: convert(xs[k]) == Err(e) && forall j | 0 <= j < k :: convert(xs[j]).Ok?
  {
    if xs != [] {
      ConvertAllExactly(convert, xs[1..]);
      match convert(xs[0])
      case Err(e) => assert convert(xs[0]) == Err(e);
      case Ok(y) =>
        match ConvertAll(convert, xs[1..])
        case Ok(ys) =>
        case Err(e) =>
          var k :| 0 <= k < |xs| - 1 && convert(xs[1..][k]) == Err(e) && forall j | 0 <= j < k :: convert(xs[1..][j]).Ok?;
          assert convert(xs[k + 1]) == Err(e);
          forall j | 0 <= j < k + 1 ensures convert(xs[j]).Ok? {
            if j > 0 {
              assert xs[j] == xs[1..][j - 1];
            }
          }
    }
  }

  /** A list has every stored object, converted, in order; or else it is refused with the error of the first
      object that cannot be converted. Listing changes nothing. */
  lemma ListExactly<T, R>(schema: Schema<R>, to: Converter<R, T>, from: Converter<T, R>, store: Store<R>)
    ensures
      var (after, out) := Through(schema, to, from, store, Op.List);
      && after == store
      && (if forall i | 0 <= i < |store.objects| :: to(store.objects[i]).Ok? then
            (&& out.Listed? && |out.items| == |store.objects|
             && forall i | 0 <= i < |store.objects| :: to(store.objects[i]) == Ok(out.items[i]))
          else
            (exists k | 0 <= k < |store.objects| ::
               && to(store.objects[k]).Err? && out == Refused(NotConverted(to(store.objects[k]).error))
               && forall j | 0 <= j < k :: to(store.objects[j]).Ok?))
  {
    ConvertAllExactly(to, store.objects);
  }

  /** What the server has answered, on the way out. */
  ghost predicate Shown<T, R>(to: Converter<R, T>, answer: Outcome<R>, out: Outcome<T>) {
    && (answer.Returned? && to(answer.object_).Ok? ==> out == Returned(to(answer.object_).value))
    && (answer.Returned? && to(answer.object_).Err? ==> out == Refused(NotConverted(to(answer.object_).error)))
    && (answer.Refused? ==> out == Refused(answer.refusal))
    && (answer.Done? ==> out == Done)
  }

  /** A write is refused, and nothing is asked of the server, if its object cannot be converted; otherwise the
      server is asked to write the converted object. */
  lemma WritesExactly<T, R>(schema: Schema<R>, to: Converter<R, T>, from: Converter<T, R>, store: Store<R>, t: T)
    ensures from(t).Err? ==>
      var refused := (store, Refused(NotConverted(from(t).error)));
      && Through(schema, to, from, store, Op.Create(t)) == refused
      && Through(schema, to, from, store, Op.Update(t)) == refused
      && Through(schema, to, from, store, Op.UpdateStatus(t)) == refused
    ensures from(t).Ok? ==>
      var r := from(t).value;
      var create, update := Through(schema, to, from, store, Op.Create(t)), Through(schema, to, from, store, Op.Update(t));
      var status := Through(schema, to, from, store, Op.UpdateStatus(t));
      && create.0 == Serve(schema, store, Op.Create(r)).0 && Shown(to, Serve(schema, store, Op.Create(r)).1, create.1)
      && update.0 == Serve(schema, store, Op.Update(r)).0 && Shown(to, Serve(schema, store, Op.Update(r)).1, update.1)
      && status.0 == Serve(schema, store, Op.UpdateStatus(r)).0
      && Shown(to, Serve(schema, store, Op.UpdateStatus(r)).1, status.1)
  {
    hide Replace, Find;
  }

  lemma OthersExactly<T, R>(schema: Schema<R>, to: Converter<R, T>, from: Converter<T, R>, store: Store<R>, name: string)
    ensures
      var get, delete := Through(schema, to, from, store, Op.Get(name)), Through(schema, to, from, store, Op.Delete(name));
      var collection := Through(schema, to, from, store, Op.DeleteCollection);
      && get.0 == store && Shown(to, Serve(schema, store, Op.Get(name)).1, get.1)
      && delete.0 == Serve(schema, store, Op.Delete(name)).0 && Shown(to, Serve(schema, store, Op.Delete(name)).1, delete.1)
      && collection == (Store([], store.clock + 1), Done)
  {
    hide Replace, Find;
  }

  // ---------------------------------------------------------------------------------------
  // Simulation
  // ---------------------------------------------------------------------------------------

  /** A conversion that keeps what the server looks at: it keeps names and versions, and converting
      after the server has stamped or merged objects is the same as before. */
  ghost predicate Coherent<T(!new), R(!new)>(native: Schema<T>, custom: Schema<R>, from: Converter<T, R>) {
    && (forall t | from(t).Ok? :: native.name(t) == custom.name(from(t).value))
    && (forall t | from(t).Ok? :: native.version(t) == custom.version(from(t).value))
    && (forall t, n | from(t).Ok? :: from(native.stamp(t, n)) == Ok(custom.stamp(from(t).value, n)))
    && (forall t, u, b | from(t).Ok? && from(u).Ok? ::
          from(native.merge(t, u, b)) == Ok(custom.merge(from(t).value, from(u).value, b)))
  }

  /** The custom store holds the native objects, converted one by one. */
  ghost predicate Mirrors<T, R>(from: Converter<T, R>, native: Store<T>, custom: Store<R>) {
    && native.clock == custom.clock && |native.objects| == |custom.objects|
    && forall i | 0 <= i < |native.objects| :: from(native.objects[i]) == Ok(custom.objects[i])
  }

  /** A native server that refuses what cannot be converted. */
  function Guarded<T, R>(schema: Schema<T>, from: Converter<T, R>, store: Store<T>, op: Op<T>): (Store<T>, Outcome<T>) {
    match Ask(from, op)
    case Err(e) => (store, Refused(NotConverted(e)))
    case Ok(_) => Serve(schema, store, op)
  }

  /** Both conversions, in and out. */
  function InAndOut<T, R>(to: Converter<R, T>, from: Converter<T, R>): Converter<T, T> {
    t => match from(t) case Err(e) => Err(e) case Ok(r) => to(r)
  }

  /** An answer of a native server as the wrapped client gives it: objects that have been through
      both conversions, and no list version. */
  function Viewed<T, R>(to: Converter<R, T>, from: Converter<T, R>, out: Outcome<T>): Outcome<T> {
    Answer(InAndOut(to, from), out)
  }

  lemma {:induction false} SameIndex<T(!new), R(!new)>(native: Schema<T>, custom: Schema<R>, from: Converter<T, R>,
                                       ts: seq<T>, rs: seq<R>, name: string)
    requires |ts| == |rs| && forall i | 0 <= i < |ts| :: from(ts[i]) == Ok(rs[i])
    requires forall t | from(t).Ok? :: native.name(t) == custom.name(from(t).value)
    ensures Find(native, ts, name) == Find(custom, rs, name)
  {
    if ts != [] {
      assert from(ts[0]) == Ok(rs[0]);
      SameIndex(native, custom, from, ts[1..], rs[1..], name);
    }
  }

  lemma {:induction false} SameItems<T, R>(to: Converter<R, T>, from: Converter<T, R>, view: Converter<T, T>,
                                           ts: seq<T>, rs: seq<R>)
    requires |ts| == |rs| && forall i | 0 <= i < |ts| :: from(ts[i]) == Ok(rs[i])
    requires forall i | 0 <= i < |ts| :: view(ts[i]) == to(rs[i])
    ensures ConvertAll(view, ts) == ConvertAll(to, rs)
  {
    if ts != [] {
      assert view(ts[0]) == to(rs[0]);
      SameItems(to, from, view, ts[1..], rs[1..]);
    }
  }

  /** One request: the wrapped client answers as the native server would, and the stores still
      mirror each other. */
  lemma StepSimulates<T(!new), R(!new)>(native: Schema<T>, custom: Schema<R>, to: Converter<R, T>, from: Converter<T, R>,
                                        ts: Store<T>, rs: Store<R>, op: Op<T>)
    requires Coherent(native, custom, from) && Mirrors(from, ts, rs)
    ensures
      var (ts', expected) := Guarded(native, from, ts, op);
      var (rs', out) := Through(custom, to, from, rs, op);
      Mirrors(from, ts', rs') && out == Viewed(to, from, expected)
  {
    hide Coherent, Mirrors, Viewed, Answer;
    match op
    case Create(t) => CreateSimulates(native, custom, to, from, ts, rs, t);
    case Update(t) => WriteSimulates(native, custom, to, from, ts, rs, t, false);
    case UpdateStatus(t) => WriteSimulates(native, custom, to, from, ts, rs, t, true);
    case Get(name) => OtherSimulates(native, custom, to, from, ts, rs, op, name);
    case Delete(name) => OtherSimulates(native, custom, to, from, ts, rs, op, name);
    case DeleteCollection => OtherSimulates(native, custom, to, from, ts, rs, op, "");
    case List => ListSimulates(to, from, native, custom, ts, rs);
  }

  lemma CreateSimulates<T(!new), R(!new)>(native: Schema<T>, custom: Schema<R>, to: Converter<R, T>, from: Converter<T, R>,
                                          ts: Store<T>, rs: Store<R>, t: T)
    requires Coherent(native, custom, from) && Mirrors(from, ts, rs)
    ensures
      var (ts', expected) := Guarded(native, from, ts, Op.Create(t));
      var (rs', out) := Through(custom, to, from, rs, Op.Create(t));
      Mirrors(from, ts', rs') && out == Viewed(to, from, expected)
  {
    if from(t).Ok? {
      SameIndex(native, custom, from, ts.objects, rs.objects, native.name(t));
    }
  }

  lemma WriteSimulates<T(!new), R(!new)>(native: Schema<T>, custom: Schema<R>, to: Converter<R, T>, from: Converter<T, R>,
                                         ts: Store<T>, rs: Store<R>, t: T, ofStatus: bool)
    requires Coherent(native, custom, from) && Mirrors(from, ts, rs)
    ensures
      var op := if ofStatus then Op.UpdateStatus(t) else Op.Update(t);
      var (ts', expected) := Guarded(native, from, ts, op);
      var (rs', out) := Through(custom, to, from, rs, op);
      Mirrors(from, ts', rs') && out == Viewed(to, from, expected)
  {
    hide Coherent, Mirrors, Replace;
    ReplaceSimulates(native, custom, to, from, ts, rs, t, ofStatus);
  }

  lemma OtherSimulates<T(!new), R(!new)>(native: Schema<T>, custom: Schema<R>, to: Converter<R, T>, from: Converter<T, R>,
                                         ts: Store<T>, rs: Store<R>, op: Op<T>, name: string)
    requires Coherent(native, custom, from) && Mirrors(from, ts, rs)
    requires op == Get(name) || op == Delete(name) || op == DeleteCollection
    ensures
      var (ts', expected) := Guarded(native, from, ts, op);
      var (rs', out) := Through(custom, to, from, rs, op);
      Mirrors(from, ts', rs') && out == Viewed(to, from, expected)
  {
    SameIndex(native, custom, from, ts.objects, rs.objects, name);
    var i := Find(native, ts.objects, name);
    if op.Delete? && i < |ts.objects| {
      DropMirrors(from, ts.objects, rs.objects, i);
    }
  }

  lemma DropMirrors<T, R>(from: Converter<T, R>, ts: seq<T>, rs: seq<R>, i: nat)
    requires |ts| == |rs| && i < |ts| && forall j | 0 <= j < |ts| :: from(ts[j]) == Ok(rs[j])
    ensures
      var ts', rs' := ts[..i] + ts[i + 1..], rs[..i] + rs[i + 1..];
      |ts'| == |rs'| && forall j | 0 <= j < |ts'| :: from(ts'[j]) == Ok(rs'[j])
  {
    var ts', rs' := ts[..i] + ts[i + 1..], rs[..i] + rs[i + 1..];
    forall j | 0 <= j < |ts'| ensures from(ts'[j]) == Ok(rs'[j]) {
      var k := if j < i then j else j + 1;
      assert ts'[j] == ts[k] && rs'[j] == rs[k];
    }
  }

  lemma ListSimulates<T, R>(to: Converter<R, T>, from: Converter<T, R>, native: Schema<T>, custom: Schema<R>,
                            ts: Store<T>, rs: Store<R>)
    requires Mirrors(from, ts, rs)
    ensures
      var (ts', expected) := Guarded(native, from, ts, Op.List);
      var (rs', out) := Through(custom, to, from, rs, Op.List);
      Mirrors(from, ts', rs') && out == Viewed(to, from, expected)
  {
    SameItems(to, from, InAndOut(to, from), ts.objects, rs.objects);
  }

  lemma ReplaceSimulates<T(!new), R(!new)>(native: Schema<T>, custom: Schema<R>, to: Converter<R, T>, from: Converter<T, R>,
                                           ts: Store<T>, rs: Store<R>, t: T, ofStatus: bool)
    requires Coherent(native, custom, from) && Mirrors(from, ts, rs)
    ensures from(t).Ok? ==>
      var (ts', expected) := Replace(native, ts, t, ofStatus);
      var (rs', out) := Replace(custom, rs, from(t).value, ofStatus);
      Mirrors(from, ts', rs') && Answer(to, out) == Viewed(to, from, expected)
  {
    if from(t).Ok? {
      SameIndex(native, custom, from, ts.objects, rs.objects, native.name(t));
    }
  }

  // ---------------------------------------------------------------------------------------
  // Histories
  // ---------------------------------------------------------------------------------------

  function Outcomes<T, R>(schema: Schema<R>, to: Converter<R, T>, from: Converter<T, R>, store: Store<R>, ops: seq<Op<T>>)
    : (Store<R>, seq<Outcome<T>>)
    decreases |ops|
  {
    if ops == [] then (store, [])
    else
      var (next, out) := Through(schema, to, from, store, ops[0]);
      var (last, outs) := Outcomes(schema, to, from, next, ops[1..]);
      (last, [out] + outs)
  }

  /** The answers a native server would give, as the wrapped client would show them. */
  function Expected<T, R>(schema: Schema<T>, to: Converter<R, T>, from: Converter<T, R>, store: Store<T>, ops: seq<Op<T>>)
    : (Store<T>, seq<Outcome<T>>)
    decreases |ops|
  {
    if ops == [] then (store, [])
    else
      var (next, out) := Guarded(schema, from, store, ops[0]);
      var (last, outs) := Expected(schema, to, from, next, ops[1..]);
      (last, [Viewed(to, from, out)] + outs)
  }

  /** One answer for each request, given in the state that the requests before it have led to. */
  lemma {:induction false} OutcomesAt<T, R>(
    schema: Schema<R>, to: Converter<R, T>, from: Converter<T, R>, store: Store<R>, ops: seq<Op<T>>, i: nat)
    requires i < |ops|
    ensures
      var outs := Outcomes(schema, to, from, store, ops).1;
      var before := Outcomes(schema, to, from, store, ops[..i]).0;
      && |outs| == |ops| && outs[i] == Through(schema, to, from, before, ops[i]).1
      && Outcomes(schema, to, from, store, ops[..i + 1]).0 == Through(schema, to, from, before, ops[i]).0
    decreases |ops|
  {
    hide Through;
    OutcomesLength(schema, to, from, store, ops);
    if i == 0 {
      assert ops[..1][1..] == [];
    } else {
      OutcomesAt(schema, to, from, Through(schema, to, from, store, ops[0]).0, ops[1..], i - 1);
      assert ops[..i][1..] == ops[1..][..i - 1] && ops[..i + 1][1..] == ops[1..][..i];
    }
  }

  lemma {:induction false} OutcomesLength<T, R>(
    schema: Schema<R>, to: Converter<R, T>, from: Converter<T, R>, store: Store<R>, ops: seq<Op<T>>)
    ensures |Outcomes(schema, to, from, store, ops).1| == |ops|
    decreases |ops|
  {
    hide Through;
    if ops != [] {
      OutcomesLength(schema, to, from, Through(schema, to, from, store, ops[0]).0, ops[1..]);
    }
  }

  /** Over every history of requests, convertible or not, the wrapped client is a native server:
      same answers up to what both conversions change in an object and the version of a list, and
      a request that cannot be converted does nothing. */
  lemma {:induction false} ClientSimulates<T(!new), R(!new)>(
    native: Schema<T>, custom: Schema<R>, to: Converter<R, T>, from: Converter<T, R>,
    ts: Store<T>, rs: Store<R>, ops: seq<Op<T>>)
    requires Coherent(native, custom, from) && Mirrors(from, ts, rs)
    ensures Outcomes(custom, to, from, rs, ops).1 == Expected(native, to, from, ts, ops).1
    ensures Mirrors(from, Expected(native, to, from, ts, ops).0, Outcomes(custom, to, from, rs, ops).0)
    decreases |ops|
  {
    hide Coherent, Mirrors, Guarded, Through, Viewed;
    if ops != [] {
      StepSimulates(native, custom, to, from, ts, rs, ops[0]);
      ClientSimulates(native, custom, to, from, Guarded(native, from, ts, ops[0]).0,
                      Through(custom, to, from, rs, ops[0]).0, ops[1..]);
    }
  }

  // ---------------------------------------------------------------------------------------
  // Writes that are reported as failed
  // ---------------------------------------------------------------------------------------

  predicate IsWrite<T>(op: Op<T>) {
    op.Create? || op.Update? || op.UpdateStatus?
  }

  /** The request is answered with an error, but has changed the store. */
  ghost predicate Misreported<T, R>(schema: Schema<R>, to: Converter<R, T>, from: Converter<T, R>, store: Store<R>, op: Op<T>) {
    var (after, out) := Through(schema, to, from, store, op);
    out.Refused? && after != store
  }

  /** What the server answers to a write can be converted back. */
  predicate AnswerConverts<T, R>(schema: Schema<R>, to: Converter<R, T>, from: Converter<T, R>, store: Store<R>, op: Op<T>) {
    IsWrite(op) && Ask(from, op).Ok? ==>
      var out := Serve(schema, store, Ask(from, op).value).1;
      out.Returned? ==> to(out.object_).Ok?
  }

  /** A request is misreported exactly if it is a write that the server makes and whose answer cannot
      be converted back; of a refused write that is not misreported, nothing is stored. */
  lemma MisreportedExactly<T, R>(schema: Schema<R>, to: Converter<R, T>, from: Converter<T, R>, store: Store<R>, op: Op<T>)
    ensures Misreported(schema, to, from, store, op) <==> !AnswerConverts(schema, to, from, store, op)
    ensures
      var (after, out) := Through(schema, to, from, store, op);
      out.Refused? && IsWrite(op) ==>
        (after == store <==> Ask(from, op).Err? || Serve(schema, store, Ask(from, op).value).1.Refused?)
  {
    hide Find;
    var (after, out) := Through(schema, to, from, store, op);
    assert after != store ==> after.clock == store.clock + 1;
  }

  ghost predicate NeverMisreported<T, R>(schema: Schema<R>, to: Converter<R, T>, from: Converter<T, R>,
                                         store: Store<R>, ops: seq<Op<T>>)
    decreases |ops|
  {
    ops == [] ||
    (!Misreported(schema, to, from, store, ops[0])
     && NeverMisreported(schema, to, from, Through(schema, to, from, store, ops[0]).0, ops[1..]))
  }

  /** The requests that were not answered with an error. */
  ghost function Successes<T, R>(schema: Schema<R>, to: Converter<R, T>, from: Converter<T, R>,
                                 store: Store<R>, ops: seq<Op<T>>): seq<Op<T>>
    decreases |ops|
  {
    if ops == [] then []
    else
      var (next, out) := Through(schema, to, from, store, ops[0]);
      (if out.Refused? then [] else [ops[0]]) + Successes(schema, to, from, next, ops[1..])
  }

  /** As long as no request is misreported, the store is what the requests reported as successful have
      made of it. */
  lemma {:induction false} ErrorsLeaveNoTrace<T, R>(
    schema: Schema<R>, to: Converter<R, T>, from: Converter<T, R>, store: Store<R>, ops: seq<Op<T>>)
    requires NeverMisreported(schema, to, from, store, ops)
    ensures Outcomes(schema, to, from, store, Successes(schema, to, from, store, ops)).0
         == Outcomes(schema, to, from, store, ops).0
    decreases |ops|
  {
    hide Through;
    if ops != [] {
      var (next, out) := Through(schema, to, from, store, ops[0]);
      var rest := Successes(schema, to, from, next, ops[1..]);
      ErrorsLeaveNoTrace(schema, to, from, next, ops[1..]);
      if !out.Refused? {
        assert ([ops[0]] + rest)[1..] == rest;
      } else {
        assert [] + rest == rest;
      }
    }
  }

  lemma OutcomesOfTwo<T, R>(schema: Schema<R>, to: Converter<R, T>, from: Converter<T, R>, store: Store<R>, a: Op<T>, b: Op<T>)
    ensures
      var (next, first) := Through(schema, to, from, store, a);
      var (last, second) := Through(schema, to, from, next, b);
      Outcomes(schema, to, from, store, [a, b]) == (last, [first, second])
  {
    hide Through;
    var ops := [a, b];
    var (next, first) := Through(schema, to, from, store, a);
    var (last, second) := Through(schema, to, from, next, b);
    assert ops[1..] == [b] && [b][1..] == [];
    assert Outcomes(schema, to, from, last, [b][1..]) == (last, []);
    var outs: seq<Outcome<T>> := [second] + [];
    assert Outcomes(schema, to, from, next, [b]) == (last, outs);
    assert outs == [second] && [first] + [second] == [first, second];
  }

  /** A new object whose stored form cannot be converted back: the client is told that creating it has
      failed, it is stored all the same, and creating it again fails because it exists. */
  lemma CreatedThoughRefused<T, R>(schema: Schema<R>, to: Converter<R, T>, from: Converter<T, R>, t: T, r: R)
    requires from(t) == Ok(r) && schema.version(r) == 0
    requires to(schema.stamp(r, 1)).Err? && schema.name(schema.stamp(r, 1)) == schema.name(r)
    ensures Misreported(schema, to, from, Store([], 0), Op.Create(t))
    ensures
      var (after, outs) := Outcomes(schema, to, from, Store([], 0), [Op.Create(t), Op.Create(t)]);
      && after == Store([schema.stamp(r, 1)], 1)
      && outs == [Refused(NotConverted(to(schema.stamp(r, 1)).error)), Refused(AlreadyExists)]
  {
    var stored := Store([schema.stamp(r, 1)], 1);
    assert [] + [schema.stamp(r, 1)] == [schema.stamp(r, 1)];
    assert Through(schema, to, from, Store([], 0), Op.Create(t))
      == (stored, Refused(NotConverted(to(schema.stamp(r, 1)).error)));
    assert Find(schema, stored.objects, schema.name(r)) == 0;
    assert Through(schema, to, from, stored, Op.Create(t)) == (stored, Refused(AlreadyExists));
    OutcomesOfTwo(schema, to, from, Store([], 0), Op.Create(t), Op.Create(t));
  }

  /** Such an object: names that are written, but not read back. */
  lemma UnreadableInstance()
    ensures
      var schema: Schema<string> := Schema(x => x, x => 0, (x, n) => x, (x, y, b) => y);
      var to: Converter<string, string> := x => Err("unreadable");
      var from: Converter<string, string> := x => Ok(x);
      Misreported(schema, to, from, Store([], 0), Op.Create("a"))
  {
    var schema: Schema<string> := Schema(x => x, x => 0, (x, n) => x, (x, y, b) => y);
    CreatedThoughRefused(schema, x => Err("unreadable"), x => Ok(x), "a", "a");
  }

  // ---------------------------------------------------------------------------------------
  // Watching
  // ---------------------------------------------------------------------------------------

  /** The filter of a watch: watched objects are converted, or dropped if they cannot be; objects
      of other types pass. */
  function FilterEvent<T, R>(to: Converter<R, T>, event: Event<R>): Option<Event<T>> {
    match event.payload
    case Foreign(token) => Some(Event(event.ty, Foreign(token)))
    case Watched(r) =>
      match to(r)
      case Err(_) => None
      case Ok(t) => Some(Event(event.ty, Watched(t)))
  }

  /** The loop that passes a watch on through its filter. */
  method Watch<T, R>(to: Converter<R, T>, events: seq<Event<R>>) returns (out: seq<Event<T>>)
    ensures out == Filtered(to, events)
  {
    out := [];
    for i := 0 to |events|
      invariant Filtered(to, events) == out + Filtered(to, events[i..])
    {
      assert events[i..][1..] == events[i + 1..];
      match FilterEvent(to, events[i]) {
        case None =>
        case Some(event) => out := out + [event];
      }
    }
  }

  function Filtered<T, R>(to: Converter<R, T>, events: seq<Event<R>>): seq<Event<T>> {
    if events == [] then []
    else
      match FilterEvent(to, events[0])
      case None => Filtered(to, events[1..])
      case Some(event) => [event] + Filtered(to, events[1..])
  }

  /** A single event: its type stays; an object of another type passes; a watched object is converted, and
      the event dropped if it cannot be. */
  lemma FilterExactly<T, R>(to: Converter<R, T>, ty: EventType, token: string, r: R)
    ensures Filtered(to, [Event(ty, Foreign(token))]) == [Event(ty, Foreign(token))]
    ensures to(r).Ok? ==> Filtered(to, [Event(ty, Watched(r))]) == [Event(ty, Watched(to(r).value))]
    ensures to(r).Err? ==> Filtered(to, [Event(ty, Watched(r))]) == []
  {
    var foreign: seq<Event<R>> := [Event(ty, Foreign(token))];
    assert foreign[1..] == [] && [Event(ty, Watched(r))][1..] == [];
  }

  /** Events are filtered one by one, in order. */
  lemma {:induction false} FilterBoth<T, R>(to: Converter<R, T>, events: seq<Event<R>>, more: seq<Event<R>>)
    ensures Filtered(to, events + more) == Filtered(to, events) + Filtered(to, more)
    decreases |events|
  {
    hide FilterEvent;
    if events == [] {
      assert events + more == more;
    } else {
      assert (events + more)[1..] == events[1..] + more;
      FilterBoth(to, events[1..], more);
    }
  }

  /** The raw events whose conversions succeed. */
  function Convertible<T, R>(to: Converter<R, T>, events: seq<Event<R>>): seq<Event<R>> {
    if events == [] then []
    else if FilterEvent(to, events[0]) == None then Convertible(to, events[1..])
    else [events[0]] + Convertible(to, events[1..])
  }

  /** Converted objects keep their names. */
  ghost predicate KeepsNames<T, R(!new)>(native: Schema<T>, custom: Schema<R>, to: Converter<R, T>) {
    forall r | to(r).Ok? :: native.name(to(r).value) == custom.name(r)
  }

  ghost predicate Converts<T, R>(to: Converter<R, T>, rs: seq<R>, ts: seq<T>) {
    |rs| == |ts| && forall i | 0 <= i < |rs| :: to(rs[i]) == Ok(ts[i])
  }

  lemma {:induction false} ConvertsIsAll<T, R>(to: Converter<R, T>, rs: seq<R>, ts: seq<T>)
    ensures Converts(to, rs, ts) <==> ConvertAll(to, rs) == Ok(ts)
  {
    if rs != [] {
      if ts != [] {
        ConvertsIsAll(to, rs[1..], ts[1..]);
        assert ts == [ts[0]] + ts[1..];
        assert Converts(to, rs, ts) <==> to(rs[0]) == Ok(ts[0]) && Converts(to, rs[1..], ts[1..]) by {
          assert forall i | 0 <= i < |rs[1..]| :: rs[1..][i] == rs[i + 1];
          assert forall i | 1 <= i < |rs| :: rs[i] == rs[1..][i - 1];
          assert forall i | 1 <= i < |ts| :: ts[i] == ts[1..][i - 1];
        }
      }
    }
  }

  lemma {:induction false} SamePlace<T, R(!new)>(native: Schema<T>, custom: Schema<R>, to: Converter<R, T>,
                                                 rs: seq<R>, ts: seq<T>, name: string)
    requires KeepsNames(native, custom, to) && Converts(to, rs, ts)
    ensures Find(custom, rs, name) == Find(native, ts, name)
  {
    if rs != [] {
      assert to(rs[0]) == Ok(ts[0]);
      SamePlace(native, custom, to, rs[1..], ts[1..], name);
    }
  }

  lemma FoldConverts<T, R(!new)>(native: Schema<T>, custom: Schema<R>, to: Converter<R, T>,
                                 rs: seq<R>, ts: seq<T>, event: Event<R>)
    requires KeepsNames(native, custom, to) && Converts(to, rs, ts) && FilterEvent(to, event).Some?
    ensures Converts(to, Fold(custom, rs, event), Fold(native, ts, FilterEvent(to, event).value))
  {
    if event.payload.Watched? {
      SamePlace(native, custom, to, rs, ts, custom.name(event.payload.object_));
    }
  }

  /** List, then watch: a cache that starts from the converted list and follows the converted
      events is at every point the conversion of a cache that starts from the raw list and follows
      the raw events, those left out whose conversion fails. */
  lemma {:induction false} ListThenWatch<T, R(!new)>(
    native: Schema<T>, custom: Schema<R>, to: Converter<R, T>, rs: seq<R>, ts: seq<T>, events: seq<Event<R>>)
    requires KeepsNames(native, custom, to) && ConvertAll(to, rs) == Ok(ts)
    ensures ConvertAll(to, FoldAll(custom, rs, Convertible(to, events)))
         == Ok(FoldAll(native, ts, Filtered(to, events)))
    decreases |events|
  {
    hide KeepsNames, ConvertAll, Converts, Fold;
    if events != [] {
      var event, rest := events[0], events[1..];
      if FilterEvent(to, event) == None {
        ListThenWatch(native, custom, to, rs, ts, rest);
      } else {
        var converted := FilterEvent(to, event).value;
        ConvertsIsAll(to, rs, ts);
        FoldConverts(native, custom, to, rs, ts, event);
        ConvertsIsAll(to, Fold(custom, rs, event), Fold(native, ts, converted));
        ListThenWatch(native, custom, to, Fold(custom, rs, event), Fold(native, ts, converted), rest);
        assert ([event] + Convertible(to, rest))[1..] == Convertible(to, rest);
        assert ([converted] + Filtered(to, rest))[1..] == Filtered(to, rest);
      }
    }
  }

  /** The filter keeps order, types and foreign objects, and drops exactly what cannot be
      converted. */
  lemma {:induction false} WatchKeepsEvents<T, R>(to: Converter<R, T>, events: seq<Event<R>>)
    ensures |Filtered(to, events)| == |Convertible(to, events)|
    ensures forall i | 0 <= i < |Convertible(to, events)| ::
              FilterEvent(to, Convertible(to, events)[i]) == Some(Filtered(to, events)[i])
    ensures Convertible(to, events) == events <==> forall i | 0 <= i < |events| :: FilterEvent(to, events[i]).Some?
    ensures |Convertible(to, events)| <= |events|
  {
    if events != [] {
      WatchKeepsEvents(to, events[1..]);
      assert events == [events[0]] + events[1..];
      if FilterEvent(to, events[0]) != None {
        assert Convertible(to, events)[1..] == Convertible(to, events[1..]);
      }
    }
  }
}
