/** A store of API objects as a typed client sees it, the same for every object type. */
module ApiServer {
  import opened Wrappers

  /** What the server reads and writes in an object: its name, its resource version (0 if unset), and,
      in `merge(stored, sent, ofStatus)`, either the status of the object sent or the rest of it. */
  datatype Schema<!X> = Schema(
    name: X -> string,
    version: X -> nat,
    stamp: (X, nat) -> X,
    merge: (X, X, bool) -> X)

  datatype Store<X> = Store(objects: seq<X>, clock: nat)

  datatype Op<X> =
    | Create(object_: X)
    | Update(object_: X)
    | UpdateStatus(object_: X)
    | Get(name: string)
    | Delete(name: string)
    | DeleteCollection
    | List

  datatype Refusal = AlreadyExists | NotFound | Conflict | BadVersion | NotConverted(message: string)

  datatype Outcome<X> =
    | Returned(object_: X)
    | Listed(version: nat, items: seq<X>)
    | Done
    | Refused(refusal: Refusal)

  /** The index of the object of that name, or the number of objects. */
  function Find<X>(schema: Schema<X>, objects: seq<X>, name: string): (i: nat)
    ensures i <= |objects|
  {
    if objects == [] || schema.name(objects[0]) == name then 0 else 1 + Find(schema, objects[1..], name)
  }

  /** An update says which version it replaces. */
  function Replace<X>(schema: Schema<X>, store: Store<X>, sent: X, ofStatus: bool): (Store<X>, Outcome<X>) {
    var i := Find(schema, store.objects, schema.name(sent));
    if i == |store.objects| then (store, Refused(NotFound))
    else if schema.version(sent) == 0 then (store, Refused(BadVersion))
    else if schema.version(sent) != schema.version(store.objects[i]) then (store, Refused(Conflict))
    else
      var stored := schema.stamp(schema.merge(store.objects[i], sent, ofStatus), store.clock + 1);
      (Store(store.objects[i := stored], store.clock + 1), Returned(stored))
  }

  function Serve<X>(schema: Schema<X>, store: Store<X>, op: Op<X>): (Store<X>, Outcome<X>) {
    match op
    case Create(sent) =>
      if schema.version(sent) != 0 then (store, Refused(BadVersion))
      else if Find(schema, store.objects, schema.name(sent)) < |store.objects| then (store, Refused(AlreadyExists))
      else
        var stored := schema.stamp(sent, store.clock + 1);
        (Store(store.objects + [stored], store.clock + 1), Returned(stored))
    case Update(sent) => Replace(schema, store, sent, false)
    case UpdateStatus(sent) => Replace(schema, store, sent, true)
    case Get(name) =>
      var i := Find(schema, store.objects, name);
      (store, if i == |store.objects| then Refused(NotFound) else Returned(store.objects[i]))
    case Delete(name) =>
      var i := Find(schema, store.objects, name);
      if i == |store.objects| then (store, Refused(NotFound))
      else (Store(store.objects[..i] + store.objects[i + 1..], store.clock + 1), Done)
    case DeleteCollection => (Store([], store.clock + 1), Done)
    case List => (store, Listed(store.clock, store.objects))
  }

  /** The first object of the name, if there is one. */
  lemma {:induction false} FindExactly<X>(schema: Schema<X>, objects: seq<X>, name: string)
    ensures
      var i := Find(schema, objects, name);
      && (forall j | 0 <= j < i :: schema.name(objects[j]) != name)
      && (i < |objects| ==> schema.name(objects[i]) == name)
  {
    if objects != [] && schema.name(objects[0]) != name {
      FindExactly(schema, objects[1..], name);
      var i := Find(schema, objects, name);
      forall j | 0 <= j < i ensures schema.name(objects[j]) != name {
        if j > 0 {
          assert objects[j] == objects[1..][j - 1];
        }
      }
    }
  }

  ghost predicate Has<X>(schema: Schema<X>, store: Store<X>, name: string) {
    exists i | 0 <= i < |store.objects| :: schema.name(store.objects[i]) == name
  }

  /** A new object is stored if and only if it has no version and its name is free; it is stored last, under
      the next version, and returned. */
  lemma CreateExactly<X>(schema: Schema<X>, store: Store<X>, x: X)
    ensures
      var (after, out) := Serve(schema, store, Op.Create(x));
      if schema.version(x) == 0 && !Has(schema, store, schema.name(x)) then
        var stored := schema.stamp(x, store.clock + 1);
        out == Returned(stored) && after == Store(store.objects + [stored], store.clock + 1)
      else after == store && out == Refused(if schema.version(x) != 0 then BadVersion else AlreadyExists)
  {
    FindExactly(schema, store.objects, schema.name(x));
  }

  /** Any object of the name is the one that is read and deleted, if no two objects have it. */
  lemma GetAndDeleteExactly<X>(schema: Schema<X>, store: Store<X>, name: string, k: nat)
    requires k < |store.objects| && schema.name(store.objects[k]) == name
    requires forall j | 0 <= j < |store.objects| && j != k :: schema.name(store.objects[j]) != name
    ensures Serve(schema, store, Op.Get(name)) == (store, Returned(store.objects[k]))
    ensures
      var (after, out) := Serve(schema, store, Op.Delete(name));
      out == Done && after == Store(store.objects[..k] + store.objects[k + 1..], store.clock + 1)
  {
    FindExactly(schema, store.objects, name);
  }

  /** An update replaces that object under the next version, if it names the version it replaces. */
  lemma ReplaceExactly<X>(schema: Schema<X>, store: Store<X>, x: X, k: nat)
    requires k < |store.objects| && schema.name(store.objects[k]) == schema.name(x)
    requires forall j | 0 <= j < |store.objects| && j != k :: schema.name(store.objects[j]) != schema.name(x)
    ensures
      var stored := store.objects[k];
      var next, status := schema.stamp(schema.merge(stored, x, false), store.clock + 1),
        schema.stamp(schema.merge(stored, x, true), store.clock + 1);
      if schema.version(x) != 0 && schema.version(x) == schema.version(stored) then
        (&& Serve(schema, store, Op.Update(x)) == (Store(store.objects[k := next], store.clock + 1), Returned(next))
         && Serve(schema, store, Op.UpdateStatus(x)) == (Store(store.objects[k := status], store.clock + 1), Returned(status)))
      else
        (var refused := (store, Refused(if schema.version(x) == 0 then BadVersion else Conflict));
         Serve(schema, store, Op.Update(x)) == refused && Serve(schema, store, Op.UpdateStatus(x)) == refused)
  {
    FindExactly(schema, store.objects, schema.name(x));
  }

  lemma MissingIsNotFound<X>(schema: Schema<X>, store: Store<X>, name: string)
    requires !Has(schema, store, name)
    ensures Serve(schema, store, Op.Get(name)) == (store, Refused(NotFound))
    ensures Serve(schema, store, Op.Delete(name)) == (store, Refused(NotFound))
  {
    FindExactly(schema, store.objects, name);
  }

  // ---------------------------------------------------------------------------------------
  // Watching
  // ---------------------------------------------------------------------------------------

  datatype EventType = Added | Modified | Deleted | Bookmark | Error

  /** Events carry an object of the watched type or one of another type, such as a status. */
  datatype Payload<X> = Watched(object_: X) | Foreign(token: string)

  datatype Event<X> = Event(ty: EventType, payload: Payload<X>)

  /** A cache of the listed objects after one more event. */
  function Fold<X>(schema: Schema<X>, objects: seq<X>, event: Event<X>): seq<X> {
    match event.payload
    case Foreign(_) => objects
    case Watched(x) =>
      var i := Find(schema, objects, schema.name(x));
      match event.ty
      case Added => if i < |objects| then objects[i := x] else objects + [x]
      case Modified => if i < |objects| then objects[i := x] else objects + [x]
      case Deleted => if i < |objects| then objects[..i] + objects[i + 1..] else objects
      case _ => objects
  }

  function FoldAll<X>(schema: Schema<X>, objects: seq<X>, events: seq<Event<X>>): seq<X>
    decreases |events|
  {
    if events == [] then objects else FoldAll(schema, Fold(schema, objects, events[0]), events[1..])
  }

  /** A cache holds the object of the last event about a name: it is put in the place of the one of that name,
      or last; a deletion takes that one out; nothing else changes. */
  lemma FoldExactly<X>(schema: Schema<X>, objects: seq<X>, x: X, token: string, k: nat)
    requires k <= |objects| && (k < |objects| ==> schema.name(objects[k]) == schema.name(x))
    requires forall j | 0 <= j < |objects| && j != k :: schema.name(objects[j]) != schema.name(x)
    ensures Fold(schema, objects, Event(Added, Watched(x))) == objects[..k] + [x] + objects[if k < |objects| then k + 1 else k..]
    ensures Fold(schema, objects, Event(Modified, Watched(x))) == objects[..k] + [x] + objects[if k < |objects| then k + 1 else k..]
    ensures Fold(schema, objects, Event(Deleted, Watched(x))) == objects[..k] + objects[if k < |objects| then k + 1 else k..]
    ensures Fold(schema, objects, Event(Bookmark, Watched(x))) == Fold(schema, objects, Event(Error, Watched(x))) == objects
    ensures forall ty :: Fold(schema, objects, Event(ty, Foreign(token))) == objects
  {
    FindExactly(schema, objects, schema.name(x));
    assert k == |objects| ==> objects[..k] == objects && objects[k..] == [];
  }
}
