/** The wrapped clients for policies and bindings: the transformed client with the JSON converters. */
module PolicyClient {
  import opened ApiServer
  import opened Conversion
  import opened Json
  import opened TransformedClient
  import opened Wrappers

  function Meta(v: Value): Opaque {
    if v.VStruct? && |v.fields| >= 3 && v.fields[2].VOpaque? then v.fields[2].opaque_ else Other("")
  }

  function NameOf(v: Value): string {
    if Meta(v).Metadata? then Meta(v).name else ""
  }

  function VersionOf(v: Value): nat {
    if Meta(v).Metadata? then Meta(v).resourceVersion else 0
  }

  function Stamp(v: Value, version: nat): Value {
    if Meta(v).Metadata? then VStruct(v.fields[2 := VOpaque(Meta(v).(resourceVersion := version))]) else v
  }

  /** A policy has a status of its own; a binding has none. */
  predicate HasStatus(v: Value) {
    v.VStruct? && |v.fields| == 5
  }

  function Merge(stored: Value, sent: Value, ofStatus: bool): Value {
    if !HasStatus(stored) || !HasStatus(sent) then if ofStatus then stored else sent
    else if ofStatus then VStruct(stored.fields[4 := sent.fields[4]])
    else VStruct(sent.fields[4 := stored.fields[4]])
  }

  const SCHEMA: Schema<Value> := Schema(NameOf, VersionOf, Stamp, Merge)

  /** A converter on values of one of the resource types. */
  function Via(ty: Type, version: string): Converter<Value, Value> {
    v => if HasType(v, ty) then Ok(Converted(ty, version, v)) else Err("not a value of the type")
  }

  /** Resource types with their metadata third and their status, if any, fifth. */
  ghost predicate IsStored(ty: Type) {
    && IsResource(ty) && 4 <= |ty.fields| <= 5 && ty.fields[2] == Optional("metadata", TOpaque)
    && (|ty.fields| == 5 ==> ty.fields[4].ty.TStruct?)
  }

  lemma PolicyAndBindingAreStored()
    ensures IsStored(POLICY) && IsStored(BINDING)
  {
    PolicyIsResource();
    BindingIsResource();
  }

  /** What the server looks at and changes in a policy or binding: of the metadata, the name and the version;
      of a policy, an update of the status takes nothing but the status, and any other all but that. */
  lemma SchemaExactly(ty: Type, v: Value, u: Value, name: string, version: nat, rest: string, next: nat)
    requires ty == POLICY || ty == BINDING
    requires HasType(v, ty) && HasType(u, ty)
    requires |v.fields| == |u.fields| == |ty.fields| && v.fields[2] == VOpaque(Metadata(name, version, rest))
    ensures NameOf(v) == name && VersionOf(v) == version
    ensures Stamp(v, next) == VStruct(v.fields[2 := VOpaque(Metadata(name, next, rest))])
    ensures ty == POLICY ==> Merge(v, u, true) == VStruct(v.fields[4 := u.fields[4]])
    ensures ty == POLICY ==> Merge(v, u, false) == VStruct(u.fields[4 := v.fields[4]])
    ensures ty == BINDING ==> Merge(v, u, false) == u && Merge(v, u, true) == v
  {
  }

  lemma ConvertedUpdate(ty: Type, version: string, v: Value, i: nat, x: Value)
    requires IsStored(ty) && HasType(v, ty) && 2 <= i < |ty.fields| && HasType(x, ty.fields[i].ty)
    ensures |v.fields| == |ty.fields| && HasType(VStruct(v.fields[i := x]), ty)
    ensures
      var w := Converted(ty, version, v);
      && w.VStruct? && |w.fields| == |ty.fields|
      && Converted(ty, version, VStruct(v.fields[i := x])) == VStruct(w.fields[i := NormalizeField(ty.fields[i], x)])
  {
    HaveTypesLength(ty.fields, v.fields);
    NormalizeUpdate(ty.fields, v.fields, i, x);
    ResourceParts(ty, v);
    ResourceParts(ty, VStruct(v.fields[i := x]));
  }

  lemma ConvertedFields(ty: Type, version: string, v: Value)
    requires IsStored(ty) && HasType(v, ty)
    ensures |v.fields| == |ty.fields|
    ensures
      var w := Converted(ty, version, v);
      && w.VStruct? && |w.fields| == |ty.fields| && w.fields[2] == v.fields[2] && v.fields[2].VOpaque?
      && (|ty.fields| == 5 ==>
            HasType(v.fields[4], ty.fields[4].ty) && w.fields[4] == NormalizeField(ty.fields[4], v.fields[4]))
  {
    NormalizeFieldAt(ty.fields, v.fields, 2);
    if |ty.fields| == 5 {
      NormalizeFieldAt(ty.fields, v.fields, 4);
    }
    ResourceParts(ty, v);
  }

  /** The server cannot tell a converted object from the original. */
  lemma ConversionIsCoherent(ty: Type, version: string)
    requires IsStored(ty)
    ensures Coherent(SCHEMA, SCHEMA, Via(ty, version)) && KeepsNames(SCHEMA, SCHEMA, Via(ty, version))
  {
    var from := Via(ty, version);
    forall v | from(v).Ok?
      ensures NameOf(v) == NameOf(from(v).value) && VersionOf(v) == VersionOf(from(v).value)
    {
      ConvertedFields(ty, version, v);
    }
    forall v, n | from(v).Ok? ensures from(Stamp(v, n)) == Ok(Stamp(from(v).value, n)) {
      StampConverts(ty, version, v, n);
    }
    forall v, u, b | from(v).Ok? && from(u).Ok?
      ensures from(Merge(v, u, b)) == Ok(Merge(from(v).value, from(u).value, b))
    {
      MergeConverts(ty, version, v, u, b);
    }
  }

  lemma StampConverts(ty: Type, version: string, v: Value, n: nat)
    requires IsStored(ty) && HasType(v, ty)
    ensures HasType(Stamp(v, n), ty) && Converted(ty, version, Stamp(v, n)) == Stamp(Converted(ty, version, v), n)
  {
    hide Converted;
    ConvertedFields(ty, version, v);
    if Meta(v).Metadata? {
      ConvertedUpdate(ty, version, v, 2, VOpaque(Meta(v).(resourceVersion := n)));
    }
  }

  lemma MergeConverts(ty: Type, version: string, v: Value, u: Value, ofStatus: bool)
    requires IsStored(ty) && HasType(v, ty) && HasType(u, ty)
    ensures HasType(Merge(v, u, ofStatus), ty)
    ensures Converted(ty, version, Merge(v, u, ofStatus))
         == Merge(Converted(ty, version, v), Converted(ty, version, u), ofStatus)
  {
    hide Converted;
    ConvertedFields(ty, version, v);
    ConvertedFields(ty, version, u);
    if |ty.fields| == 5 {
      ConvertedUpdate(ty, version, v, 4, u.fields[4]);
      ConvertedUpdate(ty, version, u, 4, v.fields[4]);
    }
  }

  ghost predicate Typed(ty: Type, store: Store<Value>) {
    forall i | 0 <= i < |store.objects| :: HasType(store.objects[i], ty)
  }

  lemma ConvertedIsTyped(ty: Type, version: string, v: Value)
    requires IsStored(ty) && HasType(v, ty) && version != ""
    ensures HasType(Converted(ty, version, v), ty)
  {
    ThereAndBack(ty, version, version, v);
  }

  lemma ReplaceIsTyped(ty: Type, store: Store<Value>, sent: Value, ofStatus: bool)
    requires IsStored(ty) && Typed(ty, store) && HasType(sent, ty)
    ensures
      var (after, out) := Replace(SCHEMA, store, sent, ofStatus);
      Typed(ty, after) && (out.Returned? ==> HasType(out.object_, ty))
  {
    hide Stamp, Merge, HasType;
    var i := Find(SCHEMA, store.objects, NameOf(sent));
    if i < |store.objects| {
      MergeConverts(ty, "", store.objects[i], sent, ofStatus);
      StampConverts(ty, "", Merge(store.objects[i], sent, ofStatus), store.clock + 1);
    }
  }

  lemma ServeIsTyped(ty: Type, store: Store<Value>, op: Op<Value>)
    requires IsStored(ty) && Typed(ty, store)
    requires IsWrite(op) ==> HasType(op.object_, ty)
    ensures
      var (after, out) := Serve(SCHEMA, store, op);
      Typed(ty, after) && (out.Returned? ==> HasType(out.object_, ty))
  {
    hide Stamp, Merge, HasType, Replace;
    match op
    case Create(v) => StampConverts(ty, "", v, store.clock + 1);
    case Update(v) => ReplaceIsTyped(ty, store, v, false);
    case UpdateStatus(v) => ReplaceIsTyped(ty, store, v, true);
    case _ =>
  }

  // ---------------------------------------------------------------------------------------
  // Custom objects that others have written
  // ---------------------------------------------------------------------------------------

  /** Stores whose objects are the same in normal form. */
  ghost predicate ReadTheSame(ty: Type, ts: Store<Value>, rs: Store<Value>) {
    && Typed(ty, ts) && Typed(ty, rs) && ts.clock == rs.clock && |ts.objects| == |rs.objects|
    && forall i | 0 <= i < |ts.objects| ::
         Converted(ty, CUSTOM_VERSION, ts.objects[i]) == Converted(ty, CUSTOM_VERSION, rs.objects[i])
  }

  /** Converting to the custom type before converting in either direction makes no difference. */
  lemma FirstConversionIsFree(ty: Type, version: string, v: Value)
    requires IsResource(ty) && HasType(v, ty)
    ensures HasType(Converted(ty, CUSTOM_VERSION, v), ty)
    ensures Converted(ty, version, Converted(ty, CUSTOM_VERSION, v)) == Converted(ty, version, v)
  {
    hide HasType, Normalize, NoEmptySlices;
    ThereAndBack(ty, CUSTOM_VERSION, version, v);
  }

  lemma {:induction false} SameConversion(f: Converter<Value, Value>, g: Converter<Value, Value>, xs: seq<Value>)
    requires forall i | 0 <= i < |xs| :: f(xs[i]) == g(xs[i])
    ensures ConvertAll(f, xs) == ConvertAll(g, xs)
  {
    if xs != [] {
      assert f(xs[0]) == g(xs[0]);
      SameConversion(f, g, xs[1..]);
    }
  }

  lemma ViewedIsAnswer(ty: Type, out: Outcome<Value>)
    requires IsResource(ty)
    requires out.Returned? ==> HasType(out.object_, ty)
    requires out.Listed? ==> forall i | 0 <= i < |out.items| :: HasType(out.items[i], ty)
    ensures
      var to, from := Via(ty, WRITTEN_VERSION), Via(ty, CUSTOM_VERSION);
      Viewed(to, from, out) == Answer(to, out)
  {
    hide HasType, Converted, IsResource;
    var to, from := Via(ty, WRITTEN_VERSION), Via(ty, CUSTOM_VERSION);
    var view := InAndOut(to, from);
    if out.Returned? {
      FirstConversionIsFree(ty, WRITTEN_VERSION, out.object_);
    } else if out.Listed? {
      forall i | 0 <= i < |out.items| ensures view(out.items[i]) == to(out.items[i]) {
        FirstConversionIsFree(ty, WRITTEN_VERSION, out.items[i]);
      }
      SameConversion(view, to, out.items);
    }
  }

  lemma AskedTwice(ty: Type, op: Op<Value>)
    requires IsResource(ty) && Ask(Via(ty, CUSTOM_VERSION), op).Ok?
    ensures
      var from, asked := Via(ty, CUSTOM_VERSION), Ask(Via(ty, CUSTOM_VERSION), op).value;
      Ask(from, asked) == Ok(asked) && (IsWrite(asked) ==> HasType(asked.object_, ty))
  {
    hide HasType, Converted, IsResource;
    if IsWrite(op) {
      FirstConversionIsFree(ty, CUSTOM_VERSION, op.object_);
    }
  }

  lemma ListIsTyped(ty: Type, store: Store<Value>, op: Op<Value>)
    requires Typed(ty, store)
    ensures
      var out := Serve(SCHEMA, store, op).1;
      out.Listed? ==> forall i | 0 <= i < |out.items| :: HasType(out.items[i], ty)
  {
    hide HasType, Stamp, Merge;
  }

  /** A store and its normal form answer alike. */
  lemma StepSame(ty: Type, rs: Store<Value>, ns: Store<Value>, op: Op<Value>)
    requires IsStored(ty) && Typed(ty, rs) && Mirrors(Via(ty, CUSTOM_VERSION), rs, ns)
    ensures
      var to, from := Via(ty, WRITTEN_VERSION), Via(ty, CUSTOM_VERSION);
      var (rs', out) := Through(SCHEMA, to, from, rs, op);
      var (ns', same) := Through(SCHEMA, to, from, ns, op);
      out == same && Typed(ty, rs') && Mirrors(from, rs', ns')
  {
    hide HasType, Converted, Serve, Mirrors, Coherent, KeepsNames, Answer, Viewed, Typed;
    var to, from := Via(ty, WRITTEN_VERSION), Via(ty, CUSTOM_VERSION);
    var asked := Ask(from, op);
    if asked.Ok? {
      AskedTwice(ty, op);
      ConversionIsCoherent(ty, CUSTOM_VERSION);
      StepSimulates(SCHEMA, SCHEMA, to, from, rs, ns, asked.value);
      ServeIsTyped(ty, rs, asked.value);
      ListIsTyped(ty, rs, asked.value);
      ViewedIsAnswer(ty, Serve(SCHEMA, rs, asked.value).1);
    }
  }

  lemma {:induction false} SameAnswers(ty: Type, rs: Store<Value>, ns: Store<Value>, ops: seq<Op<Value>>)
    requires IsStored(ty) && Typed(ty, rs) && Mirrors(Via(ty, CUSTOM_VERSION), rs, ns)
    ensures
      var to, from := Via(ty, WRITTEN_VERSION), Via(ty, CUSTOM_VERSION);
      Outcomes(SCHEMA, to, from, rs, ops).1 == Outcomes(SCHEMA, to, from, ns, ops).1
    decreases |ops|
  {
    hide IsStored, Typed, Mirrors, Through;
    if ops != [] {
      var to, from := Via(ty, WRITTEN_VERSION), Via(ty, CUSTOM_VERSION);
      StepSame(ty, rs, ns, ops[0]);
      SameAnswers(ty, Through(SCHEMA, to, from, rs, ops[0]).0, Through(SCHEMA, to, from, ns, ops[0]).0, ops[1..]);
    }
  }

  function Normal(ty: Type, s: Store<Value>): Store<Value>
    requires WellFormed(ty)
    requires forall i | 0 <= i < |s.objects| :: HasType(s.objects[i], ty)
  {
    Store(seq(|s.objects|, i requires 0 <= i < |s.objects| => Converted(ty, CUSTOM_VERSION, s.objects[i])), s.clock)
  }

  /** The wrapped clients answer every history of requests like a server of native objects, except
      that an object comes back in normal form and with the version string the converter writes,
      and that lists have no version. The objects stored to begin with may be any that read the same. */
  lemma PolicyClientSimulates(ty: Type, ts: Store<Value>, rs: Store<Value>, ops: seq<Op<Value>>)
    requires ty == POLICY || ty == BINDING
    requires ReadTheSame(ty, ts, rs)
    ensures
      var to, from := Via(ty, WRITTEN_VERSION), Via(ty, CUSTOM_VERSION);
      Outcomes(SCHEMA, to, from, rs, ops).1 == Expected(SCHEMA, to, from, ts, ops).1
  {
    hide HasType, Converted, Outcomes, Expected, Coherent, KeepsNames;
    var to, from := Via(ty, WRITTEN_VERSION), Via(ty, CUSTOM_VERSION);
    PolicyAndBindingAreStored();
    ConversionIsCoherent(ty, CUSTOM_VERSION);
    var ns := Normal(ty, ts);
    assert Mirrors(from, ts, ns) && Mirrors(from, rs, ns);
    ClientSimulates(SCHEMA, SCHEMA, to, from, ts, ns, ops);
    SameAnswers(ty, rs, ns, ops);
  }

  /** In particular, whatever typed objects there are in the custom store, whoever has written them: the
      clients show them as a native server would that had the very same. */
  lemma AnyStoreIsServed(ty: Type, rs: Store<Value>, ops: seq<Op<Value>>)
    requires ty == POLICY || ty == BINDING
    requires Typed(ty, rs)
    ensures
      var to, from := Via(ty, WRITTEN_VERSION), Via(ty, CUSTOM_VERSION);
      Outcomes(SCHEMA, to, from, rs, ops).1 == Expected(SCHEMA, to, from, rs, ops).1
  {
    hide HasType, Converted, Outcomes, Expected;
    PolicyClientSimulates(ty, rs, rs, ops);
  }

  /** Objects that the clients themselves have converted read the same. */
  lemma MirrorsReadTheSame(ty: Type, ts: Store<Value>, rs: Store<Value>)
    requires IsStored(ty) && Mirrors(Via(ty, CUSTOM_VERSION), ts, rs)
    ensures ReadTheSame(ty, ts, rs)
  {
    hide HasType, Converted;
    forall i | 0 <= i < |ts.objects|
      ensures HasType(ts.objects[i], ty) && HasType(rs.objects[i], ty)
      ensures Converted(ty, CUSTOM_VERSION, ts.objects[i]) == Converted(ty, CUSTOM_VERSION, rs.objects[i])
    {
      FirstConversionIsFree(ty, CUSTOM_VERSION, ts.objects[i]);
    }
  }

  /** What both conversions make of an object that the client returns. */
  lemma ObjectsComeBack(ty: Type, v: Value)
    requires ty == POLICY || ty == BINDING
    requires HasType(v, ty)
    ensures Viewed(Via(ty, WRITTEN_VERSION), Via(ty, CUSTOM_VERSION), Returned(v))
         == Returned(WithVersion(Normalize(ty, v), WRITTEN_VERSION))
  {
    hide HasType, Normalize, NoEmptySlices;
    PolicyIsResource();
    BindingIsResource();
    ThereAndBack(ty, CUSTOM_VERSION, WRITTEN_VERSION, v);
  }

  /** Whatever the wrapped clients are asked, they never report a write as failed that has been made. */
  lemma {:induction false} PolicyClientNeverMisreports(ty: Type, store: Store<Value>, ops: seq<Op<Value>>)
    requires ty == POLICY || ty == BINDING
    requires Typed(ty, store)
    ensures NeverMisreported(SCHEMA, Via(ty, WRITTEN_VERSION), Via(ty, CUSTOM_VERSION), store, ops)
    decreases |ops|
  {
    hide HasType, Serve, Converted;
    var to, from := Via(ty, WRITTEN_VERSION), Via(ty, CUSTOM_VERSION);
    PolicyAndBindingAreStored();
    if ops != [] {
      var asked := Ask(from, ops[0]);
      if asked.Ok? {
        if IsWrite(ops[0]) {
          ConvertedIsTyped(ty, CUSTOM_VERSION, ops[0].object_);
        }
        ServeIsTyped(ty, store, asked.value);
      }
      MisreportedExactly(SCHEMA, to, from, store, ops[0]);
      PolicyClientNeverMisreports(ty, Through(SCHEMA, to, from, store, ops[0]).0, ops[1..]);
    }
  }

  /** On objects of the type no conversion fails: a watch passes on every event, and listing and
      watching through the wrapped client is the conversion of listing and watching the store. */
  lemma PolicyListThenWatch(ty: Type, rs: seq<Value>, ts: seq<Value>, events: seq<Event<Value>>)
    requires ty == POLICY || ty == BINDING
    requires forall i | 0 <= i < |events| :: events[i].payload.Watched? ==> HasType(events[i].payload.object_, ty)
    requires ConvertAll(Via(ty, WRITTEN_VERSION), rs) == Ok(ts)
    ensures
      var to := Via(ty, WRITTEN_VERSION);
      && |Filtered(to, events)| == |events|
      && ConvertAll(to, FoldAll(SCHEMA, rs, events)) == Ok(FoldAll(SCHEMA, ts, Filtered(to, events)))
  {
    var to := Via(ty, WRITTEN_VERSION);
    PolicyAndBindingAreStored();
    ConversionIsCoherent(ty, WRITTEN_VERSION);
    assert forall i | 0 <= i < |events| :: FilterEvent(to, events[i]).Some?;
    WatchKeepsEvents(to, events);
    ListThenWatch(SCHEMA, SCHEMA, to, rs, ts, events);
  }
}
