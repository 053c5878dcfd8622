/** JSON conversion driven by type descriptors, the way encoding/json walks a Go value: what a value
    becomes when it is marshalled and read back into a struct of the same shape. */
module Json {
  import opened Wrappers

  /** Values of library types (metadata, label selectors, conditions' times) travel unread. */
  datatype Opaque = Metadata(name: string, resourceVersion: nat, rest: string) | Other(token: string)

  datatype Type =
    | TString
    | TInt
    | TOpaque
    | TPointer(elem: Type)
    | TSlice(elem: Type)
    | TStruct(fields: seq<Field>)

  /** A struct field with its JSON tag. */
  datatype Field = Field(name: string, omitEmpty: bool, ty: Type)

  /** A Go value; nil is the nil pointer and the nil slice, not the empty slice. */
  datatype Value =
    | VString(s: string)
    | VInt(n: int)
    | VOpaque(opaque_: Opaque)
    | VNil
    | VPointer(target: Value)
    | VSlice(items: seq<Value>)
    | VStruct(fields: seq<Value>)

  datatype Json =
    | JNull
    | JString(s: string)
    | JNumber(n: int)
    | JOpaque(opaque_: Opaque)
    | JArray(items: seq<Json>)
    | JObject(members: map<string, Json>)

  predicate HasType(v: Value, ty: Type)
    decreases ty
  {
    match ty
    case TString => v.VString?
    case TInt => v.VInt?
    case TOpaque => v.VOpaque?
    case TPointer(elem) => v == VNil || (v.VPointer? && HasType(v.target, elem))
    case TSlice(elem) => v == VNil || (v.VSlice? && forall x | x in v.items :: HasType(x, elem))
    case TStruct(fields) => v.VStruct? && HaveTypes(v.fields, fields)
  }

  predicate HaveTypes(vs: seq<Value>, fields: seq<Field>)
    decreases fields
  {
    if fields == [] then vs == []
    else vs != [] && HasType(vs[0], fields[0].ty) && HaveTypes(vs[1..], fields[1..])
  }

  predicate Nullable(ty: Type) {
    ty.TPointer? || ty.TSlice?
  }

  /** Pointers lead to something that is not written as null itself, and no two fields of a struct
      share a name. */
  predicate WellFormed(ty: Type)
    decreases ty
  {
    match ty
    case TPointer(elem) => !Nullable(elem) && WellFormed(elem)
    case TSlice(elem) => WellFormed(elem)
    case TStruct(fields) => WellFormedFields(fields)
    case _ => true
  }

  predicate WellFormedFields(fields: seq<Field>)
    decreases fields
  {
    && (forall i, j | 0 <= i < j < |fields| :: fields[i].name != fields[j].name)
    && (forall i | 0 <= i < |fields| :: WellFormed(fields[i].ty))
  }

  function Names(fields: seq<Field>): set<string> {
    if fields == [] then {} else {fields[0].name} + Names(fields[1..])
  }

  function Zero(ty: Type): Value
    decreases ty
  {
    match ty
    case TString => VString("")
    case TInt => VInt(0)
    case TOpaque => VOpaque(Other(""))
    case TPointer(_) => VNil
    case TSlice(_) => VNil
    case TStruct(fields) => VStruct(Zeros(fields))
  }

  function Zeros(fields: seq<Field>): seq<Value>
    decreases fields
  {
    if fields == [] then [] else [Zero(fields[0].ty)] + Zeros(fields[1..])
  }

  /** What `omitempty` leaves out; a struct is never empty. */
  predicate IsEmpty(v: Value) {
    v == VString("") || v == VInt(0) || v == VNil || v == VSlice([])
  }

  // ---------------------------------------------------------------------------------------
  // Marshalling
  // ---------------------------------------------------------------------------------------

  function Marshal(ty: Type, v: Value): Json
    requires HasType(v, ty)
    decreases ty, 0, 0
  {
    match ty
    case TString => JString(v.s)
    case TInt => JNumber(v.n)
    case TOpaque => JOpaque(v.opaque_)
    case TPointer(elem) => if v == VNil then JNull else Marshal(elem, v.target)
    case TSlice(elem) => if v == VNil then JNull else JArray(MarshalItems(elem, v.items))
    case TStruct(fields) => JObject(MarshalFields(fields, v.fields))
  }

  function MarshalItems(elem: Type, items: seq<Value>): seq<Json>
    requires forall x | x in items :: HasType(x, elem)
    decreases elem, 1, |items|
  {
    if items == [] then [] else [Marshal(elem, items[0])] + MarshalItems(elem, items[1..])
  }

  function MarshalFields(fields: seq<Field>, vs: seq<Value>): map<string, Json>
    requires HaveTypes(vs, fields)
    decreases fields, 0, 0
  {
    if fields == [] then map[]
    else
      var rest := MarshalFields(fields[1..], vs[1..]);
      if fields[0].omitEmpty && IsEmpty(vs[0]) then rest
      else rest[fields[0].name := Marshal(fields[0].ty, vs[0])]
  }

  // ---------------------------------------------------------------------------------------
  // Unmarshalling into a zero value
  // ---------------------------------------------------------------------------------------

  function Unmarshal(ty: Type, j: Json): Result<Value, string>
    decreases ty, 0, 0
  {
    match (ty, j)
    case (_, JNull) => Ok(Zero(ty))
    case (TString, JString(s)) => Ok(VString(s))
    case (TInt, JNumber(n)) => Ok(VInt(n))
    case (TOpaque, JOpaque(o)) => Ok(VOpaque(o))
    case (TPointer(elem), _) => (
      match Unmarshal(elem, j)
      case Err(e) => Err(e)
      case Ok(v) => Ok(VPointer(v)))
    case (TSlice(elem), JArray(items)) => (
      match UnmarshalItems(elem, items)
      case Err(e) => Err(e)
      case Ok(vs) => Ok(VSlice(vs)))
    case (TStruct(fields), JObject(members)) => (
      match UnmarshalFields(fields, members)
      case Err(e) => Err(e)
      case Ok(vs) => Ok(VStruct(vs)))
    case _ => Err("cannot unmarshal into Go value")
  }

  function UnmarshalItems(elem: Type, items: seq<Json>): Result<seq<Value>, string>
    decreases elem, 1, |items|
  {
    if items == [] then Ok([])
    else
      match (Unmarshal(elem, items[0]), UnmarshalItems(elem, items[1..]))
      case (Err(e), _) => Err(e)
      case (Ok(_), Err(e)) => Err(e)
      case (Ok(v), Ok(vs)) => Ok([v] + vs)
  }

  /** Fields without a member keep their zero value; members without a field are ignored. */
  function UnmarshalFields(fields: seq<Field>, members: map<string, Json>): Result<seq<Value>, string>
    decreases fields, 0, 0
  {
    if fields == [] then Ok([])
    else
      var first :=
        if fields[0].name in members then Unmarshal(fields[0].ty, members[fields[0].name])
        else Ok(Zero(fields[0].ty));
      match (first, UnmarshalFields(fields[1..], members))
      case (Err(e), _) => Err(e)
      case (Ok(_), Err(e)) => Err(e)
      case (Ok(v), Ok(vs)) => Ok([v] + vs)
  }

  // ---------------------------------------------------------------------------------------
  // Normal form
  // ---------------------------------------------------------------------------------------

  /** The value with every empty slice under `omitempty` replaced by nil. */
  function Normalize(ty: Type, v: Value): Value
    requires HasType(v, ty)
    decreases ty, 0, 0
  {
    match ty
    case TPointer(elem) => if v == VNil then VNil else VPointer(Normalize(elem, v.target))
    case TSlice(elem) => if v == VNil then VNil else VSlice(NormalizeItems(elem, v.items))
    case TStruct(fields) => VStruct(NormalizeFields(fields, v.fields))
    case _ => v
  }

  function NormalizeItems(elem: Type, items: seq<Value>): seq<Value>
    requires forall x | x in items :: HasType(x, elem)
    decreases elem, 1, |items|
  {
    if items == [] then [] else [Normalize(elem, items[0])] + NormalizeItems(elem, items[1..])
  }

  function NormalizeFields(fields: seq<Field>, vs: seq<Value>): seq<Value>
    requires HaveTypes(vs, fields)
    decreases fields, 0, 0
  {
    if fields == [] then []
    else [NormalizeField(fields[0], vs[0])] + NormalizeFields(fields[1..], vs[1..])
  }

  function NormalizeField(field: Field, v: Value): Value
    requires HasType(v, field.ty)
    decreases field.ty, 1, 0
  {
    if field.omitEmpty && v == VSlice([]) then VNil else Normalize(field.ty, v)
  }

  // ---------------------------------------------------------------------------------------
  // Reading back what was written
  // ---------------------------------------------------------------------------------------

  lemma {:induction false} NameOfSome(fields: seq<Field>, name: string)
    requires name in Names(fields)
    ensures exists i | 0 <= i < |fields| :: fields[i].name == name
  {
    if fields[0].name != name {
      NameOfSome(fields[1..], name);
      var i :| 0 <= i < |fields[1..]| && fields[1..][i].name == name;
      assert fields[i + 1].name == name;
    }
  }

  lemma WellFormedTail(fields: seq<Field>)
    requires fields != [] && WellFormedFields(fields)
    ensures WellFormed(fields[0].ty) && WellFormedFields(fields[1..]) && fields[0].name !in Names(fields[1..])
  {
    if fields[0].name in Names(fields[1..]) {
      NameOfSome(fields[1..], fields[0].name);
    }
  }

  lemma NotNull(ty: Type, v: Value)
    requires HasType(v, ty) && !Nullable(ty)
    ensures Marshal(ty, v) != JNull
  {
  }

  lemma {:induction false} OnlyFieldNames(fields: seq<Field>, vs: seq<Value>)
    requires HaveTypes(vs, fields)
    ensures MarshalFields(fields, vs).Keys <= Names(fields)
    decreases fields
  {
    if fields != [] {
      OnlyFieldNames(fields[1..], vs[1..]);
    }
  }

  lemma {:induction false} ExtraMember(fields: seq<Field>, members: map<string, Json>, name: string, j: Json)
    requires name !in Names(fields)
    ensures UnmarshalFields(fields, members[name := j]) == UnmarshalFields(fields, members)
    decreases fields
  {
    if fields != [] {
      ExtraMember(fields[1..], members, name, j);
    }
  }

  lemma EmptyIsZero(field: Field, v: Value)
    requires HasType(v, field.ty) && field.omitEmpty && IsEmpty(v)
    ensures NormalizeField(field, v) == Zero(field.ty)
  {
  }

  /** For every type and every value of it: marshalling and reading back normalizes the value. */
  lemma {:induction false} RoundTrip(ty: Type, v: Value)
    requires WellFormed(ty) && HasType(v, ty)
    ensures Unmarshal(ty, Marshal(ty, v)) == Ok(Normalize(ty, v))
    decreases ty, 0, 0
  {
    match ty
    case TPointer(elem) =>
      if v != VNil {
        NotNull(elem, v.target);
        RoundTrip(elem, v.target);
      }
    case TSlice(elem) =>
      if v != VNil {
        RoundTripItems(elem, v.items);
      }
    case TStruct(fields) => RoundTripFields(fields, v.fields);
    case _ =>
  }

  lemma {:induction false} RoundTripItems(elem: Type, items: seq<Value>)
    requires WellFormed(elem) && forall x | x in items :: HasType(x, elem)
    ensures UnmarshalItems(elem, MarshalItems(elem, items)) == Ok(NormalizeItems(elem, items))
    decreases elem, 1, |items|
  {
    if items != [] {
      RoundTrip(elem, items[0]);
      RoundTripItems(elem, items[1..]);
      assert MarshalItems(elem, items)[1..] == MarshalItems(elem, items[1..]);
    }
  }

  lemma {:induction false} RoundTripFields(fields: seq<Field>, vs: seq<Value>)
    requires WellFormedFields(fields) && HaveTypes(vs, fields)
    ensures UnmarshalFields(fields, MarshalFields(fields, vs)) == Ok(NormalizeFields(fields, vs))
    decreases fields, 0, 0
  {
    if fields != [] {
      var rest := MarshalFields(fields[1..], vs[1..]);
      WellFormedTail(fields);
      RoundTripFields(fields[1..], vs[1..]);
      OnlyFieldNames(fields[1..], vs[1..]);
      if fields[0].omitEmpty && IsEmpty(vs[0]) {
        EmptyIsZero(fields[0], vs[0]);
      } else {
        var j := Marshal(fields[0].ty, vs[0]);
        RoundTrip(fields[0].ty, vs[0]);
        ExtraMember(fields[1..], rest, fields[0].name, j);
      }
    }
  }

  // ---------------------------------------------------------------------------------------
  // What normalizing changes
  // ---------------------------------------------------------------------------------------

  /** No empty slice stands under `omitempty` anywhere in the value. */
  predicate NoEmptySlices(ty: Type, v: Value)
    requires HasType(v, ty)
    decreases ty, 0, 0
  {
    match ty
    case TPointer(elem) => v != VNil ==> NoEmptySlices(elem, v.target)
    case TSlice(elem) => v != VNil ==> forall x | x in v.items :: NoEmptySlices(elem, x)
    case TStruct(fields) => NoEmptySlicesIn(fields, v.fields)
    case _ => true
  }

  predicate NoEmptySlicesIn(fields: seq<Field>, vs: seq<Value>)
    requires HaveTypes(vs, fields)
    decreases fields, 0, 0
  {
    fields != [] ==>
      && !(fields[0].omitEmpty && vs[0] == VSlice([]))
      && NoEmptySlices(fields[0].ty, vs[0])
      && NoEmptySlicesIn(fields[1..], vs[1..])
  }

  /** Normalizing keeps the type and leaves no empty slice under `omitempty`. */
  lemma {:induction false} NormalizeClears(ty: Type, v: Value)
    requires HasType(v, ty)
    ensures HasType(Normalize(ty, v), ty) && NoEmptySlices(ty, Normalize(ty, v))
    decreases ty, 0, 0
  {
    match ty
    case TPointer(elem) =>
      if v != VNil {
        NormalizeClears(elem, v.target);
      }
    case TSlice(elem) =>
      if v != VNil {
        NormalizeClearsItems(elem, v.items);
      }
    case TStruct(fields) => NormalizeClearsFields(fields, v.fields);
    case _ =>
  }

  lemma {:induction false} NormalizeClearsItems(elem: Type, items: seq<Value>)
    requires forall x | x in items :: HasType(x, elem)
    ensures forall x | x in NormalizeItems(elem, items) :: HasType(x, elem) && NoEmptySlices(elem, x)
    decreases elem, 1, |items|
  {
    if items != [] {
      NormalizeClears(elem, items[0]);
      NormalizeClearsItems(elem, items[1..]);
    }
  }

  lemma {:induction false} NormalizeClearsFields(fields: seq<Field>, vs: seq<Value>)
    requires HaveTypes(vs, fields)
    ensures HaveTypes(NormalizeFields(fields, vs), fields)
    ensures NoEmptySlicesIn(fields, NormalizeFields(fields, vs))
    decreases fields, 0, 0
  {
    if fields != [] {
      var rest := NormalizeFields(fields[1..], vs[1..]);
      NormalizeClears(fields[0].ty, vs[0]);
      NormalizeClearsFields(fields[1..], vs[1..]);
      assert NormalizeFields(fields, vs)[1..] == rest;
      KeepsNonEmpty(fields[0], vs[0]);
    }
  }

  lemma KeepsNonEmpty(field: Field, v: Value)
    requires HasType(v, field.ty)
    ensures field.omitEmpty ==> NormalizeField(field, v) != VSlice([])
  {
    if v.VSlice? && v.items != [] {
      assert |NormalizeItems(field.ty.elem, v.items)| > 0;
    }
  }

  /** A value is left as it is exactly when it holds no empty slice under `omitempty`. */
  lemma {:induction false} NormalizeExact(ty: Type, v: Value)
    requires HasType(v, ty)
    ensures Normalize(ty, v) == v <==> NoEmptySlices(ty, v)
    decreases ty, 0, 0
  {
    match ty
    case TPointer(elem) =>
      if v != VNil {
        NormalizeExact(elem, v.target);
      }
    case TSlice(elem) =>
      if v != VNil {
        NormalizeExactItems(elem, v.items);
      }
    case TStruct(fields) => NormalizeExactFields(fields, v.fields);
    case _ =>
  }

  lemma {:induction false} NormalizeExactItems(elem: Type, items: seq<Value>)
    requires forall x | x in items :: HasType(x, elem)
    ensures NormalizeItems(elem, items) == items <==> forall x | x in items :: NoEmptySlices(elem, x)
    decreases elem, 1, |items|
  {
    if items != [] {
      var first, rest := Normalize(elem, items[0]), NormalizeItems(elem, items[1..]);
      NormalizeExact(elem, items[0]);
      NormalizeExactItems(elem, items[1..]);
      HeadTail(first, rest, items);
    }
  }

  lemma {:induction false} NormalizeExactFields(fields: seq<Field>, vs: seq<Value>)
    requires HaveTypes(vs, fields)
    ensures NormalizeFields(fields, vs) == vs <==> NoEmptySlicesIn(fields, vs)
    decreases fields, 0, 0
  {
    if fields != [] {
      var first, rest := NormalizeField(fields[0], vs[0]), NormalizeFields(fields[1..], vs[1..]);
      NormalizeExact(fields[0].ty, vs[0]);
      NormalizeExactFields(fields[1..], vs[1..]);
      HeadTail(first, rest, vs);
    }
  }

  lemma HeadTail(first: Value, rest: seq<Value>, vs: seq<Value>)
    requires vs != []
    ensures [first] + rest == vs <==> first == vs[0] && rest == vs[1..]
  {
    assert vs == [vs[0]] + vs[1..];
    assert ([first] + rest)[1..] == rest && ([first] + rest)[0] == first;
  }

  /** Normalizing twice is normalizing once. */
  lemma NormalizeTwice(ty: Type, v: Value)
    requires HasType(v, ty)
    ensures HasType(Normalize(ty, v), ty)
    ensures Normalize(ty, Normalize(ty, v)) == Normalize(ty, v)
  {
    NormalizeClears(ty, v);
    NormalizeExact(ty, Normalize(ty, v));
  }

  /** Field by field: whether a pointer is nil is never changed. */
  lemma {:induction false} NormalizeFieldAt(fields: seq<Field>, vs: seq<Value>, i: nat)
    requires HaveTypes(vs, fields) && i < |fields|
    ensures |vs| == |fields| == |NormalizeFields(fields, vs)|
    ensures HasType(vs[i], fields[i].ty)
    ensures NormalizeFields(fields, vs)[i] == NormalizeField(fields[i], vs[i])
    ensures fields[i].ty.TPointer? ==> (NormalizeFields(fields, vs)[i] == VNil <==> vs[i] == VNil)
    decreases i
  {
    if i > 0 {
      NormalizeFieldAt(fields[1..], vs[1..], i - 1);
    } else {
      HaveTypesLength(fields, vs);
      NormalizeFieldsLength(fields, vs);
    }
  }

  lemma {:induction false} HaveTypesLength(fields: seq<Field>, vs: seq<Value>)
    requires HaveTypes(vs, fields)
    ensures |vs| == |fields|
    decreases fields
  {
    if fields != [] {
      HaveTypesLength(fields[1..], vs[1..]);
    }
  }

  lemma {:induction false} NormalizeFieldsLength(fields: seq<Field>, vs: seq<Value>)
    requires HaveTypes(vs, fields)
    ensures |NormalizeFields(fields, vs)| == |fields|
    decreases fields
  {
    if fields != [] {
      NormalizeFieldsLength(fields[1..], vs[1..]);
    }
  }

  /** Fields are normalized independently of each other. */
  lemma {:induction false} NormalizeUpdate(fields: seq<Field>, vs: seq<Value>, i: nat, x: Value)
    requires HaveTypes(vs, fields) && i < |fields| == |vs| && HasType(x, fields[i].ty)
    ensures HaveTypes(vs[i := x], fields) && |NormalizeFields(fields, vs)| == |fields|
    ensures NormalizeFields(fields, vs[i := x]) == NormalizeFields(fields, vs)[i := NormalizeField(fields[i], x)]
    decreases i
  {
    NormalizeFieldsLength(fields, vs);
    if i == 0 {
      assert vs[0 := x][1..] == vs[1..];
    } else {
      assert vs[i := x][1..] == vs[1..][i - 1 := x];
      NormalizeUpdate(fields[1..], vs[1..], i - 1, x);
    }
  }

  // ---------------------------------------------------------------------------------------
  // What is written
  // ---------------------------------------------------------------------------------------

  /** A field is written under its name, unless it has `omitempty` and is an empty string, zero, nil or an
      empty slice. */
  lemma {:induction false} MemberExactly(fields: seq<Field>, vs: seq<Value>, i: nat)
    requires HaveTypes(vs, fields) && i < |fields| == |vs|
    requires forall j, k | 0 <= j < k < |fields| :: fields[j].name != fields[k].name
    ensures HasType(vs[i], fields[i].ty)
    ensures
      var members, name := MarshalFields(fields, vs), fields[i].name;
      && (name !in members <==>
            fields[i].omitEmpty && (vs[i] == VString("") || vs[i] == VInt(0) || vs[i] == VNil || vs[i] == VSlice([])))
      && (name in members ==> members[name] == Marshal(fields[i].ty, vs[i]))
    decreases i
  {
    var rest := MarshalFields(fields[1..], vs[1..]);
    OnlyFieldNames(fields[1..], vs[1..]);
    if i == 0 {
      if fields[0].name in Names(fields[1..]) {
        NameOfSome(fields[1..], fields[0].name);
      }
    } else {
      assert fields[1..][i - 1] == fields[i] && vs[1..][i - 1] == vs[i];
      MemberExactly(fields[1..], vs[1..], i - 1);
    }
  }

  /** Texts, numbers and library values are written as they are, nil as null, a pointer as what it leads to,
      and a slice item by item. */
  lemma ValuesExactly(s: string, n: int, x: Opaque, elem: Type, v: Value, items: seq<Value>, i: nat)
    requires HasType(v, elem) && (forall y | y in items :: HasType(y, elem)) && i < |items|
    ensures Marshal(TString, VString(s)) == JString(s) && Marshal(TInt, VInt(n)) == JNumber(n)
    ensures Marshal(TOpaque, VOpaque(x)) == JOpaque(x)
    ensures Marshal(TPointer(elem), VNil) == JNull && Marshal(TSlice(elem), VNil) == JNull
    ensures Marshal(TPointer(elem), VPointer(v)) == Marshal(elem, v)
    ensures
      var j := Marshal(TSlice(elem), VSlice(items));
      j.JArray? && |j.items| == |items| && j.items[i] == Marshal(elem, items[i])
  {
    ItemExactly(elem, items, i);
  }

  lemma {:induction false} ItemExactly(elem: Type, items: seq<Value>, i: nat)
    requires (forall y | y in items :: HasType(y, elem)) && i < |items|
    ensures |MarshalItems(elem, items)| == |items| && MarshalItems(elem, items)[i] == Marshal(elem, items[i])
    decreases |items|
  {
    if i > 0 {
      ItemExactly(elem, items[1..], i - 1);
    } else if |items| > 1 {
      ItemExactly(elem, items[1..], 0);
    }
  }
}
