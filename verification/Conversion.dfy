/** The four converters between the native and the custom resource types of admission policies and
    bindings. Both sides have the same fields and JSON tags; only APIVersion is overwritten. */
module Conversion {
  import opened Json
  import opened Wrappers

  const CUSTOM_VERSION := "admissionregistration.x-k8s.io/v1alpha1"

  /** What the converters to native types write; not the name of the native group. */
  const WRITTEN_VERSION := "apiregistration.k8s.io/v1alpha1"

  const NATIVE_VERSION := "admissionregistration.k8s.io/v1alpha1"

  // ---------------------------------------------------------------------------------------
  // The resource types
  // ---------------------------------------------------------------------------------------

  const STRINGS := TSlice(TString)

  function Required(name: string, ty: Type): Field {
    Field(name, false, ty)
  }

  function Optional(name: string, ty: Type): Field {
    Field(name, true, ty)
  }

  const AUDIT_ANNOTATION := TStruct([Required("key", TString), Required("valueExpression", TString)])

  const EXPRESSION_WARNING := TStruct([Required("fieldRef", TString), Required("warning", TString)])

  const MATCH_CONDITION := TStruct([Required("name", TString), Required("expression", TString)])

  const PARAM_KIND := TStruct([Required("apiVersion", TString), Required("kind", TString)])

  const PARAM_REF := TStruct([Optional("name", TString), Optional("namespace", TString)])

  const NAMED_RULE := TStruct([
    Optional("resourceNames", STRINGS),
    Optional("operations", STRINGS),
    Optional("apiGroups", STRINGS),
    Optional("apiVersions", STRINGS),
    Optional("resources", STRINGS),
    Optional("scope", TPointer(TString))])

  const MATCH_RESOURCES := TStruct([
    Optional("namespaceSelector", TPointer(TOpaque)),
    Optional("objectSelector", TPointer(TOpaque)),
    Optional("resourceRules", TSlice(NAMED_RULE)),
    Optional("excludeResourceRules", TSlice(NAMED_RULE)),
    Optional("matchPolicy", TPointer(TString))])

  const VALIDATION := TStruct([
    Required("expression", TString),
    Optional("message", TString),
    Optional("reason", TPointer(TString)),
    Optional("messageExpression", TString)])

  const POLICY_SPEC := TStruct([
    Optional("paramKind", TPointer(PARAM_KIND)),
    Required("matchConstraints", TPointer(MATCH_RESOURCES)),
    Optional("validations", TSlice(VALIDATION)),
    Optional("failurePolicy", TPointer(TString)),
    Optional("auditAnnotations", TSlice(AUDIT_ANNOTATION)),
    Optional("matchConditions", TSlice(MATCH_CONDITION))])

  const TYPE_CHECKING := TStruct([Optional("expressionWarnings", TSlice(EXPRESSION_WARNING))])

  const POLICY_STATUS := TStruct([
    Optional("observedGeneration", TInt),
    Optional("typeChecking", TPointer(TYPE_CHECKING)),
    Optional("conditions", TSlice(TOpaque))])

  const BINDING_SPEC := TStruct([
    Required("policyName", TString),
    Optional("paramRef", TPointer(PARAM_REF)),
    Optional("matchResources", TPointer(MATCH_RESOURCES)),
    Optional("validationActions", STRINGS)])

  const POLICY_FIELDS := [
    Optional("kind", TString),
    Optional("apiVersion", TString),
    Optional("metadata", TOpaque),
    Optional("spec", POLICY_SPEC),
    Optional("status", POLICY_STATUS)]

  const BINDING_FIELDS := [
    Optional("kind", TString),
    Optional("apiVersion", TString),
    Optional("metadata", TOpaque),
    Optional("spec", BINDING_SPEC)]

  const POLICY := TStruct(POLICY_FIELDS)

  const BINDING := TStruct(BINDING_FIELDS)

  lemma MatchResourcesWellFormed()
    ensures WellFormed(MATCH_RESOURCES)
  {
    assert WellFormed(NAMED_RULE);
  }

  lemma LeavesWellFormed()
    ensures WellFormed(TPointer(PARAM_KIND)) && WellFormed(TSlice(VALIDATION)) && WellFormed(TPointer(TString))
    ensures WellFormed(TSlice(AUDIT_ANNOTATION)) && WellFormed(TSlice(MATCH_CONDITION))
  {
  }

  lemma PolicySpecWellFormed()
    ensures WellFormed(POLICY_SPEC)
  {
    hide WellFormed;
    MatchResourcesWellFormed();
    LeavesWellFormed();
    PointerWellFormed(MATCH_RESOURCES);
    FieldsWellFormed(POLICY_SPEC.fields);
  }

  lemma PointerWellFormed(ty: Type)
    requires WellFormed(ty) && !Nullable(ty)
    ensures WellFormed(TPointer(ty))
  {
  }

  lemma FieldsWellFormed(fields: seq<Field>)
    requires forall i, j | 0 <= i < j < |fields| :: fields[i].name != fields[j].name
    requires forall i | 0 <= i < |fields| :: WellFormed(fields[i].ty)
    ensures WellFormed(TStruct(fields))
  {
  }

  lemma PolicyStatusWellFormed()
    ensures WellFormed(POLICY_STATUS)
  {
    assert WellFormed(EXPRESSION_WARNING) && WellFormed(TYPE_CHECKING);
  }

  lemma BindingSpecWellFormed()
    ensures WellFormed(BINDING_SPEC)
  {
    MatchResourcesWellFormed();
    assert WellFormed(PARAM_REF);
  }

  lemma ResourcesWellFormed()
    ensures WellFormed(POLICY) && WellFormed(BINDING)
  {
    PolicySpecWellFormed();
    PolicyStatusWellFormed();
    BindingSpecWellFormed();
  }

  /** Which fields have `omitempty`: all but those named here. */
  ghost predicate OmitsAllBut(ty: Type, names: set<string>)
    requires ty.TStruct?
  {
    forall i | 0 <= i < |ty.fields| :: ty.fields[i].omitEmpty <==> ty.fields[i].name !in names
  }

  /** The JSON tags of the resource types. */
  lemma TagsExactly()
    ensures OmitsAllBut(AUDIT_ANNOTATION, {"key", "valueExpression"}) && OmitsAllBut(EXPRESSION_WARNING, {"fieldRef", "warning"})
    ensures OmitsAllBut(MATCH_CONDITION, {"name", "expression"}) && OmitsAllBut(PARAM_KIND, {"apiVersion", "kind"})
    ensures OmitsAllBut(PARAM_REF, {}) && OmitsAllBut(NAMED_RULE, {}) && OmitsAllBut(MATCH_RESOURCES, {})
    ensures OmitsAllBut(VALIDATION, {"expression"}) && OmitsAllBut(POLICY_SPEC, {"matchConstraints"})
    ensures OmitsAllBut(TYPE_CHECKING, {}) && OmitsAllBut(POLICY_STATUS, {}) && OmitsAllBut(BINDING_SPEC, {"policyName"})
    ensures OmitsAllBut(POLICY, {}) && OmitsAllBut(BINDING, {})
  {
  }

  ghost function NamesInOrder(ty: Type): seq<string>
    requires ty.TStruct?
  {
    seq(|ty.fields|, i requires 0 <= i < |ty.fields| => ty.fields[i].name)
  }

  /** The names of all the fields of the resource types. */
  lemma NamesExactly()
    ensures NamesInOrder(AUDIT_ANNOTATION) == ["key", "valueExpression"]
    ensures NamesInOrder(EXPRESSION_WARNING) == ["fieldRef", "warning"]
    ensures NamesInOrder(MATCH_CONDITION) == ["name", "expression"]
    ensures NamesInOrder(PARAM_KIND) == ["apiVersion", "kind"] && NamesInOrder(PARAM_REF) == ["name", "namespace"]
    ensures NamesInOrder(NAMED_RULE) == ["resourceNames", "operations", "apiGroups", "apiVersions", "resources", "scope"]
    ensures NamesInOrder(MATCH_RESOURCES)
         == ["namespaceSelector", "objectSelector", "resourceRules", "excludeResourceRules", "matchPolicy"]
    ensures NamesInOrder(VALIDATION) == ["expression", "message", "reason", "messageExpression"]
    ensures NamesInOrder(POLICY_SPEC)
         == ["paramKind", "matchConstraints", "validations", "failurePolicy", "auditAnnotations", "matchConditions"]
    ensures NamesInOrder(TYPE_CHECKING) == ["expressionWarnings"]
    ensures NamesInOrder(POLICY_STATUS) == ["observedGeneration", "typeChecking", "conditions"]
    ensures NamesInOrder(BINDING_SPEC) == ["policyName", "paramRef", "matchResources", "validationActions"]
    ensures NamesInOrder(POLICY) == ["kind", "apiVersion", "metadata", "spec", "status"]
    ensures NamesInOrder(BINDING) == ["kind", "apiVersion", "metadata", "spec"]
  {
  }

  // ---------------------------------------------------------------------------------------
  // Converting
  // ---------------------------------------------------------------------------------------

  /** Types of API resources: kind and apiVersion come first. */
  ghost predicate IsResource(ty: Type) {
    && ty.TStruct? && WellFormed(ty) && |ty.fields| >= 2
    && ty.fields[0] == Optional("kind", TString) && ty.fields[1] == Optional("apiVersion", TString)
  }

  predicate HasVersion(v: Value) {
    v.VStruct? && |v.fields| >= 2 && v.fields[1].VString?
  }

  function APIVersion(v: Value): string {
    if HasVersion(v) then v.fields[1].s else ""
  }

  function WithVersion(v: Value, version: string): Value {
    if |APIVersion(v)| > 0 then VStruct(v.fields[1 := VString(version)]) else v
  }

  /** What converting a resource to the other group comes to. */
  function Converted(ty: Type, version: string, v: Value): Value
    requires HasType(v, ty)
  {
    WithVersion(Normalize(ty, v), version)
  }

  lemma ResourceParts(ty: Type, v: Value)
    requires IsResource(ty) && HasType(v, ty)
    ensures HasVersion(v) && HasVersion(Normalize(ty, v)) && APIVersion(Normalize(ty, v)) == APIVersion(v)
  {
    HaveTypesLength(ty.fields, v.fields);
    NormalizeFieldAt(ty.fields, v.fields, 1);
  }

  lemma ConvertedParts(ty: Type, version: string, v: Value)
    requires IsResource(ty) && HasType(v, ty)
    ensures
      var w := Converted(ty, version, v);
      && HasType(w, ty)
      && APIVersion(w) == (if APIVersion(v) == "" then "" else version)
      && NoEmptySlices(ty, w) && Normalize(ty, w) == w
  {
    ResourceParts(ty, v);
    NormalizeClears(ty, v);
    VersionIsFree(ty, Normalize(ty, v), version);
    NormalizeExact(ty, WithVersion(Normalize(ty, v), version));
  }

  /** The custom version is that of the custom group; what is written on the way back is not the native one. */
  lemma VersionsExactly()
    ensures CUSTOM_VERSION == "admissionregistration.x-k8s.io/v1alpha1"
    ensures WRITTEN_VERSION == "apiregistration.k8s.io/v1alpha1" && NATIVE_VERSION == "admissionregistration.k8s.io/v1alpha1"
    ensures WRITTEN_VERSION != NATIVE_VERSION
  {
    assert NATIVE_VERSION[1] != WRITTEN_VERSION[1];
  }

  /** A conversion writes the version string over an API version that is not empty, and changes nothing else
      but what JSON does. */
  lemma ConvertedExactly(ty: Type, version: string, v: Value, i: nat)
    requires IsResource(ty) && HasType(v, ty) && i < |ty.fields|
    ensures ty.fields[1].name == "apiVersion" && ty.fields[1].ty == TString
    ensures |v.fields| == |ty.fields| && HasType(v.fields[i], ty.fields[i].ty)
    ensures
      var w := Converted(ty, version, v);
      && w.VStruct? && |w.fields| == |ty.fields|
      && w.fields[i] ==
           if i == 1 then VString(if v.fields[1] == VString("") then "" else version)
           else NormalizeField(ty.fields[i], v.fields[i])
  {
    ResourceParts(ty, v);
    NormalizeFieldAt(ty.fields, v.fields, 1);
    NormalizeFieldAt(ty.fields, v.fields, i);
  }

  /** Another version string is as good for the type. */
  lemma VersionIsFree(ty: Type, v: Value, version: string)
    requires IsResource(ty) && HasType(v, ty)
    ensures HasType(WithVersion(v, version), ty)
    ensures NoEmptySlices(ty, WithVersion(v, version)) <==> NoEmptySlices(ty, v)
  {
    ResourceParts(ty, v);
    var fs, vs, ws := ty.fields, v.fields, v.fields[1 := VString(version)];
    assert HaveTypes(vs[1..], fs[1..]) && fs[1..][0] == fs[1];
    assert ws[1..] == [VString(version)] + vs[1..][1..] && vs[1..] == [vs[1]] + vs[1..][1..];
    assert HaveTypes(ws[1..], fs[1..]);
    assert NoEmptySlicesIn(fs[1..], ws[1..]) <==> NoEmptySlicesIn(fs[1..], vs[1..]);
  }

  /** `json.Marshal` and `json.Unmarshal` into a fresh value; neither fails on these types. */
  method ThroughJson(ty: Type, v: Value) returns (res: Value)
    requires WellFormed(ty) && HasType(v, ty)
    ensures res == Normalize(ty, v)
  {
    var toJson := Marshal(ty, v);
    RoundTrip(ty, v);
    res := Unmarshal(ty, toJson).value;
  }

  method NativeToCRDPolicy(vap: Option<Value>) returns (res: Option<Value>)
    requires vap.Some? ==> HasType(vap.value, POLICY)
    ensures vap == None <==> res == None
    ensures vap.Some? ==> res.value == Converted(POLICY, CUSTOM_VERSION, vap.value)
  {
    if vap == None {
      return None;
    }
    PolicyIsResource();
    ResourceParts(POLICY, vap.value);
    var value := ThroughJson(POLICY, vap.value);
    if |APIVersion(value)| > 0 {
      value := VStruct(value.fields[1 := VString("admissionregistration.x-k8s.io/v1alpha1")]);
    }
    res := Some(value);
  }

  method CRDToNativePolicy(vap: Option<Value>) returns (res: Option<Value>)
    requires vap.Some? ==> HasType(vap.value, POLICY)
    ensures vap == None <==> res == None
    ensures vap.Some? ==> res.value == Converted(POLICY, WRITTEN_VERSION, vap.value)
  {
    if vap == None {
      return None;
    }
    PolicyIsResource();
    ResourceParts(POLICY, vap.value);
    var value := ThroughJson(POLICY, vap.value);
    if |APIVersion(value)| > 0 {
      value := VStruct(value.fields[1 := VString("apiregistration.k8s.io/v1alpha1")]);
    }
    res := Some(value);
  }

  method NativeToCRDPolicyBinding(vap: Option<Value>) returns (res: Option<Value>)
    requires vap.Some? ==> HasType(vap.value, BINDING)
    ensures vap == None <==> res == None
    ensures vap.Some? ==> res.value == Converted(BINDING, CUSTOM_VERSION, vap.value)
  {
    if vap == None {
      return None;
    }
    BindingIsResource();
    ResourceParts(BINDING, vap.value);
    var value := ThroughJson(BINDING, vap.value);
    if |APIVersion(value)| > 0 {
      value := VStruct(value.fields[1 := VString("admissionregistration.x-k8s.io/v1alpha1")]);
    }
    res := Some(value);
  }

  method CRDToNativePolicyBinding(vap: Option<Value>) returns (res: Option<Value>)
    requires vap.Some? ==> HasType(vap.value, BINDING)
    ensures vap == None <==> res == None
    ensures vap.Some? ==> res.value == Converted(BINDING, WRITTEN_VERSION, vap.value)
  {
    if vap == None {
      return None;
    }
    BindingIsResource();
    ResourceParts(BINDING, vap.value);
    var value := ThroughJson(BINDING, vap.value);
    if |APIVersion(value)| > 0 {
      value := VStruct(value.fields[1 := VString("apiregistration.k8s.io/v1alpha1")]);
    }
    res := Some(value);
  }

  lemma PolicyIsResource()
    ensures IsResource(POLICY)
  {
    ResourcesWellFormed();
  }

  lemma BindingIsResource()
    ensures IsResource(BINDING)
  {
    ResourcesWellFormed();
  }

  // ---------------------------------------------------------------------------------------
  // There and back
  // ---------------------------------------------------------------------------------------

  /** Converting there and back gives the normal form, with the version string that the second
      converter writes; it is the normal form itself exactly when the version was empty or already
      that string, and the value itself exactly when that was in normal form, too. */
  lemma ThereAndBack(ty: Type, there: string, back: string, v: Value)
    requires IsResource(ty) && HasType(v, ty) && there != ""
    ensures HasType(Converted(ty, there, v), ty)
    ensures
      var w := Converted(ty, back, Converted(ty, there, v));
      && w == WithVersion(Normalize(ty, v), back)
      && (w == Normalize(ty, v) <==> APIVersion(v) == "" || APIVersion(v) == back)
      && (w == v <==> NoEmptySlices(ty, v) && (APIVersion(v) == "" || APIVersion(v) == back))
  {
    hide Normalize, NoEmptySlices, HasType;
    var n := Normalize(ty, v);
    ConvertedParts(ty, there, v);
    ResourceParts(ty, v);
    NormalizeExact(ty, v);
    NormalizeClears(ty, v);
    VersionIsFree(ty, n, back);
    SameVersion(n, back);
  }

  lemma SameVersion(v: Value, version: string)
    requires HasVersion(v)
    ensures WithVersion(v, version) == v <==> APIVersion(v) == "" || APIVersion(v) == version
  {
    if APIVersion(v) == version {
      assert v.fields[1 := VString(version)] == v.fields;
    } else {
      assert v.fields[1 := VString(version)][1] == VString(version);
    }
  }

  /** From the custom type to the native one and back. */
  lemma CRDRoundTrip(ty: Type, v: Value)
    requires ty == POLICY || ty == BINDING
    requires HasType(v, ty)
    ensures HasType(Converted(ty, WRITTEN_VERSION, v), ty)
    ensures
      var w := Converted(ty, CUSTOM_VERSION, Converted(ty, WRITTEN_VERSION, v));
      && (w == Normalize(ty, v) <==> APIVersion(v) == "" || APIVersion(v) == CUSTOM_VERSION)
      && (w == v <==> NoEmptySlices(ty, v) && (APIVersion(v) == "" || APIVersion(v) == CUSTOM_VERSION))
  {
    hide HasType, Normalize, NoEmptySlices, Converted;
    PolicyIsResource();
    BindingIsResource();
    ThereAndBack(ty, WRITTEN_VERSION, CUSTOM_VERSION, v);
  }

  /** From the native type to the custom one and back: the group name written back is not the
      native one, so an object that carries its proper version never comes back as it was; doing
      it a second time changes nothing more. */
  lemma NativeRoundTrip(ty: Type, v: Value)
    requires ty == POLICY || ty == BINDING
    requires HasType(v, ty)
    ensures HasType(Converted(ty, CUSTOM_VERSION, v), ty)
    ensures
      var w := Converted(ty, WRITTEN_VERSION, Converted(ty, CUSTOM_VERSION, v));
      && HasType(w, ty) && HasType(Converted(ty, CUSTOM_VERSION, w), ty)
      && w == WithVersion(Normalize(ty, v), WRITTEN_VERSION)
      && (APIVersion(v) == NATIVE_VERSION ==> w != Normalize(ty, v))
      && Converted(ty, WRITTEN_VERSION, Converted(ty, CUSTOM_VERSION, w)) == w
  {
    hide HasType, Normalize, NoEmptySlices, Converted, IsResource;
    PolicyIsResource();
    BindingIsResource();
    ThereAndBack(ty, CUSTOM_VERSION, WRITTEN_VERSION, v);
    var w := Converted(ty, WRITTEN_VERSION, Converted(ty, CUSTOM_VERSION, v));
    ConvertedParts(ty, CUSTOM_VERSION, v);
    ConvertedParts(ty, WRITTEN_VERSION, Converted(ty, CUSTOM_VERSION, v));
    ThereAndBack(ty, CUSTOM_VERSION, WRITTEN_VERSION, w);
    assert NATIVE_VERSION[1] != WRITTEN_VERSION[1];
  }

  /** Whether type checking has completed, shown by `status.typeChecking` being there, survives
      any conversion. */
  lemma TypeCheckingKept(v: Value, version: string)
    requires HasType(v, POLICY)
    ensures
      var w := Converted(POLICY, version, v);
      && |v.fields| == 5 && w.VStruct? && |w.fields| == 5
      && v.fields[4].VStruct? && |v.fields[4].fields| == 3
      && w.fields[4].VStruct? && |w.fields[4].fields| == 3
      && (w.fields[4].fields[1] == VNil <==> v.fields[4].fields[1] == VNil)
  {
    HaveTypesLength(POLICY_FIELDS, v.fields);
    NormalizeFieldAt(POLICY_FIELDS, v.fields, 4);
    var status := v.fields[4];
    assert Normalize(POLICY, v).fields[4] == Normalize(POLICY_STATUS, status);
    NormalizeFieldAt(POLICY_STATUS.fields, status.fields, 1);
  }
}
