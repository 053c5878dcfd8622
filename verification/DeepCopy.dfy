/** The generated deep-copy functions over pointers, slices and nested structs. Structs are values; a
    pointer leads to a cell, a slice to an array; both are shared when a struct is assigned. The
    content of a struct, all the way down, is its value as JSON conversion sees it, with nil and the
    empty slice told apart.

    A function copies `in` into `out`, field by field: it first writes something new through `out` and then
    fills that from what `in` leads to. If `out` is the very struct `in`, which is what `onItself` says,
    then `in` already leads to what has just been written. */
module DeepCopy {
  import opened Blanks
  import opened Conversion
  import opened Json
  import opened Sharing

  /** What a Go pointer leads to. */
  class Cell<T> {
    var v: T

    constructor (v: T)
      ensures this.v == v
    {
      this.v := v;
    }
  }

  // ---------------------------------------------------------------------------------------
  // Pointers and slices to structs without pointers
  // ---------------------------------------------------------------------------------------

  ghost function PointerCells<T>(p: Cell?<T>): set<object> {
    if p == null then {} else {p}
  }

  ghost function PointerView<T>(p: Cell?<T>, view: T -> Value): Value
    reads p
  {
    if p == null then VNil else VPointer(view(p.v))
  }

  ghost function SliceCells<T>(a: array?<T>): set<object> {
    if a == null then {} else {a}
  }

  ghost function SliceView<T>(a: array?<T>, view: T -> Value): Value
    reads a
  {
    if a == null then VNil else VSlice(seq(a.Length, i requires 0 <= i < a.Length reads a => view(a[i])))
  }

  /** `*out = new(T)` and `**out = **in`. */
  method CopyPointer<T>(p: Cell?<T>, onItself: bool, zero: T, ghost view: T -> Value, ghost elem: Type)
      returns (q: Cell?<T>)
    requires view(zero) == Zero(elem)
    ensures PointerView(q, view) == Copied(onItself, TPointer(elem), PointerView(p, view))
    ensures fresh(PointerCells(q)) && (q != null ==> fresh(q))
  {
    q := p;
    if p != null {
      q := new Cell(zero);
      var from := if onItself then q else p;
      q.v := from.v;
    }
  }

  /** `make` and `copy`. */
  method CopySlice<T>(a: array?<T>, onItself: bool, zero: T, ghost view: T -> Value, ghost elem: Type)
      returns (b: array?<T>)
    requires view(zero) == Zero(elem)
    ensures SliceView(b, view) == Copied(onItself, TSlice(elem), SliceView(a, view))
    ensures fresh(SliceCells(b)) && (b != null ==> fresh(b))
  {
    b := a;
    if a != null {
      b := new T[a.Length](_ => zero);
      var from := if onItself then b else a;
      for i := 0 to a.Length
        invariant forall k | 0 <= k < i :: b[k] == if onItself then zero else a[k]
        invariant onItself ==> forall k | i <= k < a.Length :: b[k] == zero
        modifies b
      {
        b[i] := from[i];
      }
      if onItself {
        assert SliceView(b, view) == VSlice(seq(a.Length, i => Zero(elem)));
      }
    }
  }

  lemma PointerUnshared<T>(p: Cell?<T>, view: T -> Value)
    requires forall x: T :: Nodes(view(x)) == 0
    ensures Unshared(PointerCells(p), PointerView(p, view))
  {
  }

  lemma SliceUnshared<T>(a: array?<T>, view: T -> Value)
    requires forall x: T :: Nodes(view(x)) == 0
    ensures Unshared(SliceCells(a), SliceView(a, view))
  {
    if a != null {
      NoNodes(SliceView(a, view).items);
    }
  }

  ghost function Text(s: string): Value {
    VString(s)
  }

  /** Label selectors, conditions and metadata are copied by their own library's functions; here they
      are opaque content. */
  ghost function Unread(x: Opaque): Value {
    VOpaque(x)
  }

  const BLANK := Other("")

  /** What the library's function makes of metadata that is copied onto itself; nothing of nothing. */
  type Library = f: Opaque -> Opaque | f(BLANK) == BLANK witness x => x

  // ---------------------------------------------------------------------------------------
  // Structs without pointers
  // ---------------------------------------------------------------------------------------

  datatype AuditAnnotation = AuditAnnotation(key: string, valueExpression: string)

  ghost function ViewAuditAnnotation(x: AuditAnnotation): Value {
    VStruct([VString(x.key), VString(x.valueExpression)])
  }

  datatype ExpressionWarning = ExpressionWarning(fieldRef: string, warning: string)

  ghost function ViewExpressionWarning(x: ExpressionWarning): Value {
    VStruct([VString(x.fieldRef), VString(x.warning)])
  }

  datatype MatchCondition = MatchCondition(name: string, expression: string)

  ghost function ViewMatchCondition(x: MatchCondition): Value {
    VStruct([VString(x.name), VString(x.expression)])
  }

  datatype ParamKind = ParamKind(apiVersion: string, kind: string)

  ghost function ViewParamKind(x: ParamKind): Value {
    VStruct([VString(x.apiVersion), VString(x.kind)])
  }

  datatype ParamRef = ParamRef(name: string, namespace: string)

  ghost function ViewParamRef(x: ParamRef): Value {
    VStruct([VString(x.name), VString(x.namespace)])
  }

  method CopyTwo(a: array?<string>, b: array?<string>, onItself: bool) returns (c: array?<string>, d: array?<string>)
    ensures SliceView(c, Text) == Copied(onItself, STRINGS, SliceView(a, Text))
    ensures SliceView(d, Text) == Copied(onItself, STRINGS, SliceView(b, Text))
    ensures fresh(SliceCells(c)) && (c != null ==> fresh(c))
    ensures fresh(SliceCells(d)) && (d != null ==> fresh(d))
    ensures Differ(c, d)
  {
    hide SliceCells, SliceView, Copied, Zero;
    LeavesAreZero();
    c := CopySlice(a, onItself, "", Text, TString);
    d := CopySlice(b, onItself, "", Text, TString);
  }

  lemma LeavesHaveNoNodes()
    ensures forall x :: Nodes(Text(x)) == 0
    ensures forall x :: Nodes(ViewAuditAnnotation(x)) == 0
    ensures forall x :: Nodes(ViewExpressionWarning(x)) == 0
    ensures forall x :: Nodes(ViewMatchCondition(x)) == 0
    ensures forall x :: Nodes(ViewParamKind(x)) == 0
    ensures forall x :: Nodes(ViewParamRef(x)) == 0
    ensures forall x :: Nodes(Unread(x)) == 0
  {
    forall a: string, b: string ensures NodesOf([VString(a), VString(b)]) == 0 {
      NoNodes([VString(a), VString(b)]);
    }
  }

  lemma LeavesAreZero()
    ensures Text("") == Zero(TString) && Unread(BLANK) == Zero(TOpaque)
    ensures ViewAuditAnnotation(AuditAnnotation("", "")) == Zero(AUDIT_ANNOTATION)
    ensures ViewExpressionWarning(ExpressionWarning("", "")) == Zero(EXPRESSION_WARNING)
    ensures ViewMatchCondition(MatchCondition("", "")) == Zero(MATCH_CONDITION)
    ensures ViewParamKind(ParamKind("", "")) == Zero(PARAM_KIND)
    ensures ViewParamRef(ParamRef("", "")) == Zero(PARAM_REF)
  {
  }

  // ---------------------------------------------------------------------------------------
  // Structs with pointers and slices
  // ---------------------------------------------------------------------------------------

  datatype Validation = Validation(
    expression: string,
    message: string,
    reason: Cell?<string>,
    messageExpression: string)
  {
    ghost function Cells(): set<object> {
      PointerCells(reason)
    }

    ghost function View(): Value
      reads Cells()
    {
      VStruct([VString(expression), VString(message), PointerView(reason, Text), VString(messageExpression)])
    }

    lemma Exist()
      ensures forall o | o in Cells() :: allocated(o)
    {
    }

    lemma Count()
      ensures Unshared(Cells(), View())
    {
      hide PointerCells, PointerView, Nodes, NodesOf, Unshared, UnsharedAll;
      AtomsHaveNoNodes();
      LeavesHaveNoNodes();
      NoCells(VString(expression));
      NoCells(VString(message));
      NoCells(VString(messageExpression));
      PointerUnshared(reason, Text);
      var cells, vs := OnePart({}, VString(expression));
      cells, vs := OneMore(cells, vs, {}, VString(message));
      cells, vs := OneMore(cells, vs, PointerCells(reason), PointerView(reason, Text));
      cells, vs := OneMore(cells, vs, {}, VString(messageExpression));
      assert vs == View().fields;
      AsStruct(cells, vs);
    }

    method DeepCopyInto(onItself: bool) returns (out: Validation)
      ensures out.View() == Copied(onItself, VALIDATION, View())
      ensures fresh(out.Cells()) && Unshared(out.Cells(), out.View())
    {
      hide PointerView, Nodes, NodesOf, Copied, Unshared, Zero;
      LeavesAreZero();
      CopiedAtoms(onItself);
      var copy := CopyPointer(reason, onItself, "", Text, TString);
      out := this.(reason := copy);
      out.Count();
      CopiedByField(onItself, VALIDATION.fields, View().fields, out.View().fields);
    }
  }

  const ZERO_VALIDATION := Validation("", "", null, "")

  lemma ValidationZero()
    ensures ZERO_VALIDATION.View() == Zero(VALIDATION)
  {
    ZeroByField(VALIDATION.fields, ZERO_VALIDATION.View().fields);
  }

  /** The rule that a named rule embeds, copied by its own library's function. */
  datatype RuleWithOperations = RuleWithOperations(
    operations: array?<string>,
    apiGroups: array?<string>,
    apiVersions: array?<string>,
    resources: array?<string>,
    scope: Cell?<string>)
  {
    ghost function Cells(): set<object> {
      SliceCells(operations) + SliceCells(apiGroups) + SliceCells(apiVersions) + SliceCells(resources)
      + PointerCells(scope)
    }

    ghost function Views(): (views: seq<Value>)
      reads Cells()
      ensures |views| == 5
    {
      [ SliceView(operations, Text), SliceView(apiGroups, Text), SliceView(apiVersions, Text),
        SliceView(resources, Text), PointerView(scope, Text) ]
    }

    /** No two pointers or slices of the struct share a cell. */
    ghost predicate Apart() {
      && Differ(operations, apiGroups) && Differ(operations, apiVersions) && Differ(operations, resources)
      && Differ(operations, scope) && Differ(apiGroups, apiVersions) && Differ(apiGroups, resources)
      && Differ(apiGroups, scope) && Differ(apiVersions, resources) && Differ(apiVersions, scope)
      && Differ(resources, scope)
    }

    lemma Chain()
      requires Apart()
      ensures
        var a, b, c, d, e := SliceCells(operations), SliceCells(apiGroups), SliceCells(apiVersions),
          SliceCells(resources), PointerCells(scope);
        a !! b && a + b !! c && a + b + c !! d && a + b + c + d !! e
    {
    }

    lemma Count()
      requires Apart()
      ensures Unshared(Cells(), VStruct(Views()))
    {
      hide SliceCells, PointerCells, SliceView, PointerView, Nodes, NodesOf, Unshared, UnsharedAll, Apart;
      LeavesHaveNoNodes();
      SliceUnshared(operations, Text);
      SliceUnshared(apiGroups, Text);
      SliceUnshared(apiVersions, Text);
      SliceUnshared(resources, Text);
      PointerUnshared(scope, Text);
      Chain();
      var cells, vs := OnePart(SliceCells(operations), SliceView(operations, Text));
      cells, vs := OneMore(cells, vs, SliceCells(apiGroups), SliceView(apiGroups, Text));
      cells, vs := OneMore(cells, vs, SliceCells(apiVersions), SliceView(apiVersions, Text));
      cells, vs := OneMore(cells, vs, SliceCells(resources), SliceView(resources, Text));
      cells, vs := OneMore(cells, vs, PointerCells(scope), PointerView(scope, Text));
      assert vs == Views();
      AsStruct(cells, vs);
    }

    method DeepCopyInto(onItself: bool) returns (out: RuleWithOperations)
      ensures out.Views() == CopiedFields(onItself, NAMED_RULE.fields[1..], Views())
      ensures fresh(out.Cells()) && Unshared(out.Cells(), VStruct(out.Views()))
    {
      hide SliceCells, PointerCells, SliceView, PointerView, Unshared, Copied, CopiedFields, Zero;
      LeavesAreZero();
      var a, b := CopyTwo(operations, apiGroups, onItself);
      var c, d := CopyTwo(apiVersions, resources, onItself);
      var e := CopyPointer(scope, onItself, "", Text, TString);
      out := RuleWithOperations(a, b, c, d, e);
      out.Count();
      CopiedByField(onItself, NAMED_RULE.fields[1..], Views(), out.Views());
    }
  }

  datatype NamedRuleWithOperations = NamedRuleWithOperations(resourceNames: array?<string>, rule: RuleWithOperations) {
    ghost function Cells(): set<object> {
      SliceCells(resourceNames) + rule.Cells()
    }

    ghost function View(): Value
      reads Cells()
    {
      VStruct([SliceView(resourceNames, Text)] + rule.Views())
    }

    lemma Exist()
      ensures forall o | o in Cells() :: allocated(o)
    {
    }

    lemma Count()
      requires NotIn(resourceNames, rule.Cells()) && Unshared(rule.Cells(), VStruct(rule.Views()))
      ensures Unshared(Cells(), View())
    {
      hide RuleWithOperations.Cells, SliceView, PointerView, Nodes, NodesOf, Unshared, UnsharedAll;
      LeavesHaveNoNodes();
      SliceUnshared(resourceNames, Text);
      Prepended(SliceCells(resourceNames), SliceView(resourceNames, Text), rule.Cells(), rule.Views());
    }

    method DeepCopyInto(onItself: bool) returns (out: NamedRuleWithOperations)
      ensures out.View() == Copied(onItself, NAMED_RULE, View())
      ensures fresh(out.Cells()) && Unshared(out.Cells(), out.View())
    {
      hide SliceView, SliceCells, RuleWithOperations.Cells, RuleWithOperations.Views, Unshared, Copied, CopiedFields, Zero;
      LeavesAreZero();
      var names := CopySlice(resourceNames, onItself, "", Text, TString);
      var embedded := rule.DeepCopyInto(onItself);
      out := NamedRuleWithOperations(names, embedded);
      out.Count();
      CopiedPrepended(onItself, NAMED_RULE.fields, SliceView(resourceNames, Text), rule.Views(), out.View().fields);
    }
  }

  const ZERO_RULE := NamedRuleWithOperations(null, RuleWithOperations(null, null, null, null, null))

  lemma RuleZero()
    ensures ZERO_RULE.View() == Zero(NAMED_RULE)
  {
    ZeroByField(NAMED_RULE.fields, ZERO_RULE.View().fields);
  }

  // ---------------------------------------------------------------------------------------
  // Slices of validations
  // ---------------------------------------------------------------------------------------

  ghost function ValidationCells(s: seq<Validation>): (cells: set<object>)
  {
    if s == [] then {} else ValidationCells(s[..|s| - 1]) + s[|s| - 1].Cells()
  }

  ghost function ValidationViews(s: seq<Validation>): (views: seq<Value>)
    reads ValidationCells(s)
    ensures |views| == |s|
  {
    if s == [] then [] else ValidationViews(s[..|s| - 1]) + [s[|s| - 1].View()]
  }

  lemma NoValidations()
    ensures ValidationCells([]) == {} && ValidationViews([]) == []
  {
  }

  lemma ValidationsGrow(s: seq<Validation>, x: Validation)
    ensures ValidationCells(s + [x]) == ValidationCells(s) + x.Cells()
    ensures ValidationViews(s + [x]) == ValidationViews(s) + [x.View()]
  {
    assert (s + [x])[..|s|] == s;
  }

  lemma ValidationsExist(s: seq<Validation>)
    ensures forall o | o in ValidationCells(s) :: allocated(o)
  {
    hide Validation.Cells;
    if s != [] {
      ValidationsExist(s[..|s| - 1]);
      s[|s| - 1].Exist();
    }
  }

  lemma ValidationViewAt(s: seq<Validation>, i: nat)
    requires i < |s|
    ensures ValidationViews(s)[i] == s[i].View()
    decreases |s|
  {
    var front := s[..|s| - 1];
    if i < |s| - 1 {
      ValidationViewAt(front, i);
    }
  }

  ghost function ValidationSliceCells(a: array?<Validation>): (cells: set<object>)
    reads a
    ensures a != null ==> {a} <= cells
  {
    if a == null then {} else {a} + ValidationCells(a[..])
  }

  ghost function ValidationSliceView(a: array?<Validation>): Value
    reads a, ValidationSliceCells(a)
  {
    if a == null then VNil else VSlice(ValidationViews(a[..]))
  }

  lemma ValidationSliceExists(a: array?<Validation>)
    ensures forall o | o in ValidationSliceCells(a) :: allocated(o)
  {
    if a != null {
      ValidationsExist(a[..]);
    }
  }

  /** One round of the loop below. */
  method CopyValidationAt(a: array<Validation>, b: array<Validation>, i: nat, onItself: bool)
      returns (ghost more: set<object>)
    requires i < a.Length == b.Length && b !in ValidationCells(b[..i]) && (onItself <==> a == b)
    requires UnsharedAll(ValidationCells(b[..i]), ValidationViews(b[..i]))
    modifies b
    ensures forall k | 0 <= k < b.Length && k != i :: b[k] == old(b[k])
    ensures ValidationViews(b[..i + 1]) == old(ValidationViews(b[..i])) + [Copied(onItself, VALIDATION, old(a[i].View()))]
    ensures ValidationCells(b[..i + 1]) == old(ValidationCells(b[..i])) + more && b !in more && fresh(more)
    ensures UnsharedAll(ValidationCells(b[..i + 1]), ValidationViews(b[..i + 1]))
  {
    hide Unshared, UnsharedAll, Copied;
    hide ValidationCells, ValidationViews;
    hide Validation.Cells, Validation.View;
    ghost var done := b[..i];
    ValidationsExist(done);
    var element := a[i];
    element.Exist();
    var copy := element.DeepCopyInto(onItself);
    ValidationsGrow(done, copy);
    ghost var cells, views := OneMore(ValidationCells(done), ValidationViews(done), copy.Cells(), copy.View());
    b[i] := copy;
    ValidationsGrow(done, copy);
    assert b[..i + 1] == done + [copy];
    more := copy.Cells();
  }

  /** The loop over a slice, into a slice of zeros. */
  method FillValidations(a: array<Validation>, b: array<Validation>, onItself: bool)
    requires a.Length == b.Length && b !in ValidationCells(a[..]) && (onItself <==> a == b)
    requires onItself ==> forall k | 0 <= k < a.Length :: a[k] == ZERO_VALIDATION
    modifies b
    ensures ValidationViews(b[..]) == CopiedItems(onItself, VALIDATION, old(ValidationViews(a[..])))
    ensures fresh(ValidationCells(b[..])) && b !in ValidationCells(b[..])
    ensures UnsharedAll(ValidationCells(b[..]), ValidationViews(b[..]))
  {
    hide Unshared, UnsharedAll, Copied, CopiedItems, Zero;
    hide ValidationCells, ValidationViews;
    hide Validation.Cells, Validation.View;
    ghost var from, cells, views := a[..], ValidationCells(a[..]), ValidationViews(a[..]);
    ghost var want := CopiedItems(onItself, VALIDATION, views);
    ValidationsExist(from);
    NoValidations();
    NoParts();
    CopiedItemsAre(onItself, VALIDATION, views);
    assert b[..0] == [];
    for i := 0 to a.Length
      invariant forall k | i <= k < a.Length :: a[k] == from[k]
      invariant ValidationCells(from) == cells && ValidationViews(from) == views
      invariant fresh(ValidationCells(b[..i])) && b !in ValidationCells(b[..i])
      invariant ValidationViews(b[..i]) == want[..i]
      invariant UnsharedAll(ValidationCells(b[..i]), ValidationViews(b[..i]))
      modifies b
    {
      ValidationViewAt(from, i);
      CopiedValidation(onItself, from[i]);
      ghost var more := CopyValidationAt(a, b, i, onItself);
    }
    assert b[..] == b[..a.Length] && want[..a.Length] == want;
  }

  /** Only zeros are copied onto themselves. */
  lemma CopiedValidation(onItself: bool, x: Validation)
    requires onItself ==> x == ZERO_VALIDATION
    ensures Copied(onItself, VALIDATION, x.View()) == if onItself then Zero(VALIDATION) else x.View()
  {
    hide Blanked, Zero, Validation.View;
    if onItself {
      ValidationZero();
      ZeroStaysZero(VALIDATION);
    }
  }

  method CopyValidations(a: array?<Validation>, onItself: bool) returns (b: array?<Validation>)
    ensures ValidationSliceView(b) == Copied(onItself, TSlice(VALIDATION), ValidationSliceView(a))
    ensures fresh(ValidationSliceCells(b)) && Unshared(ValidationSliceCells(b), ValidationSliceView(b))
    ensures ValidationSliceView(a) == old(ValidationSliceView(a)) && ValidationSliceCells(a) == old(ValidationSliceCells(a))
  {
    hide Unshared, UnsharedAll, Copied, CopiedItems, Zero;
    hide ValidationCells, ValidationViews;
    NilUnshared();
    b := a;
    CopiedSlice(onItself, VALIDATION, if a == null then [] else ValidationViews(a[..]));
    if a != null {
      b := CopyValidationArray(a, onItself);
      BehindSlice(b, ValidationCells(b[..]), ValidationViews(b[..]));
    }
  }

  /** `make` and the loop: what is read through `in` is the old slice or the new one. */
  method CopyValidationArray(a: array<Validation>, onItself: bool) returns (b: array<Validation>)
    ensures ValidationViews(b[..]) == CopiedItems(onItself, VALIDATION, old(ValidationViews(a[..])))
    ensures fresh(b) && fresh(ValidationCells(b[..])) && b !in ValidationCells(b[..])
    ensures UnsharedAll(ValidationCells(b[..]), ValidationViews(b[..]))
    ensures ValidationViews(a[..]) == old(ValidationViews(a[..])) && ValidationCells(a[..]) == old(ValidationCells(a[..]))
  {
    hide UnsharedAll, Zero;
    hide ValidationCells, ValidationViews;
    hide Validation.Cells, Validation.View;
    ValidationsExist(a[..]);
    b := new Validation[a.Length](_ => ZERO_VALIDATION);
    assert ValidationCells(a[..]) == old(ValidationCells(a[..]));
    ValidationNothingInZeros(b[..]);
    var from := if onItself then b else a;
    FillValidations(from, b, onItself);
  }

  lemma ValidationNothingInZeros(s: seq<Validation>)
    requires forall k | 0 <= k < |s| :: s[k] == ZERO_VALIDATION
    ensures ValidationCells(s) == {}
  {
    if s != [] {
      ValidationNothingInZeros(s[..|s| - 1]);
    }
  }

  // ---------------------------------------------------------------------------------------
  // Slices of rules
  // ---------------------------------------------------------------------------------------

  ghost function RuleCells(s: seq<NamedRuleWithOperations>): (cells: set<object>)
  {
    if s == [] then {} else RuleCells(s[..|s| - 1]) + s[|s| - 1].Cells()
  }

  ghost function RuleViews(s: seq<NamedRuleWithOperations>): (views: seq<Value>)
    reads RuleCells(s)
    ensures |views| == |s|
  {
    if s == [] then [] else RuleViews(s[..|s| - 1]) + [s[|s| - 1].View()]
  }

  lemma NoRules()
    ensures RuleCells([]) == {} && RuleViews([]) == []
  {
  }

  lemma RulesGrow(s: seq<NamedRuleWithOperations>, x: NamedRuleWithOperations)
    ensures RuleCells(s + [x]) == RuleCells(s) + x.Cells()
    ensures RuleViews(s + [x]) == RuleViews(s) + [x.View()]
  {
    assert (s + [x])[..|s|] == s;
  }

  lemma RulesExist(s: seq<NamedRuleWithOperations>)
    ensures forall o | o in RuleCells(s) :: allocated(o)
  {
    hide NamedRuleWithOperations.Cells;
    if s != [] {
      RulesExist(s[..|s| - 1]);
      s[|s| - 1].Exist();
    }
  }

  lemma RuleViewAt(s: seq<NamedRuleWithOperations>, i: nat)
    requires i < |s|
    ensures RuleViews(s)[i] == s[i].View()
    decreases |s|
  {
    var front := s[..|s| - 1];
    if i < |s| - 1 {
      RuleViewAt(front, i);
    }
  }

  ghost function RuleSliceCells(a: array?<NamedRuleWithOperations>): (cells: set<object>)
    reads a
    ensures a != null ==> {a} <= cells
  {
    if a == null then {} else {a} + RuleCells(a[..])
  }

  ghost function RuleSliceView(a: array?<NamedRuleWithOperations>): Value
    reads a, RuleSliceCells(a)
  {
    if a == null then VNil else VSlice(RuleViews(a[..]))
  }

  lemma RuleSliceExists(a: array?<NamedRuleWithOperations>)
    ensures forall o | o in RuleSliceCells(a) :: allocated(o)
  {
    if a != null {
      RulesExist(a[..]);
    }
  }

  /** One round of the loop below. */
  method CopyRuleAt(a: array<NamedRuleWithOperations>, b: array<NamedRuleWithOperations>, i: nat, onItself: bool)
      returns (ghost more: set<object>)
    requires i < a.Length == b.Length && b !in RuleCells(b[..i]) && (onItself <==> a == b)
    requires UnsharedAll(RuleCells(b[..i]), RuleViews(b[..i]))
    modifies b
    ensures forall k | 0 <= k < b.Length && k != i :: b[k] == old(b[k])
    ensures RuleViews(b[..i + 1]) == old(RuleViews(b[..i])) + [Copied(onItself, NAMED_RULE, old(a[i].View()))]
    ensures RuleCells(b[..i + 1]) == old(RuleCells(b[..i])) + more && b !in more && fresh(more)
    ensures UnsharedAll(RuleCells(b[..i + 1]), RuleViews(b[..i + 1]))
  {
    hide Unshared, UnsharedAll, Copied;
    hide RuleCells, RuleViews;
    hide NamedRuleWithOperations.Cells, NamedRuleWithOperations.View;
    ghost var done := b[..i];
    RulesExist(done);
    var element := a[i];
    element.Exist();
    var copy := element.DeepCopyInto(onItself);
    RulesGrow(done, copy);
    ghost var cells, views := OneMore(RuleCells(done), RuleViews(done), copy.Cells(), copy.View());
    b[i] := copy;
    RulesGrow(done, copy);
    assert b[..i + 1] == done + [copy];
    more := copy.Cells();
  }

  /** The loop over a slice, into a slice of zeros. */
  method FillRules(a: array<NamedRuleWithOperations>, b: array<NamedRuleWithOperations>, onItself: bool)
    requires a.Length == b.Length && b !in RuleCells(a[..]) && (onItself <==> a == b)
    requires onItself ==> forall k | 0 <= k < a.Length :: a[k] == ZERO_RULE
    modifies b
    ensures RuleViews(b[..]) == CopiedItems(onItself, NAMED_RULE, old(RuleViews(a[..])))
    ensures fresh(RuleCells(b[..])) && b !in RuleCells(b[..])
    ensures UnsharedAll(RuleCells(b[..]), RuleViews(b[..]))
  {
    hide Unshared, UnsharedAll, Copied, CopiedItems, Zero;
    hide RuleCells, RuleViews;
    hide NamedRuleWithOperations.Cells, NamedRuleWithOperations.View;
    ghost var from, cells, views := a[..], RuleCells(a[..]), RuleViews(a[..]);
    ghost var want := CopiedItems(onItself, NAMED_RULE, views);
    RulesExist(from);
    NoRules();
    NoParts();
    CopiedItemsAre(onItself, NAMED_RULE, views);
    assert b[..0] == [];
    for i := 0 to a.Length
      invariant forall k | i <= k < a.Length :: a[k] == from[k]
      invariant RuleCells(from) == cells && RuleViews(from) == views
      invariant fresh(RuleCells(b[..i])) && b !in RuleCells(b[..i])
      invariant RuleViews(b[..i]) == want[..i]
      invariant UnsharedAll(RuleCells(b[..i]), RuleViews(b[..i]))
      modifies b
    {
      RuleViewAt(from, i);
      CopiedRule(onItself, from[i]);
      ghost var more := CopyRuleAt(a, b, i, onItself);
    }
    assert b[..] == b[..a.Length] && want[..a.Length] == want;
  }

  /** Only zeros are copied onto themselves. */
  lemma CopiedRule(onItself: bool, x: NamedRuleWithOperations)
    requires onItself ==> x == ZERO_RULE
    ensures Copied(onItself, NAMED_RULE, x.View()) == if onItself then Zero(NAMED_RULE) else x.View()
  {
    hide Blanked, Zero, NamedRuleWithOperations.View;
    if onItself {
      RuleZero();
      ZeroStaysZero(NAMED_RULE);
    }
  }

  method CopyRules(a: array?<NamedRuleWithOperations>, onItself: bool) returns (b: array?<NamedRuleWithOperations>)
    ensures RuleSliceView(b) == Copied(onItself, TSlice(NAMED_RULE), RuleSliceView(a))
    ensures fresh(RuleSliceCells(b)) && Unshared(RuleSliceCells(b), RuleSliceView(b))
    ensures RuleSliceView(a) == old(RuleSliceView(a)) && RuleSliceCells(a) == old(RuleSliceCells(a))
  {
    hide Unshared, UnsharedAll, Copied, CopiedItems, Zero;
    hide RuleCells, RuleViews;
    NilUnshared();
    b := a;
    CopiedSlice(onItself, NAMED_RULE, if a == null then [] else RuleViews(a[..]));
    if a != null {
      b := CopyRuleArray(a, onItself);
      BehindSlice(b, RuleCells(b[..]), RuleViews(b[..]));
    }
  }

  /** `make` and the loop: what is read through `in` is the old slice or the new one. */
  method CopyRuleArray(a: array<NamedRuleWithOperations>, onItself: bool) returns (b: array<NamedRuleWithOperations>)
    ensures RuleViews(b[..]) == CopiedItems(onItself, NAMED_RULE, old(RuleViews(a[..])))
    ensures fresh(b) && fresh(RuleCells(b[..])) && b !in RuleCells(b[..])
    ensures UnsharedAll(RuleCells(b[..]), RuleViews(b[..]))
    ensures RuleViews(a[..]) == old(RuleViews(a[..])) && RuleCells(a[..]) == old(RuleCells(a[..]))
  {
    hide UnsharedAll, Zero;
    hide RuleCells, RuleViews;
    hide NamedRuleWithOperations.Cells, NamedRuleWithOperations.View;
    RulesExist(a[..]);
    b := new NamedRuleWithOperations[a.Length](_ => ZERO_RULE);
    assert RuleCells(a[..]) == old(RuleCells(a[..]));
    RuleNothingInZeros(b[..]);
    var from := if onItself then b else a;
    FillRules(from, b, onItself);
  }

  lemma RuleNothingInZeros(s: seq<NamedRuleWithOperations>)
    requires forall k | 0 <= k < |s| :: s[k] == ZERO_RULE
    ensures RuleCells(s) == {}
  {
    if s != [] {
      RuleNothingInZeros(s[..|s| - 1]);
    }
  }

  // ---------------------------------------------------------------------------------------
  // What policies and bindings match
  // ---------------------------------------------------------------------------------------

  datatype MatchResources = MatchResources(
    namespaceSelector: Cell?<Opaque>,
    objectSelector: Cell?<Opaque>,
    resourceRules: array?<NamedRuleWithOperations>,
    excludeResourceRules: array?<NamedRuleWithOperations>,
    matchPolicy: Cell?<string>)
  {
    ghost function Cells(): (cells: set<object>)
      reads resourceRules, excludeResourceRules
      ensures SliceCells(resourceRules) + SliceCells(excludeResourceRules) <= cells
    {
      PointerCells(namespaceSelector) + PointerCells(objectSelector)
      + RuleSliceCells(resourceRules) + RuleSliceCells(excludeResourceRules) + PointerCells(matchPolicy)
    }

    ghost function View(): Value
      reads resourceRules, excludeResourceRules, Cells()
    {
      VStruct([
        PointerView(namespaceSelector, Unread),
        PointerView(objectSelector, Unread),
        RuleSliceView(resourceRules),
        RuleSliceView(excludeResourceRules),
        PointerView(matchPolicy, Text)])
    }

    lemma Exist()
      ensures forall o | o in Cells() :: allocated(o)
    {
      hide RuleSliceCells;
      RuleSliceExists(resourceRules);
      RuleSliceExists(excludeResourceRules);
    }

    /** No two pointers or slices of the struct share a cell. */
    ghost predicate Apart()
      reads resourceRules, excludeResourceRules
    {
      && Differ(namespaceSelector, objectSelector) && Differ(namespaceSelector, matchPolicy)
      && Differ(objectSelector, matchPolicy)
      && NotIn(namespaceSelector, RuleSliceCells(resourceRules) + RuleSliceCells(excludeResourceRules))
      && NotIn(objectSelector, RuleSliceCells(resourceRules) + RuleSliceCells(excludeResourceRules))
      && NotIn(matchPolicy, RuleSliceCells(resourceRules) + RuleSliceCells(excludeResourceRules))
      && RuleSliceCells(resourceRules) !! RuleSliceCells(excludeResourceRules)
    }

    lemma Chain()
      requires Apart()
      ensures
        var a, b, c, d, e := PointerCells(namespaceSelector), PointerCells(objectSelector),
          RuleSliceCells(resourceRules), RuleSliceCells(excludeResourceRules), PointerCells(matchPolicy);
        a !! b && a + b !! c && a + b + c !! d && a + b + c + d !! e
    {
      hide RuleSliceCells;
    }

    lemma Count()
      requires Apart()
      requires Unshared(RuleSliceCells(resourceRules), RuleSliceView(resourceRules))
      requires Unshared(RuleSliceCells(excludeResourceRules), RuleSliceView(excludeResourceRules))
      ensures Unshared(Cells(), View())
    {
      hide RuleSliceCells, RuleSliceView, PointerCells, PointerView, Nodes, NodesOf, Unshared, UnsharedAll, Apart;
      LeavesHaveNoNodes();
      PointerUnshared(namespaceSelector, Unread);
      PointerUnshared(objectSelector, Unread);
      PointerUnshared(matchPolicy, Text);
      Chain();
      var cells, vs := OnePart(PointerCells(namespaceSelector), PointerView(namespaceSelector, Unread));
      cells, vs := OneMore(cells, vs, PointerCells(objectSelector), PointerView(objectSelector, Unread));
      cells, vs := OneMore(cells, vs, RuleSliceCells(resourceRules), RuleSliceView(resourceRules));
      cells, vs := OneMore(cells, vs, RuleSliceCells(excludeResourceRules), RuleSliceView(excludeResourceRules));
      cells, vs := OneMore(cells, vs, PointerCells(matchPolicy), PointerView(matchPolicy, Text));
      assert vs == View().fields;
      AsStruct(cells, vs);
    }

    method DeepCopyInto(onItself: bool) returns (out: MatchResources)
      ensures out.View() == Copied(onItself, MATCH_RESOURCES, View())
      ensures fresh(out.Cells()) && Unshared(out.Cells(), out.View())
    {
      hide PointerCells, PointerView, RuleSliceCells, RuleSliceView, Unshared, Copied, Zero;
      LeavesAreZero();
      RuleSliceExists(resourceRules);
      RuleSliceExists(excludeResourceRules);
      var a := CopyPointer(namespaceSelector, onItself, BLANK, Unread, TOpaque);
      var b := CopyPointer(objectSelector, onItself, BLANK, Unread, TOpaque);
      var e := CopyPointer(matchPolicy, onItself, "", Text, TString);
      var c, d := CopyBoth(resourceRules, excludeResourceRules, onItself);
      out := MatchResources(a, b, c, d, e);
      out.Count();
      CopiedByField(onItself, MATCH_RESOURCES.fields, View().fields, out.View().fields);
    }
  }

  const ZERO_MATCH := MatchResources(null, null, null, null, null)

  lemma MatchZero()
    ensures ZERO_MATCH.View() == Zero(MATCH_RESOURCES) && ZERO_MATCH.Cells() == {}
  {
    ZeroByField(MATCH_RESOURCES.fields, ZERO_MATCH.View().fields);
  }

  /** A struct whose two selectors are the same pointer is told apart from one that shares nothing; its
      copy has two cells in their place. */
  lemma SharingShows(p: Cell<Opaque>)
    ensures var m := MatchResources(p, p, null, null, null); !Unshared(m.Cells(), m.View())
  {
    hide UnsharedAll, NodesOf;
    var m := MatchResources(p, p, null, null, null);
    assert m.Cells() == {p};
    var v := VPointer(VOpaque(p.v));
    NodesGrow([], v);
    NodesGrow([] + [v], v);
    NodesGrow([] + [v] + [v], VNil);
    NodesGrow([] + [v] + [v] + [VNil], VNil);
    NodesGrow([] + [v] + [v] + [VNil] + [VNil], VNil);
    assert m.View().fields == [] + [v] + [v] + [VNil] + [VNil] + [VNil];
    AsStruct({}, []);
  }

  method CopyBoth(a: array?<NamedRuleWithOperations>, b: array?<NamedRuleWithOperations>, onItself: bool)
      returns (c: array?<NamedRuleWithOperations>, d: array?<NamedRuleWithOperations>)
    ensures RuleSliceView(c) == Copied(onItself, TSlice(NAMED_RULE), RuleSliceView(a)) && fresh(RuleSliceCells(c))
    ensures RuleSliceView(d) == Copied(onItself, TSlice(NAMED_RULE), RuleSliceView(b)) && fresh(RuleSliceCells(d))
    ensures RuleSliceCells(c) !! RuleSliceCells(d)
    ensures Unshared(RuleSliceCells(c), RuleSliceView(c)) && Unshared(RuleSliceCells(d), RuleSliceView(d))
  {
    hide RuleSliceCells, RuleSliceView, Unshared, Copied;
    RuleSliceExists(a);
    RuleSliceExists(b);
    c := CopyRules(a, onItself);
    RuleSliceExists(c);
    d := CopyRules(b, onItself);
  }

  ghost function MatchArrays(p: Cell?<MatchResources>): set<object>
    reads p
  {
    if p == null then {} else SliceCells(p.v.resourceRules) + SliceCells(p.v.excludeResourceRules)
  }

  ghost function MatchCells(p: Cell?<MatchResources>): (cells: set<object>)
    reads p, MatchArrays(p)
    ensures PointerCells(p) + MatchArrays(p) <= cells
  {
    if p == null then {} else {p} + p.v.Cells()
  }

  ghost function MatchView(p: Cell?<MatchResources>): Value
    reads p, MatchArrays(p), MatchCells(p)
  {
    if p == null then VNil else VPointer(p.v.View())
  }

  lemma MatchExists(p: Cell?<MatchResources>)
    ensures forall o | o in MatchCells(p) :: allocated(o)
  {
    hide MatchResources.Cells;
    if p != null {
      p.v.Exist();
    }
  }

  method CopyMatch(p: Cell?<MatchResources>, onItself: bool) returns (q: Cell?<MatchResources>)
    ensures MatchView(q) == Copied(onItself, TPointer(MATCH_RESOURCES), MatchView(p))
    ensures fresh(MatchCells(q)) && Unshared(MatchCells(q), MatchView(q))
  {
    hide MatchResources.Cells, MatchResources.View, Unshared, Copied, Zero, Blanked;
    NilUnshared();
    q := p;
    CopiedPointer(onItself, MATCH_RESOURCES, if p == null then VNil else p.v.View());
    if p != null {
      q := CopyMatchCell(p, onItself);
      BehindPointer(q, q.v.Cells(), q.v.View());
    }
  }

  /** `*out = new(MatchResources)` and `(*in).DeepCopyInto(*out)`. */
  method CopyMatchCell(p: Cell<MatchResources>, onItself: bool) returns (q: Cell<MatchResources>)
    ensures q.v.View() == (if onItself then Zero(MATCH_RESOURCES) else old(p.v.View()))
    ensures p.v.View() == old(p.v.View())
    ensures fresh(q) && fresh(q.v.Cells()) && q !in q.v.Cells() && Unshared(q.v.Cells(), q.v.View())
  {
    hide MatchResources.Cells, MatchResources.View, Unshared, Zero, Blanked;
    var content := p.v;
    content.Exist();
    q := new Cell(ZERO_MATCH);
    assert content.Cells() == old(content.Cells());
    MatchZero();
    var from := if onItself then q else p;
    FillMatch(from, q, onItself);
  }

  /** The new struct is filled from the old one, or from itself. */
  method FillMatch(from: Cell<MatchResources>, into: Cell<MatchResources>, onItself: bool)
    requires (onItself <==> from == into) && into !in from.v.Cells()
    requires into.v == ZERO_MATCH
    modifies into
    ensures into.v.View() == (if onItself then Zero(MATCH_RESOURCES) else old(from.v.View()))
    ensures fresh(into.v.Cells()) && into !in into.v.Cells() && Unshared(into.v.Cells(), into.v.View())
  {
    hide MatchResources.Cells, MatchResources.View, Unshared, Zero, Blanked;
    var content := from.v;
    content.Exist();
    if onItself {
      MatchZero();
      ZeroStaysZero(MATCH_RESOURCES);
    }
    var copy := content.DeepCopyInto(onItself);
    assert content.Cells() == old(content.Cells());
    into.v := copy;
  }

  // ---------------------------------------------------------------------------------------
  // Policies
  // ---------------------------------------------------------------------------------------

  datatype PolicySpec = PolicySpec(
    paramKind: Cell?<ParamKind>,
    matchConstraints: Cell?<MatchResources>,
    validations: array?<Validation>,
    failurePolicy: Cell?<string>,
    auditAnnotations: array?<AuditAnnotation>,
    matchConditions: array?<MatchCondition>)
  {
    ghost function Pointers(): set<object> {
      PointerCells(matchConstraints) + SliceCells(validations)
    }

    ghost function Cells(): (cells: set<object>)
      reads Pointers(), MatchArrays(matchConstraints)
      ensures Pointers() + MatchArrays(matchConstraints) <= cells
    {
      PointerCells(paramKind) + MatchCells(matchConstraints) + ValidationSliceCells(validations)
      + PointerCells(failurePolicy) + SliceCells(auditAnnotations) + SliceCells(matchConditions)
    }

    ghost function View(): Value
      reads Pointers(), MatchArrays(matchConstraints), Cells()
    {
      VStruct([
        PointerView(paramKind, ViewParamKind),
        MatchView(matchConstraints),
        ValidationSliceView(validations),
        PointerView(failurePolicy, Text),
        SliceView(auditAnnotations, ViewAuditAnnotation),
        SliceView(matchConditions, ViewMatchCondition)])
    }

    lemma Exist()
      ensures forall o | o in Cells() :: allocated(o)
    {
      hide MatchCells, ValidationSliceCells;
      MatchExists(matchConstraints);
      ValidationSliceExists(validations);
    }

    /** No two pointers or slices of the struct share a cell. */
    ghost predicate Apart()
      reads Pointers(), MatchArrays(matchConstraints)
    {
      && Differ(paramKind, failurePolicy) && Differ(paramKind, auditAnnotations) && Differ(paramKind, matchConditions)
      && Differ(failurePolicy, auditAnnotations) && Differ(failurePolicy, matchConditions)
      && Differ(auditAnnotations, matchConditions)
      && var nested := MatchCells(matchConstraints) + ValidationSliceCells(validations);
      && NotIn(paramKind, nested) && NotIn(failurePolicy, nested)
      && NotIn(auditAnnotations, nested) && NotIn(matchConditions, nested)
      && MatchCells(matchConstraints) !! ValidationSliceCells(validations)
    }

    lemma Chain()
      requires Apart()
      ensures
        var a, b, c := PointerCells(paramKind), MatchCells(matchConstraints), ValidationSliceCells(validations);
        var d, e, f := PointerCells(failurePolicy), SliceCells(auditAnnotations), SliceCells(matchConditions);
        a !! b && a + b !! c && a + b + c !! d && a + b + c + d !! e && a + b + c + d + e !! f
    {
      hide MatchCells, ValidationSliceCells;
    }

    lemma Count()
      requires Apart()
      requires Unshared(MatchCells(matchConstraints), MatchView(matchConstraints))
      requires Unshared(ValidationSliceCells(validations), ValidationSliceView(validations))
      ensures Unshared(Cells(), View())
    {
      hide MatchCells, MatchView, ValidationSliceCells, ValidationSliceView;
      hide PointerCells, PointerView, SliceCells, SliceView, Nodes, NodesOf, Unshared, UnsharedAll, Apart;
      LeavesHaveNoNodes();
      PointerUnshared(paramKind, ViewParamKind);
      PointerUnshared(failurePolicy, Text);
      SliceUnshared(auditAnnotations, ViewAuditAnnotation);
      SliceUnshared(matchConditions, ViewMatchCondition);
      Chain();
      var cells, vs := OnePart(PointerCells(paramKind), PointerView(paramKind, ViewParamKind));
      cells, vs := OneMore(cells, vs, MatchCells(matchConstraints), MatchView(matchConstraints));
      cells, vs := OneMore(cells, vs, ValidationSliceCells(validations), ValidationSliceView(validations));
      cells, vs := OneMore(cells, vs, PointerCells(failurePolicy), PointerView(failurePolicy, Text));
      cells, vs := OneMore(cells, vs, SliceCells(auditAnnotations), SliceView(auditAnnotations, ViewAuditAnnotation));
      cells, vs := OneMore(cells, vs, SliceCells(matchConditions), SliceView(matchConditions, ViewMatchCondition));
      assert vs == View().fields;
      AsStruct(cells, vs);
    }

    method DeepCopyInto(onItself: bool) returns (out: PolicySpec)
      ensures out.View() == Copied(onItself, POLICY_SPEC, View())
      ensures fresh(out.Cells()) && Unshared(out.Cells(), out.View())
    {
      hide PointerCells, PointerView, SliceCells, SliceView, MatchCells, MatchView, ValidationSliceCells, ValidationSliceView;
      hide Unshared, Copied, Zero;
      MatchExists(matchConstraints);
      ValidationSliceExists(validations);
      var a, d, e, f := CopyPlain(paramKind, failurePolicy, auditAnnotations, matchConditions, onItself);
      var b, c := CopyMatchAndValidations(matchConstraints, validations, onItself);
      out := PolicySpec(a, b, c, d, e, f);
      out.Count();
      CopiedByField(onItself, POLICY_SPEC.fields, View().fields, out.View().fields);
    }
  }

  method CopyPlain(p: Cell?<ParamKind>, q: Cell?<string>, s: array?<AuditAnnotation>, t: array?<MatchCondition>, onItself: bool)
      returns (a: Cell?<ParamKind>, d: Cell?<string>, e: array?<AuditAnnotation>, f: array?<MatchCondition>)
    ensures PointerView(a, ViewParamKind) == Copied(onItself, TPointer(PARAM_KIND), PointerView(p, ViewParamKind))
    ensures PointerView(d, Text) == Copied(onItself, TPointer(TString), PointerView(q, Text))
    ensures SliceView(e, ViewAuditAnnotation) == Copied(onItself, TSlice(AUDIT_ANNOTATION), SliceView(s, ViewAuditAnnotation))
    ensures SliceView(f, ViewMatchCondition) == Copied(onItself, TSlice(MATCH_CONDITION), SliceView(t, ViewMatchCondition))
    ensures fresh(PointerCells(a)) && fresh(PointerCells(d)) && fresh(SliceCells(e)) && fresh(SliceCells(f))
    ensures a != null ==> fresh(a)
    ensures d != null ==> fresh(d)
    ensures e != null ==> fresh(e)
    ensures f != null ==> fresh(f)
    ensures Differ(a, d) && Differ(a, e) && Differ(a, f) && Differ(d, e) && Differ(d, f) && Differ(e, f)
  {
    hide PointerCells, PointerView, SliceCells, SliceView, Copied, Zero;
    LeavesAreZero();
    a := CopyPointer(p, onItself, ParamKind("", ""), ViewParamKind, PARAM_KIND);
    d := CopyPointer(q, onItself, "", Text, TString);
    e := CopySlice(s, onItself, AuditAnnotation("", ""), ViewAuditAnnotation, AUDIT_ANNOTATION);
    f := CopySlice(t, onItself, MatchCondition("", ""), ViewMatchCondition, MATCH_CONDITION);
  }

  method CopyMatchAndValidations(p: Cell?<MatchResources>, a: array?<Validation>, onItself: bool)
      returns (q: Cell?<MatchResources>, b: array?<Validation>)
    ensures MatchView(q) == Copied(onItself, TPointer(MATCH_RESOURCES), MatchView(p)) && fresh(MatchCells(q))
    ensures ValidationSliceView(b) == Copied(onItself, TSlice(VALIDATION), ValidationSliceView(a))
    ensures fresh(ValidationSliceCells(b)) && MatchCells(q) !! ValidationSliceCells(b)
    ensures Unshared(MatchCells(q), MatchView(q)) && Unshared(ValidationSliceCells(b), ValidationSliceView(b))
  {
    hide MatchCells, MatchView, ValidationSliceCells, ValidationSliceView, Unshared, Copied;
    MatchExists(p);
    ValidationSliceExists(a);
    b := CopyValidations(a, onItself);
    ValidationSliceExists(b);
    q := CopyMatch(p, onItself);
  }

  datatype TypeChecking = TypeChecking(expressionWarnings: array?<ExpressionWarning>) {
    ghost function Cells(): set<object> {
      SliceCells(expressionWarnings)
    }

    ghost function View(): Value
      reads Cells()
    {
      VStruct([SliceView(expressionWarnings, ViewExpressionWarning)])
    }

    lemma Count()
      ensures Unshared(Cells(), View())
    {
      hide SliceCells, SliceView, Unshared, UnsharedAll;
      LeavesHaveNoNodes();
      SliceUnshared(expressionWarnings, ViewExpressionWarning);
      var cells, vs := OnePart(SliceCells(expressionWarnings), SliceView(expressionWarnings, ViewExpressionWarning));
      AsStruct(cells, vs);
    }

    method DeepCopyInto(onItself: bool) returns (out: TypeChecking)
      ensures out.View() == Copied(onItself, TYPE_CHECKING, View())
      ensures fresh(out.Cells()) && Unshared(out.Cells(), out.View())
    {
      hide SliceView, Unshared, Copied, Zero;
      LeavesAreZero();
      var copy := CopySlice(expressionWarnings, onItself, ExpressionWarning("", ""), ViewExpressionWarning, EXPRESSION_WARNING);
      out := TypeChecking(copy);
      out.Count();
      CopiedByField(onItself, TYPE_CHECKING.fields, View().fields, out.View().fields);
    }
  }

  const ZERO_TYPE_CHECKING := TypeChecking(null)

  lemma TypeCheckingZero()
    ensures ZERO_TYPE_CHECKING.View() == Zero(TYPE_CHECKING)
  {
    ZeroByField(TYPE_CHECKING.fields, ZERO_TYPE_CHECKING.View().fields);
  }

  ghost function TypeCheckingCells(p: Cell?<TypeChecking>): (cells: set<object>)
    reads p
    ensures PointerCells(p) <= cells
  {
    if p == null then {} else {p} + p.v.Cells()
  }

  ghost function TypeCheckingView(p: Cell?<TypeChecking>): Value
    reads p, TypeCheckingCells(p)
  {
    if p == null then VNil else VPointer(p.v.View())
  }

  lemma TypeCheckingExists(p: Cell?<TypeChecking>)
    ensures forall o | o in TypeCheckingCells(p) :: allocated(o)
  {
  }

  method CopyTypeChecking(p: Cell?<TypeChecking>, onItself: bool) returns (q: Cell?<TypeChecking>)
    ensures TypeCheckingView(q) == Copied(onItself, TPointer(TYPE_CHECKING), TypeCheckingView(p))
    ensures fresh(TypeCheckingCells(q)) && Unshared(TypeCheckingCells(q), TypeCheckingView(q))
  {
    hide Unshared, Copied, Zero, Blanked, TypeChecking.View;
    NilUnshared();
    q := p;
    CopiedPointer(onItself, TYPE_CHECKING, if p == null then VNil else p.v.View());
    if p != null {
      q := CopyTypeCheckingCell(p, onItself);
      BehindPointer(q, q.v.Cells(), q.v.View());
    }
  }

  /** `*out = new(TypeChecking)` and `(*in).DeepCopyInto(*out)`. */
  method CopyTypeCheckingCell(p: Cell<TypeChecking>, onItself: bool) returns (q: Cell<TypeChecking>)
    ensures q.v.View() == (if onItself then Zero(TYPE_CHECKING) else old(p.v.View()))
    ensures p.v.View() == old(p.v.View())
    ensures fresh(q) && fresh(q.v.Cells()) && q !in q.v.Cells() && Unshared(q.v.Cells(), q.v.View())
  {
    hide SliceView, Unshared, Zero, Blanked;
    q := new Cell(ZERO_TYPE_CHECKING);
    TypeCheckingZero();
    ZeroStaysZero(TYPE_CHECKING);
    var from := if onItself then q else p;
    var copy := from.v.DeepCopyInto(onItself);
    q.v := copy;
  }

  datatype PolicyStatus = PolicyStatus(
    observedGeneration: int,
    typeChecking: Cell?<TypeChecking>,
    conditions: array?<Opaque>)
  {
    ghost function Cells(): (cells: set<object>)
      reads typeChecking
      ensures PointerCells(typeChecking) <= cells
    {
      TypeCheckingCells(typeChecking) + SliceCells(conditions)
    }

    ghost function View(): Value
      reads typeChecking, Cells()
    {
      VStruct([
        VInt(observedGeneration),
        TypeCheckingView(typeChecking),
        SliceView(conditions, Unread)])
    }

    lemma Exist()
      ensures forall o | o in Cells() :: allocated(o)
    {
    }

    lemma Count()
      requires NotIn(conditions, TypeCheckingCells(typeChecking))
      requires Unshared(TypeCheckingCells(typeChecking), TypeCheckingView(typeChecking))
      ensures Unshared(Cells(), View())
    {
      hide TypeCheckingCells, TypeCheckingView, SliceView, Nodes, NodesOf, Unshared, UnsharedAll;
      AtomsHaveNoNodes();
      LeavesHaveNoNodes();
      NoCells(VInt(observedGeneration));
      SliceUnshared(conditions, Unread);
      var cells, vs := OnePart({}, VInt(observedGeneration));
      cells, vs := OneMore(cells, vs, TypeCheckingCells(typeChecking), TypeCheckingView(typeChecking));
      cells, vs := OneMore(cells, vs, SliceCells(conditions), SliceView(conditions, Unread));
      assert vs == View().fields && cells == Cells();
      AsStruct(cells, vs);
    }

    method DeepCopyInto(onItself: bool) returns (out: PolicyStatus)
      ensures out.View() == Copied(onItself, POLICY_STATUS, View())
      ensures fresh(out.Cells()) && Unshared(out.Cells(), out.View())
    {
      hide SliceView, TypeCheckingCells, TypeCheckingView, Unshared, Copied, Zero;
      LeavesAreZero();
      CopiedAtoms(onItself);
      TypeCheckingExists(typeChecking);
      var copies := CopySlice(conditions, onItself, BLANK, Unread, TOpaque);
      var cell := CopyTypeChecking(typeChecking, onItself);
      out := PolicyStatus(observedGeneration, cell, copies);
      out.Count();
      CopiedByField(onItself, POLICY_STATUS.fields, View().fields, out.View().fields);
    }
  }

  datatype Policy = Policy(kind: string, apiVersion: string, metadata: Opaque, spec: PolicySpec, status: PolicyStatus) {
    ghost function Pointers(): set<object> {
      spec.Pointers() + PointerCells(status.typeChecking)
    }

    ghost function Arrays(): set<object>
      reads Pointers()
    {
      MatchArrays(spec.matchConstraints)
    }

    ghost function Cells(): (cells: set<object>)
      reads Pointers(), Arrays()
      ensures Pointers() + Arrays() <= cells
    {
      spec.Cells() + status.Cells()
    }

    ghost function View(): Value
      reads Pointers(), Arrays(), Cells()
    {
      VStruct([VString(kind), VString(apiVersion), VOpaque(metadata), spec.View(), status.View()])
    }

    /** The metadata as its library copies it. */
    function Taken(onItself: bool, library: Library): Policy {
      this.(metadata := if onItself then library(metadata) else metadata)
    }

    lemma Exist()
      ensures forall o | o in Cells() :: allocated(o)
    {
      hide PolicySpec.Cells, PolicyStatus.Cells;
      spec.Exist();
      status.Exist();
    }

    lemma Count()
      requires spec.Cells() !! status.Cells()
      requires Unshared(spec.Cells(), spec.View()) && Unshared(status.Cells(), status.View())
      ensures Unshared(Cells(), View())
    {
      hide PolicySpec.Cells, PolicySpec.View, PolicyStatus.Cells, PolicyStatus.View, Nodes, NodesOf, Unshared, UnsharedAll;
      var cells, vs := Head(kind, apiVersion, metadata);
      cells, vs := OneMore(cells, vs, spec.Cells(), spec.View());
      cells, vs := OneMore(cells, vs, status.Cells(), status.View());
      assert vs == View().fields && cells == Cells();
      AsStruct(cells, vs);
    }

    lemma CopiedParts(that: Policy, onItself: bool, library: Library)
      requires that == Taken(onItself, library).(spec := that.spec, status := that.status)
      requires that.spec.View() == Copied(onItself, POLICY_SPEC, spec.View())
      requires that.status.View() == Copied(onItself, POLICY_STATUS, status.View())
      ensures that.View() == Copied(onItself, POLICY, Taken(onItself, library).View())
    {
      hide PolicySpec.View, PolicyStatus.View, Copied;
      CopiedAtoms(onItself);
      CopiedByField(onItself, POLICY_FIELDS, Taken(onItself, library).View().fields, that.View().fields);
    }

    method DeepCopyInto(onItself: bool, library: Library) returns (out: Policy)
      ensures out.View() == Copied(onItself, POLICY, Taken(onItself, library).View())
      ensures View() == old(View()) && Taken(onItself, library).View() == old(Taken(onItself, library).View())
      ensures fresh(out.Cells()) && Unshared(out.Cells(), out.View())
    {
      hide PolicySpec.Cells, PolicySpec.View, PolicyStatus.Cells, PolicyStatus.View, Unshared, Copied;
      var ofSpec, ofStatus := CopySpecAndStatus(onItself);
      out := Taken(onItself, library).(spec := ofSpec, status := ofStatus);
      out.Count();
      CopiedParts(out, onItself, library);
    }

    method CopySpecAndStatus(onItself: bool) returns (ofSpec: PolicySpec, ofStatus: PolicyStatus)
      ensures ofSpec.View() == Copied(onItself, POLICY_SPEC, spec.View()) && spec.View() == old(spec.View())
      ensures ofStatus.View() == Copied(onItself, POLICY_STATUS, status.View()) && status.View() == old(status.View())
      ensures fresh(ofSpec.Cells()) && fresh(ofStatus.Cells()) && ofSpec.Cells() !! ofStatus.Cells()
      ensures Unshared(ofSpec.Cells(), ofSpec.View()) && Unshared(ofStatus.Cells(), ofStatus.View())
    {
      hide PolicySpec.Cells, PolicySpec.View, PolicyStatus.Cells, PolicyStatus.View, Unshared, Copied;
      ofSpec, ofStatus := spec, status;
      ofSpec.Exist();
      ofStatus.Exist();
      ofStatus := ofStatus.DeepCopyInto(onItself);
      ofStatus.Exist();
      ofSpec := ofSpec.DeepCopyInto(onItself);
      assert spec.Cells() == old(spec.Cells()) && status.Cells() == old(status.Cells());
    }
  }

  const ZERO_SPEC := PolicySpec(null, null, null, null, null, null)
  const ZERO_STATUS := PolicyStatus(0, null, null)
  const ZERO_POLICY := Policy("", "", BLANK, ZERO_SPEC, ZERO_STATUS)

  lemma PolicyZero()
    ensures ZERO_POLICY.View() == Zero(POLICY) && ZERO_POLICY.Cells() == {}
  {
    ZeroByField(POLICY_SPEC.fields, ZERO_SPEC.View().fields);
    ZeroByField(POLICY_STATUS.fields, ZERO_STATUS.View().fields);
    ZeroByField(POLICY_FIELDS, ZERO_POLICY.View().fields);
  }

  /** What every object begins with. */
  lemma Head(kind: string, apiVersion: string, metadata: Opaque) returns (cells: set<object>, vs: seq<Value>)
    ensures cells == {} && vs == [VString(kind), VString(apiVersion), VOpaque(metadata)] && UnsharedAll(cells, vs)
  {
    hide Nodes, NodesOf, Unshared, UnsharedAll;
    AtomsHaveNoNodes();
    NoCells(VString(kind));
    NoCells(VString(apiVersion));
    NoCells(VOpaque(metadata));
    cells, vs := OnePart({}, VString(kind));
    cells, vs := OneMore(cells, vs, {}, VString(apiVersion));
    cells, vs := OneMore(cells, vs, {}, VOpaque(metadata));
  }

  // ---------------------------------------------------------------------------------------
  // Slices of policies
  // ---------------------------------------------------------------------------------------

  ghost function PolicyPointers(s: seq<Policy>): set<object> {
    if s == [] then {} else PolicyPointers(s[..|s| - 1]) + s[|s| - 1].Pointers()
  }

  ghost function PolicyArrays(s: seq<Policy>): set<object>
    reads PolicyPointers(s)
  {
    if s == [] then {} else PolicyArrays(s[..|s| - 1]) + s[|s| - 1].Arrays()
  }

  ghost function PolicyCells(s: seq<Policy>): (cells: set<object>)
    reads PolicyPointers(s), PolicyArrays(s)
    ensures PolicyPointers(s) + PolicyArrays(s) <= cells
  {
    if s == [] then {} else PolicyCells(s[..|s| - 1]) + s[|s| - 1].Cells()
  }

  ghost function PolicyViews(s: seq<Policy>): (views: seq<Value>)
    reads PolicyPointers(s), PolicyArrays(s), PolicyCells(s)
    ensures |views| == |s|
  {
    if s == [] then [] else PolicyViews(s[..|s| - 1]) + [s[|s| - 1].View()]
  }

  lemma NoPolicies()
    ensures PolicyCells([]) == {} && PolicyViews([]) == []
  {
  }

  lemma PoliciesGrow(s: seq<Policy>, x: Policy)
    ensures PolicyCells(s + [x]) == PolicyCells(s) + x.Cells()
    ensures PolicyViews(s + [x]) == PolicyViews(s) + [x.View()]
  {
    assert (s + [x])[..|s|] == s;
  }

  lemma PoliciesExist(s: seq<Policy>)
    ensures forall o | o in PolicyCells(s) :: allocated(o)
  {
    hide Policy.Cells;
    if s != [] {
      PoliciesExist(s[..|s| - 1]);
      s[|s| - 1].Exist();
    }
  }

  lemma PolicyViewAt(s: seq<Policy>, i: nat)
    requires i < |s|
    ensures PolicyViews(s)[i] == s[i].View()
    decreases |s|
  {
    var front := s[..|s| - 1];
    if i < |s| - 1 {
      PolicyViewAt(front, i);
    }
  }

  ghost function PolicySliceCells(a: array?<Policy>): (cells: set<object>)
    reads a, if a == null then {} else PolicyPointers(a[..]) + PolicyArrays(a[..])
    ensures a != null ==> {a} + PolicyPointers(a[..]) + PolicyArrays(a[..]) <= cells
  {
    if a == null then {} else {a} + PolicyCells(a[..])
  }

  ghost function PolicySliceView(a: array?<Policy>): Value
    reads a, if a == null then {} else PolicyPointers(a[..]) + PolicyArrays(a[..]), PolicySliceCells(a)
  {
    if a == null then VNil else VSlice(PolicyViews(a[..]))
  }

  lemma PolicySliceExists(a: array?<Policy>)
    ensures forall o | o in PolicySliceCells(a) :: allocated(o)
  {
    if a != null {
      PoliciesExist(a[..]);
    }
  }

  /** One round of the loop below. */
  method CopyPolicyAt(a: array<Policy>, b: array<Policy>, i: nat, onItself: bool, library: Library)
      returns (ghost more: set<object>)
    requires i < a.Length == b.Length && b !in PolicyCells(b[..i]) && (onItself <==> a == b)
    requires UnsharedAll(PolicyCells(b[..i]), PolicyViews(b[..i]))
    modifies b
    ensures forall k | 0 <= k < b.Length && k != i :: b[k] == old(b[k])
    ensures PolicyViews(b[..i + 1]) == old(PolicyViews(b[..i])) + [Copied(onItself, POLICY, old(a[i].Taken(onItself, library).View()))]
    ensures PolicyCells(b[..i + 1]) == old(PolicyCells(b[..i])) + more && b !in more && fresh(more)
    ensures UnsharedAll(PolicyCells(b[..i + 1]), PolicyViews(b[..i + 1]))
  {
    hide Unshared, UnsharedAll, Copied;
    hide PolicyPointers, PolicyArrays, PolicyCells, PolicyViews;
    hide Policy.Pointers, Policy.Arrays, Policy.Cells, Policy.View;
    ghost var done := b[..i];
    PoliciesExist(done);
    var element := a[i];
    element.Exist();
    var copy := element.DeepCopyInto(onItself, library);
    PoliciesGrow(done, copy);
    ghost var cells, views := OneMore(PolicyCells(done), PolicyViews(done), copy.Cells(), copy.View());
    b[i] := copy;
    PoliciesGrow(done, copy);
    assert b[..i + 1] == done + [copy];
    more := copy.Cells();
  }

  /** The loop over a slice, into a slice of zeros. */
  method FillPolicies(a: array<Policy>, b: array<Policy>, onItself: bool, library: Library)
    requires a.Length == b.Length && b !in PolicyCells(a[..]) && (onItself <==> a == b)
    requires onItself ==> forall k | 0 <= k < a.Length :: a[k] == ZERO_POLICY
    modifies b
    ensures PolicyViews(b[..]) == CopiedItems(onItself, POLICY, old(PolicyViews(a[..])))
    ensures fresh(PolicyCells(b[..])) && b !in PolicyCells(b[..])
    ensures UnsharedAll(PolicyCells(b[..]), PolicyViews(b[..]))
  {
    hide Unshared, UnsharedAll, Copied, CopiedItems, Zero;
    hide PolicyPointers, PolicyArrays, PolicyCells, PolicyViews;
    hide Policy.Pointers, Policy.Arrays, Policy.Cells, Policy.View;
    ghost var from, cells, views := a[..], PolicyCells(a[..]), PolicyViews(a[..]);
    ghost var want := CopiedItems(onItself, POLICY, views);
    PoliciesExist(from);
    NoPolicies();
    NoParts();
    CopiedItemsAre(onItself, POLICY, views);
    assert b[..0] == [];
    for i := 0 to a.Length
      invariant forall k | i <= k < a.Length :: a[k] == from[k]
      invariant PolicyCells(from) == cells && PolicyViews(from) == views
      invariant fresh(PolicyCells(b[..i])) && b !in PolicyCells(b[..i])
      invariant PolicyViews(b[..i]) == want[..i]
      invariant UnsharedAll(PolicyCells(b[..i]), PolicyViews(b[..i]))
      modifies b
    {
      PolicyViewAt(from, i);
      CopiedPolicy(onItself, from[i], library);
      ghost var more := CopyPolicyAt(a, b, i, onItself, library);
    }
    assert b[..] == b[..a.Length] && want[..a.Length] == want;
  }

  /** Only zeros are copied onto themselves. */
  lemma CopiedPolicy(onItself: bool, x: Policy, library: Library)
    requires onItself ==> x == ZERO_POLICY
    ensures Copied(onItself, POLICY, x.Taken(onItself, library).View()) == if onItself then Zero(POLICY) else x.View()
  {
    hide Blanked, Zero, Policy.View;
    if onItself {
      PolicyZero();
      ZeroStaysZero(POLICY);
    }
  }

  method CopyPolicies(a: array?<Policy>, onItself: bool, library: Library) returns (b: array?<Policy>)
    ensures PolicySliceView(b) == Copied(onItself, TSlice(POLICY), PolicySliceView(a))
    ensures fresh(PolicySliceCells(b)) && Unshared(PolicySliceCells(b), PolicySliceView(b))
    ensures PolicySliceView(a) == old(PolicySliceView(a)) && PolicySliceCells(a) == old(PolicySliceCells(a))
  {
    hide Unshared, UnsharedAll, Copied, CopiedItems, Zero;
    hide PolicyPointers, PolicyArrays, PolicyCells, PolicyViews;
    NilUnshared();
    b := a;
    CopiedSlice(onItself, POLICY, if a == null then [] else PolicyViews(a[..]));
    if a != null {
      b := CopyPolicyArray(a, onItself, library);
      BehindSlice(b, PolicyCells(b[..]), PolicyViews(b[..]));
    }
  }

  /** `make` and the loop: what is read through `in` is the old slice or the new one. */
  method CopyPolicyArray(a: array<Policy>, onItself: bool, library: Library) returns (b: array<Policy>)
    ensures PolicyViews(b[..]) == CopiedItems(onItself, POLICY, old(PolicyViews(a[..])))
    ensures fresh(b) && fresh(PolicyCells(b[..])) && b !in PolicyCells(b[..])
    ensures UnsharedAll(PolicyCells(b[..]), PolicyViews(b[..]))
    ensures PolicyViews(a[..]) == old(PolicyViews(a[..])) && PolicyCells(a[..]) == old(PolicyCells(a[..]))
  {
    hide UnsharedAll, Zero;
    hide PolicyPointers, PolicyArrays, PolicyCells, PolicyViews;
    hide Policy.Pointers, Policy.Arrays, Policy.Cells, Policy.View;
    PoliciesExist(a[..]);
    b := new Policy[a.Length](_ => ZERO_POLICY);
    assert PolicyCells(a[..]) == old(PolicyCells(a[..]));
    PolicyNothingInZeros(b[..]);
    var from := if onItself then b else a;
    FillPolicies(from, b, onItself, library);
  }

  lemma PolicyNothingInZeros(s: seq<Policy>)
    requires forall k | 0 <= k < |s| :: s[k] == ZERO_POLICY
    ensures PolicyCells(s) == {}
  {
    if s != [] {
      PolicyNothingInZeros(s[..|s| - 1]);
    }
  }

  const POLICY_LIST := TStruct([
    Optional("kind", TString),
    Optional("apiVersion", TString),
    Optional("metadata", TOpaque),
    Optional("items", TSlice(POLICY))])

  const BINDING_LIST := TStruct([
    Optional("kind", TString),
    Optional("apiVersion", TString),
    Optional("metadata", TOpaque),
    Optional("items", TSlice(BINDING))])

  datatype PolicyList = PolicyList(kind: string, apiVersion: string, metadata: Opaque, items: array?<Policy>) {
    ghost function Roots(): set<object>
      reads items, if items == null then {} else PolicyPointers(items[..])
    {
      if items == null then {} else PolicyPointers(items[..]) + PolicyArrays(items[..])
    }

    ghost function Cells(): (cells: set<object>)
      reads items, Roots()
      ensures SliceCells(items) + Roots() <= cells
    {
      PolicySliceCells(items)
    }

    ghost function View(): Value
      reads items, Roots(), Cells()
    {
      VStruct([VString(kind), VString(apiVersion), VOpaque(metadata), PolicySliceView(items)])
    }

    /** The metadata as its library copies it. */
    function Taken(onItself: bool, library: Library): PolicyList {
      this.(metadata := if onItself then library(metadata) else metadata)
    }

    lemma Exist()
      ensures forall o | o in Cells() :: allocated(o)
    {
      PolicySliceExists(items);
    }

    lemma Count()
      requires Unshared(PolicySliceCells(items), PolicySliceView(items))
      ensures Unshared(Cells(), View())
    {
      hide PolicySliceCells, PolicySliceView, Nodes, NodesOf, Unshared, UnsharedAll;
      var cells, vs := Head(kind, apiVersion, metadata);
      cells, vs := OneMore(cells, vs, PolicySliceCells(items), PolicySliceView(items));
      assert vs == View().fields && cells == Cells();
      AsStruct(cells, vs);
    }

    method DeepCopyInto(onItself: bool, library: Library) returns (out: PolicyList)
      ensures out.View() == Copied(onItself, POLICY_LIST, Taken(onItself, library).View())
      ensures View() == old(View()) && Taken(onItself, library).View() == old(Taken(onItself, library).View())
      ensures Cells() == old(Cells())
      ensures fresh(out.Cells()) && Unshared(out.Cells(), out.View())
    {
      hide PolicySliceCells, PolicySliceView, Unshared, Copied, Zero;
      CopiedAtoms(onItself);
      var taken := Taken(onItself, library);
      var copies := CopyPolicies(items, onItself, library);
      out := taken.(items := copies);
      out.Count();
      CopiedByField(onItself, POLICY_LIST.fields, taken.View().fields, out.View().fields);
    }
  }

  // ---------------------------------------------------------------------------------------
  // Bindings
  // ---------------------------------------------------------------------------------------

  datatype BindingSpec = BindingSpec(
    policyName: string,
    paramRef: Cell?<ParamRef>,
    matchResources: Cell?<MatchResources>,
    validationActions: array?<string>)
  {
    ghost function Cells(): (cells: set<object>)
      reads matchResources, MatchArrays(matchResources)
      ensures PointerCells(matchResources) + MatchArrays(matchResources) <= cells
    {
      PointerCells(paramRef) + MatchCells(matchResources) + SliceCells(validationActions)
    }

    ghost function View(): Value
      reads matchResources, MatchArrays(matchResources), Cells()
    {
      VStruct([
        VString(policyName),
        PointerView(paramRef, ViewParamRef),
        MatchView(matchResources),
        SliceView(validationActions, Text)])
    }

    lemma Exist()
      ensures forall o | o in Cells() :: allocated(o)
    {
      hide MatchCells;
      MatchExists(matchResources);
    }

    lemma Count()
      requires Differ(paramRef, validationActions)
      requires NotIn(paramRef, MatchCells(matchResources)) && NotIn(validationActions, MatchCells(matchResources))
      requires Unshared(MatchCells(matchResources), MatchView(matchResources))
      ensures Unshared(Cells(), View())
    {
      hide MatchCells, MatchView, PointerView, SliceView, Nodes, NodesOf, Unshared, UnsharedAll;
      AtomsHaveNoNodes();
      LeavesHaveNoNodes();
      NoCells(VString(policyName));
      PointerUnshared(paramRef, ViewParamRef);
      SliceUnshared(validationActions, Text);
      var cells, vs := OnePart({}, VString(policyName));
      cells, vs := OneMore(cells, vs, PointerCells(paramRef), PointerView(paramRef, ViewParamRef));
      cells, vs := OneMore(cells, vs, MatchCells(matchResources), MatchView(matchResources));
      cells, vs := OneMore(cells, vs, SliceCells(validationActions), SliceView(validationActions, Text));
      assert vs == View().fields && cells == Cells();
      AsStruct(cells, vs);
    }

    method DeepCopyInto(onItself: bool) returns (out: BindingSpec)
      ensures out.View() == Copied(onItself, BINDING_SPEC, View())
      ensures fresh(out.Cells()) && Unshared(out.Cells(), out.View())
    {
      hide PointerCells, PointerView, SliceCells, SliceView, MatchCells, MatchView, Unshared, Copied, Zero;
      LeavesAreZero();
      CopiedAtoms(onItself);
      MatchExists(matchResources);
      var a := CopyPointer(paramRef, onItself, ParamRef("", ""), ViewParamRef, PARAM_REF);
      var c := CopySlice(validationActions, onItself, "", Text, TString);
      var b := CopyMatch(matchResources, onItself);
      out := BindingSpec(policyName, a, b, c);
      out.Count();
      CopiedByField(onItself, BINDING_SPEC.fields, View().fields, out.View().fields);
    }
  }

  datatype Binding = Binding(kind: string, apiVersion: string, metadata: Opaque, spec: BindingSpec) {
    ghost function Pointers(): set<object> {
      PointerCells(spec.matchResources)
    }

    ghost function Arrays(): set<object>
      reads Pointers()
    {
      MatchArrays(spec.matchResources)
    }

    ghost function Cells(): (cells: set<object>)
      reads Pointers(), Arrays()
      ensures Pointers() + Arrays() <= cells
    {
      spec.Cells()
    }

    ghost function View(): Value
      reads Pointers(), Arrays(), Cells()
    {
      VStruct([VString(kind), VString(apiVersion), VOpaque(metadata), spec.View()])
    }

    /** The metadata as its library copies it. */
    function Taken(onItself: bool, library: Library): Binding {
      this.(metadata := if onItself then library(metadata) else metadata)
    }

    lemma Exist()
      ensures forall o | o in Cells() :: allocated(o)
    {
      hide BindingSpec.Cells;
      spec.Exist();
    }

    lemma Count()
      requires Unshared(spec.Cells(), spec.View())
      ensures Unshared(Cells(), View())
    {
      hide BindingSpec.Cells, BindingSpec.View, Nodes, NodesOf, Unshared, UnsharedAll;
      var cells, vs := Head(kind, apiVersion, metadata);
      cells, vs := OneMore(cells, vs, spec.Cells(), spec.View());
      assert vs == View().fields && cells == Cells();
      AsStruct(cells, vs);
    }

    method DeepCopyInto(onItself: bool, library: Library) returns (out: Binding)
      ensures out.View() == Copied(onItself, BINDING, Taken(onItself, library).View())
      ensures View() == old(View()) && Taken(onItself, library).View() == old(Taken(onItself, library).View())
      ensures fresh(out.Cells()) && Unshared(out.Cells(), out.View())
    {
      hide BindingSpec.Cells, BindingSpec.View, Unshared, Copied, Zero;
      CopiedAtoms(onItself);
      var taken := Taken(onItself, library);
      var ofSpec := spec;
      ofSpec.Exist();
      ofSpec := ofSpec.DeepCopyInto(onItself);
      out := taken.(spec := ofSpec);
      out.Count();
      assert spec.Cells() == old(spec.Cells());
      CopiedByField(onItself, BINDING_FIELDS, taken.View().fields, out.View().fields);
    }
  }

  const ZERO_BINDING_SPEC := BindingSpec("", null, null, null)
  const ZERO_BINDING := Binding("", "", BLANK, ZERO_BINDING_SPEC)

  lemma BindingZero()
    ensures ZERO_BINDING.View() == Zero(BINDING) && ZERO_BINDING.Cells() == {}
  {
    ZeroByField(BINDING_SPEC.fields, ZERO_BINDING_SPEC.View().fields);
    ZeroByField(BINDING_FIELDS, ZERO_BINDING.View().fields);
  }

  // ---------------------------------------------------------------------------------------
  // Slices of bindings
  // ---------------------------------------------------------------------------------------

  ghost function BindingPointers(s: seq<Binding>): set<object> {
    if s == [] then {} else BindingPointers(s[..|s| - 1]) + s[|s| - 1].Pointers()
  }

  ghost function BindingArrays(s: seq<Binding>): set<object>
    reads BindingPointers(s)
  {
    if s == [] then {} else BindingArrays(s[..|s| - 1]) + s[|s| - 1].Arrays()
  }

  ghost function BindingCells(s: seq<Binding>): (cells: set<object>)
    reads BindingPointers(s), BindingArrays(s)
    ensures BindingPointers(s) + BindingArrays(s) <= cells
  {
    if s == [] then {} else BindingCells(s[..|s| - 1]) + s[|s| - 1].Cells()
  }

  ghost function BindingViews(s: seq<Binding>): (views: seq<Value>)
    reads BindingPointers(s), BindingArrays(s), BindingCells(s)
    ensures |views| == |s|
  {
    if s == [] then [] else BindingViews(s[..|s| - 1]) + [s[|s| - 1].View()]
  }

  lemma NoBindings()
    ensures BindingCells([]) == {} && BindingViews([]) == []
  {
  }

  lemma BindingsGrow(s: seq<Binding>, x: Binding)
    ensures BindingCells(s + [x]) == BindingCells(s) + x.Cells()
    ensures BindingViews(s + [x]) == BindingViews(s) + [x.View()]
  {
    assert (s + [x])[..|s|] == s;
  }

  lemma BindingsExist(s: seq<Binding>)
    ensures forall o | o in BindingCells(s) :: allocated(o)
  {
    hide Binding.Cells;
    if s != [] {
      BindingsExist(s[..|s| - 1]);
      s[|s| - 1].Exist();
    }
  }

  lemma BindingViewAt(s: seq<Binding>, i: nat)
    requires i < |s|
    ensures BindingViews(s)[i] == s[i].View()
    decreases |s|
  {
    var front := s[..|s| - 1];
    if i < |s| - 1 {
      BindingViewAt(front, i);
    }
  }

  ghost function BindingSliceCells(a: array?<Binding>): (cells: set<object>)
    reads a, if a == null then {} else BindingPointers(a[..]) + BindingArrays(a[..])
    ensures a != null ==> {a} + BindingPointers(a[..]) + BindingArrays(a[..]) <= cells
  {
    if a == null then {} else {a} + BindingCells(a[..])
  }

  ghost function BindingSliceView(a: array?<Binding>): Value
    reads a, if a == null then {} else BindingPointers(a[..]) + BindingArrays(a[..]), BindingSliceCells(a)
  {
    if a == null then VNil else VSlice(BindingViews(a[..]))
  }

  lemma BindingSliceExists(a: array?<Binding>)
    ensures forall o | o in BindingSliceCells(a) :: allocated(o)
  {
    if a != null {
      BindingsExist(a[..]);
    }
  }

  /** One round of the loop below. */
  method CopyBindingAt(a: array<Binding>, b: array<Binding>, i: nat, onItself: bool, library: Library)
      returns (ghost more: set<object>)
    requires i < a.Length == b.Length && b !in BindingCells(b[..i]) && (onItself <==> a == b)
    requires UnsharedAll(BindingCells(b[..i]), BindingViews(b[..i]))
    modifies b
    ensures forall k | 0 <= k < b.Length && k != i :: b[k] == old(b[k])
    ensures BindingViews(b[..i + 1])
         == old(BindingViews(b[..i])) + [Copied(onItself, BINDING, old(a[i].Taken(onItself, library).View()))]
    ensures BindingCells(b[..i + 1]) == old(BindingCells(b[..i])) + more && b !in more && fresh(more)
    ensures UnsharedAll(BindingCells(b[..i + 1]), BindingViews(b[..i + 1]))
  {
    hide Unshared, UnsharedAll, Copied;
    hide BindingPointers, BindingArrays, BindingCells, BindingViews;
    hide Binding.Pointers, Binding.Arrays, Binding.Cells, Binding.View;
    ghost var done := b[..i];
    BindingsExist(done);
    var element := a[i];
    element.Exist();
    var copy := element.DeepCopyInto(onItself, library);
    BindingsGrow(done, copy);
    ghost var cells, views := OneMore(BindingCells(done), BindingViews(done), copy.Cells(), copy.View());
    b[i] := copy;
    BindingsGrow(done, copy);
    assert b[..i + 1] == done + [copy];
    more := copy.Cells();
  }

  /** The loop over a slice, into a slice of zeros. */
  method FillBindings(a: array<Binding>, b: array<Binding>, onItself: bool, library: Library)
    requires a.Length == b.Length && b !in BindingCells(a[..]) && (onItself <==> a == b)
    requires onItself ==> forall k | 0 <= k < a.Length :: a[k] == ZERO_BINDING
    modifies b
    ensures BindingViews(b[..]) == CopiedItems(onItself, BINDING, old(BindingViews(a[..])))
    ensures fresh(BindingCells(b[..])) && b !in BindingCells(b[..])
    ensures UnsharedAll(BindingCells(b[..]), BindingViews(b[..]))
  {
    hide Unshared, UnsharedAll, Copied, CopiedItems, Zero;
    hide BindingPointers, BindingArrays, BindingCells, BindingViews;
    hide Binding.Pointers, Binding.Arrays, Binding.Cells, Binding.View;
    ghost var from, cells, views := a[..], BindingCells(a[..]), BindingViews(a[..]);
    ghost var want := CopiedItems(onItself, BINDING, views);
    BindingsExist(from);
    NoBindings();
    NoParts();
    CopiedItemsAre(onItself, BINDING, views);
    assert b[..0] == [];
    for i := 0 to a.Length
      invariant forall k | i <= k < a.Length :: a[k] == from[k]
      invariant BindingCells(from) == cells && BindingViews(from) == views
      invariant fresh(BindingCells(b[..i])) && b !in BindingCells(b[..i])
      invariant BindingViews(b[..i]) == want[..i]
      invariant UnsharedAll(BindingCells(b[..i]), BindingViews(b[..i]))
      modifies b
    {
      BindingViewAt(from, i);
      CopiedBinding(onItself, from[i], library);
      ghost var more := CopyBindingAt(a, b, i, onItself, library);
    }
    assert b[..] == b[..a.Length] && want[..a.Length] == want;
  }

  /** Only zeros are copied onto themselves. */
  lemma CopiedBinding(onItself: bool, x: Binding, library: Library)
    requires onItself ==> x == ZERO_BINDING
    ensures Copied(onItself, BINDING, x.Taken(onItself, library).View()) == if onItself then Zero(BINDING) else x.View()
  {
    hide Blanked, Zero, Binding.View;
    if onItself {
      BindingZero();
      ZeroStaysZero(BINDING);
    }
  }

  method CopyBindings(a: array?<Binding>, onItself: bool, library: Library) returns (b: array?<Binding>)
    ensures BindingSliceView(b) == Copied(onItself, TSlice(BINDING), BindingSliceView(a))
    ensures fresh(BindingSliceCells(b)) && Unshared(BindingSliceCells(b), BindingSliceView(b))
    ensures BindingSliceView(a) == old(BindingSliceView(a)) && BindingSliceCells(a) == old(BindingSliceCells(a))
  {
    hide Unshared, UnsharedAll, Copied, CopiedItems, Zero;
    hide BindingPointers, BindingArrays, BindingCells, BindingViews;
    NilUnshared();
    b := a;
    CopiedSlice(onItself, BINDING, if a == null then [] else BindingViews(a[..]));
    if a != null {
      b := CopyBindingArray(a, onItself, library);
      BehindSlice(b, BindingCells(b[..]), BindingViews(b[..]));
    }
  }

  /** `make` and the loop: what is read through `in` is the old slice or the new one. */
  method CopyBindingArray(a: array<Binding>, onItself: bool, library: Library) returns (b: array<Binding>)
    ensures BindingViews(b[..]) == CopiedItems(onItself, BINDING, old(BindingViews(a[..])))
    ensures fresh(b) && fresh(BindingCells(b[..])) && b !in BindingCells(b[..])
    ensures UnsharedAll(BindingCells(b[..]), BindingViews(b[..]))
    ensures BindingViews(a[..]) == old(BindingViews(a[..])) && BindingCells(a[..]) == old(BindingCells(a[..]))
  {
    hide UnsharedAll, Zero;
    hide BindingPointers, BindingArrays, BindingCells, BindingViews;
    hide Binding.Pointers, Binding.Arrays, Binding.Cells, Binding.View;
    BindingsExist(a[..]);
    b := new Binding[a.Length](_ => ZERO_BINDING);
    assert BindingCells(a[..]) == old(BindingCells(a[..]));
    BindingNothingInZeros(b[..]);
    var from := if onItself then b else a;
    FillBindings(from, b, onItself, library);
  }

  lemma BindingNothingInZeros(s: seq<Binding>)
    requires forall k | 0 <= k < |s| :: s[k] == ZERO_BINDING
    ensures BindingCells(s) == {}
  {
    if s != [] {
      BindingNothingInZeros(s[..|s| - 1]);
    }
  }

  datatype BindingList = BindingList(kind: string, apiVersion: string, metadata: Opaque, items: array?<Binding>) {
    ghost function Roots(): set<object>
      reads items, if items == null then {} else BindingPointers(items[..])
    {
      if items == null then {} else BindingPointers(items[..]) + BindingArrays(items[..])
    }

    ghost function Cells(): (cells: set<object>)
      reads items, Roots()
      ensures SliceCells(items) + Roots() <= cells
    {
      BindingSliceCells(items)
    }

    ghost function View(): Value
      reads items, Roots(), Cells()
    {
      VStruct([VString(kind), VString(apiVersion), VOpaque(metadata), BindingSliceView(items)])
    }

    /** The metadata as its library copies it. */
    function Taken(onItself: bool, library: Library): BindingList {
      this.(metadata := if onItself then library(metadata) else metadata)
    }

    lemma Exist()
      ensures forall o | o in Cells() :: allocated(o)
    {
      BindingSliceExists(items);
    }

    lemma Count()
      requires Unshared(BindingSliceCells(items), BindingSliceView(items))
      ensures Unshared(Cells(), View())
    {
      hide BindingSliceCells, BindingSliceView, Nodes, NodesOf, Unshared, UnsharedAll;
      var cells, vs := Head(kind, apiVersion, metadata);
      cells, vs := OneMore(cells, vs, BindingSliceCells(items), BindingSliceView(items));
      assert vs == View().fields && cells == Cells();
      AsStruct(cells, vs);
    }

    method DeepCopyInto(onItself: bool, library: Library) returns (out: BindingList)
      ensures out.View() == Copied(onItself, BINDING_LIST, Taken(onItself, library).View())
      ensures View() == old(View()) && Taken(onItself, library).View() == old(Taken(onItself, library).View())
      ensures Cells() == old(Cells())
      ensures fresh(out.Cells()) && Unshared(out.Cells(), out.View())
    {
      hide BindingSliceCells, BindingSliceView, Unshared, Copied, Zero;
      CopiedAtoms(onItself);
      var taken := Taken(onItself, library);
      var copies := CopyBindings(items, onItself, library);
      out := taken.(items := copies);
      out.Count();
      CopiedByField(onItself, BINDING_LIST.fields, taken.View().fields, out.View().fields);
    }
  }

  const ZERO_POLICY_LIST := PolicyList("", "", BLANK, null)
  const ZERO_BINDING_LIST := BindingList("", "", BLANK, null)

  // ---------------------------------------------------------------------------------------
  // Copies through pointers
  // ---------------------------------------------------------------------------------------

  /** Copying keeps the content unless the struct is copied onto itself, and then exactly if there is
      nothing but zero behind its pointers and in its slices, and its library keeps the metadata. */
  lemma PolicyKeptExactly(x: Policy, onItself: bool, library: Library)
    ensures Copied(onItself, POLICY, x.Taken(onItself, library).View()) == x.View()
       <==> !onItself || (IsBlank(POLICY, x.View()) && library(x.metadata) == x.metadata)
  {
    var v := x.Taken(onItself, library).View();
    hide Blanked, IsBlank, PolicySpec.View, PolicyStatus.View;
    BlankedAt(POLICY.fields, v.fields, 2);
    OpaqueIsKept(v.fields[2]);
    assert POLICY.fields[2].ty == TOpaque;
    assert v.fields[2] == VOpaque(x.Taken(onItself, library).metadata) && x.View().fields[2] == VOpaque(x.metadata);
    if !onItself || library(x.metadata) == x.metadata {
      assert x.Taken(onItself, library) == x;
    }
    BlankedExactly(POLICY, x.View());
  }

  /** What is written through `out`, which may be the pointer `in` itself. */
  method DeepCopyPolicyInto(from: Cell<Policy>, into: Cell<Policy>, library: Library)
    requires into !in from.v.Cells()
    modifies into
    ensures into.v.View() == Copied(from == into, POLICY, old(from.v.Taken(from == into, library).View()))
    ensures into.v.View() == old(from.v.View())
       <==> into != from || (IsBlank(POLICY, old(from.v.View())) && library(old(from.v).metadata) == old(from.v).metadata)
    ensures fresh(into.v.Cells()) && Unshared(into.v.Cells(), into.v.View())
    ensures into != from ==> from.v.View() == old(from.v.View()) && from.v.Cells() == old(from.v.Cells())
  {
    hide Policy.Cells, Policy.View, Unshared, Copied, IsBlank;
    var content := from.v;
    content.Exist();
    PolicyKeptExactly(content, from == into, library);
    var copy := content.DeepCopyInto(from == into, library);
    into.v := copy;
  }

  method DeepCopyPolicy(from: Cell?<Policy>, library: Library) returns (into: Cell?<Policy>)
    ensures into == null <==> from == null
    ensures into != null ==> fresh(into) && fresh(into.v.Cells()) && Unshared(into.v.Cells(), into.v.View())
    ensures into != null ==> into.v.View() == from.v.View() == old(from.v.View())
  {
    hide Policy.Cells, Policy.View, Unshared, Copied, IsBlank;
    into := from;
    if from != null {
      var content := from.v;
      content.Exist();
      into := new Cell(ZERO_POLICY);
      assert from.v.Cells() == old(from.v.Cells());
      DeepCopyPolicyInto(from, into, library);
    }
  }

  /** Copying keeps the content unless the struct is copied onto itself, and then exactly if there is
      nothing but zero behind its pointers and in its slices, and its library keeps the metadata. */
  lemma PolicyListKeptExactly(x: PolicyList, onItself: bool, library: Library)
    ensures Copied(onItself, POLICY_LIST, x.Taken(onItself, library).View()) == x.View()
       <==> !onItself || (IsBlank(POLICY_LIST, x.View()) && library(x.metadata) == x.metadata)
  {
    var v := x.Taken(onItself, library).View();
    hide Blanked, IsBlank, PolicySliceView;
    BlankedAt(POLICY_LIST.fields, v.fields, 2);
    OpaqueIsKept(v.fields[2]);
    assert POLICY_LIST.fields[2].ty == TOpaque;
    assert v.fields[2] == VOpaque(x.Taken(onItself, library).metadata) && x.View().fields[2] == VOpaque(x.metadata);
    if !onItself || library(x.metadata) == x.metadata {
      assert x.Taken(onItself, library) == x;
    }
    BlankedExactly(POLICY_LIST, x.View());
  }

  /** What is written through `out`, which may be the pointer `in` itself. */
  method DeepCopyPolicyListInto(from: Cell<PolicyList>, into: Cell<PolicyList>, library: Library)
    requires into !in from.v.Cells()
    modifies into
    ensures into.v.View() == Copied(from == into, POLICY_LIST, old(from.v.Taken(from == into, library).View()))
    ensures into.v.View() == old(from.v.View())
       <==> into != from || (IsBlank(POLICY_LIST, old(from.v.View())) && library(old(from.v).metadata) == old(from.v).metadata)
    ensures fresh(into.v.Cells()) && Unshared(into.v.Cells(), into.v.View())
    ensures into != from ==> from.v.View() == old(from.v.View()) && from.v.Cells() == old(from.v.Cells())
  {
    hide PolicyList.Roots, PolicyList.Cells, PolicyList.View, Unshared, Copied, IsBlank;
    var content := from.v;
    content.Exist();
    PolicyListKeptExactly(content, from == into, library);
    var copy := content.DeepCopyInto(from == into, library);
    into.v := copy;
  }

  method DeepCopyPolicyList(from: Cell?<PolicyList>, library: Library) returns (into: Cell?<PolicyList>)
    ensures into == null <==> from == null
    ensures into != null ==> fresh(into) && fresh(into.v.Cells()) && Unshared(into.v.Cells(), into.v.View())
    ensures into != null ==> into.v.View() == from.v.View() == old(from.v.View())
  {
    hide PolicyList.Roots, PolicyList.Cells, PolicyList.View, Unshared, Copied, IsBlank;
    into := from;
    if from != null {
      var content := from.v;
      content.Exist();
      into := new Cell(ZERO_POLICY_LIST);
      assert from.v.Cells() == old(from.v.Cells());
      DeepCopyPolicyListInto(from, into, library);
    }
  }

  /** Copying keeps the content unless the struct is copied onto itself, and then exactly if there is
      nothing but zero behind its pointers and in its slices, and its library keeps the metadata. */
  lemma BindingKeptExactly(x: Binding, onItself: bool, library: Library)
    ensures Copied(onItself, BINDING, x.Taken(onItself, library).View()) == x.View()
       <==> !onItself || (IsBlank(BINDING, x.View()) && library(x.metadata) == x.metadata)
  {
    var v := x.Taken(onItself, library).View();
    hide Blanked, IsBlank, BindingSpec.View;
    BlankedAt(BINDING.fields, v.fields, 2);
    OpaqueIsKept(v.fields[2]);
    assert BINDING.fields[2].ty == TOpaque;
    assert v.fields[2] == VOpaque(x.Taken(onItself, library).metadata) && x.View().fields[2] == VOpaque(x.metadata);
    if !onItself || library(x.metadata) == x.metadata {
      assert x.Taken(onItself, library) == x;
    }
    BlankedExactly(BINDING, x.View());
  }

  /** What is written through `out`, which may be the pointer `in` itself. */
  method DeepCopyBindingInto(from: Cell<Binding>, into: Cell<Binding>, library: Library)
    requires into !in from.v.Cells()
    modifies into
    ensures into.v.View() == Copied(from == into, BINDING, old(from.v.Taken(from == into, library).View()))
    ensures into.v.View() == old(from.v.View())
       <==> into != from || (IsBlank(BINDING, old(from.v.View())) && library(old(from.v).metadata) == old(from.v).metadata)
    ensures fresh(into.v.Cells()) && Unshared(into.v.Cells(), into.v.View())
    ensures into != from ==> from.v.View() == old(from.v.View()) && from.v.Cells() == old(from.v.Cells())
  {
    hide Binding.Cells, Binding.View, Unshared, Copied, IsBlank;
    var content := from.v;
    content.Exist();
    BindingKeptExactly(content, from == into, library);
    var copy := content.DeepCopyInto(from == into, library);
    into.v := copy;
  }

  method DeepCopyBinding(from: Cell?<Binding>, library: Library) returns (into: Cell?<Binding>)
    ensures into == null <==> from == null
    ensures into != null ==> fresh(into) && fresh(into.v.Cells()) && Unshared(into.v.Cells(), into.v.View())
    ensures into != null ==> into.v.View() == from.v.View() == old(from.v.View())
  {
    hide Binding.Cells, Binding.View, Unshared, Copied, IsBlank;
    into := from;
    if from != null {
      var content := from.v;
      content.Exist();
      into := new Cell(ZERO_BINDING);
      assert from.v.Cells() == old(from.v.Cells());
      DeepCopyBindingInto(from, into, library);
    }
  }

  /** Copying keeps the content unless the struct is copied onto itself, and then exactly if there is
      nothing but zero behind its pointers and in its slices, and its library keeps the metadata. */
  lemma BindingListKeptExactly(x: BindingList, onItself: bool, library: Library)
    ensures Copied(onItself, BINDING_LIST, x.Taken(onItself, library).View()) == x.View()
       <==> !onItself || (IsBlank(BINDING_LIST, x.View()) && library(x.metadata) == x.metadata)
  {
    var v := x.Taken(onItself, library).View();
    hide Blanked, IsBlank, BindingSliceView;
    BlankedAt(BINDING_LIST.fields, v.fields, 2);
    OpaqueIsKept(v.fields[2]);
    assert BINDING_LIST.fields[2].ty == TOpaque;
    assert v.fields[2] == VOpaque(x.Taken(onItself, library).metadata) && x.View().fields[2] == VOpaque(x.metadata);
    if !onItself || library(x.metadata) == x.metadata {
      assert x.Taken(onItself, library) == x;
    }
    BlankedExactly(BINDING_LIST, x.View());
  }

  /** What is written through `out`, which may be the pointer `in` itself. */
  method DeepCopyBindingListInto(from: Cell<BindingList>, into: Cell<BindingList>, library: Library)
    requires into !in from.v.Cells()
    modifies into
    ensures into.v.View() == Copied(from == into, BINDING_LIST, old(from.v.Taken(from == into, library).View()))
    ensures into.v.View() == old(from.v.View())
       <==> into != from || (IsBlank(BINDING_LIST, old(from.v.View())) && library(old(from.v).metadata) == old(from.v).metadata)
    ensures fresh(into.v.Cells()) && Unshared(into.v.Cells(), into.v.View())
    ensures into != from ==> from.v.View() == old(from.v.View()) && from.v.Cells() == old(from.v.Cells())
  {
    hide BindingList.Roots, BindingList.Cells, BindingList.View, Unshared, Copied, IsBlank;
    var content := from.v;
    content.Exist();
    BindingListKeptExactly(content, from == into, library);
    var copy := content.DeepCopyInto(from == into, library);
    into.v := copy;
  }

  method DeepCopyBindingList(from: Cell?<BindingList>, library: Library) returns (into: Cell?<BindingList>)
    ensures into == null <==> from == null
    ensures into != null ==> fresh(into) && fresh(into.v.Cells()) && Unshared(into.v.Cells(), into.v.View())
    ensures into != null ==> into.v.View() == from.v.View() == old(from.v.View())
  {
    hide BindingList.Roots, BindingList.Cells, BindingList.View, Unshared, Copied, IsBlank;
    into := from;
    if from != null {
      var content := from.v;
      content.Exist();
      into := new Cell(ZERO_BINDING_LIST);
      assert from.v.Cells() == old(from.v.Cells());
      DeepCopyBindingListInto(from, into, library);
    }
  }

  lemma FailIsNotBlank()
    ensures !IsBlank(TPointer(TString), VPointer(VString("Fail")))
    ensures Blanked(TPointer(TString), VPointer(VString("Fail"))) == VPointer(VString(""))
  {
  }

  /** A policy that fails closed does so no longer once it has been copied onto itself. */
  lemma FailIsLost(p: Policy)
    requires p.spec.failurePolicy != null && p.spec.failurePolicy.v == "Fail"
    ensures !IsBlank(POLICY, p.View())
    ensures
      var v := Blanked(POLICY, p.View());
      && v.VStruct? && |v.fields| == 5 && v.fields[3].VStruct? && |v.fields[3].fields| == 6
      && v.fields[3].fields[3] == VPointer(VString(""))
  {
    var v, spec := p.View(), p.spec.View();
    hide Blanked, IsBlank, MatchView, ValidationSliceView, SliceView, PolicyStatus.View;
    BlankedAt(POLICY_FIELDS, v.fields, 3);
    BlankedAt(POLICY_SPEC.fields, spec.fields, 3);
    FailIsNotBlank();
  }

  // ---------------------------------------------------------------------------------------
  // Equal content is equal field by field
  // ---------------------------------------------------------------------------------------

  /** The same elements in the same order, or nil twice. */
  ghost predicate SameElements<T>(a: array?<T>, b: array?<T>)
    reads a, b
  {
    && (a == null <==> b == null)
    && (a != null ==> a.Length == b.Length && forall i | 0 <= i < a.Length :: a[i] == b[i])
  }

  lemma PointerShows<T>(p: Cell?<T>, q: Cell?<T>, view: T -> Value)
    requires PointerView(p, view) == PointerView(q, view) && forall x: T, y: T :: view(x) == view(y) ==> x == y
    ensures (p == null <==> q == null) && (p != null ==> p.v == q.v)
  {
  }

  lemma SliceShows<T>(a: array?<T>, b: array?<T>, view: T -> Value)
    requires SliceView(a, view) == SliceView(b, view) && forall x: T, y: T :: view(x) == view(y) ==> x == y
    ensures SameElements(a, b)
  {
    if a != null {
      forall i | 0 <= i < a.Length && a.Length == b.Length ensures a[i] == b[i] {
        assert SliceView(a, view).items[i] == view(a[i]) && SliceView(b, view).items[i] == view(b[i]);
      }
    }
  }

  lemma LeavesShow()
    ensures forall x, y :: Text(x) == Text(y) ==> x == y
    ensures forall x, y :: Unread(x) == Unread(y) ==> x == y
    ensures forall x, y :: ViewAuditAnnotation(x) == ViewAuditAnnotation(y) ==> x == y
    ensures forall x, y :: ViewExpressionWarning(x) == ViewExpressionWarning(y) ==> x == y
    ensures forall x, y :: ViewMatchCondition(x) == ViewMatchCondition(y) ==> x == y
    ensures forall x, y :: ViewParamKind(x) == ViewParamKind(y) ==> x == y
    ensures forall x, y :: ViewParamRef(x) == ViewParamRef(y) ==> x == y
  {
    hide PointerView;
    TwoTextsShow();
  }

  lemma TwoTextsShow()
    ensures forall a: string, b: string, c: string, d: string ::
      VStruct([VString(a), VString(b)]) == VStruct([VString(c), VString(d)]) ==> a == c && b == d
  {
    forall a: string, b: string, c: string, d: string
      | VStruct([VString(a), VString(b)]) == VStruct([VString(c), VString(d)])
      ensures a == c && b == d
    {
      assert [VString(a), VString(b)][0] == [VString(c), VString(d)][0];
      assert [VString(a), VString(b)][1] == [VString(c), VString(d)][1];
    }
  }

  lemma ValidationShows(x: Validation, y: Validation)
    requires x.View() == y.View()
    ensures x.expression == y.expression && x.message == y.message && x.messageExpression == y.messageExpression
    ensures (x.reason == null <==> y.reason == null) && (x.reason != null ==> x.reason.v == y.reason.v)
  {
    LeavesShow();
    var v, w := x.View().fields, y.View().fields;
    assert v[0] == w[0] && v[1] == w[1] && v[2] == w[2] && v[3] == w[3];
    PointerShows(x.reason, y.reason, Text);
  }

  lemma RuleShows(x: NamedRuleWithOperations, y: NamedRuleWithOperations)
    requires x.View() == y.View()
    ensures SameElements(x.resourceNames, y.resourceNames) && SameElements(x.rule.operations, y.rule.operations)
    ensures SameElements(x.rule.apiGroups, y.rule.apiGroups) && SameElements(x.rule.apiVersions, y.rule.apiVersions)
    ensures SameElements(x.rule.resources, y.rule.resources)
    ensures (x.rule.scope == null <==> y.rule.scope == null) && (x.rule.scope != null ==> x.rule.scope.v == y.rule.scope.v)
  {
    hide SliceView, PointerView;
    LeavesShow();
    var v, w := x.View().fields, y.View().fields;
    assert v[0] == w[0] && v[1] == w[1] && v[2] == w[2] && v[3] == w[3] && v[4] == w[4] && v[5] == w[5];
    SliceShows(x.resourceNames, y.resourceNames, Text);
    SliceShows(x.rule.operations, y.rule.operations, Text);
    SliceShows(x.rule.apiGroups, y.rule.apiGroups, Text);
    SliceShows(x.rule.apiVersions, y.rule.apiVersions, Text);
    SliceShows(x.rule.resources, y.rule.resources, Text);
    PointerShows(x.rule.scope, y.rule.scope, Text);
  }

  lemma ValidationSliceShows(a: array?<Validation>, b: array?<Validation>)
    requires ValidationSliceView(a) == ValidationSliceView(b)
    ensures a == null <==> b == null
    ensures a != null ==> a.Length == b.Length && forall i | 0 <= i < a.Length :: a[i].View() == b[i].View()
  {
    hide ValidationViews, Validation.View;
    if a != null {
      forall i | 0 <= i < a.Length && a.Length == b.Length ensures a[i].View() == b[i].View() {
        ValidationViewAt(a[..], i);
        ValidationViewAt(b[..], i);
      }
    }
  }

  lemma RuleSliceShows(a: array?<NamedRuleWithOperations>, b: array?<NamedRuleWithOperations>)
    requires RuleSliceView(a) == RuleSliceView(b)
    ensures a == null <==> b == null
    ensures a != null ==> a.Length == b.Length && forall i | 0 <= i < a.Length :: a[i].View() == b[i].View()
  {
    hide RuleViews, NamedRuleWithOperations.View;
    if a != null {
      forall i | 0 <= i < a.Length && a.Length == b.Length ensures a[i].View() == b[i].View() {
        RuleViewAt(a[..], i);
        RuleViewAt(b[..], i);
      }
    }
  }

  lemma MatchResourcesShow(x: MatchResources, y: MatchResources)
    requires x.View() == y.View()
    ensures (x.namespaceSelector == null <==> y.namespaceSelector == null)
      && (x.namespaceSelector != null ==> x.namespaceSelector.v == y.namespaceSelector.v)
    ensures (x.objectSelector == null <==> y.objectSelector == null)
      && (x.objectSelector != null ==> x.objectSelector.v == y.objectSelector.v)
    ensures RuleSliceView(x.resourceRules) == RuleSliceView(y.resourceRules)
    ensures RuleSliceView(x.excludeResourceRules) == RuleSliceView(y.excludeResourceRules)
    ensures (x.matchPolicy == null <==> y.matchPolicy == null) && (x.matchPolicy != null ==> x.matchPolicy.v == y.matchPolicy.v)
  {
    hide RuleSliceView, PointerView;
    LeavesShow();
    var v, w := x.View().fields, y.View().fields;
    assert v[0] == w[0] && v[1] == w[1] && v[2] == w[2] && v[3] == w[3] && v[4] == w[4];
    PointerShows(x.namespaceSelector, y.namespaceSelector, Unread);
    PointerShows(x.objectSelector, y.objectSelector, Unread);
    PointerShows(x.matchPolicy, y.matchPolicy, Text);
  }

  lemma MatchShows(p: Cell?<MatchResources>, q: Cell?<MatchResources>)
    requires MatchView(p) == MatchView(q)
    ensures (p == null <==> q == null) && (p != null ==> p.v.View() == q.v.View())
  {
  }

  lemma PolicySpecShows(x: PolicySpec, y: PolicySpec)
    requires x.View() == y.View()
    ensures (x.paramKind == null <==> y.paramKind == null) && (x.paramKind != null ==> x.paramKind.v == y.paramKind.v)
    ensures MatchView(x.matchConstraints) == MatchView(y.matchConstraints)
    ensures ValidationSliceView(x.validations) == ValidationSliceView(y.validations)
    ensures (x.failurePolicy == null <==> y.failurePolicy == null)
      && (x.failurePolicy != null ==> x.failurePolicy.v == y.failurePolicy.v)
    ensures SameElements(x.auditAnnotations, y.auditAnnotations) && SameElements(x.matchConditions, y.matchConditions)
  {
    hide MatchView, ValidationSliceView, PointerView, SliceView;
    LeavesShow();
    var v, w := x.View().fields, y.View().fields;
    assert v[0] == w[0] && v[1] == w[1] && v[2] == w[2] && v[3] == w[3] && v[4] == w[4] && v[5] == w[5];
    PointerShows(x.paramKind, y.paramKind, ViewParamKind);
    PointerShows(x.failurePolicy, y.failurePolicy, Text);
    SliceShows(x.auditAnnotations, y.auditAnnotations, ViewAuditAnnotation);
    SliceShows(x.matchConditions, y.matchConditions, ViewMatchCondition);
  }

  lemma PolicyStatusShows(x: PolicyStatus, y: PolicyStatus)
    requires x.View() == y.View()
    ensures x.observedGeneration == y.observedGeneration
    ensures x.typeChecking == null <==> y.typeChecking == null
    ensures x.typeChecking != null ==>
      SameElements(x.typeChecking.v.expressionWarnings, y.typeChecking.v.expressionWarnings)
    ensures SameElements(x.conditions, y.conditions)
  {
    hide SliceView;
    LeavesShow();
    var v, w := x.View().fields, y.View().fields;
    assert v[0] == w[0] && v[1] == w[1] && v[2] == w[2];
    if x.typeChecking != null {
      var a, b := x.typeChecking.v, y.typeChecking.v;
      assert a.View().fields[0] == b.View().fields[0];
      SliceShows(a.expressionWarnings, b.expressionWarnings, ViewExpressionWarning);
    }
    SliceShows(x.conditions, y.conditions, Unread);
  }

  lemma PolicyShows(x: Policy, y: Policy)
    requires x.View() == y.View()
    ensures x.kind == y.kind && x.apiVersion == y.apiVersion && x.metadata == y.metadata
    ensures x.spec.View() == y.spec.View() && x.status.View() == y.status.View()
  {
    hide PolicySpec.View, PolicyStatus.View;
    var v, w := x.View().fields, y.View().fields;
    assert v[0] == w[0] && v[1] == w[1] && v[2] == w[2] && v[3] == w[3] && v[4] == w[4];
  }

  lemma BindingSpecShows(x: BindingSpec, y: BindingSpec)
    requires x.View() == y.View()
    ensures x.policyName == y.policyName
    ensures (x.paramRef == null <==> y.paramRef == null) && (x.paramRef != null ==> x.paramRef.v == y.paramRef.v)
    ensures MatchView(x.matchResources) == MatchView(y.matchResources)
    ensures SameElements(x.validationActions, y.validationActions)
  {
    hide MatchView, PointerView, SliceView;
    LeavesShow();
    var v, w := x.View().fields, y.View().fields;
    assert v[0] == w[0] && v[1] == w[1] && v[2] == w[2] && v[3] == w[3];
    PointerShows(x.paramRef, y.paramRef, ViewParamRef);
    SliceShows(x.validationActions, y.validationActions, Text);
  }

  lemma BindingShows(x: Binding, y: Binding)
    requires x.View() == y.View()
    ensures x.kind == y.kind && x.apiVersion == y.apiVersion && x.metadata == y.metadata
    ensures x.spec.View() == y.spec.View()
  {
    hide BindingSpec.View;
    var v, w := x.View().fields, y.View().fields;
    assert v[0] == w[0] && v[1] == w[1] && v[2] == w[2] && v[3] == w[3];
  }

  lemma PolicySliceShows(a: array?<Policy>, b: array?<Policy>)
    requires PolicySliceView(a) == PolicySliceView(b)
    ensures a == null <==> b == null
    ensures a != null ==> a.Length == b.Length && forall i | 0 <= i < a.Length :: a[i].View() == b[i].View()
  {
    hide PolicyViews, Policy.View;
    if a != null {
      forall i | 0 <= i < a.Length && a.Length == b.Length ensures a[i].View() == b[i].View() {
        PolicyViewAt(a[..], i);
        PolicyViewAt(b[..], i);
      }
    }
  }

  lemma PolicyListShows(x: PolicyList, y: PolicyList)
    requires x.View() == y.View()
    ensures x.kind == y.kind && x.apiVersion == y.apiVersion && x.metadata == y.metadata
    ensures PolicySliceView(x.items) == PolicySliceView(y.items)
  {
    hide PolicySliceView;
    var v, w := x.View().fields, y.View().fields;
    assert v[0] == w[0] && v[1] == w[1] && v[2] == w[2] && v[3] == w[3];
  }

  lemma BindingSliceShows(a: array?<Binding>, b: array?<Binding>)
    requires BindingSliceView(a) == BindingSliceView(b)
    ensures a == null <==> b == null
    ensures a != null ==> a.Length == b.Length && forall i | 0 <= i < a.Length :: a[i].View() == b[i].View()
  {
    hide BindingViews, Binding.View;
    if a != null {
      forall i | 0 <= i < a.Length && a.Length == b.Length ensures a[i].View() == b[i].View() {
        BindingViewAt(a[..], i);
        BindingViewAt(b[..], i);
      }
    }
  }

  lemma BindingListShows(x: BindingList, y: BindingList)
    requires x.View() == y.View()
    ensures x.kind == y.kind && x.apiVersion == y.apiVersion && x.metadata == y.metadata
    ensures BindingSliceView(x.items) == BindingSliceView(y.items)
  {
    hide BindingSliceView;
    var v, w := x.View().fields, y.View().fields;
    assert v[0] == w[0] && v[1] == w[1] && v[2] == w[2] && v[3] == w[3];
  }

  // ---------------------------------------------------------------------------------------
  // The cells are all that pointers and slices lead to
  // ---------------------------------------------------------------------------------------

  ghost predicate Within(x: object?, cells: set<object>) {
    x != null ==> x in cells
  }

  lemma RuleParts(v: Validation, r: NamedRuleWithOperations)
    ensures Within(v.reason, v.Cells())
    ensures Within(r.resourceNames, r.Cells()) && Within(r.rule.operations, r.Cells()) && Within(r.rule.apiGroups, r.Cells())
    ensures Within(r.rule.apiVersions, r.Cells()) && Within(r.rule.resources, r.Cells()) && Within(r.rule.scope, r.Cells())
  {
  }

  lemma MatchParts(m: MatchResources)
    ensures Within(m.namespaceSelector, m.Cells()) && Within(m.objectSelector, m.Cells()) && Within(m.matchPolicy, m.Cells())
    ensures RuleSliceCells(m.resourceRules) + RuleSliceCells(m.excludeResourceRules) <= m.Cells()
  {
    hide RuleSliceCells;
  }

  lemma PolicySpecParts(s: PolicySpec)
    ensures Within(s.paramKind, s.Cells()) && Within(s.matchConstraints, s.Cells()) && Within(s.failurePolicy, s.Cells())
    ensures Within(s.auditAnnotations, s.Cells()) && Within(s.matchConditions, s.Cells())
    ensures ValidationSliceCells(s.validations) <= s.Cells()
    ensures s.matchConstraints != null ==> s.matchConstraints.v.Cells() <= s.Cells()
  {
    hide ValidationSliceCells, MatchResources.Cells;
  }

  lemma PolicyStatusParts(t: PolicyStatus)
    ensures Within(t.typeChecking, t.Cells()) && Within(t.conditions, t.Cells())
    ensures t.typeChecking != null ==> Within(t.typeChecking.v.expressionWarnings, t.Cells())
  {
  }

  lemma BindingSpecParts(b: BindingSpec)
    ensures Within(b.paramRef, b.Cells()) && Within(b.matchResources, b.Cells()) && Within(b.validationActions, b.Cells())
    ensures b.matchResources != null ==> b.matchResources.v.Cells() <= b.Cells()
  {
    hide MatchResources.Cells;
  }

  lemma ObjectParts(p: Policy, b: Binding, ps: PolicyList, bs: BindingList)
    ensures p.spec.Cells() <= p.Cells() && p.status.Cells() <= p.Cells() && b.spec.Cells() <= b.Cells()
    ensures PolicySliceCells(ps.items) <= ps.Cells() && BindingSliceCells(bs.items) <= bs.Cells()
  {
    hide PolicySpec.Cells, PolicyStatus.Cells, BindingSpec.Cells, PolicySliceCells, BindingSliceCells;
  }

  lemma ValidationSliceReaches(a: array?<Validation>, i: nat)
    ensures a != null ==> a in ValidationSliceCells(a)
    ensures a != null && i < a.Length ==> a[i].Cells() <= ValidationSliceCells(a)
  {
    if a != null && i < a.Length {
      ValidationReaches(a[..], i);
    }
  }

  lemma {:induction false} ValidationReaches(s: seq<Validation>, i: nat)
    requires i < |s|
    ensures s[i].Cells() <= ValidationCells(s)
    decreases |s|
  {
    hide Validation.Cells;
    if i < |s| - 1 {
      ValidationReaches(s[..|s| - 1], i);
    }
  }

  lemma RuleSliceReaches(a: array?<NamedRuleWithOperations>, i: nat)
    ensures a != null ==> a in RuleSliceCells(a)
    ensures a != null && i < a.Length ==> a[i].Cells() <= RuleSliceCells(a)
  {
    if a != null && i < a.Length {
      RuleReaches(a[..], i);
    }
  }

  lemma {:induction false} RuleReaches(s: seq<NamedRuleWithOperations>, i: nat)
    requires i < |s|
    ensures s[i].Cells() <= RuleCells(s)
    decreases |s|
  {
    hide NamedRuleWithOperations.Cells;
    if i < |s| - 1 {
      RuleReaches(s[..|s| - 1], i);
    }
  }

  lemma PolicySliceReaches(a: array?<Policy>, i: nat)
    ensures a != null ==> a in PolicySliceCells(a)
    ensures a != null && i < a.Length ==> a[i].Cells() <= PolicySliceCells(a)
  {
    if a != null && i < a.Length {
      PolicyReaches(a[..], i);
    }
  }

  lemma {:induction false} PolicyReaches(s: seq<Policy>, i: nat)
    requires i < |s|
    ensures s[i].Cells() <= PolicyCells(s)
    decreases |s|
  {
    hide Policy.Cells;
    if i < |s| - 1 {
      PolicyReaches(s[..|s| - 1], i);
    }
  }

  lemma BindingSliceReaches(a: array?<Binding>, i: nat)
    ensures a != null ==> a in BindingSliceCells(a)
    ensures a != null && i < a.Length ==> a[i].Cells() <= BindingSliceCells(a)
  {
    if a != null && i < a.Length {
      BindingReaches(a[..], i);
    }
  }

  lemma {:induction false} BindingReaches(s: seq<Binding>, i: nat)
    requires i < |s|
    ensures s[i].Cells() <= BindingCells(s)
    decreases |s|
  {
    hide Binding.Cells;
    if i < |s| - 1 {
      BindingReaches(s[..|s| - 1], i);
    }
  }

  // ---------------------------------------------------------------------------------------
  // The structs have the shapes that JSON conversion works on
  // ---------------------------------------------------------------------------------------

  lemma {:induction false} FieldByField(vs: seq<Value>, fields: seq<Field>)
    requires |vs| == |fields|
    requires forall i | 0 <= i < |vs| :: HasType(vs[i], fields[i].ty)
    ensures HaveTypes(vs, fields) && HasType(VStruct(vs), TStruct(fields))
    decreases |vs|
  {
    if vs != [] {
      FieldByField(vs[1..], fields[1..]);
    }
  }

  lemma RuleTyped(x: NamedRuleWithOperations)
    ensures HasType(x.View(), NAMED_RULE)
  {
    var vs := [SliceView(x.resourceNames, Text)] + x.rule.Views();
    assert forall a: array?<string> :: HasType(SliceView(a, Text), STRINGS);
    FieldByField(vs, NAMED_RULE.fields);
  }

  lemma {:induction false} RulesTyped(s: seq<NamedRuleWithOperations>)
    ensures forall v | v in RuleViews(s) :: HasType(v, NAMED_RULE)
  {
    if s != [] {
      RulesTyped(s[..|s| - 1]);
      RuleTyped(s[|s| - 1]);
    }
  }

  lemma {:induction false} ValidationsTyped(s: seq<Validation>)
    ensures forall v | v in ValidationViews(s) :: HasType(v, VALIDATION)
  {
    if s != [] {
      ValidationsTyped(s[..|s| - 1]);
      FieldByField(s[|s| - 1].View().fields, VALIDATION.fields);
    }
  }

  lemma RuleSliceTyped(a: array?<NamedRuleWithOperations>)
    ensures HasType(RuleSliceView(a), TSlice(NAMED_RULE))
  {
    if a != null {
      RulesTyped(a[..]);
    }
  }

  lemma ValidationSliceTyped(a: array?<Validation>)
    ensures HasType(ValidationSliceView(a), TSlice(VALIDATION))
  {
    if a != null {
      ValidationsTyped(a[..]);
    }
  }

  lemma PointerTyped<T>(p: Cell?<T>, view: T -> Value, elem: Type)
    requires forall x: T :: HasType(view(x), elem)
    ensures HasType(PointerView(p, view), TPointer(elem))
  {
  }

  lemma SliceTyped<T>(a: array?<T>, view: T -> Value, elem: Type)
    requires forall x: T :: HasType(view(x), elem)
    ensures HasType(SliceView(a, view), TSlice(elem))
  {
  }

  lemma LeavesTyped()
    ensures forall x :: HasType(ViewParamKind(x), PARAM_KIND)
    ensures forall x :: HasType(ViewAuditAnnotation(x), AUDIT_ANNOTATION)
    ensures forall x :: HasType(ViewMatchCondition(x), MATCH_CONDITION)
    ensures forall x :: HasType(Text(x), TString)
    ensures forall x :: HasType(Unread(x), TOpaque)
  {
  }

  lemma MatchResourcesTyped(m: MatchResources)
    ensures HasType(m.View(), MATCH_RESOURCES)
  {
    hide HasType, HaveTypes, RuleSliceView, PointerView;
    LeavesTyped();
    PointerTyped(m.namespaceSelector, Unread, TOpaque);
    PointerTyped(m.objectSelector, Unread, TOpaque);
    RuleSliceTyped(m.resourceRules);
    RuleSliceTyped(m.excludeResourceRules);
    PointerTyped(m.matchPolicy, Text, TString);
    FieldByField(m.View().fields, MATCH_RESOURCES.fields);
  }

  lemma MatchTyped(p: Cell?<MatchResources>)
    ensures HasType(MatchView(p), TPointer(MATCH_RESOURCES))
  {
    if p != null {
      MatchResourcesTyped(p.v);
    }
  }

  lemma PolicySpecTyped(x: PolicySpec)
    ensures HasType(x.View(), POLICY_SPEC)
  {
    hide HasType, HaveTypes, MatchView, ValidationSliceView, PointerView, SliceView;
    LeavesTyped();
    PointerTyped(x.paramKind, ViewParamKind, PARAM_KIND);
    MatchTyped(x.matchConstraints);
    ValidationSliceTyped(x.validations);
    PointerTyped(x.failurePolicy, Text, TString);
    SliceTyped(x.auditAnnotations, ViewAuditAnnotation, AUDIT_ANNOTATION);
    SliceTyped(x.matchConditions, ViewMatchCondition, MATCH_CONDITION);
    assert POLICY_SPEC.fields[0].ty == TPointer(PARAM_KIND);
    FieldByField(x.View().fields, POLICY_SPEC.fields);
  }

  lemma PolicyStatusTyped(x: PolicyStatus)
    ensures HasType(x.View(), POLICY_STATUS)
  {
    hide SliceView;
    if x.typeChecking != null {
      SliceTyped(x.typeChecking.v.expressionWarnings, ViewExpressionWarning, EXPRESSION_WARNING);
      FieldByField(x.typeChecking.v.View().fields, TYPE_CHECKING.fields);
    }
    SliceTyped(x.conditions, Unread, TOpaque);
    FieldByField(x.View().fields, POLICY_STATUS.fields);
  }

  lemma BindingSpecTyped(x: BindingSpec)
    ensures HasType(x.View(), BINDING_SPEC)
  {
    hide MatchView, PointerView, SliceView;
    PointerTyped(x.paramRef, ViewParamRef, PARAM_REF);
    MatchTyped(x.matchResources);
    SliceTyped(x.validationActions, Text, TString);
    FieldByField(x.View().fields, BINDING_SPEC.fields);
  }

  /** A policy in memory is a value of the type that the converters between resource types take. */
  lemma PolicyTyped(p: Policy)
    ensures HasType(p.View(), POLICY)
  {
    PolicySpecTyped(p.spec);
    PolicyStatusTyped(p.status);
    FieldByField(p.View().fields, POLICY_FIELDS);
  }

  lemma BindingTyped(b: Binding)
    ensures HasType(b.View(), BINDING)
  {
    BindingSpecTyped(b.spec);
    FieldByField(b.View().fields, BINDING_FIELDS);
  }
}
