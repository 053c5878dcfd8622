/** What a generated deep copy makes of a value: the value itself, or, if a struct is copied onto itself,
    blanks, because what is read through `in` has just been overwritten through `out`. */
module Blanks {
  import opened Json

  /** Nil and lengths stay; what pointers and slices lead to is zero. */
  ghost function Blanked(ty: Type, v: Value): Value
    decreases ty
  {
    match ty
    case TPointer(elem) => if v.VPointer? then VPointer(Zero(elem)) else v
    case TSlice(elem) => if v.VSlice? then VSlice(seq(|v.items|, i => Zero(elem))) else v
    case TStruct(fields) => if v.VStruct? then VStruct(BlankedFields(fields, v.fields)) else v
    case _ => v
  }

  ghost function BlankedFields(fields: seq<Field>, vs: seq<Value>): seq<Value>
    decreases fields
  {
    seq(|vs|, i requires 0 <= i < |vs| => if i < |fields| then Blanked(fields[i].ty, vs[i]) else vs[i])
  }

  ghost function Copied(onItself: bool, ty: Type, v: Value): Value {
    if onItself then Blanked(ty, v) else v
  }

  ghost function CopiedFields(onItself: bool, fields: seq<Field>, vs: seq<Value>): seq<Value> {
    if onItself then BlankedFields(fields, vs) else vs
  }

  ghost function CopiedItems(onItself: bool, elem: Type, vs: seq<Value>): seq<Value> {
    if onItself then seq(|vs|, i => Zero(elem)) else vs
  }

  lemma CopiedByField(onItself: bool, fields: seq<Field>, vs: seq<Value>, ws: seq<Value>)
    requires |vs| == |ws| == |fields|
    requires forall i | 0 <= i < |vs| :: ws[i] == Copied(onItself, fields[i].ty, vs[i])
    ensures ws == CopiedFields(onItself, fields, vs)
    ensures VStruct(ws) == Copied(onItself, TStruct(fields), VStruct(vs))
  {
  }

  lemma CopiedPrepended(onItself: bool, fields: seq<Field>, v: Value, vs: seq<Value>, ws: seq<Value>)
    requires |vs| + 1 == |ws| == |fields|
    requires ws[0] == Copied(onItself, fields[0].ty, v) && ws[1..] == CopiedFields(onItself, fields[1..], vs)
    ensures VStruct(ws) == Copied(onItself, TStruct(fields), VStruct([v] + vs))
  {
    var all := [v] + vs;
    forall i | 0 <= i < |ws| ensures ws[i] == Copied(onItself, fields[i].ty, all[i]) {
      if i > 0 {
        assert ws[i] == ws[1..][i - 1] && fields[i] == fields[1..][i - 1] && all[i] == vs[i - 1];
      }
    }
    CopiedByField(onItself, fields, all, ws);
  }

  lemma CopiedItemsAre(onItself: bool, elem: Type, vs: seq<Value>)
    ensures |CopiedItems(onItself, elem, vs)| == |vs|
    ensures forall i | 0 <= i < |vs| :: CopiedItems(onItself, elem, vs)[i] == if onItself then Zero(elem) else vs[i]
  {
  }

  lemma CopiedSlice(onItself: bool, elem: Type, vs: seq<Value>)
    ensures Copied(onItself, TSlice(elem), VSlice(vs)) == VSlice(CopiedItems(onItself, elem, vs))
    ensures Copied(onItself, TSlice(elem), VNil) == VNil
  {
  }

  lemma CopiedPointer(onItself: bool, elem: Type, v: Value)
    ensures Copied(onItself, TPointer(elem), VPointer(v)) == VPointer(if onItself then Zero(elem) else v)
    ensures Copied(onItself, TPointer(elem), VNil) == VNil
  {
  }

  lemma CopiedAtoms(onItself: bool)
    ensures forall v :: Copied(onItself, TString, v) == v
    ensures forall v :: Copied(onItself, TInt, v) == v
    ensures forall v :: Copied(onItself, TOpaque, v) == v
  {
  }

  lemma OpaqueIsKept(v: Value)
    ensures Blanked(TOpaque, v) == v
  {
  }

  lemma {:induction false} ZeroAt(fields: seq<Field>, i: nat)
    requires i < |fields|
    ensures |Zeros(fields)| == |fields| && Zeros(fields)[i] == Zero(fields[i].ty)
    decreases |fields|
  {
    if i > 0 {
      ZeroAt(fields[1..], i - 1);
    } else if |fields| > 1 {
      ZeroAt(fields[1..], 0);
    }
  }

  lemma ZeroByField(fields: seq<Field>, vs: seq<Value>)
    requires |vs| == |fields| && forall i | 0 <= i < |fields| :: vs[i] == Zero(fields[i].ty)
    ensures VStruct(vs) == Zero(TStruct(fields))
  {
    var zeros := Zeros(fields);
    if fields == [] {
      assert zeros == vs;
    } else {
      forall i: nat | i < |fields| ensures |zeros| == |fields| && zeros[i] == vs[i] {
        ZeroAt(fields, i);
      }
      ZeroAt(fields, 0);
      assert zeros == vs;
    }
  }

  /** Copying zero onto itself leaves it zero. */
  lemma {:induction false} ZeroStaysZero(ty: Type)
    ensures Blanked(ty, Zero(ty)) == Zero(ty)
    decreases ty
  {
    if ty.TStruct? {
      var fields := ty.fields;
      var zeros := Zeros(fields);
      forall i: nat | i < |fields| ensures |zeros| == |fields| && Blanked(fields[i].ty, zeros[i]) == zeros[i] {
        ZeroAt(fields, i);
        ZeroStaysZero(fields[i].ty);
      }
      assert BlankedFields(fields, zeros) == zeros;
    }
  }

  /** Every pointer leads to zero, and every element of a slice is zero. */
  ghost predicate IsBlank(ty: Type, v: Value)
    decreases ty
  {
    match ty
    case TPointer(elem) => v.VPointer? ==> v.target == Zero(elem)
    case TSlice(elem) => v.VSlice? ==> forall i | 0 <= i < |v.items| :: v.items[i] == Zero(elem)
    case TStruct(fields) => v.VStruct? ==>
      forall i | 0 <= i < |fields| && i < |v.fields| :: IsBlank(fields[i].ty, v.fields[i])
    case _ => true
  }

  lemma BlankedAt(fields: seq<Field>, vs: seq<Value>, i: nat)
    requires i < |vs| == |fields|
    ensures Blanked(TStruct(fields), VStruct(vs)) == VStruct(BlankedFields(fields, vs))
    ensures |BlankedFields(fields, vs)| == |vs| && BlankedFields(fields, vs)[i] == Blanked(fields[i].ty, vs[i])
    ensures IsBlank(TStruct(fields), VStruct(vs)) ==> IsBlank(fields[i].ty, vs[i])
  {
  }

  /** Copying onto itself keeps exactly the values that are blank to begin with. */
  lemma {:induction false} BlankedExactly(ty: Type, v: Value)
    ensures Blanked(ty, v) == v <==> IsBlank(ty, v)
    decreases ty
  {
    match ty
    case TStruct(fields) =>
      if v.VStruct? {
        var ws := BlankedFields(fields, v.fields);
        forall i | 0 <= i < |fields| && i < |v.fields| ensures ws[i] == v.fields[i] <==> IsBlank(fields[i].ty, v.fields[i]) {
          BlankedExactly(fields[i].ty, v.fields[i]);
        }
        if IsBlank(ty, v) {
          assert ws == v.fields;
        }
      }
    case TSlice(elem) =>
      if v.VSlice? {
        var ws := seq(|v.items|, i => Zero(elem));
        if IsBlank(ty, v) {
          assert ws == v.items;
        }
        assert forall i | 0 <= i < |v.items| :: ws[i] == Zero(elem);
      }
    case _ =>
  }
}
