/** `parseProps` (parse.js:7-131): the `props` option, written either as an
    array of names or as an object of per-prop declarations. */
module Props {
  import opened Wrappers
  import opened Seqs
  import opened JsAst
  import opened Records

  // The four sub-field rules of a prop declaration (parse.js:66-123). Each
  // receives the value of the last sub-property with that key, if any.

  /** `type`: a function gives its signature, an identifier its bare name. */
  function TypeText(gen: Generator, v: Option<Node>): Option<string>
  {
    match v
    case Some(FunctionExpression(ps, _)) => Some(Signature(gen, ps))
    case Some(Identifier(x)) => Some(x)
    case _ => None
  }

  /** `required`: an identifier gives `x(var)`, a literal its value. */
  function RequiredValue(v: Option<Node>): Option<Value>
  {
    match v
    case Some(Identifier(x)) => Some(Str(VarRef(x)))
    case Some(Literal(lit)) => Some(lit)
    case _ => None
  }

  /** `default`: a function gives its signature, an identifier `x(var)`, a
      literal its value. */
  function DefaultValue(gen: Generator, v: Option<Node>): Option<Value>
  {
    match v
    case Some(FunctionExpression(ps, _)) => Some(Str(Signature(gen, ps)))
    case Some(Identifier(x)) => Some(Str(VarRef(x)))
    case Some(Literal(lit)) => Some(lit)
    case _ => None
  }

  /** `validator`: a function gives its signature, an identifier `x(var)`. */
  function ValidatorText(gen: Generator, v: Option<Node>): Option<string>
  {
    match v
    case Some(FunctionExpression(ps, _)) => Some(Signature(gen, ps))
    case Some(Identifier(x)) => Some(VarRef(x))
    case _ => None
  }

  /** The record for `name: { ... }` whose sub-properties are `ds`. */
  function DescribedProp(gen: Generator, name: Value, ds: seq<ObjMember>): Prop
  {
    Prop(name,
      TypeText(gen, LastValue(ds, "type")),
      RequiredValue(LastValue(ds, "required")),
      DefaultValue(gen, LastValue(ds, "default")),
      ValidatorText(gen, LastValue(ds, "validator")))
  }

  /** What one element of an array-form `props` contributes. */
  function ArrayEntry(e: Option<Node>): Result<seq<Prop>, Failure>
  {
    match e
    case None => Err(HoleInPropsArray)
    case Some(Literal(v)) => Ok([NameOnly(v)])
    case Some(Identifier(x)) => Ok([NameOnly(Str(VarRef(x)))])
    case Some(_) => Ok([])
  }

  /** What one member of an object-form `props` contributes. */
  function ObjectEntry(gen: Generator, m: ObjMember): Result<seq<Prop>, Failure>
  {
    match m
    case ExperimentalSpreadProperty(_) => Err(SpreadInProps)
    case Property(k, Identifier(x)) => Ok([Prop(NameOf(k), Some(x), None, None, None)])
    case Property(k, ObjectExpression(ds)) =>
      if HasSpread(ds) then Err(SpreadInPropDescriptor) else Ok([DescribedProp(gen, NameOf(k), ds)])
    case Property(_, _) => Ok([])
  }

  function ObjectEntryOf(gen: Generator): ObjMember -> Result<seq<Prop>, Failure>
  {
    m => ObjectEntry(gen, m)
  }

  /** The result of `parseProps` on a `props` value `v`. */
  function PropsOf(gen: Generator, v: Node): Result<seq<Prop>, Failure>
  {
    match v
    case ArrayExpression(es) => TryFlatMap(ArrayEntry, es)
    case ObjectExpression(ms) => TryFlatMap(ObjectEntryOf(gen), ms)
    case _ => Ok([])
  }

  /** The inner loop of parse.js:46-123 over the sub-properties `ds` of one
      prop declaration, then the four sub-field rules. */
  method ParsePropDescriptor(gen: Generator, name: Value, ds: seq<ObjMember>) returns (r: Result<Prop, Failure>)
    ensures r == if HasSpread(ds) then Err(SpreadInPropDescriptor) else Ok(DescribedProp(gen, name, ds))
  {
    var typ: Option<Node> := None;
    var required: Option<Node> := None;
    var def: Option<Node> := None;
    var validator: Option<Node> := None;
    for i := 0 to |ds|
      invariant typ == LastValue(ds[..i], "type")
      invariant required == LastValue(ds[..i], "required")
      invariant def == LastValue(ds[..i], "default")
      invariant validator == LastValue(ds[..i], "validator")
      invariant forall j :: 0 <= j < i ==> ds[j].Property?
    {
      var item := ds[i];
      if item.ExperimentalSpreadProperty? {
        return Err(SpreadInPropDescriptor);
      }
      assert ds[..i + 1] == ds[..i] + [item];
      LastValueSnoc(ds[..i], item, "type");
      LastValueSnoc(ds[..i], item, "required");
      LastValueSnoc(ds[..i], item, "default");
      LastValueSnoc(ds[..i], item, "validator");
      if NameOf(item.key) == Str("type") {
        typ := Some(item.value);
      }
      if NameOf(item.key) == Str("required") {
        required := Some(item.value);
      }
      if NameOf(item.key) == Str("default") {
        def := Some(item.value);
      }
      if NameOf(item.key) == Str("validator") {
        validator := Some(item.value);
      }
    }
    assert ds[..|ds|] == ds;
    var obj := NameOnly(name);
    if typ.Some? {
      if typ.value.FunctionExpression? {
        obj := obj.(typeName := Some(Signature(gen, typ.value.params)));
      }
      if typ.value.Identifier? {
        obj := obj.(typeName := Some(typ.value.name));
      }
    }
    if required.Some? {
      if required.value.Identifier? {
        obj := obj.(required := Some(Str(VarRef(required.value.name))));
      }
      if required.value.Literal? {
        obj := obj.(required := Some(required.value.value));
      }
    }
    if def.Some? {
      if def.value.FunctionExpression? {
        obj := obj.(default := Some(Str(Signature(gen, def.value.params))));
      }
      if def.value.Identifier? {
        obj := obj.(default := Some(Str(VarRef(def.value.name))));
      }
      if def.value.Literal? {
        obj := obj.(default := Some(def.value.value));
      }
    }
    if validator.Some? {
      if validator.value.FunctionExpression? {
        obj := obj.(validator := Some(Signature(gen, validator.value.params)));
      }
      if validator.value.Identifier? {
        obj := obj.(validator := Some(VarRef(validator.value.name)));
      }
    }
    return Ok(obj);
  }

  /** `parseProps(item)`, given `item.value`. */
  method ParseProps(gen: Generator, v: Node) returns (r: Result<seq<Prop>, Failure>)
    ensures r == PropsOf(gen, v)
  {
    var props: seq<Prop> := [];
    if v.ArrayExpression? {
      var es := v.elements;
      ghost var spec := TryFlatMap(ArrayEntry, es);
      assert es[0..] == es;
      PrependNil(spec);
      for i := 0 to |es|
        invariant spec == Prepend(props, TryFlatMap(ArrayEntry, es[i..]))
      {
        TryFlatMapAt(ArrayEntry, es, i);
        ghost var before := props;
        var elem := es[i];
        if elem.None? {
          return Err(HoleInPropsArray);
        }
        if elem.value.Literal? {
          props := props + [NameOnly(elem.value.value)];
        }
        if elem.value.Identifier? {
          props := props + [NameOnly(Str(VarRef(elem.value.name)))];
        }
        assert before + [] == before;
        assert props == before + ArrayEntry(elem).value;
        PrependPrepend(before, ArrayEntry(elem).value, TryFlatMap(ArrayEntry, es[i + 1..]));
      }
      assert es[|es|..] == [];
      PrependDone(props, TryFlatMap(ArrayEntry, es[|es|..]));
    }
    if v.ObjectExpression? {
      var ms := v.properties;
      ghost var spec := TryFlatMap(ObjectEntryOf(gen), ms);
      assert ms[0..] == ms;
      PrependNil(spec);
      for i := 0 to |ms|
        invariant spec == Prepend(props, TryFlatMap(ObjectEntryOf(gen), ms[i..]))
      {
        TryFlatMapAt(ObjectEntryOf(gen), ms, i);
        ghost var before := props;
        var prop := ms[i];
        if prop.ExperimentalSpreadProperty? {
          return Err(SpreadInProps);
        }
        if prop.value.Identifier? {
          props := props + [Prop(NameOf(prop.key), Some(prop.value.name), None, None, None)];
        }
        if prop.value.ObjectExpression? {
          var obj := ParsePropDescriptor(gen, NameOf(prop.key), prop.value.properties);
          if obj.Err? {
            return Err(obj.error);
          }
          props := props + [obj.value];
        }
        assert before + [] == before;
        assert props == before + ObjectEntry(gen, prop).value;
        PrependPrepend(before, ObjectEntry(gen, prop).value, TryFlatMap(ObjectEntryOf(gen), ms[i + 1..]));
      }
      assert ms[|ms|..] == [];
      PrependDone(props, TryFlatMap(ObjectEntryOf(gen), ms[|ms|..]));
    }
    return Ok(props);
  }

  // A reference description of each form: select the elements that give a
  // record, then build one record from each.

  predicate IsNamedElement(e: Option<Node>)
  {
    e.Some? && (e.value.Literal? || e.value.Identifier?)
  }

  /** The record of a literal or identifier element. */
  function ElementProp(e: Option<Node>): Prop
  {
    match e
    case Some(Literal(v)) => NameOnly(v)
    case Some(Identifier(x)) => NameOnly(Str(VarRef(x)))
    case _ => NameOnly(Undefined)
  }

  predicate IsDeclaredProp(m: ObjMember)
  {
    m.Property? && (m.value.Identifier? || m.value.ObjectExpression?)
  }

  /** A member parse.js can read without throwing. */
  predicate IsReadableProp(m: ObjMember)
  {
    m.Property? && (m.value.ObjectExpression? ==> !HasSpread(m.value.properties))
  }

  /** The record of a declared prop: `{name, type: id}` for an identifier,
      the described record for a declaration object. */
  function DeclaredProp(gen: Generator, m: ObjMember): Prop
  {
    match m
    case Property(k, Identifier(x)) => Prop(NameOf(k), Some(x), None, None, None)
    case Property(k, ObjectExpression(ds)) => DescribedProp(gen, NameOf(k), ds)
    case _ => NameOnly(Undefined)
  }

  function DeclaredPropOf(gen: Generator): ObjMember -> Prop
  {
    m => DeclaredProp(gen, m)
  }

  /** Array form: parse.js throws on a hole; otherwise one name-only record
      per literal or identifier element, in order. Object form: it throws on
      a spread member and on a declaration object holding a spread;
      otherwise one record per member whose value is an identifier or an
      object, in order, never more records than members. Any other value
      gives no records. */
  lemma PropsByShape(gen: Generator, v: Node)
    ensures v.ArrayExpression? ==>
      (PropsOf(gen, v).Ok? <==> None !in v.elements) &&
      (PropsOf(gen, v).Ok? ==>
         PropsOf(gen, v).value == Map(ElementProp, Filter(IsNamedElement, v.elements)))
    ensures v.ObjectExpression? ==>
      (PropsOf(gen, v).Ok? <==> forall i :: 0 <= i < |v.properties| ==> IsReadableProp(v.properties[i])) &&
      (PropsOf(gen, v).Ok? ==>
         PropsOf(gen, v).value == Map(DeclaredPropOf(gen), Filter(IsDeclaredProp, v.properties)) &&
         |PropsOf(gen, v).value| <= |v.properties|)
    ensures !v.ArrayExpression? && !v.ObjectExpression? ==> PropsOf(gen, v) == Ok([])
  {
    match v
    case ArrayExpression(es) =>
      TryFlatMapFilterMap(ArrayEntry, IsNamedElement, ElementProp, es);
      if None in es {
        var i :| 0 <= i < |es| && es[i] == None;
      }
    case ObjectExpression(ms) =>
      TryFlatMapFilterMap(ObjectEntryOf(gen), IsDeclaredProp, DeclaredPropOf(gen), ms);
    case _ =>
  }

  /** The failure an unreadable member of the object form raises. */
  function PropsError(m: ObjMember): Failure
  {
    if m.ExperimentalSpreadProperty? then SpreadInProps else SpreadInPropDescriptor
  }

  /** A failing array-form `props` fails on a hole, and it fails whenever
      the array has one. */
  lemma {:induction false} ArrayPropsError(gen: Generator, es: seq<Option<Node>>, e: Failure)
    ensures PropsOf(gen, ArrayExpression(es)) == Err(e) <==> None in es && e == HoleInPropsArray
  {
    if es != [] {
      ArrayPropsError(gen, es[1..], e);
      assert es == [es[0]] + es[1..];
      if ArrayEntry(es[0]).Ok? {
        var r := TryFlatMap(ArrayEntry, es[1..]);
        assert TryFlatMap(ArrayEntry, es) == Prepend(ArrayEntry(es[0]).value, r);
      }
    }
  }

  /** A failing object-form `props` reports its first unreadable member,
      with the failure of that member's kind. */
  lemma ObjectPropsFirstError(gen: Generator, ms: seq<ObjMember>, e: Failure)
    ensures PropsOf(gen, ObjectExpression(ms)) == Err(e) <==>
      exists i :: 0 <= i < |ms| && !IsReadableProp(ms[i]) && e == PropsError(ms[i]) &&
        forall j :: 0 <= j < i ==> IsReadableProp(ms[j])
  {
    TryFlatMapFirstError(ObjectEntryOf(gen), ms, e);
    assert forall m :: ObjectEntryOf(gen)(m).Ok? <==> IsReadableProp(m);
    assert forall m :: ObjectEntryOf(gen)(m) == Err(e) <==> !IsReadableProp(m) && e == PropsError(m);
  }

  /** Every record of an array-form `props` carries a name only. */
  lemma ArrayPropsAreNamesOnly(gen: Generator, es: seq<Option<Node>>)
    ensures PropsOf(gen, ArrayExpression(es)).Ok? ==>
      forall p :: p in PropsOf(gen, ArrayExpression(es)).value ==>
        p.typeName.None? && p.required.None? && p.default.None? && p.validator.None?
  {
    PropsByShape(gen, ArrayExpression(es));
    if PropsOf(gen, ArrayExpression(es)).Ok? {
      var named := Filter(IsNamedElement, es);
      forall p | p in PropsOf(gen, ArrayExpression(es)).value
        ensures p.typeName.None? && p.required.None? && p.default.None? && p.validator.None?
      {
        var j :| 0 <= j < |named| && Map(ElementProp, named)[j] == p;
        MapAt(ElementProp, named, j);
      }
    }
  }
}
