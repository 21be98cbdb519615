/** `parseComponents` (parse.js:165-183). */
module Components {
  import opened Wrappers
  import opened Seqs
  import opened JsAst
  import opened Records

  /** What one member of the `components` object contributes. */
  function ComponentEntry(m: ObjMember): Result<seq<Value>, Failure>
  {
    match m
    case ExperimentalSpreadProperty(_) => Err(SpreadInComponents)
    case Property(_, Identifier(x)) => Ok([Str(VarRef(x))])
    case Property(_, Literal(v)) => Ok([v])
    case Property(_, _) => Ok([])
  }

  /** What `parseComponents` returns for the value `v`. For a value that is
      not an object literal the guard at parse.js:171 evaluates
      `components` without returning it, and the next line reads
      `.properties` of that value and throws. */
  function ComponentsOf(v: Node): Result<seq<Value>, Failure>
  {
    if v.ObjectExpression? then TryFlatMap(ComponentEntry, v.properties) else Err(ComponentsNotObject)
  }

  /** `parseComponents(item)`, given `item.value`. */
  method ParseComponents(v: Node) returns (r: Result<seq<Value>, Failure>)
    ensures r == ComponentsOf(v)
  {
    var components: seq<Value> := [];
    if !v.ObjectExpression? {
      return Err(ComponentsNotObject);
    }
    var ms := v.properties;
    ghost var spec := TryFlatMap(ComponentEntry, ms);
    assert ms[0..] == ms;
    PrependNil(spec);
    for i := 0 to |ms|
      invariant spec == Prepend(components, TryFlatMap(ComponentEntry, ms[i..]))
    {
      TryFlatMapAt(ComponentEntry, ms, i);
      ghost var before := components;
      var prop := ms[i];
      if prop.ExperimentalSpreadProperty? {
        return Err(SpreadInComponents);
      }
      if prop.value.Identifier? {
        components := components + [Str(VarRef(prop.value.name))];
      }
      if prop.value.Literal? {
        components := components + [prop.value.value];
      }
      assert before + [] == before;
      assert components == before + ComponentEntry(prop).value;
      PrependPrepend(before, ComponentEntry(prop).value, TryFlatMap(ComponentEntry, ms[i + 1..]));
    }
    assert ms[|ms|..] == [];
    PrependDone(components, TryFlatMap(ComponentEntry, ms[|ms|..]));
    return Ok(components);
  }

  predicate IsComponentValue(m: ObjMember)
  {
    m.Property? && (m.value.Identifier? || m.value.Literal?)
  }

  function ComponentName(m: ObjMember): Value
  {
    match m
    case Property(_, Identifier(x)) => Str(VarRef(x))
    case Property(_, Literal(v)) => v
    case _ => Undefined
  }

  /** A non-object value throws; an object throws exactly when it holds a
      spread member, and otherwise gives `x(var)` per identifier value and
      the literal's value per literal value, in member order, skipping the
      rest. */
  lemma ComponentsByShape(v: Node)
    ensures !v.ObjectExpression? ==> ComponentsOf(v) == Err(ComponentsNotObject)
    ensures v.ObjectExpression? ==>
      (ComponentsOf(v).Ok? <==> !HasSpread(v.properties)) &&
      (ComponentsOf(v).Ok? ==>
         ComponentsOf(v).value == Map(ComponentName, Filter(IsComponentValue, v.properties)) &&
         |ComponentsOf(v).value| <= |v.properties|)
  {
    if v.ObjectExpression? {
      TryFlatMapFilterMap(ComponentEntry, IsComponentValue, ComponentName, v.properties);
    }
  }
}
