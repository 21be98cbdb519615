/** `parseMethods` (parse.js:133-163), which extracts both `methods` and
    `computed`. */
module Methods {
  import opened Seqs
  import opened JsAst
  import opened Records

  /** A member that gives a record: a property whose value is a function
      expression or an identifier. A spread has no value and never does. */
  predicate IsMemberValue(m: ObjMember)
  {
    m.Property? && (m.value.FunctionExpression? || m.value.Identifier?)
  }

  /** `{name, code}` for such a member. */
  function MemberRecord(gen: Generator, m: ObjMember): Member
  {
    match m
    case Property(k, FunctionExpression(ps, _)) => Member(NameOf(k), Signature(gen, ps))
    case Property(k, Identifier(x)) => Member(NameOf(k), VarRef(x))
    case _ => Member(Undefined, "")
  }

  function MemberRecordOf(gen: Generator): ObjMember -> Member
  {
    m => MemberRecord(gen, m)
  }

  /** What `parseMethods` returns for the value `v`: nothing unless `v` is
      an object literal, else one record per member that gives one, in
      member order. */
  function MethodsOf(gen: Generator, v: Node): seq<Member>
  {
    if v.ObjectExpression? then Map(MemberRecordOf(gen), Filter(IsMemberValue, v.properties)) else []
  }

  /** `parseMethods(item)`, given `item.value`. */
  method ParseMethods(gen: Generator, v: Node) returns (r: seq<Member>)
    ensures r == MethodsOf(gen, v)
    ensures |r| <= if v.ObjectExpression? then |v.properties| else 0
  {
    var methods: seq<Member> := [];
    if !v.ObjectExpression? {
      return methods;
    }
    var ms := v.properties;
    assert ms[0..] == ms;
    for i := 0 to |ms|
      invariant MethodsOf(gen, v) == methods + Map(MemberRecordOf(gen), Filter(IsMemberValue, ms[i..]))
    {
      FilterMapAt(MemberRecordOf(gen), IsMemberValue, ms, i);
      var prop := ms[i];
      if prop.Property? {
        if prop.value.FunctionExpression? {
          methods := methods + [Member(NameOf(prop.key), Signature(gen, prop.value.params))];
        }
        if prop.value.Identifier? {
          methods := methods + [Member(NameOf(prop.key), VarRef(prop.value.name))];
        }
      }
    }
    assert ms[|ms|..] == [];
    return methods;
  }

  /** Records come out in member order: the members of `a` then of `b`. */
  lemma MethodsInOrder(gen: Generator, a: seq<ObjMember>, b: seq<ObjMember>)
    ensures MethodsOf(gen, ObjectExpression(a + b)) ==
            MethodsOf(gen, ObjectExpression(a)) + MethodsOf(gen, ObjectExpression(b))
  {
    FilterAppend(IsMemberValue, a, b);
    MapAppend(MemberRecordOf(gen), Filter(IsMemberValue, a), Filter(IsMemberValue, b));
  }

  /** What one member contributes: a function gives its signature, an
      identifier `x(var)`; a spread or any other value (an arrow function, a
      literal, ...) gives nothing. */
  lemma MethodsOfOneMember(gen: Generator, m: ObjMember)
    ensures MethodsOf(gen, ObjectExpression([m])) ==
      match m
      case Property(k, FunctionExpression(ps, _)) => [Member(NameOf(k), Signature(gen, ps))]
      case Property(k, Identifier(x)) => [Member(NameOf(k), x + "(var)")]
      case _ => []
  {
    assert [m][1..] == [];
  }

  /** Every record comes from a function- or identifier-valued member. */
  lemma MethodsComeFromMembers(gen: Generator, ms: seq<ObjMember>)
    ensures forall r :: r in MethodsOf(gen, ObjectExpression(ms)) ==>
      exists m :: m in ms && IsMemberValue(m) && r == MemberRecord(gen, m)
  {
    var kept := Filter(IsMemberValue, ms);
    forall r | r in MethodsOf(gen, ObjectExpression(ms))
      ensures exists m :: m in ms && IsMemberValue(m) && r == MemberRecord(gen, m)
    {
      var j :| 0 <= j < |kept| && Map(MemberRecordOf(gen), kept)[j] == r;
      MapAt(MemberRecordOf(gen), kept, j);
      FilterKeeps(IsMemberValue, ms, kept[j]);
    }
  }
}
